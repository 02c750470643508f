/** Page requests: a zero-based page number and a page size, as the services
    build them from the `from`/`size` query parameters. */
module Paging {
  import opened Common
  import opened Sorting

  /** Page number `page` of pages holding `size` elements each. */
  datatype PageRequest = PageRequest(page: nat, size: nat) {
    /** Index of the first element of the page in the full result. */
    function Offset(): nat {
      page * size
    }
  }

  /** The page that holds element `from`: page number `from / size`. The page
      starts at `from` rounded down to a multiple of `size`, so a `from` that
      is not a multiple of `size` does not start the page at `from`. */
  function PageOf(from: int, size: int): (p: PageRequest)
    requires from >= 0 && size > 0
    ensures p.size == size
    ensures p.Offset() <= from < p.Offset() + size
  {
    var p := PageRequest(from / size, size);
    p
  }

  /** The check of the `from`/`size` parameters: a negative `from` or a
      non-positive `size` is refused with `refusal`, the error kind the
      calling layer uses for it. */
  function ValidatePagination(from: int, size: int, refusal: ErrorKind): (r: Option<ErrorKind>)
    ensures r.None? <==> from >= 0 && size > 0
    ensures r.Some? ==> r.value == refusal
  {
    if from < 0 then Some(refusal)
    else if size <= 0 then Some(refusal)
    else None
  }

  /** The elements of `s` on page `p`: those at positions Offset() up to,
      but excluding, Offset() + size, as far as `s` reaches. */
  function Slice<T>(s: seq<T>, p: PageRequest): (r: seq<T>)
    ensures |r| <= p.size
    ensures |r| == if p.Offset() >= |s| then 0 else Min(p.size, |s| - p.Offset())
    ensures forall i :: 0 <= i < |r| ==> r[i] == s[p.Offset() + i]
  {
    if p.Offset() >= |s| then []
    else s[p.Offset()..p.Offset() + Min(p.size, |s| - p.Offset())]
  }

  /** A page of a sequence holds only elements of it, and a page of an
      ordered sequence is ordered. */
  lemma SliceOfOrdered<T>(s: seq<T>, p: PageRequest, key: T -> int)
    requires DescendingBy(s, key)
    ensures forall x :: x in Slice(s, p) ==> x in s
    ensures DescendingBy(Slice(s, p), key)
  {
    var r := Slice(s, p);
    forall i, j | 0 <= i < j < |r|
      ensures key(r[i]) >= key(r[j])
    {
      assert r[i] == s[p.Offset() + i] && r[j] == s[p.Offset() + j];
    }
    forall x | x in r
      ensures x in s
    {
      var k :| 0 <= k < |r| && r[k] == x;
      assert x == s[p.Offset() + k];
    }
  }
}
