/** Ordering of query results. Every ordered query of the stores sorts by one
    integer key, largest first ("ORDER BY ... DESC"); an ascending order is a
    descending order on the negated key. */
module Sorting {

  /** `s` is ordered by `key`, largest first. */
  predicate DescendingBy<T>(s: seq<T>, key: T -> int) {
    forall i, j :: 0 <= i < j < |s| ==> key(s[i]) >= key(s[j])
  }

  /** Inserts `x` into an ordered sequence before the first element whose
      key is not larger than its own. */
  function InsertDesc<T>(x: T, s: seq<T>, key: T -> int): (r: seq<T>)
    requires DescendingBy(s, key)
    ensures |r| == |s| + 1
    ensures multiset(r) == multiset(s) + multiset{x}
    ensures DescendingBy(r, key)
  {
    if |s| == 0 then [x]
    else if key(x) >= key(s[0]) then [x] + s
    else
      var rest := InsertDesc(x, s[1..], key);
      assert s == [s[0]] + s[1..];
      TailBelowHead(x, s, key, rest);
      ConsDescending(s[0], rest, key);
      [s[0]] + rest
  }

  /** Every element of `rest`, a rearrangement of the tail of `s` plus an
      element `x` with a smaller key than the head, is keyed no higher than
      the head of `s`. */
  lemma TailBelowHead<T>(x: T, s: seq<T>, key: T -> int, rest: seq<T>)
    requires DescendingBy(s, key)
    requires |s| > 0 && key(x) < key(s[0])
    requires multiset(rest) == multiset(s[1..]) + multiset{x}
    ensures forall i :: 0 <= i < |rest| ==> key(rest[i]) <= key(s[0])
  {
    forall i | 0 <= i < |rest|
      ensures key(rest[i]) <= key(s[0])
    {
      assert rest[i] in multiset(rest);
      if rest[i] != x {
        assert rest[i] in multiset(s[1..]);
        var k :| 0 <= k < |s[1..]| && s[1..][k] == rest[i];
        assert s[k + 1] == rest[i];
      }
    }
  }

  /** Prepending an element keyed no lower than every element keeps a
      sequence descending. */
  lemma ConsDescending<T>(h: T, t: seq<T>, key: T -> int)
    requires DescendingBy(t, key)
    requires forall i :: 0 <= i < |t| ==> key(t[i]) <= key(h)
    ensures DescendingBy([h] + t, key)
  {
    var r := [h] + t;
    forall i, j | 0 <= i < j < |r|
      ensures key(r[i]) >= key(r[j])
    {
      assert r[j] == t[j - 1];
      if i > 0 {
        assert r[i] == t[i - 1];
      }
    }
  }

  /** `s` rearranged so that keys descend; elements with equal keys keep
      their relative order. */
  function SortDesc<T>(s: seq<T>, key: T -> int): (r: seq<T>)
    ensures |r| == |s|
    ensures multiset(r) == multiset(s)
    ensures DescendingBy(r, key)
  {
    if |s| == 0 then []
    else
      assert s == [s[0]] + s[1..];
      InsertDesc(s[0], SortDesc(s[1..], key), key)
  }

  /** The first element of a descending sequence has the largest key of all
      its elements. */
  lemma {:induction false} HeadIsLargest<T>(s: seq<T>, key: T -> int, x: T)
    requires DescendingBy(s, key)
    requires x in s
    ensures key(s[0]) >= key(x)
  {
    var k :| 0 <= k < |s| && s[k] == x;
    if k > 0 {
      assert key(s[0]) >= key(s[k]);
    }
  }

  /** Sequences with equal multisets hold the same elements. */
  lemma SameMultisetSameElements<T>(a: seq<T>, b: seq<T>)
    requires multiset(a) == multiset(b)
    ensures forall x :: x in a <==> x in b
  {
    forall x
      ensures x in a <==> x in b
    {
      assert x in a <==> x in multiset(a);
      assert x in b <==> x in multiset(b);
    }
  }
}
