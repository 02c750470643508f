/** Error kinds, the Option/Result wrappers the services return, and the
    small sequence helpers (filtering, fresh identifiers) every store uses. */
module Common {

  /** One constructor per exception class the services throw. */
  datatype ErrorKind =
    | NotFound         // NotFoundException: a referenced user, item, booking or request does not exist
    | Forbidden        // ForbiddenException: the caller lacks the required relationship
    | BadRequest       // BadRequestException: malformed or inadmissible input
    | Conflict         // ConflictException: a unique e-mail would be duplicated
    | IllegalArgument  // IllegalArgumentException: pagination rejected by the request service and the gateway

  /** A value that may be absent; stands for a nullable reference. */
  datatype Option<+T> = None | Some(value: T)

  /** Either the value an operation returns or the error kind it raises. */
  datatype Result<+T> = Ok(value: T) | Err(error: ErrorKind)

  function Min(a: int, b: int): int {
    if a <= b then a else b
  }

  /** The elements of `s` that satisfy `p`, in their original order. */
  function Filter<T(!new)>(s: seq<T>, p: T -> bool): (r: seq<T>)
    ensures |r| <= |s|
    ensures forall i :: 0 <= i < |r| ==> p(r[i])
    ensures forall x :: x in r <==> x in s && p(x)
    ensures forall x :: multiset(r)[x] == if p(x) then multiset(s)[x] else 0
  {
    if |s| == 0 then []
    else
      var rest := Filter(s[1..], p);
      assert s == [s[0]] + s[1..];
      assert multiset(s) == multiset{s[0]} + multiset(s[1..]);
      if p(s[0]) then [s[0]] + rest else rest
  }

  /** No two elements of `s` share a key. */
  predicate DistinctBy<T, K(==)>(s: seq<T>, key: T -> K) {
    forall i, j :: 0 <= i < j < |s| ==> key(s[i]) != key(s[j])
  }

  /** Putting `x` in front of `t` keeps keys distinct when its key is new. */
  lemma {:induction false} ConsKeepsDistinct<T, K>(x: T, t: seq<T>, key: T -> K)
    requires DistinctBy(t, key)
    requires forall y :: y in t ==> key(y) != key(x)
    ensures DistinctBy([x] + t, key)
  {
    var r := [x] + t;
    forall i, j | 0 <= i < j < |r|
      ensures key(r[i]) != key(r[j])
    {
      assert r[j] == t[j - 1];
      if i == 0 {
        assert t[j - 1] in t;
      } else {
        assert r[i] == t[i - 1];
      }
    }
  }

  /** Filtering keeps a key distinct: if no two elements of `s` share a key,
      no two kept elements do. */
  lemma {:induction false} FilterKeepsDistinct<T(!new), K>(s: seq<T>, p: T -> bool, key: T -> K)
    requires DistinctBy(s, key)
    ensures DistinctBy(Filter(s, p), key)
    decreases |s|
  {
    if |s| > 0 {
      var tail := s[1..];
      assert DistinctBy(tail, key) by {
        forall i, j | 0 <= i < j < |tail|
          ensures key(tail[i]) != key(tail[j])
        {
          assert tail[i] == s[i + 1] && tail[j] == s[j + 1];
        }
      }
      var rest := Filter(tail, p);
      FilterKeepsDistinct(tail, p, key);
      if p(s[0]) {
        forall y | y in rest
          ensures key(y) != key(s[0])
        {
          var k :| 0 <= k < |tail| && tail[k] == y;
          assert s[k + 1] == y;
        }
        ConsKeepsDistinct(s[0], rest, key);
      }
    }
  }

  /** Filtering by `p` and then by a stricter `q` is filtering by `q`. */
  lemma {:induction false} FilterOfFilter<T(!new)>(s: seq<T>, p: T -> bool, q: T -> bool)
    requires forall x :: q(x) ==> p(x)
    ensures Filter(Filter(s, p), q) == Filter(s, q)
    decreases |s|
  {
    if |s| > 0 {
      FilterOfFilter(s[1..], p, q);
      var rest := Filter(s[1..], p);
      if p(s[0]) {
        var kept := [s[0]] + rest;
        assert kept[0] == s[0] && kept[1..] == rest;
      }
    }
  }

  /** The value stored under `k`, or `d` when `m` has no entry for it. */
  function GetOrDefault<K, V>(m: map<K, V>, k: K, d: V): V {
    if k in m then m[k] else d
  }

  /** `f` applied to every element of `s`, in order. */
  function Project<T, U>(s: seq<T>, f: T -> U): (r: seq<U>)
    ensures |r| == |s|
    ensures forall i :: 0 <= i < |r| ==> r[i] == f(s[i])
    ensures forall x :: x in s ==> f(x) in r
    ensures forall y :: y in r ==> exists x :: x in s && f(x) == y
  {
    var r := seq(|s|, i requires 0 <= i < |s| => f(s[i]));
    assert forall x :: x in s ==> f(x) in r by {
      forall x | x in s
        ensures f(x) in r
      {
        var k :| 0 <= k < |s| && s[k] == x;
        assert r[k] == f(x);
      }
    }
    r
  }

  /** An identifier strictly greater than every identifier in `s` and at
      least 1: what an identity column hands out for the next row. */
  function FreshId<T>(s: seq<T>, id: T -> int): (r: int)
    ensures r >= 1
    ensures forall i :: 0 <= i < |s| ==> id(s[i]) < r
  {
    if |s| == 0 then 1
    else
      var rest := FreshId(s[1..], id);
      assert forall i :: 1 <= i < |s| ==> s[i] == s[1..][i - 1];
      if id(s[0]) + 1 > rest then id(s[0]) + 1 else rest
  }

  /** No two elements of `s` share an identifier. */
  predicate UniqueIds<T>(s: seq<T>, id: T -> int) {
    forall i, j :: 0 <= i < j < |s| ==> id(s[i]) != id(s[j])
  }

  /** Appending a row with a fresh identifier keeps identifiers unique. */
  lemma {:induction false} AppendFreshKeepsUnique<T>(s: seq<T>, id: T -> int, x: T)
    requires UniqueIds(s, id)
    requires id(x) == FreshId(s, id)
    ensures UniqueIds(s + [x], id)
  {
    var t := s + [x];
    forall i, j | 0 <= i < j < |t|
      ensures id(t[i]) != id(t[j])
    {
      if j == |s| {
        assert t[i] == s[i];
      } else {
        assert t[i] == s[i] && t[j] == s[j];
      }
    }
  }
}
