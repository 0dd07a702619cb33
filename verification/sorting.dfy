/**
  Ordering used by the queries that say `orderBy: { … : "desc" }` and
  `take: n`: a descending sort by an integer key and the newest-n prefix.
  Ties are left in an unspecified order, as the database leaves them.
 */
module Sorting {

  ghost predicate SortedDesc<T>(xs: seq<T>, key: T -> int) {
    forall i, j :: 0 <= i < j < |xs| ==> key(xs[i]) >= key(xs[j])
  }

  function Min(a: int, b: int): int {
    if a <= b then a else b
  }

  /** Inserts `x` into a descending sequence, keeping it descending. */
  function Insert<T>(x: T, xs: seq<T>, key: T -> int): (r: seq<T>)
    requires SortedDesc(xs, key)
    ensures |r| == |xs| + 1
    ensures multiset(r) == multiset(xs) + multiset{x}
    ensures SortedDesc(r, key)
    decreases |xs|
  {
    if |xs| == 0 then [x]
    else if key(x) >= key(xs[0]) then [x] + xs
    else
      var rest := Insert(x, xs[1..], key);
      assert xs == [xs[0]] + xs[1..];
      assert forall k :: 0 <= k < |rest| ==> key(rest[k]) <= key(xs[0]) by {
        forall k | 0 <= k < |rest|
          ensures key(rest[k]) <= key(xs[0])
        {
          assert rest[k] in multiset(rest);
          if rest[k] != x {
            assert rest[k] in multiset(xs[1..]);
            var m :| 0 <= m < |xs[1..]| && xs[1..][m] == rest[k];
            assert xs[m + 1] == rest[k];
          }
        }
      }
      [xs[0]] + rest
  }

  /** Insertion sort into descending key order. */
  function SortDesc<T>(xs: seq<T>, key: T -> int): (r: seq<T>)
    ensures |r| == |xs|
    ensures multiset(r) == multiset(xs)
    ensures SortedDesc(r, key)
    decreases |xs|
  {
    if |xs| == 0 then []
    else
      assert xs == [xs[0]] + xs[1..];
      Insert(xs[0], SortDesc(xs[1..], key), key)
  }

  /** In a descending sequence, whatever lies past position `k` ranks no higher
      than anything before it. */
  lemma PrefixRanksHigher<T>(s: seq<T>, key: T -> int, k: nat)
    requires SortedDesc(s, key)
    requires k <= |s|
    ensures multiset(s) - multiset(s[..k]) == multiset(s[k..])
    ensures forall x, y :: x in multiset(s) - multiset(s[..k]) && y in s[..k] ==> key(x) <= key(y)
  {
    assert s == s[..k] + s[k..];
    assert multiset(s) == multiset(s[..k]) + multiset(s[k..]);
    forall x, y | x in multiset(s[k..]) && y in s[..k]
      ensures key(x) <= key(y)
    {
      var j :| 0 <= j < |s[k..]| && s[k..][j] == x;
      var i :| 0 <= i < k && s[i] == y;
      assert s[k + j] == x;
    }
  }

  /** A prefix of a descending sequence is descending. */
  lemma PrefixSorted<T>(s: seq<T>, key: T -> int, k: nat)
    requires SortedDesc(s, key)
    requires k <= |s|
    ensures SortedDesc(s[..k], key)
  {
    var r := s[..k];
    forall i, j | 0 <= i < j < |r|
      ensures key(r[i]) >= key(r[j])
    {
      assert r[i] == s[i] && r[j] == s[j];
    }
  }

  /** The first `n` elements in descending key order: what `orderBy desc, take n`
      returns. Every element left out ranks no higher than every element kept. */
  function Newest<T>(xs: seq<T>, key: T -> int, n: nat): (r: seq<T>)
    ensures |r| == Min(|xs|, n)
    ensures multiset(r) <= multiset(xs)
    ensures |xs| <= n ==> multiset(r) == multiset(xs)
    ensures SortedDesc(r, key)
    ensures forall x, y :: x in multiset(xs) - multiset(r) && y in r ==> key(x) <= key(y)
  {
    var s := SortDesc(xs, key);
    var k := if |s| <= n then |s| else n;
    PrefixRanksHigher(s, key, k);
    PrefixSorted(s, key, k);
    s[..k]
  }
}
