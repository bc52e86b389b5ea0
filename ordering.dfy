/** Newest-first ordering, shared by the listing's `orderBy(desc(createdAt))`
    (server/storage.ts) and the admin page's `sort` on `createdAt`
    (client/src/pages/admin.tsx). Elements with equal keys keep their input
    order, as JavaScript's stable `Array.prototype.sort` does. */
module Ordering {

  predicate SortedDesc<T>(xs: seq<T>, key: T -> int) {
    forall i, j :: 0 <= i < j < |xs| ==> key(xs[i]) >= key(xs[j])
  }

  /** Puts `x` in front of the first element whose key is not larger. */
  function InsertDesc<T>(x: T, xs: seq<T>, key: T -> int): (r: seq<T>)
    ensures |r| == |xs| + 1
    ensures r[0] == x || (|xs| > 0 && r[0] == xs[0])
  {
    if xs == [] || key(xs[0]) <= key(x) then [x] + xs
    else [xs[0]] + InsertDesc(x, xs[1..], key)
  }

  /** Inserting into a sorted sequence keeps it sorted. */
  lemma {:induction false} InsertDescSorted<T>(x: T, xs: seq<T>, key: T -> int)
    requires SortedDesc(xs, key)
    ensures SortedDesc(InsertDesc(x, xs, key), key)
  {
    var r := InsertDesc(x, xs, key);
    if xs == [] || key(xs[0]) <= key(x) {
      forall i, j | 0 <= i < j < |r| ensures key(r[i]) >= key(r[j]) {
        if i == 0 && j > 1 {
          assert key(xs[0]) >= key(xs[j - 1]);
        }
      }
    } else {
      var rest := InsertDesc(x, xs[1..], key);
      InsertDescSorted(x, xs[1..], key);
      assert r == [xs[0]] + rest;
      forall i, j | 0 <= i < j < |r| ensures key(r[i]) >= key(r[j]) {
        if i == 0 {
          assert key(xs[0]) >= key(rest[0]);
          if j > 1 {
            assert key(rest[0]) >= key(rest[j - 1]);
          }
        } else {
          assert r[i] == rest[i - 1] && r[j] == rest[j - 1];
        }
      }
    }
  }

  /** Inserting adds `x` and loses nothing. */
  lemma {:induction false} InsertDescPermutes<T>(x: T, xs: seq<T>, key: T -> int)
    ensures multiset(InsertDesc(x, xs, key)) == multiset(xs) + multiset{x}
  {
    if xs != [] && key(xs[0]) > key(x) {
      InsertDescPermutes(x, xs[1..], key);
      assert xs == [xs[0]] + xs[1..];
    }
  }

  /** The elements of `xs` from the largest key down: sorted, and a
      permutation of `xs`. */
  function NewestFirst<T>(xs: seq<T>, key: T -> int): (r: seq<T>)
    ensures |r| == |xs|
    ensures SortedDesc(r, key)
    ensures multiset(r) == multiset(xs)
  {
    if xs == [] then []
    else
      var rest := NewestFirst(xs[1..], key);
      InsertDescSorted(xs[0], rest, key);
      InsertDescPermutes(xs[0], rest, key);
      assert xs == [xs[0]] + xs[1..];
      InsertDesc(xs[0], rest, key)
  }

  /** In a newest-first sequence, everything in the first `k` is at least as
      new as everything after it. */
  lemma {:induction false} PrefixIsNewest<T>(r: seq<T>, key: T -> int, k: nat, a: T, b: T)
    requires SortedDesc(r, key) && k <= |r|
    requires a in r[..k] && b in r[k..]
    ensures key(a) >= key(b)
  {
    var i :| 0 <= i < k && r[..k][i] == a;
    var j :| 0 <= j < |r| - k && r[k..][j] == b;
    assert r[i] == a && r[k + j] == b;
  }
}
