/** A stable sort by an integer key, ascending or descending: the model of
    `[...xs].sort((a, b) => key(a) - key(b))` (and of `key(b) - key(a)` for
    the descending orders), and of a database sort on one key. */
module Sorting {

  /** `a` may come before `b` in the requested direction. */
  predicate InOrder(a: int, b: int, descending: bool) {
    if descending then a >= b else a <= b
  }

  ghost predicate Ordered<T>(s: seq<T>, key: T -> int, descending: bool) {
    forall i, j :: 0 <= i < j < |s| ==> InOrder(key(s[i]), key(s[j]), descending)
  }

  /** Inserts `x` after every element it does not strictly precede, which keeps
      equal keys in arrival order. */
  function Insert<T(==)>(x: T, s: seq<T>, key: T -> int, descending: bool): (r: seq<T>)
    requires Ordered(s, key, descending)
    ensures Ordered(r, key, descending)
    ensures multiset(r) == multiset(s) + multiset{x}
  {
    if s == [] then [x]
    else if key(x) != key(s[0]) && InOrder(key(x), key(s[0]), descending) then
      [x] + s
    else
      var rest := Insert(x, s[1..], key, descending);
      assert s == [s[0]] + s[1..];
      assert forall j :: 0 <= j < |rest| ==> InOrder(key(s[0]), key(rest[j]), descending) by {
        forall j | 0 <= j < |rest|
          ensures InOrder(key(s[0]), key(rest[j]), descending)
        {
          assert rest[j] in multiset(rest);
          if rest[j] != x {
            assert rest[j] in multiset(s[1..]);
            var k :| 0 <= k < |s[1..]| && s[1..][k] == rest[j];
            assert s[k + 1] == rest[j];
          }
        }
      }
      [s[0]] + rest
  }

  /** Insertion sort: each element in turn is inserted into the sorted prefix. */
  function Sort<T(==)>(s: seq<T>, key: T -> int, descending: bool): (r: seq<T>)
    ensures |r| == |s|
    ensures Ordered(r, key, descending)
    ensures multiset(r) == multiset(s)
  {
    if s == [] then []
    else
      var n := |s| - 1;
      assert s == s[..n] + [s[n]];
      var r := Insert(s[n], Sort(s[..n], key, descending), key, descending);
      assert |r| == |multiset(r)|;
      r
  }

  /** In a descending sequence, every element from position `n` on has a key
      no larger than any element before `n`. */
  lemma PrefixDominates<T>(s: seq<T>, key: T -> int, n: nat, x: T, t: T)
    requires Ordered(s, key, true)
    requires n <= |s|
    requires x in s[n..] && t in s[..n]
    ensures key(x) <= key(t)
  {
    var j :| 0 <= j < |s[n..]| && s[n..][j] == x;
    var i :| 0 <= i < n && s[..n][i] == t;
    assert s[i] == t && s[n + j] == x;
  }
}
