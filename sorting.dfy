/**
 * Python's `sorted(xs, key=k, reverse=True)`: a stable sort into non-increasing
 * key order. Elements whose keys compare equal keep their input order (Python
 * keeps stability under reverse=True).
 *
 * The key comparison is given as `ge(a, b)`, "the key of a is at least the key
 * of b", which must be a total preorder.
 */
module Sorting {

  ghost predicate Total<T(!new)>(ge: (T, T) -> bool)
  {
    forall a, b :: ge(a, b) || ge(b, a)
  }

  ghost predicate Transitive<T(!new)>(ge: (T, T) -> bool)
  {
    forall a, b, c :: ge(a, b) && ge(b, c) ==> ge(a, c)
  }

  ghost predicate TotalPreorder<T(!new)>(ge: (T, T) -> bool)
  {
    Total(ge) && Transitive(ge)
  }

  /** Keys of a and b compare equal. */
  predicate Equivalent<T>(ge: (T, T) -> bool, a: T, b: T)
  {
    ge(a, b) && ge(b, a)
  }

  ghost predicate SortedDesc<T>(s: seq<T>, ge: (T, T) -> bool)
  {
    forall i, j :: 0 <= i < j < |s| ==> ge(s[i], s[j])
  }

  /** The elements of s whose key equals that of x, in their order in s. */
  function Peers<T>(s: seq<T>, x: T, ge: (T, T) -> bool): (r: seq<T>)
    ensures |r| <= |s|
  {
    if s == [] then []
    else (if Equivalent(ge, s[0], x) then [s[0]] else []) + Peers(s[1..], x, ge)
  }

  /** Places x in front of the first element whose key is not greater than x's. */
  function Insert<T>(x: T, s: seq<T>, ge: (T, T) -> bool): (r: seq<T>)
    ensures multiset(r) == multiset(s) + multiset{x}
  {
    if s == [] then [x]
    else if ge(x, s[0]) then [x] + s
    else
      assert s == [s[0]] + s[1..];
      [s[0]] + Insert(x, s[1..], ge)
  }

  /** sorted(s, key, reverse=True), as an insertion sort from the back. */
  function SortDesc<T>(s: seq<T>, ge: (T, T) -> bool): (r: seq<T>)
    ensures multiset(r) == multiset(s)
  {
    if s == [] then []
    else
      assert s == [s[0]] + s[1..];
      Insert(s[0], SortDesc(s[1..], ge), ge)
  }

  lemma {:induction false} InsertSorted<T(!new)>(x: T, s: seq<T>, ge: (T, T) -> bool)
    requires TotalPreorder(ge)
    requires SortedDesc(s, ge)
    ensures SortedDesc(Insert(x, s, ge), ge)
  {
    if s == [] {
    } else if ge(x, s[0]) {
      var r := [x] + s;
      forall i, j | 0 <= i < j < |r| ensures ge(r[i], r[j]) {
        if i == 0 && j > 1 { assert ge(s[0], s[j - 1]); }
      }
    } else {
      var t := Insert(x, s[1..], ge);
      InsertSorted(x, s[1..], ge);
      var r := [s[0]] + t;
      assert ge(s[0], x);
      assert forall k :: 0 <= k < |s[1..]| ==> s[1..][k] == s[k + 1];
      InsertBelow(s[0], x, s[1..], ge);
      assert forall k :: 1 <= k < |r| ==> r[k] == t[k - 1];
    }
  }

  /** An upper bound of x and of every element of s bounds every element of the insertion. */
  lemma {:induction false} InsertBelow<T>(b: T, x: T, s: seq<T>, ge: (T, T) -> bool)
    requires ge(b, x) && forall k :: 0 <= k < |s| ==> ge(b, s[k])
    ensures forall k :: 0 <= k < |Insert(x, s, ge)| ==> ge(b, Insert(x, s, ge)[k])
  {
    if s != [] && !ge(x, s[0]) {
      var t := Insert(x, s[1..], ge);
      assert forall k :: 0 <= k < |s[1..]| ==> s[1..][k] == s[k + 1];
      InsertBelow(b, x, s[1..], ge);
      var r := [s[0]] + t;
      assert forall k :: 1 <= k < |r| ==> r[k] == t[k - 1];
    }
  }

  /** The result of SortDesc is in non-increasing key order. */
  lemma {:induction false} SortDescSorted<T(!new)>(s: seq<T>, ge: (T, T) -> bool)
    requires TotalPreorder(ge)
    ensures SortedDesc(SortDesc(s, ge), ge)
  {
    if s != [] {
      SortDescSorted(s[1..], ge);
      InsertSorted(s[0], SortDesc(s[1..], ge), ge);
    }
  }

  lemma {:induction false} InsertPeers<T(!new)>(x: T, s: seq<T>, y: T, ge: (T, T) -> bool)
    requires Transitive(ge)
    ensures Peers(Insert(x, s, ge), y, ge)
         == (if Equivalent(ge, x, y) then [x] else []) + Peers(s, y, ge)
  {
    var px := if Equivalent(ge, x, y) then [x] else [];
    if s == [] {
      assert Peers([x], y, ge) == px + Peers([], y, ge);
    } else if ge(x, s[0]) {
      assert ([x] + s)[1..] == s;
    } else {
      var p0 := if Equivalent(ge, s[0], y) then [s[0]] else [];
      var t := Insert(x, s[1..], ge);
      InsertPeers(x, s[1..], y, ge);
      var r := [s[0]] + t;
      assert r[1..] == t;
      assert Peers(r, y, ge) == p0 + Peers(t, y, ge);
      assert Peers(s, y, ge) == p0 + Peers(s[1..], y, ge);
      NotBothPeers(x, s[0], y, ge);
      assert p0 + px == px + p0;
    }
  }

  /** An element ranked strictly below x never shares a key class with x. */
  lemma NotBothPeers<T(!new)>(x: T, a: T, y: T, ge: (T, T) -> bool)
    requires Transitive(ge) && !ge(x, a)
    ensures !(Equivalent(ge, x, y) && Equivalent(ge, a, y))
  {
  }

  /**
   * Stability: for every key class, the elements of that class appear in the
   * result exactly as, and in the order that, they appear in the input.
   */
  lemma {:induction false} SortDescStable<T(!new)>(s: seq<T>, y: T, ge: (T, T) -> bool)
    requires TotalPreorder(ge)
    ensures Peers(SortDesc(s, ge), y, ge) == Peers(s, y, ge)
  {
    if s != [] {
      SortDescStable(s[1..], y, ge);
      InsertPeers(s[0], SortDesc(s[1..], ge), y, ge);
    }
  }

  lemma SortDescStableAll<T(!new)>(s: seq<T>, ge: (T, T) -> bool)
    requires TotalPreorder(ge)
    ensures forall y :: Peers(SortDesc(s, ge), y, ge) == Peers(s, y, ge)
  {
    forall y ensures Peers(SortDesc(s, ge), y, ge) == Peers(s, y, ge) {
      SortDescStable(s, y, ge);
    }
  }
}
