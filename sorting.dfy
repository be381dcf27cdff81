/**
 * Python's `sorted(xs, key=...)` and `list.sort(key=..., reverse=...)`: a stable sort.
 * The order is given as a relation `le(a, b)`, "a may come before b"; for a descending
 * sort by key it is `key(a) >= key(b)`, which keeps Python's stability under `reverse=True`.
 */
module StableSort {

  /** `le` is total and transitive: the order induced by comparing keys. */
  ghost predicate TotalPreorder<T(!new)>(le: (T, T) -> bool)
  {
    && (forall a, b :: le(a, b) || le(b, a))
    && (forall a, b, c {:trigger le(a, b), le(b, c), le(a, c)} :: le(a, b) && le(b, c) ==> le(a, c))
  }

  predicate Sorted<T>(s: seq<T>, le: (T, T) -> bool)
  {
    forall i, j :: 0 <= i < j < |s| ==> le(s[i], s[j])
  }

  /** a and b have equal keys. */
  predicate Equiv<T>(a: T, b: T, le: (T, T) -> bool)
  {
    le(a, b) && le(b, a)
  }

  /** x placed before the first element it may precede. */
  function Insert<T>(x: T, r: seq<T>, le: (T, T) -> bool): (s: seq<T>)
    ensures multiset(s) == multiset(r) + multiset{x}
    ensures |s| == |r| + 1
  {
    if r == [] || le(x, r[0]) then [x] + r
    else
      var s := [r[0]] + Insert(x, r[1..], le);
      assert r == [r[0]] + r[1..];
      s
  }

  /** Insertion sort from the back of the list, so that equal keys keep their input order. */
  function SortBy<T>(s: seq<T>, le: (T, T) -> bool): (r: seq<T>)
    ensures multiset(r) == multiset(s)
    ensures |r| == |s|
  {
    if s == [] then []
    else
      assert s == [s[0]] + s[1..];
      Insert(s[0], SortBy(s[1..], le), le)
  }

  /** The elements of s whose key equals y's, in their order in s. */
  function Peers<T>(s: seq<T>, y: T, le: (T, T) -> bool): seq<T>
  {
    if s == [] then [] else (if Equiv(s[0], y, le) then [s[0]] else []) + Peers(s[1..], y, le)
  }

  lemma {:induction false} InsertSorted<T(!new)>(x: T, r: seq<T>, le: (T, T) -> bool)
    requires TotalPreorder(le) && Sorted(r, le)
    ensures Sorted(Insert(x, r, le), le)
  {
    if r != [] && !le(x, r[0]) {
      var tail := Insert(x, r[1..], le);
      InsertSorted(x, r[1..], le);
      var s := [r[0]] + tail;
      forall j | 0 < j < |s|
        ensures le(r[0], s[j])
      {
        assert s[j] in multiset(tail);
        if s[j] != x {
          assert s[j] in multiset(r[1..]);
          var k :| 0 <= k < |r[1..]| && r[1..][k] == s[j];
          assert r[k + 1] == s[j];
        }
      }
    }
  }

  lemma {:induction false} SortBySorted<T(!new)>(s: seq<T>, le: (T, T) -> bool)
    requires TotalPreorder(le)
    ensures Sorted(SortBy(s, le), le)
  {
    if s != [] {
      SortBySorted(s[1..], le);
      InsertSorted(s[0], SortBy(s[1..], le), le);
    }
  }

  lemma SortedTail<T>(r: seq<T>, le: (T, T) -> bool)
    requires r != [] && Sorted(r, le)
    ensures Sorted(r[1..], le)
  {
    forall i, j | 0 <= i < j < |r| - 1
      ensures le(r[1..][i], r[1..][j])
    {
      assert r[1..][i] == r[i + 1] && r[1..][j] == r[j + 1];
    }
  }

  lemma {:induction false} InsertPeers<T(!new)>(x: T, r: seq<T>, y: T, le: (T, T) -> bool)
    requires TotalPreorder(le) && Sorted(r, le)
    ensures Peers(Insert(x, r, le), y, le) == (if Equiv(x, y, le) then [x] else []) + Peers(r, y, le)
  {
    if r == [] || le(x, r[0]) {
      assert ([x] + r)[1..] == r;
    } else {
      var tail := Insert(x, r[1..], le);
      SortedTail(r, le);
      InsertPeers(x, r[1..], y, le);
      var px := if Equiv(x, y, le) then [x] else [];
      var pr := if Equiv(r[0], y, le) then [r[0]] else [];
      var rest := Peers(r[1..], y, le);
      assert ([r[0]] + tail)[1..] == tail;
      assert Peers(Insert(x, r, le), y, le) == pr + (px + rest);
      assert Peers(r, y, le) == pr + rest;
      NotBothPeers(x, r[0], y, le);
      if px == [] {
        assert pr + (px + rest) == pr + rest;
      } else {
        assert pr + (px + rest) == px + rest;
      }
    }
  }

  /** Elements with different keys cannot both share y's key. */
  lemma NotBothPeers<T(!new)>(x: T, z: T, y: T, le: (T, T) -> bool)
    requires TotalPreorder(le) && !le(x, z)
    ensures !(Equiv(x, y, le) && Equiv(z, y, le))
  {
  }

  /** Stability: sorting keeps the relative order of elements with equal keys. */
  lemma {:induction false} SortByStable<T(!new)>(s: seq<T>, y: T, le: (T, T) -> bool)
    requires TotalPreorder(le)
    ensures Peers(SortBy(s, le), y, le) == Peers(s, y, le)
  {
    if s != [] {
      SortByStable(s[1..], y, le);
      SortBySorted(s[1..], le);
      InsertPeers(s[0], SortBy(s[1..], le), y, le);
    }
  }

  /** The first peer of y in s sits at the first index whose element has y's key. */
  lemma {:induction false} PeersHead<T>(s: seq<T>, y: T, le: (T, T) -> bool) returns (i: nat)
    requires Peers(s, y, le) != []
    ensures i < |s| && Peers(s, y, le)[0] == s[i] && Equiv(s[i], y, le)
    ensures forall j :: 0 <= j < i ==> !Equiv(s[j], y, le)
  {
    if Equiv(s[0], y, le) {
      i := 0;
    } else {
      var k := PeersHead(s[1..], y, le);
      i := k + 1;
      forall j | 0 < j < i
        ensures !Equiv(s[j], y, le)
      {
        assert s[j] == s[1..][j - 1];
      }
    }
  }

  lemma {:induction false} NoPeers<T>(s: seq<T>, y: T, le: (T, T) -> bool)
    requires Peers(s, y, le) == []
    ensures forall j :: 0 <= j < |s| ==> !Equiv(s[j], y, le)
  {
    if s != [] {
      NoPeers(s[1..], y, le);
      assert forall j :: 0 < j < |s| ==> s[j] == s[1..][j - 1];
    }
  }

  /** The last peer of y in s sits at the last index whose element has y's key. */
  lemma {:induction false} PeersLast<T>(s: seq<T>, y: T, le: (T, T) -> bool) returns (i: nat)
    requires Peers(s, y, le) != []
    ensures i < |s| && Peers(s, y, le)[|Peers(s, y, le)| - 1] == s[i] && Equiv(s[i], y, le)
    ensures forall j :: i < j < |s| ==> !Equiv(s[j], y, le)
  {
    var rest := Peers(s[1..], y, le);
    if rest == [] {
      NoPeers(s[1..], y, le);
      assert forall j :: 0 < j < |s| ==> s[j] == s[1..][j - 1];
      i := 0;
    } else {
      var k := PeersLast(s[1..], y, le);
      i := k + 1;
      assert forall j :: i < j < |s| ==> s[j] == s[1..][j - 1];
    }
  }

  lemma {:induction false} PeersNonEmpty<T>(s: seq<T>, y: T, le: (T, T) -> bool, k: nat)
    requires k < |s| && Equiv(s[k], y, le)
    ensures Peers(s, y, le) != []
  {
    if k > 0 {
      PeersNonEmpty(s[1..], y, le, k - 1);
    }
  }

  /** Every element of s may follow the head of the sorted list and precede its last element. */
  lemma SortByBounds<T(!new)>(s: seq<T>, le: (T, T) -> bool)
    requires TotalPreorder(le) && s != []
    ensures forall j :: 0 <= j < |s| ==> le(SortBy(s, le)[0], s[j]) && le(s[j], SortBy(s, le)[|s| - 1])
  {
    var r := SortBy(s, le);
    SortBySorted(s, le);
    forall j | 0 <= j < |s|
      ensures le(r[0], s[j]) && le(s[j], r[|s| - 1])
    {
      assert s[j] in multiset(r);
      var k :| 0 <= k < |r| && r[k] == s[j];
      if 0 < k {
        assert le(r[0], r[k]);
      }
      if k < |r| - 1 {
        assert le(r[k], r[|r| - 1]);
      }
    }
  }

  /** `sorted(s)[0]` is the first element of s, in input order, among those with the least key. */
  lemma SortByHead<T(!new)>(s: seq<T>, le: (T, T) -> bool) returns (i: nat)
    requires TotalPreorder(le) && s != []
    ensures i < |s| && SortBy(s, le)[0] == s[i]
    ensures forall j :: 0 <= j < |s| ==> le(s[i], s[j])
    ensures forall j :: 0 <= j < i ==> !le(s[j], s[i])
  {
    var r := SortBy(s, le);
    var m := r[0];
    SortByStable(s, m, le);
    assert Peers(r, m, le)[0] == m by {
      assert le(m, m) || le(m, m);
    }
    i := PeersHead(s, m, le);
    SortByBounds(s, le);
  }

  /** `sorted(s)[-1]` is the last element of s, in input order, among those with the greatest key. */
  lemma SortByLast<T(!new)>(s: seq<T>, le: (T, T) -> bool) returns (i: nat)
    requires TotalPreorder(le) && s != []
    ensures i < |s| && SortBy(s, le)[|s| - 1] == s[i]
    ensures forall j :: 0 <= j < |s| ==> le(s[j], s[i])
    ensures forall j :: i < j < |s| ==> !le(s[i], s[j])
  {
    var r := SortBy(s, le);
    var m := r[|r| - 1];
    SortByStable(s, m, le);
    assert Equiv(m, m, le) by {
      assert le(m, m) || le(m, m);
    }
    PeersNonEmpty(r, m, le, |r| - 1);
    var i0 := PeersLast(r, m, le);
    assert i0 == |r| - 1;
    i := PeersLast(s, m, le);
    SortByBounds(s, le);
  }
}
