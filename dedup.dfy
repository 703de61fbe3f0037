/** `dedup_ids`: one left-to-right pass that keeps the first occurrence of
    every identifier and drops its later repeats. */
module Deduplication {

  predicate NoDuplicates<T(==)>(s: seq<T>) {
    forall i, j :: 0 <= i < j < |s| ==> s[i] != s[j]
  }

  /** The position of the first occurrence of `x` in `s`. */
  function FirstIndex<T(==)>(s: seq<T>, x: T): (i: nat)
    requires x in s
    ensures i < |s| && s[i] == x && x !in s[..i]
    ensures forall m :: 0 <= m < i ==> s[m] != x
  {
    if s[0] == x then 0
    else
      var i' := FirstIndex(s[1..], x);
      assert s[..i' + 1] == [s[0]] + s[1..][..i'];
      i' + 1
  }

  /** The reference meaning of `dedup_ids`: an element is kept exactly when
      the part of the input before it does not already hold it. */
  function Dedup<T(==)>(s: seq<T>): (r: seq<T>)
    ensures |r| <= |s|
    ensures forall i :: 0 <= i < |r| ==> r[i] in s
    ensures forall i :: 0 <= i < |s| ==> s[i] in r
    ensures NoDuplicates(r)
  {
    if s == [] then []
    else
      var init, last := s[..|s| - 1], s[|s| - 1];
      assert s == init + [last];
      if last in init then Dedup(init) else Dedup(init) + [last]
  }

  /** Any position holding `x` with no `x` before it is the first one. */
  lemma FirstIndexAt<T>(s: seq<T>, x: T, i: nat)
    requires i < |s| && s[i] == x && x !in s[..i]
    ensures FirstIndex(s, x) == i
  {
    forall m | 0 <= m < i
      ensures s[m] != x
    {
      assert s[..i][m] == s[m];
    }
  }

  /** The output keeps the input's order of first occurrences, so it is a
      subsequence of the input that picks each element's first occurrence. */
  lemma {:induction false} DedupInFirstOccurrenceOrder<T>(s: seq<T>)
    ensures forall i, j :: 0 <= i < j < |Dedup(s)| ==>
      FirstIndex(s, Dedup(s)[i]) < FirstIndex(s, Dedup(s)[j])
  {
    if s != [] {
      var init, last := s[..|s| - 1], s[|s| - 1];
      DedupInFirstOccurrenceOrder(init);
      var d := Dedup(init);
      forall x | x in init
        ensures FirstIndex(s, x) == FirstIndex(init, x)
      {
        var i := FirstIndex(init, x);
        assert s[..i] == init[..i];
        FirstIndexAt(s, x, i);
      }
      if last !in init {
        assert s[..|s| - 1] == init;
        FirstIndexAt(s, last, |s| - 1);
        assert Dedup(s) == d + [last];
      }
    }
  }

  /** Of two sequences in first-occurrence order that end in the same element,
      the one whose elements all lie in the other keeps that inclusion once the
      common last element is dropped. */
  lemma InitMembers<T>(s: seq<T>, r: seq<T>, d: seq<T>)
    requires forall x :: x in r ==> x in s
    requires forall x :: x in d ==> x in s
    requires r != [] && d != [] && r[|r| - 1] == d[|d| - 1]
    requires forall x :: x in r ==> x in d
    requires forall i, j :: 0 <= i < j < |r| ==> FirstIndex(s, r[i]) < FirstIndex(s, r[j])
    requires forall i, j :: 0 <= i < j < |d| ==> FirstIndex(s, d[i]) < FirstIndex(s, d[j])
    ensures forall i :: 0 <= i < |r| - 1 ==> r[i] in d[..|d| - 1]
  {
    var d' := d[..|d| - 1];
    forall i | 0 <= i < |r| - 1
      ensures r[i] in d'
    {
      var x := r[i];
      assert FirstIndex(s, r[i]) < FirstIndex(s, r[|r| - 1]);
      assert x in d;
      var j :| 0 <= j < |d| && d[j] == x;
      assert j != |d| - 1;
      assert d'[j] == x;
    }
  }

  /** Dropping the last element keeps a sequence in first-occurrence order. */
  lemma InitOrdered<T>(s: seq<T>, r: seq<T>)
    requires forall x :: x in r ==> x in s
    requires forall i, j :: 0 <= i < j < |r| ==> FirstIndex(s, r[i]) < FirstIndex(s, r[j])
    requires r != []
    ensures forall x :: x in r[..|r| - 1] ==> x in s
    ensures var r' := r[..|r| - 1];
      forall i, j :: 0 <= i < j < |r'| ==> FirstIndex(s, r'[i]) < FirstIndex(s, r'[j])
  {
    assert forall i :: 0 <= i < |r| - 1 ==> r[..|r| - 1][i] == r[i];
  }

  /** Two sequences in first-occurrence order over the same elements end in
      the same element: the one that occurs last in `s`. */
  lemma SameLast<T>(s: seq<T>, r: seq<T>, d: seq<T>)
    requires forall x :: x in r ==> x in s
    requires forall x :: x in r <==> x in d
    requires forall i, j :: 0 <= i < j < |r| ==> FirstIndex(s, r[i]) < FirstIndex(s, r[j])
    requires forall i, j :: 0 <= i < j < |d| ==> FirstIndex(s, d[i]) < FirstIndex(s, d[j])
    requires r != []
    ensures d != [] && r[|r| - 1] == d[|d| - 1]
  {
    var a := r[|r| - 1];
    assert a in r;
    assert d != [];
    var b := d[|d| - 1];
    assert b in d;
    var ja :| 0 <= ja < |d| && d[ja] == a;
    var jb :| 0 <= jb < |r| && r[jb] == b;
    var ka, kb := FirstIndex(s, d[ja]), FirstIndex(s, r[jb]);
    assert ka == FirstIndex(s, a) && kb == FirstIndex(s, b);
  }

  /** With the common last element dropped, the two sequences still hold the
      same elements. */
  lemma SameInitMembers<T>(s: seq<T>, r: seq<T>, d: seq<T>, r': seq<T>, d': seq<T>)
    requires forall x :: x in r ==> x in s
    requires forall x :: x in r <==> x in d
    requires forall i, j :: 0 <= i < j < |r| ==> FirstIndex(s, r[i]) < FirstIndex(s, r[j])
    requires forall i, j :: 0 <= i < j < |d| ==> FirstIndex(s, d[i]) < FirstIndex(s, d[j])
    requires r != [] && d != [] && r[|r| - 1] == d[|d| - 1]
    requires r' == r[..|r| - 1] && d' == d[..|d| - 1]
    ensures forall x :: x in r' <==> x in d'
  {
    InitMembers(s, r, d);
    InitMembers(s, d, r);
    assert forall i :: 0 <= i < |r'| ==> r'[i] == r[i];
    assert forall i :: 0 <= i < |d'| ==> d'[i] == d[i];
  }

  /** Two sequences over the same elements of `s`, each strictly increasing in
      first-occurrence position, are equal. */
  lemma {:induction false} SameFirstOccurrenceOrder<T>(s: seq<T>, r: seq<T>, d: seq<T>)
    requires forall x :: x in r ==> x in s
    requires forall x :: x in r <==> x in d
    requires forall i, j :: 0 <= i < j < |r| ==> FirstIndex(s, r[i]) < FirstIndex(s, r[j])
    requires forall i, j :: 0 <= i < j < |d| ==> FirstIndex(s, d[i]) < FirstIndex(s, d[j])
    ensures r == d
    decreases |r|
  {
    if r == [] {
      assert forall i :: 0 <= i < |d| ==> d[i] in r;
    } else {
      SameLast(s, r, d);
      var r', d' := r[..|r| - 1], d[..|d| - 1];
      SameInitMembers(s, r, d, r', d');
      InitOrdered(s, r);
      InitOrdered(s, d);
      SameFirstOccurrenceOrder(s, r', d');
      assert r == r' + [r[|r| - 1]] && d == d' + [d[|d| - 1]];
    }
  }

  /** Dedup is the one sequence over the input's elements that follows their
      first-occurrence order: it is fully characterised by that property. */
  lemma DedupUnique<T>(s: seq<T>, r: seq<T>)
    requires forall x :: x in r <==> x in s
    requires forall i, j :: 0 <= i < j < |r| ==> FirstIndex(s, r[i]) < FirstIndex(s, r[j])
    ensures r == Dedup(s)
  {
    DedupInFirstOccurrenceOrder(s);
    SameFirstOccurrenceOrder(s, r, Dedup(s));
  }

  /** One more element at the end is kept exactly when it is new. */
  lemma DedupSnoc<T>(s: seq<T>, x: T)
    ensures Dedup(s + [x]) == if x in s then Dedup(s) else Dedup(s) + [x]
  {
    assert (s + [x])[..|s|] == s;
  }

  /** A sequence without repeats passes through unchanged. */
  lemma {:induction false} DedupOfDistinct<T>(s: seq<T>)
    requires NoDuplicates(s)
    ensures Dedup(s) == s
  {
    if s != [] {
      var init, last := s[..|s| - 1], s[|s| - 1];
      assert NoDuplicates(init);
      DedupOfDistinct(init);
      assert forall i :: 0 <= i < |init| ==> init[i] == s[i];
      assert last !in init;
      assert s == init + [last];
    }
  }

  /** Deduplicating twice is the same as deduplicating once. */
  lemma DedupIdempotent<T>(s: seq<T>)
    ensures Dedup(Dedup(s)) == Dedup(s)
  {
    DedupOfDistinct(Dedup(s));
  }

  /** The list comprehension of `dedup_ids`, with its `seen` set. */
  method DedupIds<T(==)>(ids: seq<T>) returns (r: seq<T>)
    ensures r == Dedup(ids)
  {
    var seen: set<T> := {};
    r := [];
    for i := 0 to |ids|
      invariant r == Dedup(ids[..i])
      invariant forall x :: x in seen <==> x in ids[..i]
    {
      var id := ids[i];
      assert ids[..i + 1][..i] == ids[..i];
      if id !in seen {
        seen := seen + {id};
        r := r + [id];
      }
    }
    assert ids[..|ids|] == ids;
  }
}
