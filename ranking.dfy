/** The pure steps of the online merge (recommendation_service.py:182-187):
    pair item ids with scores, sort by score descending, keep the ids, and
    deduplicate. */
module Ranking {
  import opened Deduplication
  import opened Slices

  type ItemId = int

  /** Similarity scores are floats in the service; only their order is used. */
  type Score = int

  /** One element of `zip(items, scores)`. */
  datatype Candidate = Candidate(item: ItemId, score: Score)

  /** `list(zip(items, scores))`: pairs by position and stops at the end of
      the shorter list. */
  function Zip(items: seq<ItemId>, scores: seq<Score>): (c: seq<Candidate>)
    ensures |c| == if |items| <= |scores| then |items| else |scores|
    ensures forall i :: 0 <= i < |c| ==> c[i] == Candidate(items[i], scores[i])
  {
    if items == [] || scores == [] then []
    else [Candidate(items[0], scores[0])] + Zip(items[1..], scores[1..])
  }

  /** `[item for item, _ in combined]`. */
  function Project(c: seq<Candidate>): (ids: seq<ItemId>)
    ensures |ids| == |c|
    ensures forall i :: 0 <= i < |c| ==> ids[i] == c[i].item
  {
    if c == [] then [] else [c[0].item] + Project(c[1..])
  }

  predicate SortedByScoreDesc(c: seq<Candidate>) {
    forall i, j :: 0 <= i < j < |c| ==> c[i].score >= c[j].score
  }

  /** The candidates of `c` that have score `v`, in their order in `c`. */
  function WithScore(c: seq<Candidate>, v: Score): seq<Candidate> {
    if c == [] then [] else (if c[0].score == v then [c[0]] else []) + WithScore(c[1..], v)
  }

  /** Places `x` before the first candidate whose score does not exceed its
      own, so that `x` precedes the candidates of equal score. */
  function Insert(x: Candidate, c: seq<Candidate>): (r: seq<Candidate>)
    ensures |r| == |c| + 1
  {
    if c == [] || c[0].score <= x.score then [x] + c
    else [c[0]] + Insert(x, c[1..])
  }

  lemma {:induction false} InsertSorted(x: Candidate, c: seq<Candidate>)
    requires SortedByScoreDesc(c)
    ensures SortedByScoreDesc(Insert(x, c))
    ensures Insert(x, c) != [] && Insert(x, c)[0] == if c == [] || c[0].score <= x.score then x else c[0]
  {
    if !(c == [] || c[0].score <= x.score) {
      InsertSorted(x, c[1..]);
    }
  }

  lemma {:induction false} InsertMultiset(x: Candidate, c: seq<Candidate>)
    ensures multiset(Insert(x, c)) == multiset(c) + multiset{x}
  {
    if !(c == [] || c[0].score <= x.score) {
      InsertMultiset(x, c[1..]);
      assert c == [c[0]] + c[1..];
    }
  }

  lemma {:induction false} InsertWithScore(x: Candidate, c: seq<Candidate>, v: Score)
    ensures WithScore(Insert(x, c), v) == WithScore([x], v) + WithScore(c, v)
  {
    if c == [] || c[0].score <= x.score {
      assert ([x] + c)[1..] == c;
    } else {
      InsertWithScore(x, c[1..], v);
      assert ([c[0]] + Insert(x, c[1..]))[1..] == Insert(x, c[1..]);
    }
  }

  lemma InsertKeepsEqualScoreOrder(x: Candidate, c: seq<Candidate>, tail: seq<Candidate>)
    requires forall v :: WithScore(c, v) == WithScore(tail, v)
    ensures forall v :: WithScore(Insert(x, c), v) == WithScore([x] + tail, v)
  {
    forall v
      ensures WithScore(Insert(x, c), v) == WithScore([x] + tail, v)
    {
      InsertWithScore(x, c, v);
      assert ([x] + tail)[1..] == tail;
    }
  }

  /** `sorted(combined, key=lambda x: x[1], reverse=True)`, as an insertion
      sort from the back: each candidate goes in front of the later ones of
      equal score. */
  function SortByScoreDesc(c: seq<Candidate>): (r: seq<Candidate>)
    ensures |r| == |c|
  {
    if c == [] then [] else Insert(c[0], SortByScoreDesc(c[1..]))
  }

  /** What Python promises of that sort, part one: the scores do not
      increase. */
  lemma {:induction false} SortByScoreDescSorted(c: seq<Candidate>)
    ensures SortedByScoreDesc(SortByScoreDesc(c))
  {
    if c != [] {
      SortByScoreDescSorted(c[1..]);
      InsertSorted(c[0], SortByScoreDesc(c[1..]));
    }
  }

  /** Part two: the result is a permutation of the input. */
  lemma {:induction false} SortByScoreDescPermutes(c: seq<Candidate>)
    ensures multiset(SortByScoreDesc(c)) == multiset(c)
  {
    if c != [] {
      SortByScoreDescPermutes(c[1..]);
      InsertMultiset(c[0], SortByScoreDesc(c[1..]));
      assert c == [c[0]] + c[1..];
    }
  }

  /** Part three: candidates of equal score keep their input order (Python's
      sort stays stable when reversed). */
  lemma {:induction false} SortByScoreDescStable(c: seq<Candidate>)
    ensures forall v :: WithScore(SortByScoreDesc(c), v) == WithScore(c, v)
  {
    if c != [] {
      SortByScoreDescStable(c[1..]);
      InsertKeepsEqualScoreOrder(c[0], SortByScoreDesc(c[1..]), c[1..]);
      assert c == [c[0]] + c[1..];
    }
  }

  /** The element facts of `WithScore`. */
  lemma {:induction false} WithScoreMembers(c: seq<Candidate>, v: Score)
    ensures forall e :: e in WithScore(c, v) <==> e in c && e.score == v
  {
    if c != [] {
      WithScoreMembers(c[1..], v);
      assert c == [c[0]] + c[1..];
    }
  }

  /** A sequence's head is the first candidate of its own score. */
  lemma WithScoreHead(c: seq<Candidate>)
    ensures c == [] || WithScore(c, c[0].score) == [c[0]] + WithScore(c[1..], c[0].score)
  {
  }

  /** The heads of two score-descending orders that agree score by score are
      the same candidate. */
  lemma SameHead(r: seq<Candidate>, t: seq<Candidate>)
    requires r != [] && t != []
    requires SortedByScoreDesc(r) && SortedByScoreDesc(t)
    requires forall v :: WithScore(r, v) == WithScore(t, v)
    ensures r[0] == t[0]
  {
    var m, n := r[0].score, t[0].score;
    WithScoreHead(r);
    WithScoreHead(t);
    WithScoreMembers(t, m);
    WithScoreMembers(r, n);
    assert r[0] in WithScore(t, m);
    var k :| 0 <= k < |t| && t[k] == r[0];
    assert m <= n;
    assert t[0] in WithScore(r, n);
    var k' :| 0 <= k' < |r| && r[k'] == t[0];
    assert n <= m;
    assert WithScore(r, m)[0] == r[0] && WithScore(t, m)[0] == t[0];
  }

  /** Dropping an equal head from both keeps the score-by-score agreement. */
  lemma SameTailOrder(r: seq<Candidate>, t: seq<Candidate>)
    requires r != [] && t != [] && r[0] == t[0]
    requires forall v :: WithScore(r, v) == WithScore(t, v)
    ensures forall v :: WithScore(r[1..], v) == WithScore(t[1..], v)
  {
    forall v
      ensures WithScore(r[1..], v) == WithScore(t[1..], v)
    {
      var wr, wt := WithScore(r, v), WithScore(t, v);
      assert wr == wt;
      if r[0].score == v {
        assert wr[1..] == WithScore(r[1..], v);
        assert wt[1..] == WithScore(t[1..], v);
      } else {
        assert wr == WithScore(r[1..], v);
        assert wt == WithScore(t[1..], v);
      }
    }
  }

  /** Two score-descending orders that agree, score by score, on the order of
      equal-score candidates are the same sequence. */
  lemma {:induction false} StableOrderUnique(r: seq<Candidate>, t: seq<Candidate>)
    requires SortedByScoreDesc(r) && SortedByScoreDesc(t)
    requires forall v :: WithScore(r, v) == WithScore(t, v)
    ensures r == t
    decreases |r|
  {
    if r == [] || t == [] {
      WithScoreHead(r);
      WithScoreHead(t);
    } else {
      SameHead(r, t);
      SameTailOrder(r, t);
      StableOrderUnique(r[1..], t[1..]);
      assert r == [r[0]] + r[1..] && t == [t[0]] + t[1..];
    }
  }

  /** Python's stable descending sort is the one sorted order that keeps the
      input order among equal scores. */
  lemma SortByScoreDescUnique(c: seq<Candidate>, r: seq<Candidate>)
    requires SortedByScoreDesc(r)
    requires forall v :: WithScore(r, v) == WithScore(c, v)
    ensures r == SortByScoreDesc(c)
  {
    SortByScoreDescSorted(c);
    SortByScoreDescStable(c);
    StableOrderUnique(r, SortByScoreDesc(c));
  }

  /** The highest score that `c` gives to item `x`. */
  function BestScore(c: seq<Candidate>, x: ItemId): (b: Score)
    requires x in Project(c)
    ensures Candidate(x, b) in c
    ensures forall i :: 0 <= i < |c| && c[i].item == x ==> c[i].score <= b
  {
    assert forall i :: 1 <= i < |c| ==> Project(c[1..])[i - 1] == c[i].item;
    if c[0].item != x then
      BestScore(c[1..], x)
    else if x !in Project(c[1..]) then
      c[0].score
    else
      var b' := BestScore(c[1..], x);
      if c[0].score >= b' then c[0].score else b'
  }

  /** The identifiers after sorting, in rank order and without repeats
      (`dedup_ids(combined)` before the final slice). */
  function Ranked(c: seq<Candidate>): (r: seq<ItemId>)
    ensures NoDuplicates(r)
    ensures |r| <= |c|
  {
    Dedup(Project(SortByScoreDesc(c)))
  }

  /** In the sorted list, the first occurrence of an item carries its best
      score: this is why deduplicating after sorting keeps the best one. */
  lemma FirstOccurrenceIsBest(c: seq<Candidate>, x: ItemId)
    requires x in Project(SortByScoreDesc(c))
    ensures x in Project(c)
    ensures var l := SortByScoreDesc(c);
      l[FirstIndex(Project(l), x)].score == BestScore(c, x)
  {
    SortByScoreDescPermutes(c);
    SortByScoreDescSorted(c);
    FirstInSortedIsBest(c, SortByScoreDesc(c), x);
  }

  /** The same for any score-descending permutation `l` of `c`. */
  lemma FirstInSortedIsBest(c: seq<Candidate>, l: seq<Candidate>, x: ItemId)
    requires SortedByScoreDesc(l) && multiset(l) == multiset(c)
    requires x in Project(l)
    ensures x in Project(c)
    ensures l[FirstIndex(Project(l), x)].score == BestScore(c, x)
  {
    FirstAtMostBest(c, l, x);
    var b := BestScore(c, x);
    assert Candidate(x, b) in multiset(c);
    FirstAtLeast(l, Project(l), x, b);
  }

  /** Every candidate of a permutation of `c` scores at most its item's best. */
  lemma FirstAtMostBest(c: seq<Candidate>, l: seq<Candidate>, x: ItemId)
    requires multiset(l) == multiset(c)
    requires x in Project(l)
    ensures x in Project(c)
    ensures l[FirstIndex(Project(l), x)].score <= BestScore(c, x)
  {
    var p := FirstIndex(Project(l), x);
    assert l[p].item == x;
    assert l[p] in multiset(l);
    var i: nat :| i < |c| && c[i] == l[p];
    assert Project(c)[i] == x;
  }

  /** In a score-descending order, nothing after the first occurrence of an
      item outscores it; `ids` is the order's item column. */
  lemma FirstAtLeast(l: seq<Candidate>, ids: seq<ItemId>, x: ItemId, b: Score)
    requires |ids| == |l| && forall i :: 0 <= i < |l| ==> ids[i] == l[i].item
    requires SortedByScoreDesc(l) && Candidate(x, b) in l
    ensures x in ids
    ensures l[FirstIndex(ids, x)].score >= b
  {
    var j: nat :| j < |l| && l[j] == Candidate(x, b);
    assert ids[j] == x;
    var p := FirstIndex(ids, x);
    assert p <= j;
  }

  /** Sorting and deduplicating keeps exactly the items of the candidates. */
  lemma RankedMembers(c: seq<Candidate>)
    ensures forall x :: x in Ranked(c) <==> x in Project(c)
  {
    var l := SortByScoreDesc(c);
    SortByScoreDescSorted(c);
    SortByScoreDescPermutes(c);
    var p := Project(l);
    forall x | x in p
      ensures x in Project(c)
    {
      FirstOccurrenceIsBest(c, x);
    }
    forall x | x in Project(c)
      ensures x in p
    {
      var i :| 0 <= i < |c| && Project(c)[i] == x;
      assert c[i] in multiset(l);
      var j :| 0 <= j < |l| && l[j] == c[i];
      assert p[j] == x;
    }
  }

  /** The ranked ids are exactly the distinct ids of the candidates, each once,
      in order of non-increasing best score. */
  lemma RankedByBestScore(c: seq<Candidate>)
    ensures forall x :: x in Ranked(c) <==> x in Project(c)
    ensures NoDuplicates(Ranked(c))
    ensures forall i, j :: 0 <= i < j < |Ranked(c)| ==>
      BestScore(c, Ranked(c)[i]) >= BestScore(c, Ranked(c)[j])
  {
    RankedMembers(c);
    var l := SortByScoreDesc(c);
    SortByScoreDescSorted(c);
    var p := Project(l);
    var r := Ranked(c);
    DedupInFirstOccurrenceOrder(p);
    forall i, j | 0 <= i < j < |r|
      ensures BestScore(c, r[i]) >= BestScore(c, r[j])
    {
      FirstOccurrenceIsBest(c, r[i]);
      FirstOccurrenceIsBest(c, r[j]);
      assert FirstIndex(p, r[i]) < FirstIndex(p, r[j]);
    }
  }

  /** A prefix of a best-score ranking is itself ranked and is a top list:
      nothing after it scores higher than anything in it. */
  lemma RankedPrefix(c: seq<Candidate>, r: seq<ItemId>, n: nat)
    requires n <= |r|
    requires NoDuplicates(r)
    requires forall x :: x in r <==> x in Project(c)
    requires forall i, j :: 0 <= i < j < |r| ==> BestScore(c, r[i]) >= BestScore(c, r[j])
    ensures NoDuplicates(r[..n])
    ensures forall x :: x in r[..n] ==> x in Project(c)
    ensures forall i, j :: 0 <= i < j < n ==> BestScore(c, r[..n][i]) >= BestScore(c, r[..n][j])
    ensures forall x, y :: x in Project(c) && x !in r[..n] && y in r[..n] ==>
      BestScore(c, x) <= BestScore(c, y)
  {
    var p := r[..n];
    assert forall j :: 0 <= j < n ==> p[j] == r[j];
    forall x, y | x in Project(c) && x !in p && y in p
      ensures BestScore(c, x) <= BestScore(c, y)
    {
      var jx :| 0 <= jx < |r| && r[jx] == x;
      var jy :| 0 <= jy < n && p[jy] == y;
      assert jx >= n;
    }
  }

  /** `dedup_ids(combined)[:k]`: no repeats, at most `k` items for `k >= 0`,
      only candidate items, ranked by best score, and never an item left out
      that scores higher than one kept; with fewer than `k` results, every
      candidate item is there. */
  lemma TopRanked(c: seq<Candidate>, k: int)
    ensures NoDuplicates(Take(Ranked(c), k))
    ensures 0 <= k ==> |Take(Ranked(c), k)| <= k
    ensures forall x :: x in Take(Ranked(c), k) ==> x in Project(c)
    ensures forall i, j :: 0 <= i < j < |Take(Ranked(c), k)| ==>
      BestScore(c, Take(Ranked(c), k)[i]) >= BestScore(c, Take(Ranked(c), k)[j])
    ensures forall x, y :: x in Project(c) && x !in Take(Ranked(c), k) && y in Take(Ranked(c), k) ==>
      BestScore(c, x) <= BestScore(c, y)
    ensures 0 <= k && |Take(Ranked(c), k)| < k ==> forall x :: x in Project(c) ==> x in Take(Ranked(c), k)
  {
    var r := Ranked(c);
    var recs := Take(r, k);
    RankedByBestScore(c);
    assert recs == r[..|recs|];
    RankedPrefix(c, r, |recs|);
    if 0 <= k && |recs| < k {
      assert recs == r;
    }
  }
}
