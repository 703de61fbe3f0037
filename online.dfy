/** The online path, `recommendations_online` (recommendation_service.py:144-189):
    the user's recent events, the items similar to each of them, merged,
    ranked by score, deduplicated and sliced. The event and similarity
    services are parameters: each maps a request to the response it returns. */
module Online {
  import opened Slices
  import opened Deduplication
  import opened Ranking

  type UserId = int

  /** The only status the handler treats as success. */
  const OK := 200

  /** How many recent events, and how many similar items per event, are asked
      for; the caller's `k` only slices the final list. */
  const RecentEventCount := 3
  const SimilarItemCount := 3

  /** The events service's answer: the `events` field of its body. */
  datatype EventsResponse = EventsResponse(status: int, events: seq<ItemId>)

  /** The similarity service's answer: the `item_id_2` and `score` fields. */
  datatype SimilarResponse = SimilarResponse(status: int, itemIds: seq<ItemId>, scores: seq<Score>)

  type EventsService = (UserId, int) -> EventsResponse
  type SimilarService = (ItemId, int) -> SimilarResponse

  /** The outcome of one online request. Both failures crash the handler:
      with a failed events call `events` is never bound, and with a failed
      similarity call the handler subscripts `None`. */
  datatype OnlineReply =
    | Recs(recs: seq<ItemId>)
    | EventsUnavailable(status: int)
    | SimilarUnavailable(item: ItemId, status: int)

  /** What the loop over the events has built up: the `items` and `scores`
      lists, or the first event whose similarity call failed. */
  datatype Gathered =
    | Gathered(items: seq<ItemId>, scores: seq<Score>)
    | GatherFailed(item: ItemId, status: int)

  /** The loop over `events`, one similarity call per event, in order. */
  function Gather(events: seq<ItemId>, similar: SimilarService): (g: Gathered)
    ensures g.GatherFailed? ==>
      && g.item in events
      && similar(g.item, SimilarItemCount).status == g.status
      && g.status != OK
  {
    if events == [] then Gathered([], [])
    else
      var init, last := events[..|events| - 1], events[|events| - 1];
      assert events == init + [last];
      match Gather(init, similar)
      case GatherFailed(item, status) => GatherFailed(item, status)
      case Gathered(items, scores) =>
        var resp := similar(last, SimilarItemCount);
        if resp.status == OK then Gathered(items + resp.itemIds, scores + resp.scores)
        else GatherFailed(last, resp.status)
  }

  /** The reply `recommendations_online(user_id, k)` produces. */
  function Recommend(user: UserId, k: int, eventsService: EventsService, similar: SimilarService): (r: OnlineReply)
    ensures r.EventsUnavailable? <==> eventsService(user, RecentEventCount).status != OK
    ensures r.EventsUnavailable? ==> r.status == eventsService(user, RecentEventCount).status
    ensures r.SimilarUnavailable? ==>
      && r.item in eventsService(user, RecentEventCount).events
      && similar(r.item, SimilarItemCount).status == r.status
      && r.status != OK
    ensures r.Recs? ==> NoDuplicates(r.recs) && (0 <= k ==> |r.recs| <= k)
  {
    var resp := eventsService(user, RecentEventCount);
    if resp.status != OK then EventsUnavailable(resp.status)
    else
      match Gather(resp.events, similar)
      case GatherFailed(item, status) => SimilarUnavailable(item, status)
      case Gathered(items, scores) => Recs(Take(Ranked(Zip(items, scores)), k))
  }

  /** Once a prefix of the events has failed, the whole loop has failed the
      same way: later events are never looked up. */
  lemma {:induction false} GatherFailureStops(events: seq<ItemId>, similar: SimilarService, n: nat)
    requires n <= |events|
    requires Gather(events[..n], similar).GatherFailed?
    ensures Gather(events, similar) == Gather(events[..n], similar)
    decreases |events| - n
  {
    if n < |events| {
      assert events[..n + 1][..n] == events[..n];
      GatherFailureStops(events, similar, n + 1);
    } else {
      assert events[..n] == events;
    }
  }

  /** The loop succeeds exactly when every similarity call does. */
  lemma {:induction false} GatherSucceeds(events: seq<ItemId>, similar: SimilarService)
    ensures Gather(events, similar).Gathered? <==>
      forall i :: 0 <= i < |events| ==> similar(events[i], SimilarItemCount).status == OK
  {
    if events != [] {
      var init := events[..|events| - 1];
      GatherSucceeds(init, similar);
      assert forall i :: 0 <= i < |init| ==> init[i] == events[i];
    }
  }

  /** On failure, the reported event is the first whose call failed. */
  lemma {:induction false} GatherFailsAtFirst(events: seq<ItemId>, similar: SimilarService)
    requires Gather(events, similar).GatherFailed?
    ensures exists n ::
      && 0 <= n < |events|
      && events[n] == Gather(events, similar).item
      && similar(events[n], SimilarItemCount).status == Gather(events, similar).status
      && Gather(events, similar).status != OK
      && forall i :: 0 <= i < n ==> similar(events[i], SimilarItemCount).status == OK
  {
    var init := events[..|events| - 1];
    assert forall i :: 0 <= i < |init| ==> init[i] == events[i];
    if Gather(init, similar).GatherFailed? {
      GatherFailsAtFirst(init, similar);
      var n :|
        && 0 <= n < |init|
        && init[n] == Gather(init, similar).item
        && similar(init[n], SimilarItemCount).status == Gather(init, similar).status
        && Gather(init, similar).status != OK
        && forall i :: 0 <= i < n ==> similar(init[i], SimilarItemCount).status == OK;
      assert events[n] == init[n];
    } else {
      GatherSucceeds(init, similar);
      assert similar(events[|events| - 1], SimilarItemCount).status != OK;
    }
  }

  /** Every accumulated item came from some event's similar-items list. */
  lemma {:induction false} GatheredItemsFromEvents(events: seq<ItemId>, similar: SimilarService)
    requires Gather(events, similar).Gathered?
    ensures forall x :: x in Gather(events, similar).items ==>
      exists e :: e in events && x in similar(e, SimilarItemCount).itemIds
  {
    if events != [] {
      var init, last := events[..|events| - 1], events[|events| - 1];
      GatheredItemsFromEvents(init, similar);
      forall x | x in Gather(events, similar).items
        ensures exists e :: e in events && x in similar(e, SimilarItemCount).itemIds
      {
        if x in Gather(init, similar).items {
          var e :| e in init && x in similar(e, SimilarItemCount).itemIds;
          assert e in events;
        } else {
          assert last in events;
        }
      }
    }
  }

  /** The candidates one event contributes, each (item, score) pair in the
      order its similarity response lists them. */
  function EventCandidates(events: seq<ItemId>, similar: SimilarService): seq<Candidate> {
    if events == [] then []
    else
      var resp := similar(events[|events| - 1], SimilarItemCount);
      EventCandidates(events[..|events| - 1], similar) + Zip(resp.itemIds, resp.scores)
  }

  /** Every response lists as many scores as item ids. */
  ghost predicate WellFormedResponses(events: seq<ItemId>, similar: SimilarService) {
    forall e :: e in events ==>
      |similar(e, SimilarItemCount).itemIds| == |similar(e, SimilarItemCount).scores|
  }

  lemma {:induction false} ZipAppend(a: seq<ItemId>, b: seq<Score>, a': seq<ItemId>, b': seq<Score>)
    requires |a| == |b|
    ensures Zip(a + a', b + b') == Zip(a, b) + Zip(a', b')
  {
    var l, r := Zip(a + a', b + b'), Zip(a, b) + Zip(a', b');
    assert |l| == |r|;
    forall i | 0 <= i < |l|
      ensures l[i] == r[i]
    {
      if i >= |a| {
        assert (a + a')[i] == a'[i - |a|] && (b + b')[i] == b'[i - |b|];
      }
    }
  }

  /** With well-formed responses, zipping the two accumulated lists gives each
      event's own pairs, events in order: every score stays with its item. */
  lemma {:induction false} PairsPerEvent(events: seq<ItemId>, similar: SimilarService)
    requires Gather(events, similar).Gathered?
    requires WellFormedResponses(events, similar)
    ensures |Gather(events, similar).items| == |Gather(events, similar).scores|
    ensures Zip(Gather(events, similar).items, Gather(events, similar).scores) ==
      EventCandidates(events, similar)
  {
    if events != [] {
      var init, last := events[..|events| - 1], events[|events| - 1];
      assert forall e :: e in init ==> e in events;
      PairsPerEvent(init, similar);
      var g, resp := Gather(init, similar), similar(last, SimilarItemCount);
      assert last in events;
      ZipAppend(g.items, g.scores, resp.itemIds, resp.scores);
    }
  }

  /** When one response lists fewer scores than items, the two lists drift
      apart: here the second event's item `30` is dropped and item `20` of
      the first event is paired with the second event's score. */
  lemma MisalignedResponse()
    ensures var similar := (item: ItemId, n: int) =>
        if item == 1 then SimilarResponse(OK, [10, 20], [9])
        else SimilarResponse(OK, [30], [5]);
      var g := Gather([1, 2], similar);
      g == Gathered([10, 20, 30], [9, 5]) &&
      Zip(g.items, g.scores) == [Candidate(10, 9), Candidate(20, 5)]
  {
    var similar := (item: ItemId, n: int) =>
      if item == 1 then SimilarResponse(OK, [10, 20], [9])
      else SimilarResponse(OK, [30], [5]);
    assert [1, 2][..1] == [1];
    assert [1][..0] == [];
    var z := Zip([10, 20, 30], [9, 5]);
    assert z[0] == Candidate(10, 9) && z[1] == Candidate(20, 5);
  }

  /** What a served online list is: no repeats, at most `k` items for
      `k >= 0`, every item taken from the similar items of some event,
      ranked by each item's best score, and no higher-scored candidate left
      out in favour of a lower one. */
  lemma RecommendRanked(user: UserId, k: int, eventsService: EventsService, similar: SimilarService)
    requires Recommend(user, k, eventsService, similar).Recs?
    ensures var events := eventsService(user, RecentEventCount).events;
      var g := Gather(events, similar);
      var c := Zip(g.items, g.scores);
      var recs := Recommend(user, k, eventsService, similar).recs;
      && g.Gathered?
      && recs == Take(Ranked(c), k)
      && NoDuplicates(recs)
      && (0 <= k ==> |recs| <= k)
      && (forall x :: x in recs ==> exists e :: e in events && x in similar(e, SimilarItemCount).itemIds)
      && (forall x :: x in recs ==> x in Project(c))
      && (forall i, j :: 0 <= i < j < |recs| ==> BestScore(c, recs[i]) >= BestScore(c, recs[j]))
      && (forall x, y :: x in Project(c) && x !in recs && y in recs ==> BestScore(c, x) <= BestScore(c, y))
  {
    var events := eventsService(user, RecentEventCount).events;
    var g := Gather(events, similar);
    var c := Zip(g.items, g.scores);
    TopRanked(c, k);
    GatheredItemsFromEvents(events, similar);
    forall x | x in Project(c)
      ensures x in g.items
    {
      var i :| 0 <= i < |c| && Project(c)[i] == x;
    }
  }

  /** A user with no recent events gets an empty list. */
  lemma RecommendNoEvents(user: UserId, k: int, eventsService: EventsService, similar: SimilarService)
    requires eventsService(user, RecentEventCount) == EventsResponse(OK, [])
    ensures Recommend(user, k, eventsService, similar) == Recs([])
  {
    assert Ranked(Zip([], [])) == [];
  }

  /** The sort in the worked example below: B's 0.8 moves ahead of its 0.5. */
  lemma ExampleSort()
    ensures SortByScoreDesc([Candidate(1, 9), Candidate(2, 5), Candidate(2, 8), Candidate(3, 3)])
      == [Candidate(1, 9), Candidate(2, 8), Candidate(2, 5), Candidate(3, 3)]
  {
    var a, b5, b8, c3 := Candidate(1, 9), Candidate(2, 5), Candidate(2, 8), Candidate(3, 3);
    assert SortByScoreDesc([c3]) == [c3];
    assert SortByScoreDesc([b8, c3]) == Insert(b8, [c3]) == [b8, c3];
    assert SortByScoreDesc([b5, b8, c3]) == Insert(b5, [b8, c3]) == [b8, b5, c3];
    assert [a, b5, b8, c3][1..] == [b5, b8, c3];
  }

  /** The repeated B is dropped. */
  lemma ExampleDedupRepeat()
    ensures Dedup([1, 2, 2]) == [1, 2]
  {
    DedupOfDistinct([1, 2]);
    DedupSnoc([1, 2], 2);
    assert [1, 2] + [2] == [1, 2, 2];
  }

  /** The deduplication in the worked example: B is kept once. */
  lemma ExampleDedup()
    ensures Dedup([1, 2, 2, 3]) == [1, 2, 3]
  {
    ExampleDedupRepeat();
    DedupSnoc([1, 2, 2], 3);
    assert [1, 2, 2] + [3] == [1, 2, 2, 3];
  }

  /** The services of the worked example below: two recent events, 100 and
      200, with the similar items A = 1, B = 2 and C = 3. */
  function ExampleEvents(user: UserId, count: int): EventsResponse {
    EventsResponse(OK, [100, 200])
  }

  function ExampleSimilar(item: ItemId, count: int): SimilarResponse {
    if item == 100 then SimilarResponse(OK, [1, 2], [9, 5])
    else SimilarResponse(OK, [2, 3], [8, 3])
  }

  /** The similarity loop of the worked example. */
  lemma ExampleGather()
    ensures Gather([100, 200], ExampleSimilar) == Gathered([1, 2, 2, 3], [9, 5, 8, 3])
  {
    assert [100, 200][..1] == [100] && [100][..0] == [];
    assert Gather([100], ExampleSimilar) == Gathered([1, 2], [9, 5]);
  }

  /** The ranking of the worked example: B is kept once, at its higher score. */
  lemma ExampleRanking()
    ensures Ranked(Zip([1, 2, 2, 3], [9, 5, 8, 3])) == [1, 2, 3]
  {
    assert Zip([1, 2, 2, 3], [9, 5, 8, 3]) ==
      [Candidate(1, 9), Candidate(2, 5), Candidate(2, 8), Candidate(3, 3)];
    ExampleSort();
    assert Project([Candidate(1, 9), Candidate(2, 8), Candidate(2, 5), Candidate(3, 3)]) == [1, 2, 2, 3];
    ExampleDedup();
  }

  /** Once the events call and the similarity loop have succeeded, the reply
      is the ranked merge of what the loop gathered, cut to `k`. */
  lemma RecommendGathered(user: UserId, k: int, eventsService: EventsService, similar: SimilarService,
                          items: seq<ItemId>, scores: seq<Score>)
    requires eventsService(user, RecentEventCount).status == OK
    requires Gather(eventsService(user, RecentEventCount).events, similar) == Gathered(items, scores)
    ensures Recommend(user, k, eventsService, similar) == Recs(Take(Ranked(Zip(items, scores)), k))
  {
  }

  /** The worked example's ranking cut to 100 and to 2 items. */
  lemma ExampleTop()
    ensures Take(Ranked(Zip([1, 2, 2, 3], [9, 5, 8, 3])), 100) == [1, 2, 3]
    ensures Take(Ranked(Zip([1, 2, 2, 3], [9, 5, 8, 3])), 2) == [1, 2]
  {
    ExampleRanking();
  }

  /** The reply of the worked example before its ranking is worked out. */
  lemma ExampleReply(k: int)
    ensures Recommend(7, k, ExampleEvents, ExampleSimilar) == Recs(Take(Ranked(Zip([1, 2, 2, 3], [9, 5, 8, 3])), k))
  {
    assert ExampleEvents(7, RecentEventCount) == EventsResponse(OK, [100, 200]);
    ExampleGather();
    RecommendGathered(7, k, ExampleEvents, ExampleSimilar, [1, 2, 2, 3], [9, 5, 8, 3]);
  }

  /** The worked example: events [e1, e2], e1 similar to A (0.9) and B (0.5),
      e2 similar to B (0.8) and C (0.3), give [A, B, C], and [A, B] for k = 2. */
  lemma RecommendExample()
    ensures Recommend(7, 100, ExampleEvents, ExampleSimilar) == Recs([1, 2, 3])
    ensures Recommend(7, 2, ExampleEvents, ExampleSimilar) == Recs([1, 2])
  {
    ExampleReply(100);
    ExampleReply(2);
    ExampleTop();
  }

  /** The handler's loop over the events: one similarity call per event, in
      order, stopping at the first failed call. `lookups` is the sequence of
      calls made. */
  method LookUpSimilar(events: seq<ItemId>, similar: SimilarService)
    returns (gathered: Gathered, lookups: seq<ItemId>)
    ensures gathered == Gather(events, similar)
    ensures lookups <= events
    ensures gathered.Gathered? ==> lookups == events
    ensures gathered.GatherFailed? ==>
      && lookups != [] && lookups[|lookups| - 1] == gathered.item
      && similar(gathered.item, SimilarItemCount).status == gathered.status != OK
      && forall i :: 0 <= i < |lookups| - 1 ==> similar(lookups[i], SimilarItemCount).status == OK
  {
    var items: seq<ItemId> := [];
    var scores: seq<Score> := [];
    lookups := [];
    for i := 0 to |events|
      invariant lookups == events[..i]
      invariant Gather(events[..i], similar) == Gathered(items, scores)
      invariant forall j :: 0 <= j < i ==> similar(events[j], SimilarItemCount).status == OK
    {
      var answer := similar(events[i], SimilarItemCount);
      lookups := lookups + [events[i]];
      assert events[..i + 1][..i] == events[..i];
      if answer.status != OK {
        assert Gather(events[..i + 1], similar) == GatherFailed(events[i], answer.status);
        GatherFailureStops(events, similar, i + 1);
        assert forall j :: 0 <= j < |lookups| ==> lookups[j] == events[j];
        return GatherFailed(events[i], answer.status), lookups;
      }
      items := items + answer.itemIds;
      scores := scores + answer.scores;
    }
    assert events[..|events|] == events;
    gathered := Gathered(items, scores);
  }

  /** The handler: fetch the events, look up each event's similar items, then
      rank, deduplicate and slice. `lookups` is the sequence of similarity
      calls made. */
  method RecommendationsOnline(user: UserId, k: int, eventsService: EventsService, similar: SimilarService)
    returns (reply: OnlineReply, lookups: seq<ItemId>)
    ensures reply == Recommend(user, k, eventsService, similar)
    ensures eventsService(user, RecentEventCount).status != OK ==> lookups == []
    ensures lookups <= eventsService(user, RecentEventCount).events
    ensures reply.Recs? ==> lookups == eventsService(user, RecentEventCount).events
    ensures reply.SimilarUnavailable? ==>
      && lookups != [] && lookups[|lookups| - 1] == reply.item
      && similar(reply.item, SimilarItemCount).status == reply.status != OK
      && forall i :: 0 <= i < |lookups| - 1 ==> similar(lookups[i], SimilarItemCount).status == OK
  {
    var resp := eventsService(user, RecentEventCount);
    if resp.status != OK {
      return EventsUnavailable(resp.status), [];
    }
    var gathered;
    gathered, lookups := LookUpSimilar(resp.events, similar);
    match gathered {
      case GatherFailed(item, status) =>
        reply := SimilarUnavailable(item, status);
      case Gathered(items, scores) =>
        var ranked := Project(SortByScoreDesc(Zip(items, scores)));
        var deduped := DedupIds(ranked);
        reply := Recs(Take(deduped, k));
    }
  }
}
