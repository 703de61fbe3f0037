# Recommendation service: a verified model

This project models in Dafny the core of a small recommendation service. There are two request paths.

- **Precomputed path.** A `Recommendations` store holds two tables: a personal table indexed by user and a default (top items) list. `get(user_id, k)` serves the user's own list when the user has two or more rows in the personal table (see below for a single row). When the user is absent it falls back to the default list. It returns an empty list on any other fault. Each served list is cut with Python's `[:k]`, and the store counts how many requests each table served.
- **Online path.** `recommendations_online(user_id, k)` asks an events service for the user's three most recent events. It asks a similarity service for three similar items of each event, accumulating the item ids and the scores in two lists. It then zips the two lists, sorts the pairs by score in descending order (stable), keeps the ids, removes later repeats with `dedup_ids`, and cuts the result to `k`.

## Modules

- `Slices` (`slices.dfy`) models Python's `s[:k]`, including a negative `k`.
- `Deduplication` (`dedup.dfy`) has two parts:
  - `Dedup`, the reference meaning of `dedup_ids`, with its characterisation: no repeats, same elements, first-occurrence order, unique, idempotent;
  - `DedupIds`, the loop with its `seen` set, proved equal to `Dedup`.
- `Store` (`store.dfy`) is the `Recommendations` class. Its fields are the two tables and the two counters, plus a ghost log of which branch served each request. The invariant `Valid` says each counter equals the number of requests its table served.
- `Ranking` (`ranking.dfy`) covers `zip`, the stable descending sort, the projection onto ids, the best score of an item, and `Ranked`. `Ranked` sorts, projects and deduplicates, and the module proves what that ranking means.
- `Online` (`online.dfy`) covers the handler:
  - `Recommend` is the reply as a function of the two services;
  - `Gather` is the loop over the events;
  - `LookUpSimilar` and `RecommendationsOnline` are the loops as methods, proved against those functions;
  - a worked example.

## How the code's behaviour is modelled

- **`[:k]` with negative `k`.** `k == 0` gives an empty list; a negative `k` drops the last `-k` items, so the list is empty once `-k >= len(s)`; the model follows the code (`Slices.Take`).
- **`get` with the default table unset.** With the personal table loaded and the default table never loaded, a user absent from the personal table raises `KeyError`. Its handler then subscripts `None`, and the `TypeError` this raises is not caught by the bare `except` that follows. The model's reply is `Raised` and no counter moves.
- **`get` for a user with a single personal row.** `.loc[user_id]` then returns that one row rather than a table, its `item_id` is a single value without `to_list()`, and the bare `except` answers `[]` with no counter moved. The personal table holds each user's `item_id` values in row order, and `LookupPersonal` decides by their number: no rows is the `KeyError` fallback, one row is this fault, and only two or more rows are served.
- **`get` with the personal table unset.** If the personal table is not loaded (`None`), the `AttributeError` is caught by the bare `except` and the reply is an empty list.
- **Failed events call.** When the events call does not return status 200, `events` is never bound and the handler fails. The model's reply is `EventsUnavailable(status)`, and no similarity call is made.
- **Failed similarity call.** When a similarity call does not return 200, the handler subscripts `None` and fails at that event, so later events are never looked up. The model's reply is `SimilarUnavailable(item, status)`. Only the calls up to and including the failing one are made.
- **Mismatched list lengths.** Items and scores are accumulated in separate lists and zipped afterwards, so a response that lists fewer scores than items shifts the pairing of every later item (`Online.MisalignedResponse`). When each response is well formed, each event keeps its own pairs (`Online.PairsPerEvent`).

## Model

| member | source | states |
|---|---|---|
| Slices.Take | recommendation_service.py:36 | `s[:k]` is a prefix of `s`. It has `min(k, len(s))` elements for `k >= 0`, and `len(s) + k` elements (never fewer than 0) for `k < 0` |
| Slices.TakeNegativeDropsTail | recommendation_service.py:187 | a negative stop removes exactly the last `-k` elements: `s[:k] + s[len(s)+k:] == s` |
| Deduplication.FirstIndex | recommendation_service.py:135-142 | the first position of `x`: it holds `x` and no earlier position does |
| Deduplication.Dedup | recommendation_service.py:135-142 | the deduplicated list has no repeats, is no longer than the input, and holds exactly the input's elements |
| Deduplication.DedupInFirstOccurrenceOrder | recommendation_service.py:137-140 | the kept elements appear in the order of their first occurrences in the input |
| Deduplication.DedupUnique | recommendation_service.py:137-140 | any list with the input's elements in first-occurrence order is the deduplicated list, so that property characterises `dedup_ids` |
| Deduplication.DedupSnoc | recommendation_service.py:140 | a further element is kept exactly when it was not seen before |
| Deduplication.DedupOfDistinct | recommendation_service.py:135-142 | a list without repeats is returned unchanged |
| Deduplication.DedupIdempotent | recommendation_service.py:135-142 | deduplicating twice equals deduplicating once |
| Deduplication.DedupIds | recommendation_service.py:139-142 | the comprehension with its `seen` set returns exactly the reference `Dedup` of its input |
| Store.Recommendations.constructor | recommendation_service.py:11-17 | both tables unset and both counters zero, and the counting invariant holds |
| Store.Recommendations.Load | recommendation_service.py:19-28 | loading replaces the table of its kind and leaves the other table and the counters as they were |
| Store.Recommendations.Get | recommendation_service.py:30-46 | the four outcomes: a hit serves the user's list cut to `k` and counts a personal request; an absent user gets the default list cut to `k` and counts a default request; an absent user with no default table raises and counts nothing; an unset personal table or a single-row user gives `[]` and counts nothing. A hit means two or more rows, an absent user means no rows. The counting invariant is kept |
| Store.LookupPersonal | recommendation_service.py:35-44 | reading the personal table, decided by the number of the user's rows: a miss (the `KeyError` case) exactly when the table is loaded and the user has no rows; a fault (the bare `except`) exactly when the table is unset or the user has a single row; otherwise a hit carrying the user's two or more items in row order |
| Store.LookupByRowCount | recommendation_service.py:35-44 | on one table: a single-row user faults, a user with no rows or absent from the index misses, a two-row user is served both items |
| Store.OccurrencesAppend | recommendation_service.py:37-41 | logging one more request adds one to its branch's count and nothing to the others |
| Store.GetTwice | recommendation_service.py:30-46 | two identical requests against unchanged tables get the same reply and are served by the same branch |
| Ranking.Zip | recommendation_service.py:182 | `zip` pairs by position and stops at the shorter list |
| Ranking.Project | recommendation_service.py:184 | the projection keeps each pair's id, position by position |
| Ranking.InsertSorted | recommendation_service.py:183 | inserting into a score-descending list keeps it score-descending |
| Ranking.InsertMultiset | recommendation_service.py:183 | inserting adds exactly the one candidate |
| Ranking.InsertWithScore | recommendation_service.py:183 | the inserted candidate goes ahead of the candidates of equal score |
| Ranking.SortByScoreDesc | recommendation_service.py:183 | `sorted(combined, key=lambda x: x[1], reverse=True)` as an insertion sort; its contract keeps the length, and the lemmas below give sortedness, permutation, stability and uniqueness |
| Ranking.SortByScoreDescSorted | recommendation_service.py:183 | the sorted list's scores do not increase |
| Ranking.SortByScoreDescPermutes | recommendation_service.py:183 | the sorted list is a permutation of the input |
| Ranking.SortByScoreDescStable | recommendation_service.py:183 | candidates of equal score keep their input order (a stable sort with `reverse=True`) |
| Ranking.StableOrderUnique | recommendation_service.py:183 | two score-descending lists with the same equal-score orders are equal |
| Ranking.SortByScoreDescUnique | recommendation_service.py:183 | the sort's result is the one score-descending list that keeps the input's equal-score orders |
| Ranking.BestScore | recommendation_service.py:182-184 | the highest score any pair gives an item, and a pair carries it |
| Ranking.Ranked | recommendation_service.py:183-187 | sort, project and `dedup_ids` before the final slice: the ids have no repeats and are no more than the candidates |
| Ranking.FirstOccurrenceIsBest | recommendation_service.py:183-187 | after the sort, an item's first occurrence carries its best score, so deduplication keeps each item at its best score |
| Ranking.FirstInSortedIsBest | recommendation_service.py:183-187 | the same for any score-descending permutation of the pairs |
| Ranking.RankedMembers | recommendation_service.py:182-187 | the ranked ids are exactly the ids of the pairs |
| Ranking.RankedByBestScore | recommendation_service.py:182-187 | the ranked ids are distinct, cover every paired id, and come in non-increasing order of best score |
| Ranking.RankedPrefix | recommendation_service.py:187 | the first `n` ranked ids form a top list: nothing left out has a higher best score than anything kept |
| Ranking.TopRanked | recommendation_service.py:182-187 | the result:<br>• has no repeats and at most `k` items;<br>• holds only candidate items, in best-score order;<br>• never leaves out an item with a higher best score than one it keeps;<br>• holds every candidate item when it is shorter than `k` |
| Online.Gather | recommendation_service.py:165-179 | the loop over the events: a failure names one of the events, whose similarity call returned that status, which is not 200 |
| Online.Recommend | recommendation_service.py:155-189 | the handler's reply: `EventsUnavailable` exactly when the events call does not return 200, with its status; a similarity failure names one of the events and its non-200 status; a served list has no repeats and at most `k` items for `k >= 0` |
| Online.GatherFailureStops | recommendation_service.py:167-179 | after a failed similarity call the loop's outcome is fixed: later events change nothing |
| Online.GatherSucceeds | recommendation_service.py:167-179 | the loop succeeds if and only if every event's similarity call returns 200 |
| Online.GatherFailsAtFirst | recommendation_service.py:167-179 | a failure names the first event whose call did not return 200, together with that status |
| Online.GatheredItemsFromEvents | recommendation_service.py:167-179 | every accumulated item is a similar item of one of the events |
| Online.ZipAppend | recommendation_service.py:178-182 | zipping concatenated lists of equal length is concatenating the zips |
| Online.PairsPerEvent | recommendation_service.py:165-182 | with well-formed responses the two lists have equal length, and their zip is each event's own pairs, events in order |
| Online.MisalignedResponse | recommendation_service.py:178-182 | a response with fewer scores than items drops a later item and pairs an id with another event's score |
| Online.RecommendRanked | recommendation_service.py:155-189 | a served online list has no repeats and at most `k` items. Each item is similar to a recent event. The list is in best-score order and is the top of the merged candidates |
| Online.RecommendNoEvents | recommendation_service.py:161-189 | a user with no recent events gets `[]` |
| Online.ExampleGather | recommendation_service.py:165-179 | the worked example's loop accumulates `[A, B, B, C]` with scores `[9, 5, 8, 3]` |
| Online.ExampleSort | recommendation_service.py:183 | the worked example's sort puts B's 8 ahead of its 5 |
| Online.ExampleDedup | recommendation_service.py:187 | the worked example's deduplication drops the repeated B |
| Online.ExampleRanking | recommendation_service.py:182-187 | the worked example ranks `[A, B, C]` |
| Online.RecommendExample | recommendation_service.py:155-189 | events e1 (A 0.9, B 0.5) and e2 (B 0.8, C 0.3) give `[A, B, C]`, and `[A, B]` for `k = 2` |
| Online.LookUpSimilar | recommendation_service.py:165-179 | the loop returns the reference `Gather`. It calls the similarity service for the events in order and stops right after the first failed call, every earlier call having succeeded |
| Online.RecommendationsOnline | recommendation_service.py:144-189 | the handler returns the reference `Recommend`. A failed events call makes no similarity call. A served list follows one call per event. A similarity failure reports the last call made, which is the only failed one |

## Left out

- Logging and `stats()` (recommendation_service.py:48-52): they only write counters to the log, so the model keeps the counters but not the output.
- The FastAPI application, its `lifespan` hook and the `/recommendations` endpoint: they are wiring around `load` and `get`, which are modelled.
- Reading Parquet files in `load`: `Store.Recommendations.Load` receives the table already read and indexed. A `load` with a type other than `personal` or `default` is not modelled.
- The HTTP calls to the events and similarity services: they become function parameters that map a request to a status and a body. Headers, URLs and JSON decoding are not modelled, and neither is a body that lacks the expected fields.
- The older online handler kept in a string literal (recommendation_service.py:94-133): it is never executed.
- Similarity scores are floats in the service and integers here. Only their order matters to the sort; NaN is not modelled.
- The default `k = 100` of `get` and `recommendations_online` (recommendation_service.py:30, 145): every modelled call takes `k` explicitly, so a caller that omits it is the call with `k = 100`.
- Concurrent requests against the shared store: each operation is modelled as atomic.
- Store.Recommendations.Get: a personal table without the `item_id` column raises `KeyError`, which the code handles as a missing user; the model's personal table always has that column, so only a user without rows is a miss.
- Online.RecommendationsOnline: the failures of the handler (an unbound `events`, subscripting `None`) are explicit replies rather than exceptions, and the status code printed on a failed similarity call is not modelled.
