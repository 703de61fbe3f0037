/** The precomputed path: the `Recommendations` store, which holds a personal
    and a default table and counts the requests each of them served
    (recommendation_service.py:9-46). */
module Store {
  import opened Slices

  type UserId = int
  type ItemId = int

  datatype Option<T> = None | Some(value: T)

  /** A table as `load` leaves it in memory: the personal table indexed by
      user, holding each user's `item_id` column in row order, or the single
      default list. */
  datatype Table = Personal(rows: map<UserId, seq<ItemId>>) | Default(items: seq<ItemId>)

  /** The `item_id` values of `user`'s rows; a user the index lacks has none. */
  function UserRows(rows: map<UserId, seq<ItemId>>, user: UserId): seq<ItemId> {
    if user in rows then rows[user] else []
  }

  /** The three outcomes of reading the personal table. */
  datatype Lookup = Hit(items: seq<ItemId>) | Miss | Fault

  /** What `get` hands back: a list, or an exception that escapes it. */
  datatype Reply = Served(recs: seq<ItemId>) | Raised

  /** Which branch of `get` handled a request. */
  datatype Source = FromPersonal | FromDefault | Degraded | Escaped

  /** `self._recs["personal"].loc[user_id]["item_id"].to_list()` with its
      exceptions made explicit. An unloaded table (`None`) raises
      `AttributeError`. A user without rows raises `KeyError`, the one
      exception that means "fall back". A user with exactly one row gets that
      row alone back from pandas, whose `item_id` is a single value without
      `to_list`, so that raises `AttributeError` too. Two or more rows give
      the user's list. */
  function LookupPersonal(personal: Option<map<UserId, seq<ItemId>>>, user: UserId): (r: Lookup)
    ensures r.Miss? <==> personal.Some? && |UserRows(personal.value, user)| == 0
    ensures r.Hit? <==> personal.Some? && |UserRows(personal.value, user)| >= 2
    ensures r.Hit? ==> r.items == UserRows(personal.value, user) && |r.items| >= 2
    ensures r.Fault? <==> personal.None? || |UserRows(personal.value, user)| == 1
  {
    match personal
    case None => Fault
    case Some(rows) =>
      var items := UserRows(rows, user);
      if |items| == 0 then Miss
      else if |items| == 1 then Fault
      else Hit(items)
  }

  /** One user per row count: no rows falls back, a single row is a fault,
      two rows are served. */
  lemma LookupByRowCount()
    ensures var rows := map[5 := [42], 6 := [], 7 := [1, 2]];
      && LookupPersonal(Some(rows), 5) == Fault
      && LookupPersonal(Some(rows), 6) == Miss
      && LookupPersonal(Some(rows), 7) == Hit([1, 2])
      && LookupPersonal(Some(rows), 8) == Miss
  {
    var rows := map[5 := [42], 6 := [], 7 := [1, 2]];
    assert UserRows(rows, 5) == [42] && UserRows(rows, 6) == [] && UserRows(rows, 8) == [];
  }

  /** How many requests of `log` were handled by branch `s`. */
  function Occurrences(log: seq<Source>, s: Source): nat {
    if log == [] then 0 else (if log[0] == s then 1 else 0) + Occurrences(log[1..], s)
  }

  lemma {:induction false} OccurrencesAppend(log: seq<Source>, x: Source, s: Source)
    ensures Occurrences(log + [x], s) == Occurrences(log, s) + if x == s then 1 else 0
  {
    if log != [] {
      assert (log + [x])[1..] == log[1..] + [x];
      OccurrencesAppend(log[1..], x, s);
    }
  }

  class Recommendations {
    var personal: Option<map<UserId, seq<ItemId>>>
    var default: Option<seq<ItemId>>
    var personalCount: nat
    var defaultCount: nat
    /** Every request `get` has handled, in order. */
    ghost var served: seq<Source>

    /** Each counter is the number of requests its table served. */
    ghost predicate Valid()
      reads this
    {
      personalCount == Occurrences(served, FromPersonal) &&
      defaultCount == Occurrences(served, FromDefault)
    }

    /** `__init__`: both tables empty (`None`), both counters zero. */
    constructor ()
      ensures Valid()
      ensures personal == None && default == None
      ensures personalCount == 0 && defaultCount == 0 && served == []
    {
      personal, default := None, None;
      personalCount, defaultCount := 0, 0;
      served := [];
    }

    /** `load`, once the file is read: replaces the table of its kind and
        nothing else. */
    method Load(table: Table)
      requires Valid()
      modifies this`personal, this`default
      ensures Valid()
      ensures table.Personal? ==> personal == Some(table.rows) && default == old(default)
      ensures table.Default? ==> default == Some(table.items) && personal == old(personal)
    {
      match table
      case Personal(rows) => personal := Some(rows);
      case Default(items) => default := Some(items);
    }

    /** `get(user_id, k)`: the user's own list for a user with two or more
        rows, the default list for a user without rows, an empty list for a
        single row or an unloaded personal table; each served list
        is sliced `[:k]`, and only the counter of the table that served it
        moves. With the default table unloaded, the `TypeError` raised inside
        the `KeyError` handler is not caught by the bare `except` that
        follows it, and escapes. */
    method Get(user: UserId, k: int) returns (reply: Reply)
      requires Valid()
      modifies this`personalCount, this`defaultCount, this`served
      ensures Valid()
      ensures personal.Some? && |UserRows(personal.value, user)| >= 2 ==>
        && reply == Served(Take(UserRows(personal.value, user), k))
        && personalCount == old(personalCount) + 1 && defaultCount == old(defaultCount)
        && served == old(served) + [FromPersonal]
      ensures personal.Some? && |UserRows(personal.value, user)| == 0 && default.Some? ==>
        && reply == Served(Take(default.value, k))
        && personalCount == old(personalCount) && defaultCount == old(defaultCount) + 1
        && served == old(served) + [FromDefault]
      ensures personal.Some? && |UserRows(personal.value, user)| == 0 && default.None? ==>
        && reply == Raised
        && personalCount == old(personalCount) && defaultCount == old(defaultCount)
        && served == old(served) + [Escaped]
      ensures personal.None? || |UserRows(personal.value, user)| == 1 ==>
        && reply == Served([])
        && personalCount == old(personalCount) && defaultCount == old(defaultCount)
        && served == old(served) + [Degraded]
    {
      var source: Source;
      match LookupPersonal(personal, user) {
        case Hit(items) =>
          reply := Served(Take(items, k));
          personalCount := personalCount + 1;
          source := FromPersonal;
        case Miss =>
          if default.Some? {
            reply := Served(Take(default.value, k));
            defaultCount := defaultCount + 1;
            source := FromDefault;
          } else {
            reply := Raised;
            source := Escaped;
          }
        case Fault =>
          reply := Served([]);
          source := Degraded;
      }
      OccurrencesAppend(served, source, FromPersonal);
      OccurrencesAppend(served, source, FromDefault);
      served := served + [source];
    }
  }

  /** Two identical requests against the same tables get the same answer; only
      the counters move between them. */
  method GetTwice(store: Recommendations, user: UserId, k: int) returns (first: Reply, second: Reply)
    requires store.Valid()
    modifies store`personalCount, store`defaultCount, store`served
    ensures store.Valid()
    ensures first == second
    ensures |store.served| == |old(store.served)| + 2
    ensures store.served[|store.served| - 1] == store.served[|store.served| - 2]
  {
    first := store.Get(user, k);
    second := store.Get(user, k);
  }
}
