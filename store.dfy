/**
 * The SQLite store of the game feed as an object with three tables and
 * their AUTOINCREMENT counters, and the operations of `store_cfb_data` that
 * read and insert rows in place.
 */
module CfbStore {
  import opened Wrappers
  import opened Normalizer
  import opened Dimension
  import opened Sync

  class Store {
    /** `opponents(id, name UNIQUE)` */
    var opponents: seq<Row>
    var nextOpponentId: int
    /** `dates(id, day)`, with `day` unique */
    var dates: seq<Row>
    var nextDateId: int
    /** `cfb_games(id, date_id, opponent_id, points_for, points_against, home)` */
    var cfbGames: seq<GameRow>
    var nextGameId: int

    /** The store as a value. */
    function State(): Db
      reads this
    {
      Db(Dims(opponents, nextOpponentId, dates, nextDateId), cfbGames, nextGameId)
    }

    /** Unique natural keys, ordered ids below the counters, and every game row's references resolve. */
    predicate Valid()
      reads this
    {
      DbValid(State())
    }

    /**
     * A database where `create_opponent_table` and the `cfb_games` CREATE have
     * just made both tables, and whose `dates` table already holds `initialDates`.
     */
    constructor (initialDates: seq<Row>, nextDate: int)
      requires WellFormed(initialDates, nextDate)
      ensures Valid()
      ensures opponents == [] && nextOpponentId == 1
      ensures dates == initialDates && nextDateId == nextDate
      ensures cfbGames == [] && nextGameId == 1
    {
      opponents, nextOpponentId := [], 1;
      dates, nextDateId := initialDates, nextDate;
      cfbGames, nextGameId := [], 1;
    }

    /**
     * `get_opponent_id`: the id of the opponent named `name`, inserting a row
     * with the next id when there is none.
     */
    method GetOpponentId(name: string) returns (id: int)
      requires Valid()
      modifies this`opponents, this`nextOpponentId
      ensures Valid()
      ensures Resolved(opponents, nextOpponentId, id) == GetOrInsert(old(opponents), old(nextOpponentId), name)
      ensures old(Lookup(opponents, name)).Some? ==> id == old(Lookup(opponents, name)).value && opponents == old(opponents)
      ensures old(Lookup(opponents, name)).None? ==>
        opponents == old(opponents) + [Row(id, name)] && id == old(nextOpponentId) && nextOpponentId == id + 1
    {
      var row := Lookup(opponents, name);
      if row.Some? {
        id := row.value;
        return;
      }
      id := nextOpponentId;
      opponents := opponents + [Row(id, name)];
      nextOpponentId := nextOpponentId + 1;
      DimsGrowthKeepsValid(old(State()), State().dims);
    }

    /** `get_date_id`: the id of the `dates` row for `day`, or None; it never inserts. */
    method GetDateId(day: string) returns (id: Option<int>)
      requires Valid()
      ensures id.None? <==> forall i :: 0 <= i < |dates| ==> dates[i].key != day
      ensures id.Some? ==> KeyOf(dates, id.value) == Some(day)
      ensures id == Lookup(dates, day)
    {
      id := Lookup(dates, day);
      if id.Some? {
        KeyOfLookup(dates, nextDateId, day);
      }
    }

    /** The insert of a missing day into `dates`, and the `lastrowid` it produces. */
    method InsertDate(day: string) returns (id: int)
      requires Valid()
      requires Lookup(dates, day).None?
      modifies this`dates, this`nextDateId
      ensures Valid()
      ensures dates == old(dates) + [Row(id, day)] && id == old(nextDateId) && nextDateId == id + 1
      ensures Lookup(dates, day) == Some(id)
    {
      id := nextDateId;
      dates := dates + [Row(id, day)];
      nextDateId := nextDateId + 1;
      assert GetOrInsert(old(dates), old(nextDateId), day) == Resolved(dates, nextDateId, id);
      DimsGrowthKeepsValid(old(State()), State().dims);
    }

    /**
     * The loop building `remaining`: the candidates whose 5-tuple is not in
     * `existing`, in order.
     */
    static method NoveltyFilter(games: seq<Game>, existing: set<Game>) returns (remaining: seq<Game>)
      ensures remaining == FilterNew(games, existing)
    {
      remaining := [];
      for i := 0 to |games|
        invariant remaining == FilterNew(games[..i], existing)
      {
        var g := games[i];
        assert games[..i + 1] == games[..i] + [g];
        FilterNewSnoc(games[..i], g, existing);
        if g !in existing {
          remaining := remaining + [g];
        }
      }
      assert games[..|games|] == games;
    }

    /**
     * The body of the `for g in batch` loop: `get_opponent_id`, then
     * `get_date_id` and, when the day is missing, its insert; the tuple for
     * `inserts`.
     */
    method ResolveOne(g: Game) returns (f: Fact)
      requires Valid()
      modifies this`opponents, this`nextOpponentId, this`dates, this`nextDateId
      ensures Valid()
      ensures (State().dims, f) == ResolveGame(old(State()).dims, g)
    {
      var opponentId := GetOpponentId(g.opponent);
      var dateId := ResolveDateId(g.date);
      f := Fact(dateId, opponentId, g.pointsFor, g.pointsAgainst, g.home);
    }

    /** `get_date_id`, then the insert of the day when it is missing: get-or-insert on `dates`. */
    method ResolveDateId(day: string) returns (id: int)
      requires Valid()
      modifies this`dates, this`nextDateId
      ensures Valid()
      ensures Resolved(dates, nextDateId, id) == GetOrInsert(old(dates), old(nextDateId), day)
    {
      var found := GetDateId(day);
      if found.None? {
        id := InsertDate(day);
      } else {
        id := found.value;
      }
    }

    /**
     * The `for g in batch` loop: resolve each game's opponent and date,
     * inserting missing dimension rows, and collect the `inserts` tuples.
     */
    method ResolveKeys(batch: seq<Game>) returns (inserts: seq<Fact>)
      requires Valid()
      modifies this`opponents, this`nextOpponentId, this`dates, this`nextDateId
      ensures Valid()
      ensures (State().dims, inserts) == ResolveBatch(old(State()).dims, batch)
    {
      inserts := [];
      for i := 0 to |batch|
        invariant Valid()
        invariant (State().dims, inserts) == ResolveBatch(old(State()).dims, batch[..i])
      {
        var g := batch[i];
        PrefixSnoc(batch, i);
        ResolveBatchSnoc(old(State()).dims, batch[..i], g);
        var f := ResolveOne(g);
        inserts := inserts + [f];
      }
      assert batch[..|batch|] == batch;
    }

    /**
     * The body of `store_cfb_data` after its CREATE statements, given the set
     * `existing` of 5-tuples its novelty filter compares against: filter,
     * keep the first 25, resolve each game's keys, bulk-insert, return the batch.
     */
    method Sync(games: seq<Game>, existing: set<Game>) returns (batch: seq<Game>)
      requires Valid()
      modifies this
      ensures Valid()
      ensures Outcome(State(), batch) == SyncStep(old(State()), games, existing)
    {
      ghost var start := State();
      ghost var expected := SyncStep(start, games, existing);
      SyncStepStages(start, games, existing);
      var remaining := NoveltyFilter(games, existing);
      batch := remaining[..Min(BatchSize, |remaining|)];
      ghost var resolved := ResolveBatch(start.dims, batch);
      assert expected == Outcome(Db(resolved.0, start.games + NumberRows(start.nextGameId, resolved.1),
                                    start.nextGameId + |resolved.1|), batch);
      var inserts := ResolveKeys(batch);
      assert State().dims == resolved.0 && inserts == resolved.1;
      AppendGames(inserts);
      assert State() == expected.db;
    }

    /** The `executemany` bulk insert, skipped when there is nothing to insert. */
    method AppendGames(inserts: seq<Fact>)
      modifies this`cfbGames, this`nextGameId
      ensures cfbGames == old(cfbGames) + NumberRows(old(nextGameId), inserts)
      ensures nextGameId == old(nextGameId) + |inserts|
    {
      if inserts != [] {
        cfbGames := cfbGames + NumberRows(nextGameId, inserts);
        nextGameId := nextGameId + |inserts|;
      } else {
        assert cfbGames + NumberRows(nextGameId, inserts) == cfbGames;
      }
    }

    /**
     * `store_cfb_data` as written: the rows it reads back to build its set of
     * stored games come from a CREATE TABLE statement, so that set is always
     * empty and every call stores the first 25 candidates again.
     */
    method StoreCfbData(games: seq<Game>) returns (batch: seq<Game>)
      requires Valid()
      modifies this
      ensures Valid()
      ensures Outcome(State(), batch) == SyncStep(old(State()), games, {})
      ensures batch == games[..Min(BatchSize, |games|)]
      ensures old(opponents) <= opponents && old(dates) <= dates && old(cfbGames) <= cfbGames
      ensures |cfbGames| == |old(cfbGames)| + |batch|
      ensures Joined(State().dims, cfbGames) == Joined(old(State()).dims, old(cfbGames)) + batch
    {
      var gamesDb: set<Game> := {};
      batch := Sync(games, gamesDb);
      FilterNewNothingStored(games);
      SyncStepStores(old(State()), games, {});
    }

    /**
     * `store_cfb_data` as intended: the novelty filter compares against the
     * games already stored, recovered by joining `cfb_games` back to `dates`
     * and `opponents`.
     */
    method StoreNewCfbData(games: seq<Game>) returns (batch: seq<Game>)
      requires Valid()
      modifies this
      ensures Valid()
      ensures Outcome(State(), batch) == SyncStep(old(State()), games, Stored(old(State())))
      ensures forall g :: g in batch ==> g in games && g !in Stored(old(State()))
      ensures old(opponents) <= opponents && old(dates) <= dates && old(cfbGames) <= cfbGames
      ensures Joined(State().dims, cfbGames) == Joined(old(State()).dims, old(cfbGames)) + batch
    {
      var stored := Stored(State());
      batch := Sync(games, stored);
      IntendedBatchIsNew(old(State()), games);
      SyncStepStores(old(State()), games, stored);
    }
  }

  /** The prefix of length `i + 1` is the prefix of length `i` and one more element. */
  lemma PrefixSnoc<T>(s: seq<T>, i: nat)
    requires i < |s|
    ensures s[..i + 1] == s[..i] + [s[i]]
  {
  }
}
