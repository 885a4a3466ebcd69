/**
 * The sync step of `store_cfb_data` as a state transition on values: the
 * novelty filter, the batch of at most 25 games, the resolution of each
 * game's dimension keys, and the bulk append to `cfb_games`.
 */
module Sync {
  import opened Wrappers
  import opened Normalizer
  import opened Dimension

  /** At most this many new games are stored by one call. */
  const BatchSize: nat := 25

  /** One entry of `inserts`: the values of a `cfb_games` row before it gets its id. */
  datatype Fact = Fact(dateId: int, opponentId: int, pointsFor: int, pointsAgainst: int, home: int)

  /** A row of `cfb_games`. */
  datatype GameRow = GameRow(id: int, dateId: int, opponentId: int, pointsFor: int, pointsAgainst: int, home: int)

  /** The two dimension tables with their AUTOINCREMENT counters. */
  datatype Dims = Dims(opponents: seq<Row>, nextOpponentId: int, dates: seq<Row>, nextDateId: int)

  /** The whole store: dimensions, `cfb_games` and its counter. */
  datatype Db = Db(dims: Dims, games: seq<GameRow>, nextGameId: int)

  /** What one sync step leaves behind: the new store and the batch it returned. */
  datatype Outcome = Outcome(db: Db, batch: seq<Game>)

  function Min(a: int, b: int): int {
    if a <= b then a else b
  }

  predicate DimsValid(d: Dims) {
    WellFormed(d.opponents, d.nextOpponentId) && WellFormed(d.dates, d.nextDateId)
  }

  /** `d2` keeps every row of `d1`, in place, and may have more. */
  predicate DimsExtend(d1: Dims, d2: Dims) {
    d1.opponents <= d2.opponents && d1.dates <= d2.dates
  }

  /** `cfb_games` ids are positive, below the counter and increasing. */
  predicate GamesWellFormed(rows: seq<GameRow>, next: int) {
    && 1 <= next
    && (forall i :: 0 <= i < |rows| ==> 1 <= rows[i].id < next)
    && (forall i, j :: 0 <= i < j < |rows| ==> rows[i].id < rows[j].id)
  }

  /** Referential integrity: every game row's date_id and opponent_id name an existing row. */
  predicate ReferencesResolve(d: Dims, rows: seq<GameRow>) {
    forall i :: 0 <= i < |rows| ==>
      KeyOf(d.dates, rows[i].dateId).Some? && KeyOf(d.opponents, rows[i].opponentId).Some?
  }

  predicate DbValid(db: Db) {
    DimsValid(db.dims) && GamesWellFormed(db.games, db.nextGameId) && ReferencesResolve(db.dims, db.games)
  }

  /** `row`, joined back through the dimension tables, is the game `g`. */
  predicate Joins(d: Dims, row: GameRow, g: Game) {
    && KeyOf(d.dates, row.dateId) == Some(g.date)
    && KeyOf(d.opponents, row.opponentId) == Some(g.opponent)
    && row.pointsFor == g.pointsFor && row.pointsAgainst == g.pointsAgainst && row.home == g.home
  }

  /**
   * The novelty filter: the games whose 5-tuple is not in `existing`, in
   * their original order (the loop building `remaining`).
   */
  function FilterNew(games: seq<Game>, existing: set<Game>): (remaining: seq<Game>)
    ensures |remaining| <= |games|
    decreases |games|
  {
    if games == [] then []
    else
      var init := FilterNew(games[..|games| - 1], existing);
      var last := games[|games| - 1];
      if last in existing then init else init + [last]
  }

  /** Unfolds the filter at the last candidate. */
  lemma FilterNewSnoc(games: seq<Game>, x: Game, existing: set<Game>)
    ensures FilterNew(games + [x], existing) ==
      FilterNew(games, existing) + (if x in existing then [] else [x])
  {
    assert (games + [x])[..|games|] == games;
  }

  /**
   * The filter keeps every copy of a game that is not stored and drops every
   * copy of one that is.
   */
  lemma {:induction false} FilterNewCounts(games: seq<Game>, existing: set<Game>, g: Game)
    ensures multiset(FilterNew(games, existing))[g] == if g in existing then 0 else multiset(games)[g]
    decreases |games|
  {
    if games != [] {
      var init := games[..|games| - 1];
      var last := games[|games| - 1];
      assert games == init + [last];
      FilterNewCounts(init, existing, g);
      FilterNewSnoc(init, last, existing);
    }
  }

  /** A game is kept exactly when it is a candidate and not already stored. */
  lemma FilterNewMembers(games: seq<Game>, existing: set<Game>, g: Game)
    ensures g in FilterNew(games, existing) <==> g in games && g !in existing
  {
    FilterNewCounts(games, existing, g);
    assert g in FilterNew(games, existing) <==> multiset(FilterNew(games, existing))[g] > 0;
    assert g in games <==> multiset(games)[g] > 0;
  }

  /** Filtering commutes with concatenation, so the relative order of the kept games is preserved. */
  lemma {:induction false} FilterNewConcat(a: seq<Game>, b: seq<Game>, existing: set<Game>)
    ensures FilterNew(a + b, existing) == FilterNew(a, existing) + FilterNew(b, existing)
    decreases |b|
  {
    if b != [] {
      var b' := b[..|b| - 1];
      var last := b[|b| - 1];
      assert b == b' + [last];
      assert a + b == (a + b') + [last];
      FilterNewConcat(a, b', existing);
      FilterNewSnoc(a + b', last, existing);
      FilterNewSnoc(b', last, existing);
    } else {
      assert a + b == a;
    }
  }

  /** With nothing stored yet, the filter keeps every game. */
  lemma {:induction false} FilterNewNothingStored(games: seq<Game>)
    ensures FilterNew(games, {}) == games
    decreases |games|
  {
    if games != [] {
      var init := games[..|games| - 1];
      FilterNewNothingStored(init);
      assert games == init + [games[|games| - 1]];
    }
  }

  /** The resolution of one game's keys (the body of the `for g in batch` loop). */
  function ResolveGame(d: Dims, g: Game): (r: (Dims, Fact))
    requires DimsValid(d)
    ensures DimsValid(r.0) && DimsExtend(d, r.0)
    ensures Lookup(r.0.opponents, g.opponent) == Some(r.1.opponentId)
    ensures Lookup(r.0.dates, g.date) == Some(r.1.dateId)
    ensures r.1.pointsFor == g.pointsFor && r.1.pointsAgainst == g.pointsAgainst && r.1.home == g.home
  {
    var o := GetOrInsert(d.opponents, d.nextOpponentId, g.opponent);
    var t := GetOrInsert(d.dates, d.nextDateId, g.date);
    (Dims(o.rows, o.next, t.rows, t.next), Fact(t.id, o.id, g.pointsFor, g.pointsAgainst, g.home))
  }

  /**
   * Resolving one game keeps the id of every key that was already present,
   * and makes present only keys that were present or are the game's own.
   */
  lemma ResolveGameKeys(d: Dims, g: Game, k: string)
    requires DimsValid(d)
    ensures var d' := ResolveGame(d, g).0;
      && (Lookup(d.opponents, k).Some? ==> Lookup(d'.opponents, k) == Lookup(d.opponents, k))
      && (Lookup(d.dates, k).Some? ==> Lookup(d'.dates, k) == Lookup(d.dates, k))
      && (Lookup(d'.opponents, k).Some? ==> Lookup(d.opponents, k).Some? || k == g.opponent)
      && (Lookup(d'.dates, k).Some? ==> Lookup(d.dates, k).Some? || k == g.date)
  {
  }

  /**
   * The resolution loop over a whole batch, game by game: the dimension
   * tables afterwards and the accumulated `inserts`, one per game.
   */
  function ResolveBatch(d: Dims, batch: seq<Game>): (r: (Dims, seq<Fact>))
    requires DimsValid(d)
    ensures DimsValid(r.0) && DimsExtend(d, r.0) && |r.1| == |batch|
    decreases |batch|
  {
    if batch == [] then (d, [])
    else
      var (d1, facts) := ResolveBatch(d, batch[..|batch| - 1]);
      var (d2, f) := ResolveGame(d1, batch[|batch| - 1]);
      (d2, facts + [f])
  }

  /** A key that resolved before the batch resolves to the same id after it. */
  lemma {:induction false} ResolveBatchKeepsIds(d: Dims, batch: seq<Game>, k: string)
    requires DimsValid(d)
    ensures var d' := ResolveBatch(d, batch).0;
      && (Lookup(d.opponents, k).Some? ==> Lookup(d'.opponents, k) == Lookup(d.opponents, k))
      && (Lookup(d.dates, k).Some? ==> Lookup(d'.dates, k) == Lookup(d.dates, k))
    decreases |batch|
  {
    if batch != [] {
      var init := batch[..|batch| - 1];
      ResolveBatchKeepsIds(d, init, k);
      ResolveGameKeys(ResolveBatch(d, init).0, batch[|batch| - 1], k);
    }
  }

  /**
   * The `i`-th inserted fact carries the ids that the `i`-th game's date and
   * opponent resolve to once the batch is done, and that game's scores and
   * home flag.
   */
  lemma {:induction false} ResolveBatchResolves(d: Dims, batch: seq<Game>, i: nat)
    requires DimsValid(d) && i < |batch|
    ensures var r := ResolveBatch(d, batch);
      && Lookup(r.0.dates, batch[i].date) == Some(r.1[i].dateId)
      && Lookup(r.0.opponents, batch[i].opponent) == Some(r.1[i].opponentId)
      && r.1[i].pointsFor == batch[i].pointsFor
      && r.1[i].pointsAgainst == batch[i].pointsAgainst
      && r.1[i].home == batch[i].home
    decreases |batch|
  {
    var n := |batch| - 1;
    var init, g := batch[..n], batch[n];
    assert batch == init + [g];
    ResolveBatchSnoc(d, init, g);
    if i < n {
      ResolveBatchResolves(d, init, i);
      var r1 := ResolveBatch(d, init);
      ResolveGameKeys(r1.0, g, init[i].date);
      ResolveGameKeys(r1.0, g, init[i].opponent);
    }
  }

  /** The batch adds dimension rows only for its own dates and opponents. */
  lemma {:induction false} ResolveBatchAddsOnlyBatchKeys(d: Dims, batch: seq<Game>, k: string)
    requires DimsValid(d)
    ensures var d' := ResolveBatch(d, batch).0;
      && (Lookup(d'.dates, k).Some? ==>
            Lookup(d.dates, k).Some? || exists i :: 0 <= i < |batch| && batch[i].date == k)
      && (Lookup(d'.opponents, k).Some? ==>
            Lookup(d.opponents, k).Some? || exists i :: 0 <= i < |batch| && batch[i].opponent == k)
    decreases |batch|
  {
    if batch != [] {
      var init := batch[..|batch| - 1];
      ResolveBatchAddsOnlyBatchKeys(d, init, k);
      ResolveGameKeys(ResolveBatch(d, init).0, batch[|batch| - 1], k);
      assert forall i :: 0 <= i < |init| ==> init[i] == batch[i];
    }
  }

  /** After the resolution loop every date of the batch has exactly one `dates` row. */
  lemma BatchDatesOccurOnce(d: Dims, batch: seq<Game>)
    requires DimsValid(d)
    ensures var d' := ResolveBatch(d, batch).0;
      forall i :: 0 <= i < |batch| ==> Occurrences(d'.dates, batch[i].date) == 1
  {
    var d' := ResolveBatch(d, batch).0;
    forall i | 0 <= i < |batch| ensures Occurrences(d'.dates, batch[i].date) == 1 {
      ResolveBatchResolves(d, batch, i);
      FoundKeyOccursOnce(d'.dates, d'.nextDateId, batch[i].date);
    }
  }

  /** `executemany` into `cfb_games`: the facts get consecutive ids from `next` on. */
  function NumberRows(next: int, facts: seq<Fact>): (rows: seq<GameRow>)
    ensures |rows| == |facts|
    ensures forall i :: 0 <= i < |rows| ==> rows[i].id == next + i
  {
    seq(|facts|, i requires 0 <= i < |facts| =>
      GameRow(next + i, facts[i].dateId, facts[i].opponentId, facts[i].pointsFor, facts[i].pointsAgainst, facts[i].home))
  }

  /**
   * One call of `store_cfb_data` on the candidate `games`, with `existing` the
   * 5-tuples its novelty filter compares against.
   */
  function SyncStep(db: Db, games: seq<Game>, existing: set<Game>): (r: Outcome)
    requires DbValid(db)
    ensures DbValid(r.db)
    ensures |r.batch| == Min(BatchSize, |FilterNew(games, existing)|)
    ensures r.batch == FilterNew(games, existing)[..|r.batch|]
    ensures db.games <= r.db.games && |r.db.games| == |db.games| + |r.batch|
    ensures DimsExtend(db.dims, r.db.dims)
  {
    var remaining := FilterNew(games, existing);
    var batch := remaining[..Min(BatchSize, |remaining|)];
    var (dims, inserts) := ResolveBatch(db.dims, batch);
    var db' := Db(dims, db.games + NumberRows(db.nextGameId, inserts), db.nextGameId + |inserts|);
    AppendedStoreValid(db, batch);
    Outcome(db', batch)
  }

  /** Appending the resolved batch to a valid store leaves a valid store. */
  lemma AppendedStoreValid(db: Db, batch: seq<Game>)
    requires DbValid(db)
    ensures var (dims, inserts) := ResolveBatch(db.dims, batch);
      DbValid(Db(dims, db.games + NumberRows(db.nextGameId, inserts), db.nextGameId + |inserts|))
  {
    var r := ResolveBatch(db.dims, batch);
    var added := NumberRows(db.nextGameId, r.1);
    NumberedRowsWellFormed(db.games, db.nextGameId, r.1);
    NewRowsJoin(db.dims, batch, db.nextGameId);
    OldRowsStillResolve(db, r.0);
    ReferencesConcat(r.0, db.games, added);
  }

  /** Appending consecutively numbered rows from the counter on keeps the ids in order. */
  lemma NumberedRowsWellFormed(rows: seq<GameRow>, next: int, facts: seq<Fact>)
    requires GamesWellFormed(rows, next)
    ensures GamesWellFormed(rows + NumberRows(next, facts), next + |facts|)
  {
  }

  /** Referential integrity of two parts gives that of their concatenation. */
  lemma ReferencesConcat(d: Dims, a: seq<GameRow>, b: seq<GameRow>)
    requires ReferencesResolve(d, a) && ReferencesResolve(d, b)
    ensures ReferencesResolve(d, a + b)
  {
    forall i | 0 <= i < |a + b|
      ensures KeyOf(d.dates, (a + b)[i].dateId).Some? && KeyOf(d.opponents, (a + b)[i].opponentId).Some?
    {
      if i >= |a| {
        assert (a + b)[i] == b[i - |a|];
      }
    }
  }

  /** The rows numbered from the batch's facts join back to the batch's games. */
  lemma NewRowsJoin(d: Dims, batch: seq<Game>, next: int)
    requires DimsValid(d)
    ensures var (d', facts) := ResolveBatch(d, batch);
      forall i :: 0 <= i < |batch| ==> Joins(d', NumberRows(next, facts)[i], batch[i])
  {
    var (d', facts) := ResolveBatch(d, batch);
    forall i | 0 <= i < |batch| ensures Joins(d', NumberRows(next, facts)[i], batch[i]) {
      ResolveBatchResolves(d, batch, i);
      KeyOfLookup(d'.dates, d'.nextDateId, batch[i].date);
      KeyOfLookup(d'.opponents, d'.nextOpponentId, batch[i].opponent);
    }
  }

  /** Joined back, the rows appended for a batch are exactly the batch. */
  lemma NewRowsJoined(d: Dims, batch: seq<Game>, next: int)
    requires DimsValid(d)
    ensures var r := ResolveBatch(d, batch);
      Joined(r.0, NumberRows(next, r.1)) == batch
  {
    var r := ResolveBatch(d, batch);
    var added := NumberRows(next, r.1);
    NewRowsJoin(d, batch, next);
    forall i | 0 <= i < |added| ensures JoinRow(r.0, added[i]) == Some(batch[i]) {
      assert Joins(r.0, added[i], batch[i]);
    }
    JoinedRows(r.0, added, batch);
  }

  /** Rows whose references resolved keep resolving, to the same keys, when the dimensions grow. */
  lemma OldRowsStillResolve(db: Db, d': Dims)
    requires DbValid(db) && DimsExtend(db.dims, d')
    ensures forall i :: 0 <= i < |db.games| ==>
      && KeyOf(d'.dates, db.games[i].dateId) == KeyOf(db.dims.dates, db.games[i].dateId)
      && KeyOf(d'.opponents, db.games[i].opponentId) == KeyOf(db.dims.opponents, db.games[i].opponentId)
  {
    var d := db.dims;
    assert d.dates + d'.dates[|d.dates|..] == d'.dates;
    assert d.opponents + d'.opponents[|d.opponents|..] == d'.opponents;
    forall i | 0 <= i < |db.games|
      ensures KeyOf(d'.dates, db.games[i].dateId) == KeyOf(d.dates, db.games[i].dateId)
      ensures KeyOf(d'.opponents, db.games[i].opponentId) == KeyOf(d.opponents, db.games[i].opponentId)
    {
      KeyOfExtend(d.dates, d'.dates[|d.dates|..], db.games[i].dateId);
      KeyOfExtend(d.opponents, d'.opponents[|d.opponents|..], db.games[i].opponentId);
    }
  }

  /**
   * The games stored in `cfb_games`, recovered by joining each row back
   * through `dates` and `opponents`, in row order; a row whose reference does
   * not resolve drops out, as in an inner join.
   */
  function Joined(d: Dims, rows: seq<GameRow>): (games: seq<Game>)
    ensures |games| <= |rows|
    decreases |rows|
  {
    if rows == [] then []
    else
      var init := Joined(d, rows[..|rows| - 1]);
      match JoinRow(d, rows[|rows| - 1])
      case Some(g) => init + [g]
      case None => init
  }

  /** One row joined back through both dimension tables, if both references resolve. */
  function JoinRow(d: Dims, row: GameRow): (r: Option<Game>)
    ensures r.Some? <==> KeyOf(d.dates, row.dateId).Some? && KeyOf(d.opponents, row.opponentId).Some?
    ensures r.Some? ==> Joins(d, row, r.value)
  {
    match KeyOf(d.dates, row.dateId)
    case None => None
    case Some(day) =>
      match KeyOf(d.opponents, row.opponentId)
      case None => None
      case Some(name) => Some(Game(day, name, row.pointsFor, row.pointsAgainst, row.home))
  }

  /** The set of 5-tuples already stored: what the novelty filter is meant to compare against. */
  function Stored(db: Db): (stored: set<Game>)
    ensures forall g :: g in stored <==> exists i :: 0 <= i < |db.games| && JoinRow(db.dims, db.games[i]) == Some(g)
  {
    JoinedMembers(db.dims, db.games);
    set g | g in Joined(db.dims, db.games)
  }

  /** A game is in the join exactly when some row joins to it. */
  lemma {:induction false} JoinedMembers(d: Dims, rows: seq<GameRow>)
    ensures forall g :: g in Joined(d, rows) <==> exists i :: 0 <= i < |rows| && JoinRow(d, rows[i]) == Some(g)
    decreases |rows|
  {
    if rows != [] {
      var init := rows[..|rows| - 1];
      JoinedMembers(d, init);
      assert forall i :: 0 <= i < |init| ==> init[i] == rows[i];
    }
  }

  /** Joining a concatenation joins each part. */
  lemma {:induction false} JoinedConcat(d: Dims, a: seq<GameRow>, b: seq<GameRow>)
    ensures Joined(d, a + b) == Joined(d, a) + Joined(d, b)
    decreases |b|
  {
    if b == [] {
      assert a + b == a;
    } else {
      var b' := b[..|b| - 1];
      assert (a + b)[..|a + b| - 1] == a + b';
      assert (a + b)[|a + b| - 1] == b[|b| - 1];
      JoinedConcat(d, a, b');
    }
  }

  /** Rows that each join to the corresponding game join, all together, to exactly those games. */
  lemma {:induction false} JoinedRows(d: Dims, rows: seq<GameRow>, games: seq<Game>)
    requires |rows| == |games|
    requires forall i :: 0 <= i < |rows| ==> JoinRow(d, rows[i]) == Some(games[i])
    ensures Joined(d, rows) == games
    decreases |rows|
  {
    if rows != [] {
      var n := |rows| - 1;
      var init, initGames := rows[..n], games[..n];
      forall i | 0 <= i < n ensures JoinRow(d, init[i]) == Some(initGames[i]) {
        assert init[i] == rows[i] && initGames[i] == games[i];
      }
      JoinedRows(d, init, initGames);
      JoinedLast(d, rows, games[n]);
      assert games == initGames + [games[n]];
    }
  }

  /** Unfolds the join at a last row that joins to `g`. */
  lemma JoinedLast(d: Dims, rows: seq<GameRow>, g: Game)
    requires rows != [] && JoinRow(d, rows[|rows| - 1]) == Some(g)
    ensures Joined(d, rows) == Joined(d, rows[..|rows| - 1]) + [g]
  {
  }

  /** Two dimension states that resolve every reference of `rows` alike join them alike. */
  lemma {:induction false} JoinedSameKeys(d1: Dims, d2: Dims, rows: seq<GameRow>)
    requires forall i :: 0 <= i < |rows| ==>
      && KeyOf(d1.dates, rows[i].dateId) == KeyOf(d2.dates, rows[i].dateId)
      && KeyOf(d1.opponents, rows[i].opponentId) == KeyOf(d2.opponents, rows[i].opponentId)
    ensures Joined(d1, rows) == Joined(d2, rows)
    decreases |rows|
  {
    if rows != [] {
      JoinedSameKeys(d1, d2, rows[..|rows| - 1]);
    }
  }

  /**
   * What one sync step stores: joining `cfb_games` back after the step gives
   * the games stored before it followed by the returned batch, in order; so
   * the earlier rows still mean the same games and each appended row is its
   * batch item.
   */
  lemma SyncStepStores(db: Db, games: seq<Game>, existing: set<Game>)
    requires DbValid(db)
    ensures var r := SyncStep(db, games, existing);
      Joined(r.db.dims, r.db.games) == Joined(db.dims, db.games) + r.batch
  {
    var remaining := FilterNew(games, existing);
    var batch := remaining[..Min(BatchSize, |remaining|)];
    var (dims, inserts) := ResolveBatch(db.dims, batch);
    var added := NumberRows(db.nextGameId, inserts);
    assert SyncStep(db, games, existing) ==
      Outcome(Db(dims, db.games + added, db.nextGameId + |inserts|), batch);
    JoinedConcat(dims, db.games, added);
    OldRowsStillResolve(db, dims);
    JoinedSameKeys(dims, db.dims, db.games);
    NewRowsJoined(db.dims, batch, db.nextGameId);
  }

  /**
   * The step as written: its filter always compares against the empty set,
   * so running it twice on the same non-empty candidates stores the same
   * batch twice and the first candidate ends up in two rows.
   */
  lemma AsWrittenRerunReinserts(db: Db, games: seq<Game>)
    requires DbValid(db) && games != []
    ensures var r1 := SyncStep(db, games, {});
      var r2 := SyncStep(r1.db, games, {});
      && r1.batch != [] && r2.batch == r1.batch
      && Joined(r2.db.dims, r2.db.games) == Joined(db.dims, db.games) + r1.batch + r1.batch
      && multiset(Joined(r2.db.dims, r2.db.games))[games[0]] >= 2
  {
    var r1 := SyncStep(db, games, {});
    var r2 := SyncStep(r1.db, games, {});
    FilterNewNothingStored(games);
    SyncStepStores(db, games, {});
    SyncStepStores(r1.db, games, {});
    TwoCopies(Joined(db.dims, db.games), r1.batch);
  }

  /** A list followed by two copies of a non-empty batch holds its first game at least twice. */
  lemma TwoCopies(stored: seq<Game>, batch: seq<Game>)
    requires batch != []
    ensures multiset(stored + batch + batch)[batch[0]] >= 2
  {
    assert multiset(stored + batch + batch) == multiset(stored) + multiset(batch) + multiset(batch);
    assert batch[0] in multiset(batch);
  }

  /** The intended step never stores a game that is already stored. */
  lemma IntendedBatchIsNew(db: Db, games: seq<Game>)
    requires DbValid(db)
    ensures forall g :: g in SyncStep(db, games, Stored(db)).batch ==> g in games && g !in Stored(db)
  {
    var remaining := FilterNew(games, Stored(db));
    var batch := SyncStep(db, games, Stored(db)).batch;
    forall g | g in batch ensures g in games && g !in Stored(db) {
      FilterNewMembers(games, Stored(db), g);
    }
  }

  /**
   * The intended step, comparing against the games already stored, is
   * idempotent: when the new games fit in one batch, running it again on the
   * same candidates returns an empty batch and leaves the store unchanged.
   */
  lemma IntendedRerunInsertsNothing(db: Db, games: seq<Game>)
    requires DbValid(db)
    requires |FilterNew(games, Stored(db))| <= BatchSize
    ensures var r1 := SyncStep(db, games, Stored(db));
      var r2 := SyncStep(r1.db, games, Stored(r1.db));
      r2.batch == [] && r2.db == r1.db
  {
    var r1 := SyncStep(db, games, Stored(db));
    IntendedStoresAllNew(db, games);
    FilterNewAllStored(games, Stored(r1.db));
    NothingNewChangesNothing(r1.db, games, Stored(r1.db));
  }

  /** When the new games fit in one batch, the intended step stores every candidate. */
  lemma IntendedStoresAllNew(db: Db, games: seq<Game>)
    requires DbValid(db)
    requires |FilterNew(games, Stored(db))| <= BatchSize
    ensures forall g :: g in games ==> g in Stored(SyncStep(db, games, Stored(db)).db)
  {
    var r1 := SyncStep(db, games, Stored(db));
    assert r1.batch == FilterNew(games, Stored(db));
    SyncStepStores(db, games, Stored(db));
    var after := Joined(r1.db.dims, r1.db.games);
    Covered(games, Joined(db.dims, db.games), after);
    forall g | g in games ensures g in Stored(r1.db) {
      assert g in after;
    }
  }

  /** Candidates not among `before` are added by the filter, so all of them are in `before` followed by the new ones. */
  lemma Covered(games: seq<Game>, before: seq<Game>, after: seq<Game>)
    requires after == before + FilterNew(games, set g | g in before)
    ensures forall g :: g in games ==> g in after
  {
    var existing := set g | g in before;
    forall g | g in games ensures g in after {
      FilterNewMembers(games, existing, g);
      if g in existing {
        assert g in before;
      }
    }
  }

  /** When every candidate is already stored, nothing is new. */
  lemma FilterNewAllStored(games: seq<Game>, existing: set<Game>)
    requires forall g :: g in games ==> g in existing
    ensures FilterNew(games, existing) == []
  {
    var remaining := FilterNew(games, existing);
    if remaining != [] {
      FilterNewMembers(games, existing, remaining[0]);
      assert false;
    }
  }

  /** A step that finds nothing new returns an empty batch and leaves the store as it was. */
  lemma NothingNewChangesNothing(db: Db, games: seq<Game>, existing: set<Game>)
    requires DbValid(db) && FilterNew(games, existing) == []
    ensures SyncStep(db, games, existing) == Outcome(db, [])
  {
    assert ResolveBatch(db.dims, []) == (db.dims, []);
    assert db.games + NumberRows(db.nextGameId, []) == db.games;
  }

  /** No game occurs twice in `s`. */
  ghost predicate NoDuplicates(s: seq<Game>) {
    forall g :: multiset(s)[g] <= 1
  }

  /**
   * The intended step keeps the stored games free of duplicates, provided the
   * candidates themselves are (so no game is stored twice).
   */
  lemma IntendedKeepsStoreDuplicateFree(db: Db, games: seq<Game>)
    requires DbValid(db)
    requires NoDuplicates(Joined(db.dims, db.games)) && NoDuplicates(games)
    ensures var r := SyncStep(db, games, Stored(db));
      NoDuplicates(Joined(r.db.dims, r.db.games))
  {
    var r := SyncStep(db, games, Stored(db));
    SyncStepStores(db, games, Stored(db));
    forall g ensures multiset(Joined(r.db.dims, r.db.games))[g] <= 1 {
      IntendedCount(db, games, g);
    }
  }

  /** One game's count in the store after the intended step, for `IntendedKeepsStoreDuplicateFree`. */
  lemma IntendedCount(db: Db, games: seq<Game>, g: Game)
    requires DbValid(db)
    requires NoDuplicates(Joined(db.dims, db.games)) && NoDuplicates(games)
    ensures multiset(Joined(db.dims, db.games))[g] + multiset(SyncStep(db, games, Stored(db)).batch)[g] <= 1
  {
    var batch := SyncStep(db, games, Stored(db)).batch;
    var remaining := FilterNew(games, Stored(db));
    PrefixCount(batch, remaining, g);
    FilterNewCounts(games, Stored(db), g);
    assert multiset(games)[g] <= 1;
    assert multiset(Joined(db.dims, db.games))[g] <= 1;
    if g !in Stored(db) {
      assert g !in Joined(db.dims, db.games);
    }
  }

  /** A prefix holds no more copies of a game than the whole sequence. */
  lemma PrefixCount(prefix: seq<Game>, s: seq<Game>, g: Game)
    requires prefix <= s
    ensures multiset(prefix)[g] <= multiset(s)[g]
  {
    assert s == prefix + s[|prefix|..];
  }

  /** Growing the dimension tables, keeping their rows, keeps a store valid. */
  lemma DimsGrowthKeepsValid(db: Db, d': Dims)
    requires DbValid(db) && DimsValid(d') && DimsExtend(db.dims, d')
    ensures DbValid(Db(d', db.games, db.nextGameId))
  {
    OldRowsStillResolve(db, d');
  }

  /** Unfolds the resolution loop at its last game. */
  lemma ResolveBatchSnoc(d: Dims, batch: seq<Game>, g: Game)
    requires DimsValid(d)
    ensures var r := ResolveBatch(d, batch);
      var s := ResolveGame(r.0, g);
      ResolveBatch(d, batch + [g]) == (s.0, r.1 + [s.1])
  {
    assert (batch + [g])[..|batch|] == batch;
  }

  /** Unfolds one sync step into its stages. */
  lemma SyncStepStages(db: Db, games: seq<Game>, existing: set<Game>)
    requires DbValid(db)
    ensures var remaining := FilterNew(games, existing);
      var batch := remaining[..Min(BatchSize, |remaining|)];
      var r := ResolveBatch(db.dims, batch);
      SyncStep(db, games, existing) ==
        Outcome(Db(r.0, db.games + NumberRows(db.nextGameId, r.1), db.nextGameId + |r.1|), batch)
  {
  }
}
