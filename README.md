# Michigan football game cache: ingestion core in Dafny

This project models the game-ingestion pipeline of `cfb.py`. The pipeline pulls
a team's games from the College Football Data API and caches them in a SQLite
database with three tables:
- `opponents(id, name UNIQUE)`;
- `dates(id, day)`;
- `cfb_games(id, date_id, opponent_id, points_for, points_against, home)`.

The model has three parts:

- **Normaliser** (`normalizer.dfy`, module `Normalizer`). `process_cfb_data`
  is a pure function over raw game objects. A raw game is a datatype whose
  fields are `Option`s: `None` means the JSON key is absent.
- **Dimension tables** (`dimension.dfy`, module `Dimension`). A dimension row
  pairs a surrogate id with a natural key. Opponents and dates share this row
  type. The module defines:
  - `WellFormed`: the table invariant (unique keys; ids positive, increasing
    and below the AUTOINCREMENT counter);
  - `Lookup`: the `SELECT id … WHERE key = ?` query;
  - `KeyOf`: the join back from an id to its key;
  - `GetOrInsert`: the get-or-insert performed by `get_opponent_id` and by
    `get_date_id` together with the inline insert of a missing day.
- **Sync step** (`sync.dfy`, module `Sync`). This is `store_cfb_data` as a
  state transition on values. It has four stages:
  - the novelty filter `FilterNew` against an explicit set of stored 5-tuples;
  - the batch of at most 25;
  - the resolution loop `ResolveBatch`;
  - the bulk append `NumberRows`.

  `SyncStep` composes the four stages. `Joined` recovers the stored games by
  joining `cfb_games` back through both dimension tables.
- **Store object** (`store.dfy`, module `CfbStore`). Class `Store` holds the
  three tables as sequence fields, each with its own id counter. Its methods
  change them in place:
  - `GetOpponentId`, `GetDateId` and `InsertDate` are the table helpers;
  - `NoveltyFilter` and `ResolveKeys` are the two loops of `store_cfb_data`;
  - `Sync` runs the steps of `store_cfb_data` after its CREATE statements;
  - `StoreCfbData` is `store_cfb_data` as written;
  - `StoreNewCfbData` is the corrected variant.

  Every method is proved equal to the matching function of `Sync` or
  `Dimension`.

The model follows the code:
- The normaliser never fails. Every missing field gets a default.
- `cfb_games` has no uniqueness constraint on its facts.
- The novelty filter of `store_cfb_data` compares against an empty set (see
  Findings).
- The default team of `process_cfb_data` (cfb.py:50) is the constant
  `Normalizer.DefaultTeam`, which the examples use.

## Model

| member | source | states |
|---|---|---|
| `Normalizer.SplitHead` | cfb.py:57 | `s.split(sep)[0]` is the prefix of `s` that contains no `sep` and ends at the first `sep` or at the end of `s` |
| `Normalizer.DayOf` | cfb.py:56-57 | the day is the prefix of the timestamp before its first 'T', or the whole string if there is no 'T'; it never contains 'T' |
| `Normalizer.Normalize` | cfb.py:56-79 | missing fields default to "unknown" or 0; the team's side decides the record: home gives the away team as opponent, the home/away points as for/against and home = 1; otherwise the home team is the opponent, the points are swapped and home = 0 |
| `Normalizer.ProcessCfbData` | cfb.py:50-82 | exactly one record per raw game, in the same order, each the normalisation of its raw game |
| `Normalizer.ProcessCfbDataConcat` | cfb.py:338-346 | processing each season separately and concatenating the results equals processing all seasons at once |
| `Normalizer.ProcessedDatesAreDays` | cfb.py:56-57 | no processed date contains 'T' |
| `Normalizer.PerspectivesMirror` | cfb.py:62-71 | the two teams of one game get mirror-image records: same date, each other as opponent, swapped points, opposite home flags |
| `Normalizer.DayOfExample` | cfb.py:57 | a `day + "T" + time` timestamp with no 'T' in `day` is cut to `day` |
| `Normalizer.HomeGameExample` | cfb.py:257-278 | the home game at "2023-10-14T19:00Z" against Indiana, 52-7, becomes ("2023-10-14", "Indiana", 52, 7, 1) |
| `Normalizer.AwayGameExample` | cfb.py:280-301 | the away game at Ohio State, 24-30, becomes ("2023-09-20", "Ohio State", 30, 24, 0) |
| `Normalizer.MissingKeysExample` | cfb.py:303-316 | an empty raw object becomes ("unknown", "unknown", 0, 0, 0) |
| `Dimension.Lookup` | cfb.py:134-137 | the lookup misses exactly when no row has the key; a hit returns the id of a row with that key |
| `Dimension.KeyOf` | cfb.py:165-170 | the `JOIN ... ON x_id = t.id` from an id: a hit is the key of a row of the table carrying that id |
| `Dimension.KeyOfFinds` | cfb.py:165-170 | the join from an id misses exactly when no row has the id; a hit returns the key of a row with that id |
| `Dimension.GetOrInsert` | cfb.py:134-139 | the table stays well-formed (UNIQUE key, ordered ids); the key now resolves to the returned id; existing rows are kept in place; a present key leaves the table and counter unchanged; an absent key adds exactly one row whose id is greater than every existing id; no other key's lookup changes |
| `Dimension.InsertFresh` | cfb.py:138-139 | inserting an absent key with the counter's id keeps the table well-formed, makes the key resolve to that id and changes no other key's lookup |
| `Dimension.LookupAppend` | cfb.py:138 | after appending a row, a key that was present resolves as before, and otherwise it resolves to the new row only if that row has the key |
| `Dimension.GetOrInsertIdempotent` | cfb.py:134-139 | resolving the same key a second time returns the same id and leaves the table as it was |
| `Dimension.FoundKeyOccursOnce` | cfb.py:117 | in a well-formed table a key that is found is carried by exactly one row |
| `Dimension.NoOccurrences` | cfb.py:117 | a key no row carries occurs zero times |
| `Dimension.ResolvedKeyOccursOnce` | cfb.py:114-139 | after get-or-insert exactly one row carries the key |
| `Dimension.KeyOfLookup` | cfb.py:165-170 | in a well-formed table, joining back the id found for a key gives that key |
| `Dimension.KeyOfExtend` | cfb.py:165-170 | appending rows never changes what an already present id joins to |
| `Sync.FilterNew` | cfb.py:211-215 | the filtered list is no longer than the candidates |
| `Sync.FilterNewCounts` | cfb.py:211-215 | every copy of an unstored game is kept and every copy of a stored game is dropped |
| `Sync.FilterNewMembers` | cfb.py:211-215 | a game is kept exactly when it is a candidate and not stored |
| `Sync.FilterNewConcat` | cfb.py:211-215 | filtering commutes with concatenation, so the order of the kept games is the candidates' order |
| `Sync.FilterNewNothingStored` | cfb.py:205-215 | with an empty stored set the filter is the identity |
| `Sync.FilterNewAllStored` | cfb.py:211-215 | when every candidate is stored, nothing remains |
| `Sync.ResolveGame` | cfb.py:221-230 | resolving one game keeps both tables well-formed and their rows in place; its date and opponent resolve to the fact's ids; the fact keeps the game's scores and home flag |
| `Sync.ResolveGameKeys` | cfb.py:221-228 | one resolution keeps every present key's id and only makes the game's own date or opponent newly present |
| `Sync.ResolveBatch` | cfb.py:220-230 | the loop yields one insert tuple per batch game and only extends the tables |
| `Sync.ResolveBatchKeepsIds` | cfb.py:220-230 | a key present before the loop resolves to the same id after it |
| `Sync.ResolveBatchResolves` | cfb.py:220-230 | the i-th insert tuple carries the ids that the i-th game's date and opponent resolve to after the loop, and that game's scores and home flag |
| `Sync.ResolveBatchAddsOnlyBatchKeys` | cfb.py:220-230 | every key present after the loop was present before or is a date or opponent of the batch |
| `Sync.NumberRows` | cfb.py:232-236 | the bulk insert gives one row per insert tuple, with consecutive AUTOINCREMENT ids starting at the counter |
| `Sync.BatchDatesOccurOnce` | cfb.py:223-228 | after the loop every batch date has exactly one `dates` row |
| `Sync.SyncStep` | cfb.py:205-240 | the store stays valid (unique keys, ordered ids, every game row's references resolve); the batch is the first min(25, remaining) novel games; old game rows and dimension rows are kept; exactly one row is appended per batch game |
| `Sync.NumberedRowsWellFormed` | cfb.py:232-236 | the bulk insert's consecutive ids keep `cfb_games` ids ordered and below the counter |
| `Sync.NewRowsJoin` | cfb.py:230-236 | each appended row joins back to its batch game |
| `Sync.NewRowsJoined` | cfb.py:230-236 | joined back, the rows appended for a batch are exactly the batch, in order |
| `Sync.OldRowsStillResolve` | cfb.py:221-236 | existing game rows join to the same day and opponent after the tables grow |
| `Sync.ReferencesConcat` | cfb.py:232-236 | referential integrity of two sets of rows holds for their concatenation |
| `Sync.AppendedStoreValid` | cfb.py:232-239 | appending the resolved batch leaves the store valid |
| `Sync.DimsGrowthKeepsValid` | cfb.py:136-139 | inserting dimension rows keeps the store valid |
| `Sync.Joined` | cfb.py:165-176 | the inner join of `cfb_games` back through both dimensions has at most one game per row |
| `Sync.JoinRow` | cfb.py:165-170 | one row survives the inner join exactly when both its date and its opponent reference resolve, and then it joins to the game it yields |
| `Sync.Stored` | cfb.py:205-215 | the set the novelty filter is meant to compare against: a game is in it exactly when some `cfb_games` row joins back to it |
| `Sync.JoinedMembers` | cfb.py:165-176 | a game appears in the join exactly when some row joins to it |
| `Sync.JoinedConcat` | cfb.py:165-176 | joining a concatenation joins each part |
| `Sync.JoinedRows` | cfb.py:165-176 | rows that each join to a game join, all together, to exactly those games |
| `Sync.JoinedSameKeys` | cfb.py:165-176 | dimension states that resolve the rows' references alike join them alike |
| `Sync.SyncStepStores` | cfb.py:218-240 | after the step, joining `cfb_games` back gives the games stored before it followed by the returned batch, in order |
| `Sync.AsWrittenRerunReinserts` | cfb.py:205-215 | as written, a second call on the same non-empty candidates returns and appends the same batch again, and the first candidate is stored at least twice |
| `Sync.TwoCopies` | cfb.py:205-236 | a store followed by the same non-empty batch twice holds the batch's first game at least twice |
| `Sync.IntendedBatchIsNew` | cfb.py:205-215 | with the stored games as the existing set, every batch game is a candidate that is not yet stored |
| `Sync.IntendedStoresAllNew` | cfb.py:205-240 | when the new games fit in one batch, the intended step stores every candidate |
| `Sync.Covered` | cfb.py:211-215 | after appending the filtered candidates to the stored games, every candidate is among them |
| `Sync.NothingNewChangesNothing` | cfb.py:218-240 | a step with no novel candidates returns an empty batch and leaves the store unchanged |
| `Sync.IntendedRerunInsertsNothing` | cfb.py:205-240 | with the intended filter, a second call on the same candidates inserts nothing and leaves the store unchanged (if the new games fit in one batch) |
| `Sync.IntendedCount` | cfb.py:205-236 | after an intended step a game occurs at most once among the stored games and the batch together |
| `Sync.PrefixCount` | cfb.py:219 | a prefix holds no more copies of a game than the whole list |
| `Sync.IntendedKeepsStoreDuplicateFree` | cfb.py:193-236 | with the intended filter, duplicate-free stored games and candidates stay duplicate-free after the step |
| `CfbStore.Store.constructor` | cfb.py:106-119 | the opponent and game tables start empty with counters at 1; `dates` holds the given well-formed rows |
| `CfbStore.Store.GetOpponentId` | cfb.py:123-139 | a present name returns its id and leaves the table alone; an absent name appends exactly one row with the next id, which is returned; the store stays valid |
| `CfbStore.Store.GetDateId` | cfb.py:141-155 | it never modifies anything; it returns None exactly when no row has the day, and otherwise an id that joins back to the day |
| `CfbStore.Store.InsertDate` | cfb.py:224-227 | it appends exactly one row for a missing day, with the next id, which is returned; the day then resolves to it |
| `CfbStore.Store.ResolveDateId` | cfb.py:222-228 | `get_date_id` followed by the insert of a missing day is get-or-insert on `dates`: the new table and the returned id are exactly `GetOrInsert` of the old table |
| `CfbStore.Store.ResolveOne` | cfb.py:222-230 | the loop body resolves the game's opponent and date and builds its insert tuple as `ResolveGame` does |
| `CfbStore.Store.NoveltyFilter` | cfb.py:211-215 | the loop computes exactly `FilterNew` |
| `CfbStore.Store.ResolveKeys` | cfb.py:220-230 | the loop leaves the tables and `inserts` exactly as `ResolveBatch` does |
| `CfbStore.Store.AppendGames` | cfb.py:232-237 | `executemany` appends one row per insert tuple with the next consecutive ids and advances the counter by the number of tuples; nothing happens when there are none |
| `CfbStore.Store.Sync` | cfb.py:205-240 | the new state and the returned batch are exactly `SyncStep` of the old state |
| `CfbStore.Store.StoreCfbData` | cfb.py:180-240 | as written: returns the first min(25, n) candidates and appends exactly that many rows in order, each joining back to its game; existing rows of all three tables are kept |
| `CfbStore.Store.StoreNewCfbData` | cfb.py:180-240 | intended: the same transition with the stored games as the existing set; every returned game is a candidate that was not stored |

## Left out

- HTTP fetching (`get_cfb_data`, cfb.py:28-46; `get_weather_data` and `process_weather_data` in weather.py) is network I/O. Raw games are input data.
- API key loading (`get_api_key`, `API_KEY`) is file I/O and global configuration.
- `setup_db`, `main` and the debug printing are connection plumbing and output. The query of `load_cfb_data` appears only as the join `Sync.Joined`.
- Weather data is not modelled: `cfb.py` fetches and stores none, and weather.py is not part of this model.
- Analysis.py is read-only queries and floating-point averages.
- Transactions, `commit` and crash behaviour are not modelled: one `store_cfb_data` call is one atomic transition.
- The `dates` table is created outside this code. The model takes it as given (constructor argument) with unique days and ordered ids.
- The CREATE TABLE IF NOT EXISTS statements are not modelled: the store object always has both tables.
- `lastrowid` is modelled as one counter per table that only grows. No row is ever deleted, so this matches both AUTOINCREMENT and the plain rowid rule.
- CfbStore.Store.GetDateId: requires the store invariant. The source needs no such condition, but every caller holds it.
- A JSON field whose value is `null` is not modelled: `g.get` would return `None` rather than the default. A raw field is only present or absent.
- SQLite's 64-bit integer limits are not modelled. Ids, scores and counters are unbounded integers.
- `home` stays the integer 0 or 1 that the source stores, not a boolean.

## Findings

| source | as written | input that shows it | evidently intended | confidence | as-written member | corrected member |
|---|---|---|---|---|---|---|
| cfb.py:205-215 | `games_db` is built from `cur.fetchall()` issued right after a CREATE TABLE statement. That returns no rows, so the novelty filter always compares against the empty set and keeps every candidate. `cfb_games` has no UNIQUE constraint on its facts (cfb.py:193-204), so nothing else stops duplicates. | any non-empty candidate list passed to two successive calls: the second call stores the same first 25 games again | compare the candidates against the 5-tuples already in `cfb_games`, recovered by joining back to `dates` and `opponents` | not executed | `Sync.AsWrittenRerunReinserts` | `Sync.IntendedRerunInsertsNothing` |
