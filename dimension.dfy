/**
 * A dimension table of the store (`opponents(id, name)` or `dates(id, day)`):
 * rows pairing an autoincremented surrogate id with a natural key that is
 * UNIQUE, and the get-or-insert resolution performed against it.
 */
module Dimension {
  import opened Wrappers

  /** One dimension row: surrogate `id` and natural `key` (opponent name or calendar day). */
  datatype Row = Row(id: int, key: string)

  /**
   * The table invariant. `next` stands for the table's AUTOINCREMENT counter:
   * ids are positive, below the counter and increase in insertion order, and
   * no two rows share a natural key.
   */
  predicate WellFormed(rows: seq<Row>, next: int) {
    && 1 <= next
    && (forall i :: 0 <= i < |rows| ==> 1 <= rows[i].id < next)
    && (forall i, j :: 0 <= i < j < |rows| ==> rows[i].id < rows[j].id)
    && (forall i, j :: 0 <= i < j < |rows| ==> rows[i].key != rows[j].key)
  }

  /** `SELECT id FROM <table> WHERE <key> = ?` followed by `fetchone()`. */
  function Lookup(rows: seq<Row>, key: string): (r: Option<int>)
    ensures r.None? <==> forall i :: 0 <= i < |rows| ==> rows[i].key != key
    ensures r.Some? ==> exists i :: 0 <= i < |rows| && rows[i].key == key && rows[i].id == r.value
  {
    if rows == [] then None
    else if rows[0].key == key then Some(rows[0].id)
    else
      var r := Lookup(rows[1..], key);
      assert forall i :: 1 <= i < |rows| ==> rows[i] == rows[1..][i - 1];
      r
  }

  /** The join back from a surrogate id to its natural key (`JOIN ... ON x_id = t.id`). */
  function KeyOf(rows: seq<Row>, id: int): (r: Option<string>)
    ensures r.Some? ==> Row(id, r.value) in rows
  {
    if rows == [] then None
    else if rows[0].id == id then Some(rows[0].key)
    else KeyOf(rows[1..], id)
  }

  /** The join misses exactly when no row has the id, and a hit is the key of a row with that id. */
  lemma {:induction false} KeyOfFinds(rows: seq<Row>, id: int)
    ensures KeyOf(rows, id).None? <==> forall i :: 0 <= i < |rows| ==> rows[i].id != id
    ensures KeyOf(rows, id).Some? ==>
      exists i :: 0 <= i < |rows| && rows[i].id == id && rows[i].key == KeyOf(rows, id).value
  {
    if rows != [] && rows[0].id != id {
      KeyOfFinds(rows[1..], id);
      assert forall i :: 1 <= i < |rows| ==> rows[i] == rows[1..][i - 1];
    }
  }

  /** The number of rows carrying natural key `key`. */
  function Occurrences(rows: seq<Row>, key: string): nat {
    if rows == [] then 0
    else (if rows[0].key == key then 1 else 0) + Occurrences(rows[1..], key)
  }

  /** The table after a get-or-insert, and the id it returned. */
  datatype Resolved = Resolved(rows: seq<Row>, next: int, id: int)

  /**
   * Get-or-insert (`get_opponent_id`, and `get_date_id` followed by the
   * insert of a missing day): the id of the row with `key`, inserting one row
   * with a fresh id only when no row has it.
   */
  function GetOrInsert(rows: seq<Row>, next: int, key: string): (r: Resolved)
    requires WellFormed(rows, next)
    ensures WellFormed(r.rows, r.next)
    ensures Lookup(r.rows, key) == Some(r.id)
    ensures rows <= r.rows && |r.rows| <= |rows| + 1
    ensures Lookup(rows, key).Some? ==> r.rows == rows && r.next == next
    ensures Lookup(rows, key).None? ==>
      |r.rows| == |rows| + 1 && forall i :: 0 <= i < |rows| ==> rows[i].id < r.id
    ensures forall k :: k != key ==> Lookup(r.rows, k) == Lookup(rows, k)
  {
    match Lookup(rows, key)
    case Some(id) => Resolved(rows, next, id)
    case None =>
      InsertFresh(rows, next, key);
      Resolved(rows + [Row(next, key)], next + 1, next)
  }

  /** Inserting an absent key with the counter's id keeps the table well-formed and changes only that key's lookup. */
  lemma InsertFresh(rows: seq<Row>, next: int, key: string)
    requires WellFormed(rows, next) && Lookup(rows, key).None?
    ensures WellFormed(rows + [Row(next, key)], next + 1)
    ensures Lookup(rows + [Row(next, key)], key) == Some(next)
    ensures forall k :: k != key ==> Lookup(rows + [Row(next, key)], k) == Lookup(rows, k)
  {
    LookupAppend(rows, Row(next, key), key);
    forall k | k != key ensures Lookup(rows + [Row(next, key)], k) == Lookup(rows, k) {
      LookupAppend(rows, Row(next, key), k);
    }
  }

  /** Looking a key up after one appended row. */
  lemma {:induction false} LookupAppend(rows: seq<Row>, x: Row, key: string)
    ensures Lookup(rows + [x], key) ==
      if Lookup(rows, key).Some? then Lookup(rows, key)
      else if x.key == key then Some(x.id)
      else None
  {
    if rows != [] {
      assert (rows + [x])[1..] == rows[1..] + [x];
      LookupAppend(rows[1..], x, key);
    }
  }

  /** Resolving the same key a second time returns the same id and changes nothing. */
  lemma GetOrInsertIdempotent(rows: seq<Row>, next: int, key: string)
    requires WellFormed(rows, next)
    ensures var r1 := GetOrInsert(rows, next, key);
      GetOrInsert(r1.rows, r1.next, key) == r1
  {
  }

  /** In a well-formed table a key that is found occurs in exactly one row. */
  lemma {:induction false} FoundKeyOccursOnce(rows: seq<Row>, next: int, key: string)
    requires WellFormed(rows, next)
    requires Lookup(rows, key).Some?
    ensures Occurrences(rows, key) == 1
  {
    if rows[0].key == key {
      NoOccurrences(rows[1..], key);
    } else {
      FoundKeyOccursOnce(rows[1..], next, key);
    }
  }

  /** A key no row carries occurs zero times. */
  lemma {:induction false} NoOccurrences(rows: seq<Row>, key: string)
    requires forall i :: 0 <= i < |rows| ==> rows[i].key != key
    ensures Occurrences(rows, key) == 0
  {
    if rows != [] {
      NoOccurrences(rows[1..], key);
    }
  }

  /** After get-or-insert, exactly one row carries the key (the UNIQUE constraint holds). */
  lemma ResolvedKeyOccursOnce(rows: seq<Row>, next: int, key: string)
    requires WellFormed(rows, next)
    ensures Occurrences(GetOrInsert(rows, next, key).rows, key) == 1
  {
    var r := GetOrInsert(rows, next, key);
    FoundKeyOccursOnce(r.rows, r.next, key);
  }

  /** In a well-formed table the join back inverts the lookup. */
  lemma {:induction false} KeyOfLookup(rows: seq<Row>, next: int, key: string)
    requires WellFormed(rows, next)
    requires Lookup(rows, key).Some?
    ensures KeyOf(rows, Lookup(rows, key).value) == Some(key)
  {
    if rows[0].key != key {
      KeyOfLookup(rows[1..], next, key);
    }
  }

  /** Appending rows does not change what an id already present joins to. */
  lemma {:induction false} KeyOfExtend(rows: seq<Row>, more: seq<Row>, id: int)
    requires KeyOf(rows, id).Some?
    ensures KeyOf(rows + more, id) == KeyOf(rows, id)
  {
    if rows[0].id != id {
      assert (rows + more)[1..] == rows[1..] + more;
      KeyOfExtend(rows[1..], more, id);
    }
  }
}
