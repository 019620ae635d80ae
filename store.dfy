/**
 * The log table behind the PDO handle, reduced to what the middleware
 * relies on: an insert stores one row under a fresh auto-increment id that
 * `lastInsertId` then reports, an update changes the row whose id equals
 * the statement's last bound value, and a statement the database refuses
 * changes nothing (PDO's default silent error mode, where `execute` returns
 * false). Whether the database accepts a statement is a foreign verdict,
 * `accepts`. Every statement executed and every downstream call is recorded,
 * in order, in a `Journal`.
 */
module Database {
  import opened Wrappers
  import opened Messages
  import opened Statements

  /** A stored row: column name to value. */
  type Row = map<string, Value>

  /** The table: rows by auto-increment id, and the id the next insert gets. */
  datatype Table = Table(rows: map<int, Row>, nextId: int)

  /** Ids are handed out from 1 upward, so every stored row's id lies below the next one. */
  predicate WellFormed(t: Table) {
    t.nextId >= 1 && forall n :: n in t.rows ==> 1 <= n < t.nextId
  }

  /** The row a statement writes: each column paired with the bound value in the same position. */
  function RowOf(columns: seq<string>, params: seq<Value>): (r: Row)
    ensures forall c :: c in r ==> c in columns
    ensures forall i :: 0 <= i < |columns| && i < |params| ==> columns[i] in r
  {
    if columns == [] || params == [] then map[]
    else RowOf(columns[1..], params[1..])[columns[0] := params[0]]
  }

  /** The row id a `WHERE id = ?` value selects: an integer selects that id; `false` and null select none. */
  function RowKey(v: Value): Option<int> {
    if v.Int? then Some(v.i) else None
  }

  /** What an accepted statement does to the table. */
  function Apply(t: Table, st: Statement): Table {
    match st
    case Insert(_, columns, params) =>
      Table(t.rows[t.nextId := RowOf(columns, params)], t.nextId + 1)
    case Update(_, columns, params) =>
      if params == [] then t
      else
        var key := RowKey(params[|params| - 1]);
        if key.Some? && key.value in t.rows
        then Table(t.rows[key.value := t.rows[key.value] + RowOf(columns, params[..|params| - 1])], t.nextId)
        else t
  }

  /** The table after executing `st`: changed by it when the database accepts it, unchanged otherwise. */
  function Executed(accepts: Statement -> bool, t: Table, st: Statement): Table {
    if accepts(st) then Apply(t, st) else t
  }

  /** An insert adds exactly one row, under the next id, and leaves every existing row alone. */
  lemma InsertAddsOneRow(t: Table, sql: string, columns: seq<string>, params: seq<Value>)
    requires WellFormed(t)
    ensures var r := Apply(t, Insert(sql, columns, params));
      && WellFormed(r)
      && r.nextId == t.nextId + 1
      && t.nextId !in t.rows
      && r.rows.Keys == t.rows.Keys + {t.nextId}
      && (forall n :: n in t.rows ==> r.rows[n] == t.rows[n])
  {
  }

  /** An update keeps the set of rows and changes at most the row its key selects. */
  lemma UpdateTouchesOnlyItsRow(t: Table, sql: string, columns: seq<string>, params: seq<Value>)
    requires WellFormed(t)
    ensures var r := Apply(t, Update(sql, columns, params));
      && WellFormed(r)
      && r.nextId == t.nextId
      && r.rows.Keys == t.rows.Keys
      && (forall n :: n in t.rows && (params == [] || RowKey(params[|params| - 1]) != Some(n)) ==> r.rows[n] == t.rows[n])
  {
  }

  /** An update whose key is not an integer (`false` after a failed insert) changes nothing. */
  lemma UpdateWithoutIdChangesNothing(t: Table, sql: string, columns: seq<string>, params: seq<Value>)
    requires params != [] && !params[|params| - 1].Int?
    ensures Apply(t, Update(sql, columns, params)) == t
  {
  }

  /** Executing any statement keeps the table well formed. */
  lemma ExecutedWellFormed(accepts: Statement -> bool, t: Table, st: Statement)
    requires WellFormed(t)
    ensures WellFormed(Executed(accepts, t, st))
  {
    if accepts(st) {
      match st
      case Insert(sql, columns, params) => InsertAddsOneRow(t, sql, columns, params);
      case Update(sql, columns, params) => UpdateTouchesOnlyItsRow(t, sql, columns, params);
    }
  }

  /** One thing the middleware did: executed a statement, or called the downstream handler with a request and response. */
  datatype Event = Wrote(statement: Statement) | Called(request: Request, response: Response)

  /** The ordered record of what happened. */
  class Journal {
    var events: seq<Event>

    constructor ()
      ensures events == []
    {
      events := [];
    }

    method Record(e: Event)
      modifies this
      ensures events == old(events) + [e]
    {
      events := events + [e];
    }
  }

  /** The database connection with its log table. */
  class Store {
    const journal: Journal
    /** The database's verdict on a statement. */
    const accepts: Statement -> bool
    var rows: map<int, Row>
    var nextId: int
    /** What `lastInsertId` reports: the id of the most recent accepted insert (0 before any). */
    var lastInsertId: int

    function State(): Table
      reads this
    {
      Table(rows, nextId)
    }

    constructor (journal: Journal, accepts: Statement -> bool)
      ensures this.journal == journal && this.accepts == accepts
      ensures State() == Table(map[], 1) && WellFormed(State()) && lastInsertId == 0
    {
      this.journal := journal;
      this.accepts := accepts;
      rows := map[];
      nextId := 1;
      lastInsertId := 0;
    }

    /** `prepare` and `execute`: the statement is recorded, and applied when the database accepts it. */
    method Execute(st: Statement) returns (ok: bool)
      modifies this, journal
      ensures journal.events == old(journal.events) + [Wrote(st)]
      ensures ok == accepts(st)
      ensures State() == Executed(accepts, old(State()), st)
      ensures lastInsertId == if ok && st.Insert? then old(nextId) else old(lastInsertId)
    {
      journal.Record(Wrote(st));
      ok := accepts(st);
      if ok {
        var t := Apply(State(), st);
        if st.Insert? {
          lastInsertId := nextId;
        }
        rows, nextId := t.rows, t.nextId;
      }
    }
  }
}
