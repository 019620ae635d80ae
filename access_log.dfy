/**
 * The middleware itself. Per request it either lets an ignored path straight
 * through, or (once the number of custom column functions has been checked
 * against the number of custom column names) computes the custom column
 * values and logs the request around the downstream call:
 *
 * - two-phase (the default): insert the request fields before downstream,
 *   hand the new row id downstream as the `accessLogID` attribute, and
 *   afterwards update that row with the response fields;
 * - `writeOnce`: call downstream with a null `accessLogID`, then insert one
 *   row with the request and response fields together.
 *
 * A downstream exception is logged with its code and message as status and
 * body, and then rethrown. `Intercept` states the whole effect of one request
 * as a value; `AccessLog.Invoke` performs it step by step and is proved to
 * agree with it.
 */
module Middleware {
  import opened Wrappers
  import opened Php
  import opened Messages
  import opened QueryString
  import opened HttpMethods
  import opened PathMatch
  import opened Statements
  import opened Database

  // ---------------------------------------------------------------- settings

  /** The settings after construction. */
  datatype Settings = Settings(
    tableName: string,
    idColumn: string,
    writeOnce: bool,
    custom: seq<string>,
    captureResponse: bool,
    ignoredPaths: seq<string>)

  /** The defaults the constructor starts from. */
  const Defaults := Settings("accessLog", "accessLogID", false, [], false, [])

  /** `ignoredPaths` as a caller may give it: a list, or a single path. */
  datatype PathsSetting = PathList(paths: seq<string>) | SinglePath(path: string)

  /** The settings array given to the constructor: each key may be absent. */
  datatype Overrides = Overrides(
    tableName: Option<string>,
    idColumn: Option<string>,
    writeOnce: Option<bool>,
    custom: Option<seq<string>>,
    captureResponse: Option<bool>,
    ignoredPaths: Option<PathsSetting>)

  /** The empty settings array. */
  const NoOverrides := Overrides(None, None, None, None, None, None)

  function Pick<T>(given: Option<T>, default: T): T {
    if given.Some? then given.value else default
  }

  /** `array_merge` of the defaults with the given settings, then a single ignored path wrapped in a list. */
  function Merge(o: Overrides): (s: Settings)
    ensures o.tableName.Some? ==> s.tableName == o.tableName.value
    ensures o.tableName.None? ==> s.tableName == Defaults.tableName
    ensures o.idColumn.Some? ==> s.idColumn == o.idColumn.value
    ensures o.idColumn.None? ==> s.idColumn == Defaults.idColumn
    ensures o.writeOnce.Some? ==> s.writeOnce == o.writeOnce.value
    ensures o.writeOnce.None? ==> s.writeOnce == Defaults.writeOnce
    ensures o.custom.Some? ==> s.custom == o.custom.value
    ensures o.custom.None? ==> s.custom == Defaults.custom
    ensures o.captureResponse.Some? ==> s.captureResponse == o.captureResponse.value
    ensures o.captureResponse.None? ==> s.captureResponse == Defaults.captureResponse
    ensures o.ignoredPaths.None? ==> s.ignoredPaths == Defaults.ignoredPaths
    ensures o.ignoredPaths.Some? && o.ignoredPaths.value.PathList? ==> s.ignoredPaths == o.ignoredPaths.value.paths
    ensures o.ignoredPaths.Some? && o.ignoredPaths.value.SinglePath? ==> s.ignoredPaths == [o.ignoredPaths.value.path]
  {
    Settings(
      Pick(o.tableName, Defaults.tableName),
      Pick(o.idColumn, Defaults.idColumn),
      Pick(o.writeOnce, Defaults.writeOnce),
      Pick(o.custom, Defaults.custom),
      Pick(o.captureResponse, Defaults.captureResponse),
      match o.ignoredPaths
      case None => Defaults.ignoredPaths
      case Some(PathList(ps)) => ps
      case Some(SinglePath(p)) => [p])
  }

  /** Without settings every default holds: two-phase logging into `accessLog` keyed by `accessLogID`, nothing ignored. */
  lemma MergeDefaults()
    ensures Merge(NoOverrides) == Defaults
    ensures !Merge(NoOverrides).writeOnce && Merge(NoOverrides).ignoredPaths == []
  {
  }

  /** A single ignored path behaves as a one-element list of it. */
  lemma SinglePathIsList(o: Overrides, p: string)
    requires o.ignoredPaths == Some(SinglePath(p))
    ensures Merge(o).ignoredPaths == [p]
    ensures Merge(o) == Merge(o.(ignoredPaths := Some(PathList([p]))))
  {
  }

  // ------------------------------------------------------- per-request values

  /** The attribute under which downstream receives the log row id. */
  const AttributeName := "accessLogID"

  /** The custom column values: each name, in configured order, set to its function's value on the request and response. */
  function CustomColumns(names: seq<string>, fns: seq<(Request, Response) -> Value>,
                         request: Request, response: Response): OrderedArray<Value>
    requires |names| == |fns|
  {
    if names == [] then []
    else
      var n := |names| - 1;
      Put(CustomColumns(names[..n], fns[..n], request, response), names[n], fns[n](request, response))
  }

  /** With distinct names, the columns are exactly the names in configured order, each with its own function's value. */
  lemma {:induction false} CustomColumnsInOrder(names: seq<string>, fns: seq<(Request, Response) -> Value>,
                                                request: Request, response: Response)
    requires |names| == |fns| && Distinct(names)
    ensures var columns := CustomColumns(names, fns, request, response);
      && Keys(columns) == names
      && |Values(columns)| == |fns|
      && forall i :: 0 <= i < |fns| ==> Values(columns)[i] == fns[i](request, response)
  {
    if names != [] {
      var n := |names| - 1;
      var v := fns[n](request, response);
      var prior := CustomColumns(names[..n], fns[..n], request, response);
      assert Distinct(names[..n]);
      CustomColumnsInOrder(names[..n], fns[..n], request, response);
      assert names[n] !in Keys(prior);
      PutFresh(prior, names[n], v);
      assert CustomColumns(names, fns, request, response) == prior + [(names[n], v)];
      KeysValuesAppend(prior, names[n], v);
      assert names == names[..n] + [names[n]];
      forall i | 0 <= i < |fns|
        ensures Values(prior + [(names[n], v)])[i] == fns[i](request, response)
      {
        if i < n {
          assert fns[..n][i] == fns[i];
        }
      }
    }
  }

  /** Whatever the names, the columns are keyed by the names in order of first occurrence (a repeated name collapses into one column). */
  lemma {:induction false} CustomColumnsKeys(names: seq<string>, fns: seq<(Request, Response) -> Value>,
                                             request: Request, response: Response)
    requires |names| == |fns|
    ensures Keys(CustomColumns(names, fns, request, response)) == FirstOccurrences(names)
  {
    if names != [] {
      var n := |names| - 1;
      var prior := CustomColumns(names[..n], fns[..n], request, response);
      CustomColumnsKeys(names[..n], fns[..n], request, response);
      KeysPut(prior, names[n], fns[n](request, response));
    }
  }

  /** A custom column is present exactly for each configured name, and with distinct names the keys are the names themselves. */
  lemma CustomColumnsPresent(names: seq<string>, fns: seq<(Request, Response) -> Value>,
                             request: Request, response: Response)
    requires |names| == |fns|
    ensures Distinct(names) ==> Keys(CustomColumns(names, fns, request, response)) == names
    ensures forall k :: Lookup(CustomColumns(names, fns, request, response), k).Some? <==> k in names
  {
    var columns := CustomColumns(names, fns, request, response);
    CustomColumnsKeys(names, fns, request, response);
    if Distinct(names) {
      FirstOccurrencesOfDistinct(names);
    }
    forall k
      ensures Lookup(columns, k).Some? <==> k in names
    {
      LookupFindsKeys(columns, k);
    }
  }

  /** The `json_encode`d request parameters' query string part: the parsed query string, or `''` when there is none. */
  function QueryOf(server: Server): Query {
    if server.queryString.Some? then ParseQuery(server.queryString.value) else Blank
  }

  /** `httpMethodID[REQUEST_METHOD]`: the method's code, null for a method the table lacks. */
  function MethodValue(name: string): (v: Value)
    ensures v.Int? <==> name in Names
    ensures v.Int? ==> 1 <= v.i <= 9 && Names[v.i - 1] == name
    ensures !v.Int? ==> v == Null
  {
    match MethodId(name)
    case Some(code) => Int(code)
    case None => Null
  }

  /** The row id `writeBefore` returns: `lastInsertId` after an accepted insert, `false` otherwise. */
  function InsertId(accepts: Statement -> bool, t: Table, st: Statement): Value {
    if accepts(st) then Int(t.nextId) else False
  }

  /** The response status and body the after-write logs: an exception's code and message, or the response's status and (when captured) body. */
  function Logged(captureResponse: bool, o: Outcome): (Value, Value) {
    match o
    case Threw(e) => (Int(e.code), Text(e.message))
    case Completed(r) => (Int(r.status), if captureResponse then Text(r.body) else Text(""))
  }

  // ------------------------------------------------------------ one request

  /** What `__invoke` ends with: the downstream response, a rethrown downstream exception, or the abort on mismatched custom counts. */
  datatype Result =
    | Returned(response: Response)
    | Rethrown(exception: Exception)
    | Misconfigured(functions: nat, columns: nat)

  /** A downstream outcome passed on unchanged. */
  function Passed(o: Outcome): Result {
    match o
    case Completed(r) => Returned(r)
    case Threw(e) => Rethrown(e)
  }

  /** The effect of one request: what was done in order, the table afterwards, and the result. */
  datatype Run = Run(events: seq<Event>, table: Table, result: Result)

  /** The parameters `json_encode`d into every row: the parsed query string and the parsed body. */
  function RequestParams(server: Server, request: Request): Value {
    Params(QueryOf(server), request.parsedBody)
  }

  /** The write after downstream: writeAfter's insert (`writeOnce`) or updateAfter's update keyed by `last`, logging `o`. */
  function AfterStatement(s: Settings, columns: OrderedArray<Value>, server: Server, params: Value,
                          last: Value, o: Outcome, now: string): (st: Statement)
    ensures LoggedResponse(st) == Logged(s.captureResponse, o)
  {
    var logged := Logged(s.captureResponse, o);
    if s.writeOnce then
      CompleteStatement(s.tableName, Text(server.requestTime), Text(server.requestPath),
                        MethodValue(server.requestMethod), params, Text(now), logged.0, logged.1, columns)
    else
      UpdateStatement(s.tableName, s.idColumn, last, Text(now), logged.0, logged.1, columns)
  }

  /** Two-phase logging: insert, call downstream with the new id, update that id. */
  function TwoPhase(s: Settings, columns: OrderedArray<Value>, accepts: Statement -> bool, t: Table,
                    server: Server, request: Request, response: Response,
                    next: (Request, Response) -> Outcome, now: string): (run: Run)
    ensures |run.events| == 3 && run.events[1].Called?
    ensures run.events[0].Wrote? && run.events[0].statement.Insert?
    ensures run.events[2].Wrote? && (run.events[2].statement.Update? <==> !s.writeOnce)
    ensures run.result == Passed(next(run.events[1].request, run.events[1].response))
  {
    var before := BeforeStatement(s.tableName, Text(server.requestTime), Text(server.requestPath),
                                  MethodValue(server.requestMethod), RequestParams(server, request), columns);
    var last := InsertId(accepts, t, before);
    var forwarded := request.WithAttribute(AttributeName, last);
    var o := next(forwarded, response);
    var after := AfterStatement(s, columns, server, RequestParams(server, request), last, o, now);
    Run([Wrote(before), Called(forwarded, response), Wrote(after)],
        Executed(accepts, Executed(accepts, t, before), after), Passed(o))
  }

  /** Single-phase logging: call downstream with a null id, then insert request and response fields together. */
  function SinglePhase(s: Settings, columns: OrderedArray<Value>, accepts: Statement -> bool, t: Table,
                       server: Server, request: Request, response: Response,
                       next: (Request, Response) -> Outcome, now: string): (run: Run)
    ensures |run.events| == 2 && run.events[0].Called? && run.events[1].Wrote?
    ensures run.events[1].statement.Insert? <==> s.writeOnce
    ensures AttributeName in run.events[0].request.attributes && run.events[0].request.attributes[AttributeName] == Null
    ensures run.result == Passed(next(run.events[0].request, run.events[0].response))
  {
    var forwarded := request.WithAttribute(AttributeName, Null);
    var o := next(forwarded, response);
    var after := AfterStatement(s, columns, server, RequestParams(server, request), Null, o, now);
    Run([Called(forwarded, response), Wrote(after)], Executed(accepts, t, after), Passed(o))
  }

  /** A logged request, in the mode the settings choose. */
  function Logging(s: Settings, columns: OrderedArray<Value>, accepts: Statement -> bool, t: Table,
                   server: Server, request: Request, response: Response,
                   next: (Request, Response) -> Outcome, now: string): (run: Run)
    ensures run.events != [] && run.events[|run.events| - 1].Wrote?
    ensures run.events[|run.events| - 1].statement.Insert? <==> s.writeOnce
  {
    if s.writeOnce then SinglePhase(s, columns, accepts, t, server, request, response, next, now)
    else TwoPhase(s, columns, accepts, t, server, request, response, next, now)
  }

  /** `__invoke` as a value. */
  function Intercept(s: Settings, custom: seq<(Request, Response) -> Value>, accepts: Statement -> bool, t: Table,
                     server: Server, request: Request, response: Response,
                     next: (Request, Response) -> Outcome, now: string): (run: Run)
    ensures run.result.Misconfigured? <==> !IsIgnoredPath(s.ignoredPaths, request.path) && |custom| != |s.custom|
    ensures run.result.Misconfigured? ==> run.events == [] && run.table == t
  {
    if IsIgnoredPath(s.ignoredPaths, request.path) then
      Run([Called(request, response)], t, Passed(next(request, response)))
    else if |custom| != |s.custom| then
      Run([], t, Misconfigured(|custom|, |s.custom|))
    else
      Logging(s, CustomColumns(s.custom, custom, request, response), accepts, t, server, request, response, next, now)
  }

  // ------------------------------------------------------- what a run does

  /** How many statements were executed. */
  function WriteCount(events: seq<Event>): nat {
    if events == [] then 0 else (if events[0].Wrote? then 1 else 0) + WriteCount(events[1..])
  }

  /** How many times downstream was called. */
  function CallCount(events: seq<Event>): nat {
    if events == [] then 0 else (if events[0].Called? then 1 else 0) + CallCount(events[1..])
  }

  /** The downstream call of a run, when there is one. */
  function CallOf(run: Run): Option<Event> {
    if run.events == [] then None
    else if run.events[0].Called? then Some(run.events[0])
    else if |run.events| >= 2 && run.events[1].Called? then Some(run.events[1])
    else None
  }

  /** The status and body an after-write logs: the fifth and sixth bound values of an insert, the second and third of an update. */
  function LoggedResponse(st: Statement): (Value, Value) {
    match st
    case Insert(_, _, params) => if |params| >= 7 then (params[5], params[6]) else (Null, Null)
    case Update(_, _, params) => if |params| >= 3 then (params[1], params[2]) else (Null, Null)
  }

  lemma {:induction false} CountsOfThree(a: Statement, rq: Request, rs: Response, b: Statement)
    ensures WriteCount([Wrote(a), Called(rq, rs), Wrote(b)]) == 2 && CallCount([Wrote(a), Called(rq, rs), Wrote(b)]) == 1
  {
    var e := [Wrote(a), Called(rq, rs), Wrote(b)];
    assert e[1..] == [Called(rq, rs), Wrote(b)];
    CountsOfTwo(rq, rs, b);
  }

  lemma {:induction false} CountsOfTwo(rq: Request, rs: Response, b: Statement)
    ensures WriteCount([Called(rq, rs), Wrote(b)]) == 1 && CallCount([Called(rq, rs), Wrote(b)]) == 1
  {
    var e := [Called(rq, rs), Wrote(b)];
    assert e[1..] == [Wrote(b)];
    assert [Wrote(b)][1..] == [];
    assert WriteCount([Wrote(b)]) == 1 && CallCount([Wrote(b)]) == 0;
  }

  lemma {:induction false} CountsOfOne(rq: Request, rs: Response)
    ensures WriteCount([Called(rq, rs)]) == 0 && CallCount([Called(rq, rs)]) == 1
  {
    assert [Called(rq, rs)][1..] == [];
  }

  /**
   * How many writes and downstream calls a request makes: an ignored path
   * one call and no write; mismatched custom counts nothing at all; otherwise
   * one call and two writes (two-phase) or one write (`writeOnce`).
   */
  lemma WritesAndCalls(s: Settings, custom: seq<(Request, Response) -> Value>, accepts: Statement -> bool, t: Table,
                       server: Server, request: Request, response: Response,
                       next: (Request, Response) -> Outcome, now: string)
    ensures var run := Intercept(s, custom, accepts, t, server, request, response, next, now);
      var ignored := IsIgnoredPath(s.ignoredPaths, request.path);
      var aborted := !ignored && |custom| != |s.custom|;
      && CallCount(run.events) == (if aborted then 0 else 1)
      && WriteCount(run.events) == (if ignored || aborted then 0 else if s.writeOnce then 1 else 2)
      && (aborted ==> run.table == t && run.result == Misconfigured(|custom|, |s.custom|))
  {
    var run := Intercept(s, custom, accepts, t, server, request, response, next, now);
    if IsIgnoredPath(s.ignoredPaths, request.path) {
      CountsOfOne(request, response);
    } else if |custom| == |s.custom| {
      if s.writeOnce {
        CountsOfTwo(run.events[0].request, response, run.events[1].statement);
      } else {
        CountsOfThree(run.events[0].statement, run.events[1].request, response, run.events[2].statement);
      }
    }
  }

  /** An ignored path is passed downstream untouched and its outcome returned as it is; the table does not change. */
  lemma IgnoredPassesThrough(s: Settings, custom: seq<(Request, Response) -> Value>, accepts: Statement -> bool, t: Table,
                             server: Server, request: Request, response: Response,
                             next: (Request, Response) -> Outcome, now: string)
    requires IsIgnoredPath(s.ignoredPaths, request.path)
    ensures var run := Intercept(s, custom, accepts, t, server, request, response, next, now);
      && run.events == [Called(request, response)]
      && run.table == t
      && (next(request, response).Completed? ==> run.result == Returned(next(request, response).response))
      && (next(request, response).Threw? ==> run.result == Rethrown(next(request, response).exception))
  {
  }

  /**
   * Two-phase: one insert, then downstream with the insert's id as
   * `accessLogID`, then one update keyed by that same id, which is the new
   * row's id when the insert was accepted and `false` when it was not.
   */
  lemma TwoPhaseKeepsTheId(s: Settings, custom: seq<(Request, Response) -> Value>, accepts: Statement -> bool, t: Table,
                           server: Server, request: Request, response: Response,
                           next: (Request, Response) -> Outcome, now: string)
    requires !IsIgnoredPath(s.ignoredPaths, request.path) && |custom| == |s.custom| && !s.writeOnce
    ensures var run := Intercept(s, custom, accepts, t, server, request, response, next, now);
      && |run.events| == 3
      && run.events[0].Wrote? && run.events[0].statement.Insert?
      && run.events[1].Called? && run.events[2].Wrote? && run.events[2].statement.Update?
      && var id := run.events[1].request.attributes[AttributeName];
      && id == (if accepts(run.events[0].statement) then Int(t.nextId) else False)
      && |run.events[2].statement.params| >= 1
      && run.events[2].statement.params[|run.events[2].statement.params| - 1] == id
      && run.events[1].request.path == request.path
      && run.events[1].request.parsedBody == request.parsedBody
      && run.events[1].request == request.(attributes := request.attributes[AttributeName := id])
  {
    var columns := CustomColumns(s.custom, custom, request, response);
    var run := TwoPhase(s, columns, accepts, t, server, request, response, next, now);
    assert |run.events[2].statement.params| == 4 + |columns|;
  }

  /**
   * Two-phase on a well-formed table: every row that existed before is left
   * exactly as it was (the update touches only the row the insert created);
   * when the insert is refused, the id is `false` and the table is unchanged
   * whatever the update does.
   */
  lemma TwoPhaseTouchesOnlyItsRow(s: Settings, custom: seq<(Request, Response) -> Value>, accepts: Statement -> bool, t: Table,
                                  server: Server, request: Request, response: Response,
                                  next: (Request, Response) -> Outcome, now: string)
    requires WellFormed(t)
    requires !IsIgnoredPath(s.ignoredPaths, request.path) && |custom| == |s.custom| && !s.writeOnce
    ensures var run := Intercept(s, custom, accepts, t, server, request, response, next, now);
      && WellFormed(run.table)
      && (forall n :: n in t.rows ==> n in run.table.rows && run.table.rows[n] == t.rows[n])
      && (accepts(run.events[0].statement) ==> run.table.rows.Keys == t.rows.Keys + {t.nextId})
      && (!accepts(run.events[0].statement) ==> run.table == t)
  {
    var columns := CustomColumns(s.custom, custom, request, response);
    var run := TwoPhase(s, columns, accepts, t, server, request, response, next, now);
    TwoPhaseKeepsTheId(s, custom, accepts, t, server, request, response, next, now);
    var before := run.events[0].statement;
    var after := run.events[2].statement;
    var t1 := Executed(accepts, t, before);
    ExecutedWellFormed(accepts, t, before);
    ExecutedWellFormed(accepts, t1, after);
    if accepts(before) {
      InsertAddsOneRow(t, before.sql, before.columns, before.params);
      if accepts(after) {
        UpdateTouchesOnlyItsRow(t1, after.sql, after.columns, after.params);
      }
    } else if accepts(after) {
      UpdateWithoutIdChangesNothing(t, after.sql, after.columns, after.params);
    }
  }

  /**
   * `writeOnce`: no write before downstream, a null `accessLogID`, then
   * exactly one insert; no row that existed before changes.
   */
  lemma SinglePhaseWritesOnce(s: Settings, custom: seq<(Request, Response) -> Value>, accepts: Statement -> bool, t: Table,
                              server: Server, request: Request, response: Response,
                              next: (Request, Response) -> Outcome, now: string)
    requires WellFormed(t)
    requires !IsIgnoredPath(s.ignoredPaths, request.path) && |custom| == |s.custom| && s.writeOnce
    ensures var run := Intercept(s, custom, accepts, t, server, request, response, next, now);
      && |run.events| == 2
      && run.events[0].Called? && run.events[0].request.attributes[AttributeName] == Null
      && run.events[0].request == request.(attributes := request.attributes[AttributeName := Null])
      && run.events[1].Wrote? && run.events[1].statement.Insert?
      && WellFormed(run.table)
      && (forall n :: n in t.rows ==> n in run.table.rows && run.table.rows[n] == t.rows[n])
  {
    var columns := CustomColumns(s.custom, custom, request, response);
    var run := SinglePhase(s, columns, accepts, t, server, request, response, next, now);
    var after := run.events[1].statement;
    ExecutedWellFormed(accepts, t, after);
    if accepts(after) {
      InsertAddsOneRow(t, after.sql, after.columns, after.params);
    }
  }

  /**
   * The request fields a row carries (time, URI, method code, parameters)
   * do not depend on what downstream does: two runs that differ only in the
   * downstream handler write the same request fields, in either mode.
   */
  lemma RequestFieldsIndependentOfOutcome(s: Settings, custom: seq<(Request, Response) -> Value>, accepts: Statement -> bool,
                                          t: Table, server: Server, request: Request, response: Response,
                                          next1: (Request, Response) -> Outcome, next2: (Request, Response) -> Outcome,
                                          now: string)
    requires !IsIgnoredPath(s.ignoredPaths, request.path) && |custom| == |s.custom|
    ensures var run1 := Intercept(s, custom, accepts, t, server, request, response, next1, now);
      var run2 := Intercept(s, custom, accepts, t, server, request, response, next2, now);
      var fields := [Text(server.requestTime), Text(server.requestPath), MethodValue(server.requestMethod),
                     Params(QueryOf(server), request.parsedBody)];
      && run1.events[0] == run2.events[0]
      && var w1 := run1.events[|run1.events| - 1].statement;
      && var w2 := run2.events[|run2.events| - 1].statement;
      && (s.writeOnce ==> |w1.params| >= 4 && |w2.params| >= 4 && w1.params[..4] == w2.params[..4] == fields)
      && (!s.writeOnce ==> |run1.events[0].statement.params| >= 4 && run1.events[0].statement.params[..4] == fields)
  {
    var columns := CustomColumns(s.custom, custom, request, response);
    if s.writeOnce {
      var run1 := SinglePhase(s, columns, accepts, t, server, request, response, next1, now);
      var run2 := SinglePhase(s, columns, accepts, t, server, request, response, next2, now);
      assert |run1.events[1].statement.params| == 7 + |columns|;
      assert |run2.events[1].statement.params| == 7 + |columns|;
    } else {
      var run1 := TwoPhase(s, columns, accepts, t, server, request, response, next1, now);
      assert |run1.events[0].statement.params| == 4 + |columns|;
    }
  }

  /**
   * What the after-write logs as status and body: on a downstream exception
   * its code and message, whatever `captureResponse` says, and the same
   * exception is rethrown; on a response its status, and its body only when
   * `captureResponse` is set (`''` otherwise), and that response is returned.
   */
  lemma OutcomeLogged(s: Settings, custom: seq<(Request, Response) -> Value>, accepts: Statement -> bool, t: Table,
                      server: Server, request: Request, response: Response,
                      next: (Request, Response) -> Outcome, now: string)
    requires !IsIgnoredPath(s.ignoredPaths, request.path) && |custom| == |s.custom|
    ensures var run := Intercept(s, custom, accepts, t, server, request, response, next, now);
      && CallOf(run).Some?
      && var o := next(CallOf(run).value.request, CallOf(run).value.response);
      && var logged := LoggedResponse(run.events[|run.events| - 1].statement);
      && (o.Threw? ==> logged == (Int(o.exception.code), Text(o.exception.message)) && run.result == Rethrown(o.exception))
      && (o.Completed? ==> logged.0 == Int(o.response.status) && run.result == Returned(o.response))
      && (o.Completed? && s.captureResponse ==> logged.1 == Text(o.response.body))
      && (o.Completed? && !s.captureResponse ==> logged.1 == Text(""))
  {
    LoggingLogsOutcome(s, CustomColumns(s.custom, custom, request, response), accepts, t, server, request, response, next, now);
  }

  /** For any custom columns: the last write logs `Logged` of the downstream outcome, and that outcome is passed on. */
  lemma LoggingLogsOutcome(s: Settings, columns: OrderedArray<Value>, accepts: Statement -> bool, t: Table,
                           server: Server, request: Request, response: Response,
                           next: (Request, Response) -> Outcome, now: string)
    ensures var run := Logging(s, columns, accepts, t, server, request, response, next, now);
      && CallOf(run).Some?
      && var o := next(CallOf(run).value.request, CallOf(run).value.response);
      && LoggedResponse(run.events[|run.events| - 1].statement) == Logged(s.captureResponse, o)
      && run.result == Passed(o)
  {
    if s.writeOnce {
      var run := SinglePhase(s, columns, accepts, t, server, request, response, next, now);
      assert |run.events[1].statement.params| == 7 + |columns|;
    } else {
      var run := TwoPhase(s, columns, accepts, t, server, request, response, next, now);
      assert |run.events[2].statement.params| == 4 + |columns|;
    }
  }

  /**
   * The custom values are those of the original request and response,
   * computed once: the before-insert and the after-update bind the same
   * values, in column order (two-phase); the single insert binds them after
   * its seven fixed values (`writeOnce`).
   */
  lemma CustomValuesReused(s: Settings, custom: seq<(Request, Response) -> Value>, accepts: Statement -> bool, t: Table,
                           server: Server, request: Request, response: Response,
                           next: (Request, Response) -> Outcome, now: string)
    requires !IsIgnoredPath(s.ignoredPaths, request.path) && |custom| == |s.custom|
    ensures var run := Intercept(s, custom, accepts, t, server, request, response, next, now);
      var values := Values(CustomColumns(s.custom, custom, request, response));
      var k := |values|;
      && (!s.writeOnce ==>
            && |run.events[0].statement.params| == 4 + k && run.events[0].statement.params[4..] == values
            && |run.events[2].statement.params| == 4 + k && run.events[2].statement.params[3..3 + k] == values)
      && (s.writeOnce ==>
            |run.events[1].statement.params| == 7 + k && run.events[1].statement.params[7..] == values)
  {
    var columns := CustomColumns(s.custom, custom, request, response);
    var values := Values(columns);
    if s.writeOnce {
      var run := SinglePhase(s, columns, accepts, t, server, request, response, next, now);
      var ps := run.events[1].statement.params;
      assert ps[7..] == values;
    } else {
      var run := TwoPhase(s, columns, accepts, t, server, request, response, next, now);
      var ps0 := run.events[0].statement.params;
      var ps2 := run.events[2].statement.params;
      assert ps0[4..] == values;
      assert ps2[3..3 + |values|] == values;
    }
  }

  // ------------------------------------------------------------ the objects

  /** The downstream handler `$next`: each call is recorded, and its outcome is a function of the request and response it gets. */
  class Downstream {
    const journal: Journal
    const behaviour: (Request, Response) -> Outcome

    constructor (journal: Journal, behaviour: (Request, Response) -> Outcome)
      ensures this.journal == journal && this.behaviour == behaviour
    {
      this.journal := journal;
      this.behaviour := behaviour;
    }

    method Call(request: Request, response: Response) returns (o: Outcome)
      modifies journal
      ensures journal.events == old(journal.events) + [Called(request, response)]
      ensures o == behaviour(request, response)
    {
      journal.Record(Called(request, response));
      o := behaviour(request, response);
    }
  }

  /** The middleware object: the database, the merged settings and the custom column functions. */
  class AccessLog {
    const store: Store
    const settings: Settings
    const custom: seq<(Request, Response) -> Value>

    /** `__construct`: the given settings merged over the defaults. */
    constructor (store: Store, overrides: Overrides, custom: seq<(Request, Response) -> Value>)
      ensures this.store == store && settings == Merge(overrides) && this.custom == custom
    {
      this.store := store;
      settings := Merge(overrides);
      this.custom := custom;
    }

    /** The `$columns` loop of `__invoke`: each configured name set to its function's value. */
    method ComputeColumns(request: Request, response: Response) returns (columns: OrderedArray<Value>)
      requires |custom| == |settings.custom|
      ensures columns == CustomColumns(settings.custom, custom, request, response)
    {
      columns := [];
      for i := 0 to |custom|
        invariant columns == CustomColumns(settings.custom[..i], custom[..i], request, response)
      {
        columns := Put(columns, settings.custom[i], custom[i](request, response));
        assert settings.custom[..i + 1][..i] == settings.custom[..i];
        assert custom[..i + 1][..i] == custom[..i];
      }
      assert settings.custom[..|custom|] == settings.custom;
      assert custom[..|custom|] == custom;
    }

    /** `writeBefore`: insert the request fields, and return the new id, or `false` when the insert fails. */
    method WriteBefore(reqTime: Value, reqUri: Value, reqMethod: Value, params: Value, columns: OrderedArray<Value>)
      returns (last: Value)
      modifies store, store.journal
      ensures var st := BeforeStatement(settings.tableName, reqTime, reqUri, reqMethod, params, columns);
        && store.journal.events == old(store.journal.events) + [Wrote(st)]
        && store.State() == Executed(store.accepts, old(store.State()), st)
        && last == InsertId(store.accepts, old(store.State()), st)
    {
      var st := BuildWriteBefore(settings.tableName, reqTime, reqUri, reqMethod, params, columns);
      var suc := store.Execute(st);
      if suc {
        last := Int(store.lastInsertId);
      } else {
        last := False;
      }
    }

    /** `writeAfter`: insert request and response fields together; the outcome is ignored. */
    method WriteAfter(reqTime: Value, reqUri: Value, reqMethod: Value, params: Value,
                      resTime: Value, resCode: Value, response: Value, columns: OrderedArray<Value>)
      modifies store, store.journal
      ensures var st := CompleteStatement(settings.tableName, reqTime, reqUri, reqMethod, params,
                                          resTime, resCode, response, columns);
        && store.journal.events == old(store.journal.events) + [Wrote(st)]
        && store.State() == Executed(store.accepts, old(store.State()), st)
    {
      var st := BuildWriteAfter(settings.tableName, reqTime, reqUri, reqMethod, params,
                                resTime, resCode, response, columns);
      var _ := store.Execute(st);
    }

    /** `updateAfter`: set the response fields of the row keyed by `insertId`; the outcome is ignored. */
    method UpdateAfter(insertId: Value, resTime: Value, resCode: Value, response: Value, columns: OrderedArray<Value>)
      modifies store, store.journal
      ensures var st := UpdateStatement(settings.tableName, settings.idColumn, insertId, resTime, resCode, response, columns);
        && store.journal.events == old(store.journal.events) + [Wrote(st)]
        && store.State() == Executed(store.accepts, old(store.State()), st)
    {
      var st := BuildUpdateAfter(settings.tableName, settings.idColumn, insertId, resTime, resCode, response, columns);
      var _ := store.Execute(st);
    }

    /** The tail of `__invoke` once downstream has returned or thrown: the after-write of the mode in force, logging that outcome. */
    method WriteOutcome(server: Server, params: Value, last: Value, o: Outcome, now: string, columns: OrderedArray<Value>)
      modifies store, store.journal
      ensures var st := AfterStatement(settings, columns, server, params, last, o, now);
        && store.journal.events == old(store.journal.events) + [Wrote(st)]
        && store.State() == Executed(store.accepts, old(store.State()), st)
    {
      match o {
        case Threw(e) =>
          if settings.writeOnce {
            WriteAfter(Text(server.requestTime), Text(server.requestPath), MethodValue(server.requestMethod),
                       params, Text(now), Int(e.code), Text(e.message), columns);
          } else {
            UpdateAfter(last, Text(now), Int(e.code), Text(e.message), columns);
          }
        case Completed(r) =>
          if settings.writeOnce {
            WriteAfter(Text(server.requestTime), Text(server.requestPath), MethodValue(server.requestMethod),
                       params, Text(now), Int(r.status),
                       if settings.captureResponse then Text(r.body) else Text(""), columns);
          } else {
            UpdateAfter(last, Text(now), Int(r.status),
                        if settings.captureResponse then Text(r.body) else Text(""), columns);
          }
      }
    }

    /** `__invoke`: an ignored path goes straight downstream; otherwise the custom counts are checked and the request is logged. Its whole effect is `Intercept`'s. */
    method Invoke(server: Server, request: Request, response: Response, next: Downstream, now: string)
      returns (result: Result)
      requires next.journal == store.journal
      modifies store, store.journal
      ensures var run := Intercept(settings, custom, store.accepts, old(store.State()),
                                   server, request, response, next.behaviour, now);
        && store.journal.events == old(store.journal.events) + run.events
        && store.State() == run.table
        && result == run.result
    {
      if IsIgnoredPath(settings.ignoredPaths, request.path) {
        var o := next.Call(request, response);
        result := Passed(o);
      } else if |custom| != |settings.custom| {
        result := Misconfigured(|custom|, |settings.custom|);
      } else {
        result := LogRequest(server, request, response, next, now);
      }
    }

    /** The logging branch of `__invoke`: the custom columns and the request parameters, then the writes around downstream. */
    method LogRequest(server: Server, request: Request, response: Response, next: Downstream, now: string)
      returns (result: Result)
      requires next.journal == store.journal && |custom| == |settings.custom|
      modifies store, store.journal
      ensures var run := Logging(settings, CustomColumns(settings.custom, custom, request, response), store.accepts,
                                 old(store.State()), server, request, response, next.behaviour, now);
        && store.journal.events == old(store.journal.events) + run.events
        && store.State() == run.table
        && result == run.result
    {
      var columns := ComputeColumns(request, response);
      var qs := Blank;
      if server.queryString.Some? {
        qs := ProperParseStr(server.queryString.value);
      }
      var params := Params(qs, request.parsedBody);
      result := LogAround(server, request, response, next, now, columns, params);
    }

    /** The writes around downstream: the before-write (two-phase), the call with the row id attached, the after-write of its outcome. */
    method LogAround(server: Server, request: Request, response: Response, next: Downstream, now: string,
                     columns: OrderedArray<Value>, params: Value)
      returns (result: Result)
      requires next.journal == store.journal && params == RequestParams(server, request)
      modifies store, store.journal
      ensures var run := Logging(settings, columns, store.accepts, old(store.State()),
                                 server, request, response, next.behaviour, now);
        && store.journal.events == old(store.journal.events) + run.events
        && store.State() == run.table
        && result == run.result
    {
      ghost var t0, e0 := store.State(), store.journal.events;
      ghost var before := BeforeStatement(settings.tableName, Text(server.requestTime), Text(server.requestPath),
                                          MethodValue(server.requestMethod), params, columns);
      ghost var t1, e1 := t0, e0;
      var last := Null;
      if !settings.writeOnce {
        last := WriteBefore(Text(server.requestTime), Text(server.requestPath), MethodValue(server.requestMethod),
                            params, columns);
        t1, e1 := Executed(store.accepts, t0, before), e0 + [Wrote(before)];
      }
      assert store.State() == t1 && store.journal.events == e1;
      var forwarded := request.WithAttribute(AttributeName, last);
      var o := next.Call(forwarded, response);
      WriteOutcome(server, params, last, o, now, columns);
      result := Passed(o);
      ghost var after := AfterStatement(settings, columns, server, params, last, o, now);
      if settings.writeOnce {
        assert SinglePhase(settings, columns, store.accepts, t0, server, request, response, next.behaviour, now)
            == Run([Called(forwarded, response), Wrote(after)], Executed(store.accepts, t0, after), result);
      } else {
        assert last == InsertId(store.accepts, t0, before);
        assert TwoPhase(settings, columns, store.accepts, t0, server, request, response, next.behaviour, now)
            == Run([Wrote(before), Called(forwarded, response), Wrote(after)],
                   Executed(store.accepts, t1, after), result);
      }
    }
  }
}
