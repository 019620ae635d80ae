/**
 * The three statement builders, `writeBefore`, `writeAfter` and
 * `updateAfter`, up to the point where the statement is handed to the
 * database: the SQL text exactly as the source assembles it, the columns it
 * writes, and the ordered list of bound values. Two defects are kept as
 * written: the VALUES list glues the fixed `?`s to the custom ones without a
 * separator (`?, ?, ?, ??, ?` for two custom columns), and the SET clause
 * puts no comma between successive custom assignments.
 */
module Statements {
  import opened Php
  import opened Messages

  /** A prepared statement with its bound values, plus the columns it writes. For an update the last bound value is the row key. */
  datatype Statement =
    | Insert(sql: string, columns: seq<string>, params: seq<Value>)
    | Update(sql: string, columns: seq<string>, params: seq<Value>)

  const BeforeColumns: seq<string> := ["requestTime", "requestUri", "requestMethod", "requestParams"]
  const CompleteColumns: seq<string> := BeforeColumns + ["responseTime", "responseStatus", "response"]
  const UpdateColumns: seq<string> := ["responseTime", "responseStatus", "response"]

  /** How many times `c` occurs in `s`. */
  function Occurrences(c: char, s: string): nat {
    multiset(s)[c]
  }

  /** `t` occurs in `s` starting at index `i`. */
  predicate OccursAt(s: string, t: string, i: int) {
    0 <= i <= |s| - |t| && s[i..i + |t|] == t
  }

  /** `s` holds no `?`: a name that adds no placeholder to the text it is spliced into. */
  predicate NoMarks(s: string) {
    '?' !in s
  }

  predicate AllNoMarks(names: seq<string>) {
    forall i :: 0 <= i < |names| ==> NoMarks(names[i])
  }

  // ------------------------------------------------ the source's literal text

  const BeforeHead := Indent12 + "INSERT INTO "
  const BeforeColumnsOpen := Indent16 + "(" + Implode(", ", BeforeColumns)
  const BeforeValuesOpen := ")" + Indent12 + "VALUES" + Indent16 + "("
  const BeforeFixedPlaceholders := "?, ?, ?, ?"
  const CompleteHead := Indent16 + "INSERT INTO "
  const CompleteColumnsOpen := Indent20 + "(" + Implode(", ", CompleteColumns)
  const CompleteValuesOpen := ")" + Indent16 + "VALUES" + Indent20 + "("
  const CompleteFixedPlaceholders := "?, ?, ?, ?, ?, ?, ?"
  const InsertClose := ")" + Indent12
  const UpdateHead := Indent16 + "UPDATE "
  const UpdateSetOpen := Indent16 + "SET"
    + Assignment("responseTime") + "," + Assignment("responseStatus") + "," + Assignment("response")
  const UpdateWhere := Indent16 + "WHERE "
  const UpdateClose := " = ?" + Indent12
  /** What updateAfter's loop puts before each custom assignment. */
  const AssignmentIndent := Indent20

  /** One SET assignment on its own line, `column = ?`. */
  function Assignment(column: string): string {
    AssignmentIndent + column + " = ?"
  }

  /** Line breaks with the statement text's indentation. */
  const Indent12 := "\n            "
  const Indent16 := "\n                "
  const Indent20 := "\n                    "

  // -------------------------------------------------------------- fragments

  /** The `$customCols` loop of writeBefore/writeAfter: `, name` per custom column. */
  function ColumnSuffix(names: seq<string>): string {
    if names == [] then ""
    else ColumnSuffix(names[..|names| - 1]) + ", " + names[|names| - 1]
  }

  /** `implode(', ', array_fill(0, k, '?'))`: `k` placeholders separated by `, `, as a database expects a list of them. */
  function Placeholders(k: nat): string {
    Implode(", ", Fill(k, "?"))
  }

  /** The `$customCols` loop of updateAfter: a new line and `name = ?` per custom column, no comma. */
  function AssignmentSuffix(names: seq<string>): string {
    if names == [] then ""
    else AssignmentSuffix(names[..|names| - 1]) + Assignment(names[|names| - 1])
  }

  /** updateAfter's custom part: one leading comma when the suffix is not empty. */
  function CustomAssignments(names: seq<string>): string {
    var suffix := AssignmentSuffix(names);
    if EmptyString(suffix) then "" else "," + suffix
  }

  // ------------------------------------------------------------------- text

  /**
   * writeBefore's statement text: the column list, then `(?, ?, ?, ?` fused
   * to the custom placeholders, so that with custom columns it holds `??`.
   */
  function BeforeSql(table: string, names: seq<string>): (sql: string)
    ensures names != [] ==> exists i :: OccursAt(sql, "??", i)
  {
    var prefix := BeforeHead + table + BeforeColumnsOpen + ColumnSuffix(names) + BeforeValuesOpen;
    var tuple := BeforeFixedPlaceholders + Placeholders(|names|);
    BeforePlaceholders(names);
    Spliced(prefix, tuple, InsertClose, 9);
    prefix + tuple + InsertClose
  }

  /** writeAfter's statement text: the same shape with seven fixed placeholders. */
  function CompleteSql(table: string, names: seq<string>): (sql: string)
    ensures names != [] ==> exists i :: OccursAt(sql, "??", i)
  {
    var prefix := CompleteHead + table + CompleteColumnsOpen + ColumnSuffix(names) + CompleteValuesOpen;
    var tuple := CompleteFixedPlaceholders + Placeholders(|names|);
    CompletePlaceholders(names);
    Spliced(prefix, tuple, InsertClose, 18);
    prefix + tuple + InsertClose
  }

  /** updateAfter's statement text: three response assignments, the custom ones, and the key test. */
  function UpdateSql(table: string, idColumn: string, names: seq<string>): string {
    UpdateHead + table + UpdateSetOpen + CustomAssignments(names) + (UpdateWhere + idColumn + UpdateClose)
  }

  /** With a table and column names free of `?`, writeBefore's text holds one `?` per bound value. */
  lemma BeforeSqlMarks(table: string, names: seq<string>)
    requires NoMarks(table) && AllNoMarks(names)
    ensures Occurrences('?', BeforeSql(table, names)) == 4 + |names|
  {
    InsertTextMarks();
    ColumnSuffixMarks(names);
    BeforePlaceholders(names);
    InsertCount(BeforeHead, table, BeforeColumnsOpen, ColumnSuffix(names), BeforeValuesOpen,
                BeforeFixedPlaceholders + Placeholders(|names|), InsertClose);
  }

  /** With a table and column names free of `?`, writeAfter's text holds one `?` per bound value. */
  lemma CompleteSqlMarks(table: string, names: seq<string>)
    requires NoMarks(table) && AllNoMarks(names)
    ensures Occurrences('?', CompleteSql(table, names)) == 7 + |names|
  {
    InsertTextMarks();
    ColumnSuffixMarks(names);
    CompletePlaceholders(names);
    InsertCount(CompleteHead, table, CompleteColumnsOpen, ColumnSuffix(names), CompleteValuesOpen,
                CompleteFixedPlaceholders + Placeholders(|names|), InsertClose);
  }

  /** With a table, key column and column names free of `?`, updateAfter's text holds one `?` per bound value. */
  lemma UpdateSqlMarks(table: string, idColumn: string, names: seq<string>)
    requires NoMarks(table) && NoMarks(idColumn) && AllNoMarks(names)
    ensures Occurrences('?', UpdateSql(table, idColumn, names)) == 4 + |names|
  {
    UpdateTextMarks();
    CustomAssignmentsMarks(names);
    var head := UpdateHead + table;
    var tail := UpdateWhere + idColumn + UpdateClose;
    NoMarksCount(UpdateHead);
    NoMarksCount(table);
    NoMarksCount(UpdateWhere);
    NoMarksCount(idColumn);
    OccurrencesAppend('?', UpdateHead, table);
    OccurrencesAppend('?', head, UpdateSetOpen);
    OccurrencesAppend('?', UpdateWhere, idColumn);
    OccurrencesAppend('?', UpdateWhere + idColumn, UpdateClose);
    OccurrencesAppend('?', head + UpdateSetOpen, CustomAssignments(names));
    OccurrencesAppend('?', head + UpdateSetOpen + CustomAssignments(names), tail);
  }

  /** An insert text whose only marks are those of its VALUES tuple. */
  lemma InsertCount(head: string, table: string, columnsOpen: string, suffix: string, valuesOpen: string,
                    tuple: string, close: string)
    requires NoMarks(head) && NoMarks(table) && NoMarks(columnsOpen) && NoMarks(suffix)
    requires NoMarks(valuesOpen) && NoMarks(close)
    ensures Occurrences('?', head + table + columnsOpen + suffix + valuesOpen + tuple + close)
         == Occurrences('?', tuple)
  {
    var p1 := head + table;
    var p2 := p1 + columnsOpen;
    var p3 := p2 + suffix;
    var p4 := p3 + valuesOpen;
    NoMarksCount(head);
    NoMarksCount(table);
    NoMarksCount(columnsOpen);
    NoMarksCount(suffix);
    NoMarksCount(valuesOpen);
    NoMarksCount(close);
    OccurrencesAppend('?', head, table);
    OccurrencesAppend('?', p1, columnsOpen);
    OccurrencesAppend('?', p2, suffix);
    OccurrencesAppend('?', p3, valuesOpen);
    OccurrencesAppend('?', p4, tuple);
    OccurrencesAppend('?', p4 + tuple, close);
  }

  // ------------------------------------------------------------ counting marks

  lemma NoMarksCount(s: string)
    ensures NoMarks(s) <==> Occurrences('?', s) == 0
  {
    assert '?' in s <==> '?' in multiset(s);
  }

  /** A `??` in the middle of a text spliced from three parts stays in the whole. */
  lemma Spliced(p: string, t: string, q: string, j: int)
    ensures OccursAt(t, "??", j) ==> OccursAt(p + t + q, "??", |p| + j)
  {
    if OccursAt(t, "??", j) {
      assert (p + t + q)[|p| + j] == t[j];
      assert (p + t + q)[|p| + j + 1] == t[j + 1];
      assert (p + t + q)[|p| + j..|p| + j + 2] == [t[j], t[j + 1]];
      assert t[j..j + 2] == [t[j], t[j + 1]];
    }
  }

  /** The fixed insert text holds no `?` outside the VALUES tuple. */
  lemma InsertTextMarks()
    ensures NoMarks(BeforeHead) && NoMarks(BeforeColumnsOpen) && NoMarks(BeforeValuesOpen)
    ensures NoMarks(CompleteHead) && NoMarks(CompleteColumnsOpen) && NoMarks(CompleteValuesOpen)
    ensures NoMarks(InsertClose)
  {
    ColumnNamesMarks();
    ImplodeWithout('?', ", ", BeforeColumns);
    ImplodeWithout('?', ", ", CompleteColumns);
  }

  lemma ColumnNamesMarks()
    ensures AllNoMarks(BeforeColumns) && AllNoMarks(CompleteColumns)
  {
    assert NoMarks("requestTime") && NoMarks("requestUri") && NoMarks("requestMethod") && NoMarks("requestParams");
    assert NoMarks("responseTime") && NoMarks("responseStatus") && NoMarks("response");
  }

  /** The fixed update text: three `?` in the SET clause and one in the key test. */
  lemma UpdateTextMarks()
    ensures NoMarks(UpdateHead) && NoMarks(UpdateWhere)
    ensures Occurrences('?', UpdateSetOpen) == 3 && Occurrences('?', UpdateClose) == 1
  {
    UpdateFrameMarks();
    SetClauseMarks();
    KeyTestMarks();
  }

  lemma UpdateFrameMarks()
    ensures NoMarks(UpdateHead) && NoMarks(UpdateWhere)
  {
  }

  lemma KeyTestMarks()
    ensures Occurrences('?', UpdateClose) == 1
  {
    assert NoMarks(" = ") && NoMarks(Indent12);
    assert UpdateClose == " = " + "?" + Indent12;
    OneMark(" = ", Indent12);
  }

  /** A single `?` between two `?`-free texts. */
  lemma OneMark(before: string, after: string)
    requires NoMarks(before) && NoMarks(after)
    ensures Occurrences('?', before + "?" + after) == 1
  {
    NoMarksCount(before);
    NoMarksCount(after);
    assert multiset("?") == multiset{'?'};
    OccurrencesAppend('?', before, "?");
    OccurrencesAppend('?', before + "?", after);
  }

  lemma SetClauseMarks()
    ensures Occurrences('?', UpdateSetOpen) == 3
  {
    assert NoMarks(Indent16 + "SET");
    ThreeAssignments(Indent16 + "SET", "responseTime", "responseStatus", "response");
  }

  /** A `?`-free opening followed by three comma-separated assignments of `?`-free columns holds three `?`. */
  lemma ThreeAssignments(opening: string, x: string, y: string, z: string)
    requires NoMarks(opening) && NoMarks(x) && NoMarks(y) && NoMarks(z)
    ensures Occurrences('?', opening + Assignment(x) + "," + Assignment(y) + "," + Assignment(z)) == 3
  {
    var p1 := opening + Assignment(x);
    var p2 := p1 + ",";
    var p3 := p2 + Assignment(y);
    var p4 := p3 + ",";
    AssignmentMarks(x);
    AssignmentMarks(y);
    AssignmentMarks(z);
    NoMarksCount(opening);
    NoMarksCount(",");
    OccurrencesAppend('?', opening, Assignment(x));
    OccurrencesAppend('?', p1, ",");
    OccurrencesAppend('?', p2, Assignment(y));
    OccurrencesAppend('?', p3, ",");
    OccurrencesAppend('?', p4, Assignment(z));
  }

  /** An assignment of a `?`-free column holds exactly its one `?`. */
  lemma AssignmentMarks(column: string)
    ensures NoMarks(column) ==> Occurrences('?', Assignment(column)) == 1
  {
    if NoMarks(column) {
      assert NoMarks(AssignmentIndent + column + " = ");
      assert Assignment(column) == AssignmentIndent + column + " = " + "?" + "";
      OneMark(AssignmentIndent + column + " = ", "");
    }
  }

  lemma {:induction false} ColumnSuffixMarks(names: seq<string>)
    ensures AllNoMarks(names) ==> NoMarks(ColumnSuffix(names))
  {
    if names != [] {
      ColumnSuffixMarks(names[..|names| - 1]);
    }
  }

  /** updateAfter's custom assignments hold one `?` per custom column. */
  lemma {:induction false} AssignmentSuffixMarks(names: seq<string>)
    ensures AllNoMarks(names) ==> Occurrences('?', AssignmentSuffix(names)) == |names|
  {
    if names != [] && AllNoMarks(names) {
      var init, last := names[..|names| - 1], names[|names| - 1];
      AssignmentSuffixMarks(init);
      assert NoMarks(last);
      AssignmentMarks(last);
      OccurrencesAppend('?', AssignmentSuffix(init), Assignment(last));
    }
  }

  lemma CustomAssignmentsMarks(names: seq<string>)
    ensures AllNoMarks(names) ==> Occurrences('?', CustomAssignments(names)) == |names|
  {
    AssignmentSuffixMarks(names);
    AssignmentLengths(names);
    OccurrencesAppend('?', ",", AssignmentSuffix(names));
    NoMarksCount(",");
  }

  // ------------------------------------------------------------- statements

  /** What writeBefore prepares: the four request fields, then the custom values in column order. */
  function BeforeStatement(table: string, reqTime: Value, reqUri: Value, reqMethod: Value, params: Value,
                           columns: OrderedArray<Value>): (st: Statement)
    ensures st.Insert? && |st.params| == |st.columns| == 4 + |columns|
    ensures forall i :: 4 <= i < |st.params| ==> st.columns[i] == columns[i - 4].0 && st.params[i] == columns[i - 4].1
  {
    AppendedAligned(BeforeColumns, [reqTime, reqUri, reqMethod, params], Keys(columns), Values(columns));
    Insert(BeforeSql(table, Keys(columns)), BeforeColumns + Keys(columns),
           [reqTime, reqUri, reqMethod, params] + Values(columns))
  }

  /** What writeAfter prepares: the four request fields, the three response fields, then the custom values. */
  function CompleteStatement(table: string, reqTime: Value, reqUri: Value, reqMethod: Value, params: Value,
                             resTime: Value, resCode: Value, response: Value,
                             columns: OrderedArray<Value>): (st: Statement)
    ensures st.Insert? && |st.params| == |st.columns| == 7 + |columns|
    ensures forall i :: 7 <= i < |st.params| ==> st.columns[i] == columns[i - 7].0 && st.params[i] == columns[i - 7].1
  {
    AppendedAligned(CompleteColumns, [reqTime, reqUri, reqMethod, params, resTime, resCode, response],
                    Keys(columns), Values(columns));
    Insert(CompleteSql(table, Keys(columns)), CompleteColumns + Keys(columns),
           [reqTime, reqUri, reqMethod, params, resTime, resCode, response] + Values(columns))
  }

  /** What updateAfter prepares: the three response fields, the custom values, and the row key last. */
  function UpdateStatement(table: string, idColumn: string, insertId: Value,
                           resTime: Value, resCode: Value, response: Value,
                           columns: OrderedArray<Value>): (st: Statement)
    ensures st.Update? && |st.params| == |st.columns| + 1 == 4 + |columns|
    ensures st.params[|st.columns|] == insertId
    ensures forall i :: 3 <= i < |st.columns| ==> st.columns[i] == columns[i - 3].0 && st.params[i] == columns[i - 3].1
  {
    var bound := [resTime, resCode, response] + Values(columns);
    AppendedAligned(UpdateColumns, [resTime, resCode, response], Keys(columns), Values(columns));
    assert forall i :: 0 <= i < |bound| ==> (bound + [insertId])[i] == bound[i];
    Update(UpdateSql(table, idColumn, Keys(columns)), UpdateColumns + Keys(columns), bound + [insertId])
  }

  // --------------------------------------------------------------- builders

  lemma ColumnSuffixStep(columns: OrderedArray<Value>, i: nat)
    requires i < |columns|
    ensures ColumnSuffix(Keys(columns[..i + 1])) == ColumnSuffix(Keys(columns[..i])) + ", " + columns[i].0
  {
    assert Keys(columns[..i + 1]) == Keys(columns[..i]) + [columns[i].0];
  }

  lemma AssignmentSuffixStep(columns: OrderedArray<Value>, i: nat)
    requires i < |columns|
    ensures AssignmentSuffix(Keys(columns[..i + 1])) == AssignmentSuffix(Keys(columns[..i])) + Assignment(columns[i].0)
  {
    assert Keys(columns[..i + 1]) == Keys(columns[..i]) + [columns[i].0];
  }

  /** writeBefore up to `prepare`/`execute`: the column loop, then the text and the bound values. */
  method BuildWriteBefore(table: string, reqTime: Value, reqUri: Value, reqMethod: Value, params: Value,
                          columns: OrderedArray<Value>) returns (st: Statement)
    ensures st == BeforeStatement(table, reqTime, reqUri, reqMethod, params, columns)
    ensures |st.params| == 4 + |columns| && st.params[4..] == Values(columns)
  {
    var customCols := "";
    for i := 0 to |columns|
      invariant customCols == ColumnSuffix(Keys(columns[..i]))
    {
      customCols := customCols + ", " + columns[i].0;
      ColumnSuffixStep(columns, i);
    }
    assert columns[..|columns|] == columns;
    var sql := BeforeHead + table + BeforeColumnsOpen + customCols
      + BeforeValuesOpen + BeforeFixedPlaceholders + Implode(", ", Fill(|columns|, "?")) + InsertClose;
    assert sql == BeforeSql(table, Keys(columns));
    st := Insert(sql, BeforeColumns + Keys(columns), [reqTime, reqUri, reqMethod, params] + Values(columns));
  }

  /** writeAfter up to `prepare`/`execute`. */
  method BuildWriteAfter(table: string, reqTime: Value, reqUri: Value, reqMethod: Value, params: Value,
                         resTime: Value, resCode: Value, response: Value,
                         columns: OrderedArray<Value>) returns (st: Statement)
    ensures st == CompleteStatement(table, reqTime, reqUri, reqMethod, params, resTime, resCode, response, columns)
    ensures |st.params| == 7 + |columns| && st.params[7..] == Values(columns)
  {
    var customCols := "";
    for i := 0 to |columns|
      invariant customCols == ColumnSuffix(Keys(columns[..i]))
    {
      customCols := customCols + ", " + columns[i].0;
      ColumnSuffixStep(columns, i);
    }
    assert columns[..|columns|] == columns;
    var sql := CompleteHead + table + CompleteColumnsOpen + customCols
      + CompleteValuesOpen + CompleteFixedPlaceholders + Implode(", ", Fill(|columns|, "?")) + InsertClose;
    assert sql == CompleteSql(table, Keys(columns));
    st := Insert(sql, CompleteColumns + Keys(columns),
                 [reqTime, reqUri, reqMethod, params, resTime, resCode, response] + Values(columns));
  }

  /** updateAfter up to `prepare`/`execute`. */
  method BuildUpdateAfter(table: string, idColumn: string, insertId: Value,
                          resTime: Value, resCode: Value, response: Value,
                          columns: OrderedArray<Value>) returns (st: Statement)
    ensures st == UpdateStatement(table, idColumn, insertId, resTime, resCode, response, columns)
    ensures |st.params| == 4 + |columns| && st.params[|st.params| - 1] == insertId
    ensures st.params[3..3 + |columns|] == Values(columns)
  {
    var customCols := "";
    for i := 0 to |columns|
      invariant customCols == AssignmentSuffix(Keys(columns[..i]))
    {
      customCols := customCols + Assignment(columns[i].0);
      AssignmentSuffixStep(columns, i);
    }
    assert columns[..|columns|] == columns;
    if !EmptyString(customCols) {
      customCols := "," + customCols;
    }
    var sql := (UpdateHead + table + UpdateSetOpen) + customCols + (UpdateWhere + idColumn + UpdateClose);
    assert sql == UpdateSql(table, idColumn, Keys(columns));
    st := Update(sql, UpdateColumns + Keys(columns), [resTime, resCode, response] + Values(columns) + [insertId]);
    assert st.params[3..3 + |columns|] == Values(columns);
  }

  // --------------------------------------------------- what the text amounts to

  lemma {:induction false} PlaceholdersStep(n: nat)
    requires n >= 1
    ensures Placeholders(n + 1) == "?" + ", " + Placeholders(n)
  {
    assert Fill(n + 1, "?")[1..] == Fill(n, "?");
  }

  /** `n` placeholders take `3n - 2` characters, hold `n` question marks, and start and end with one. */
  lemma PlaceholdersShape(n: nat)
    ensures |Placeholders(n)| == if n == 0 then 0 else 3 * n - 2
    ensures Occurrences('?', Placeholders(n)) == n
    ensures n >= 1 ==> Placeholders(n)[0] == '?' && Placeholders(n)[|Placeholders(n)| - 1] == '?'
  {
    PlaceholdersLength(n);
    PlaceholdersCount(n);
    PlaceholdersEnds(n);
  }

  lemma {:induction false} PlaceholdersLength(n: nat)
    ensures |Placeholders(n)| == if n == 0 then 0 else 3 * n - 2
  {
    if n == 1 {
      assert Placeholders(1) == "?";
    } else if n >= 2 {
      PlaceholdersLength(n - 1);
      PlaceholdersStep(n - 1);
    }
  }

  lemma OccurrencesAppend(c: char, a: string, b: string)
    ensures Occurrences(c, a + b) == Occurrences(c, a) + Occurrences(c, b)
  {
    assert multiset(a + b) == multiset(a) + multiset(b);
  }

  lemma {:induction false} PlaceholdersCount(n: nat)
    ensures Occurrences('?', Placeholders(n)) == n
  {
    if n == 1 {
      assert Placeholders(1) == "?";
      assert multiset("?") == multiset{'?'};
    } else if n >= 2 {
      PlaceholdersCount(n - 1);
      PlaceholdersStep(n - 1);
      OccurrencesAppend('?', "?, ", Placeholders(n - 1));
      assert multiset("?, ") == multiset{'?', ',', ' '};
    } else {
      assert Placeholders(0) == "";
    }
  }

  lemma {:induction false} PlaceholdersEnds(n: nat)
    ensures n >= 1 ==> Placeholders(n)[0] == '?' && Placeholders(n)[|Placeholders(n)| - 1] == '?'
  {
    PlaceholdersLength(n);
    if n == 1 {
      assert Placeholders(1) == "?";
    } else if n >= 2 {
      var p := Placeholders(n - 1);
      PlaceholdersEnds(n - 1);
      PlaceholdersLength(n - 1);
      PlaceholdersStep(n - 1);
      assert Placeholders(n) == "?, " + p;
      assert Placeholders(n)[|Placeholders(n)| - 1] == p[|p| - 1];
    }
  }

  lemma BeforeFixedPlaceholdersIsList()
    ensures BeforeFixedPlaceholders == Placeholders(4)
  {
    assert Placeholders(1) == "?";
    PlaceholdersStep(1);
    PlaceholdersStep(2);
    PlaceholdersStep(3);
    assert Placeholders(4) == "?, " + ("?, " + ("?, " + "?"));
  }

  lemma CompleteFixedPlaceholdersIsList()
    ensures CompleteFixedPlaceholders == Placeholders(7)
  {
    BeforeFixedPlaceholdersIsList();
    assert CompleteFixedPlaceholders == "?, ?, ?, " + BeforeFixedPlaceholders;
    PlaceholdersThreeMore(4);
  }

  lemma PlaceholdersThreeMore(n: nat)
    requires n >= 1
    ensures Placeholders(n + 3) == "?, ?, ?, " + Placeholders(n)
  {
    PlaceholdersStep(n);
    PlaceholdersStep(n + 1);
    PlaceholdersStep(n + 2);
    var p := Placeholders(n);
    assert "?, " + ("?, " + ("?, " + p)) == "?, " + "?, " + "?, " + p;
  }

  /**
   * `m` placeholders followed directly by `k` more form the list of `m + k`
   * placeholders only when `k` is 0; otherwise the missing `, ` glues the
   * last `?` of the first list to the first `?` of the second.
   */
  lemma {:induction false} JoinedPlaceholders(m: nat, k: nat)
    requires m >= 1
    ensures Placeholders(m) + Placeholders(k) == Placeholders(m + k) <==> k == 0
    ensures k >= 1 ==> OccursAt(Placeholders(m) + Placeholders(k), "??", 3 * m - 3)
    ensures Occurrences('?', Placeholders(m) + Placeholders(k)) == m + k
  {
    JoinedLength(m, k);
    JoinedGlue(m, k);
    JoinedCount(m, k);
  }

  lemma JoinedLength(m: nat, k: nat)
    requires m >= 1
    ensures Placeholders(m) + Placeholders(k) == Placeholders(m + k) <==> k == 0
  {
    PlaceholdersShape(m);
    PlaceholdersShape(k);
    PlaceholdersShape(m + k);
    if k == 0 {
      assert Placeholders(k) == "";
    }
  }

  lemma JoinedGlue(m: nat, k: nat)
    requires m >= 1
    ensures k >= 1 ==> OccursAt(Placeholders(m) + Placeholders(k), "??", 3 * m - 3)
  {
    PlaceholdersShape(m);
    PlaceholdersShape(k);
    var t := Placeholders(m) + Placeholders(k);
    if k >= 1 {
      var j := 3 * m - 3;
      assert t[j] == Placeholders(m)[j];
      assert t[j + 1] == Placeholders(k)[0];
      assert t[j..j + 2] == [t[j], t[j + 1]];
    }
  }

  lemma JoinedCount(m: nat, k: nat)
    ensures Occurrences('?', Placeholders(m) + Placeholders(k)) == m + k
  {
    PlaceholdersShape(m);
    PlaceholdersShape(k);
  }

  /** writeBefore's VALUES list: one `?` per bound value, but a proper list only without custom columns; with them it holds `??`. */
  lemma BeforePlaceholders(names: seq<string>)
    ensures var tuple := BeforeFixedPlaceholders + Placeholders(|names|);
      && Occurrences('?', tuple) == 4 + |names|
      && (tuple == Placeholders(4 + |names|) <==> names == [])
      && (names != [] ==> OccursAt(tuple, "??", 9))
  {
    BeforeFixedPlaceholdersIsList();
    JoinedPlaceholders(4, |names|);
  }

  /** The same for writeAfter's seven fixed placeholders. */
  lemma CompletePlaceholders(names: seq<string>)
    ensures var tuple := CompleteFixedPlaceholders + Placeholders(|names|);
      && Occurrences('?', tuple) == 7 + |names|
      && (tuple == Placeholders(7 + |names|) <==> names == [])
      && (names != [] ==> OccursAt(tuple, "??", 18))
  {
    CompleteFixedPlaceholdersIsList();
    JoinedPlaceholders(7, |names|);
  }

  /** The SET continuation a database accepts: a comma before every custom assignment. */
  function SeparatedAssignments(names: seq<string>): string {
    if names == [] then ""
    else SeparatedAssignments(names[..|names| - 1]) + "," + Assignment(names[|names| - 1])
  }

  lemma {:induction false} AssignmentLengths(names: seq<string>)
    ensures |AssignmentSuffix(names)| >= 4 * |names|
    ensures |SeparatedAssignments(names)| == |AssignmentSuffix(names)| + |names|
  {
    if names != [] {
      AssignmentLengths(names[..|names| - 1]);
    }
  }

  /**
   * updateAfter's custom assignments are properly comma-separated exactly
   * when there is at most one custom column: with `k >= 2`, `k - 1` commas
   * are missing.
   */
  lemma UpdateAssignmentsSeparatedIff(names: seq<string>)
    ensures CustomAssignments(names) == SeparatedAssignments(names) <==> |names| <= 1
    ensures |SeparatedAssignments(names)| - |CustomAssignments(names)| == if names == [] then 0 else |names| - 1
  {
    AssignmentLengths(names);
    if |names| == 1 {
      SingleAssignment(names[0]);
    }
  }

  lemma SingleAssignment(name: string)
    ensures CustomAssignments([name]) == SeparatedAssignments([name])
  {
    assert [name][..0] == [];
    assert AssignmentSuffix([name]) == Assignment(name);
    assert SeparatedAssignments([name]) == "," + Assignment(name);
  }

}
