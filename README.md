# Access-log middleware, modelled in Dafny

This project models `jstnryan\AccessLog\AccessLog`. It is a Slim/PSR-7
middleware that writes one row per HTTP request into an SQL access-log table.
The model covers these parts:

- **Path exemption.** `isIgnoredPath` prefixes `/`, collapses runs of `/`,
  trims trailing `/` from the pattern and matches the pattern or any sub-path
  of it (`PathMatch`).
- **Query-string parsing.** `proper_parse_str` builds an ordered array in
  which a repeated name collects all of its values (`QueryString`, on top of
  the PHP ordered-array and `explode`/`implode` semantics in `Php`).
- **Method codes.** The `httpMethodID` table (`HttpMethods`).
- **Statement builders.** `writeBefore`, `writeAfter` and `updateAfter` build
  the SQL text exactly as the source assembles it, with the ordered list of
  bound values (`Statements`).
- **The database.** An auto-increment table with `lastInsertId`, whose verdict
  on each statement is a parameter (`Database`). A journal records every
  statement executed and every downstream call, in order.
- **The middleware.** The constructor's settings merge and `__invoke` itself
  (`Middleware`). The ignored-path branch, the fail-fast check on the custom
  column count, the two-phase mode (insert, call downstream with the new id as
  `accessLogID`, update that id) and the single-phase `writeOnce` mode (call
  downstream, then one insert) are all modelled. A downstream exception is
  logged with its code and message and then rethrown.

`__invoke` is the imperative method `Middleware.AccessLog.Invoke`. It works on
a `Database.Store` object and a `Middleware.Downstream` object that share a
`Database.Journal`. Its postcondition says that the journal grows by exactly
the events of the value-level run `Middleware.Intercept`, that the table ends
as that run's table, and that the result is that run's result. The lemmas
about `Intercept` then state the following:

- how many writes and calls happen, and in which order;
- which id downstream receives;
- which row the update targets;
- what is logged for each outcome;
- that existing rows are never altered.

## Source behaviour kept as written

Three defects of `src/AccessLog.php` are modelled as the code behaves. Each
one is exhibited by a lemma.

- **Only the first ignore pattern is consulted.** `isIgnoredPath` returns from
  inside its `foreach` on the first pattern, at `src/AccessLog.php:144-147`.
  The settings comment at `src/AccessLog.php:31-33` documents `ignoredPaths`
  as a list of paths, each of which is exempt from logging; the code consults
  only the first. This model follows the code. `PathMatch.IsIgnoredByAny` is
  the documented intent. `PathMatch.SecondPatternNeverConsulted` names a path
  that the intent exempts and the code logs.
  `PathMatch.AsWrittenUnderApproximates` shows that the code never exempts a
  path the intent would log. The two agree on lists of at most one pattern.
- **Fused placeholders in the VALUES list.** The VALUES list of both inserts
  concatenates the fixed placeholders and the custom ones without a
  separator, at `src/AccessLog.php:191` and `:231`. With custom columns the
  list contains `??`, so it is not a well-formed placeholder list.
  `Statements.BeforePlaceholders` and `Statements.CompletePlaceholders` prove
  this.
- **Missing commas in the SET clause.** The update's SET clause puts a comma
  only before the first custom assignment, at `src/AccessLog.php:257-263`.
  With two or more custom columns, k − 1 commas are missing.
  `Statements.UpdateAssignmentsSeparatedIff` proves this.

A real database would refuse both inserts with any custom column, and the
update with two or more. The model leaves that verdict to the `accepts`
parameter of the store and proves its run properties for every verdict.

## Model

| member | source | states |
|---|---|---|
| `HttpMethods.MethodId` | src/AccessLog.php:12-22 | A name has a code exactly when it is one of the nine methods; the code is in 1..9 and indexes back to that name. |
| `HttpMethods.MethodName` | src/AccessLog.php:12-22 | Codes 1..9, and only those, stand for a method. |
| `HttpMethods.MethodIdRoundTrip` | src/AccessLog.php:12-22 | Name→code→name and code→name→code are identities on the table. |
| `HttpMethods.MethodIdInjective` | src/AccessLog.php:12-22 | No two methods share a code. |
| `Middleware.MethodValue` | src/AccessLog.php:71 | The bound method value is an integer code exactly for the nine known methods and null for any other name. |
| `Middleware.Merge` | src/AccessLog.php:44-47 | `array_merge`: every setting given wins and every absent one keeps its default; a single ignored path becomes the one-element list of it. |
| `Middleware.MergeDefaults` | src/AccessLog.php:25-34 | With no settings given, the defaults hold: table `accessLog`, key `accessLogID`, two-phase, no custom columns, nothing ignored. |
| `Middleware.SinglePathIsList` | src/AccessLog.php:45-47 | A single ignored path given as a string behaves exactly as the one-element list holding it. |
| `Middleware.AccessLog.constructor` | src/AccessLog.php:42-49 | The object keeps the database, the merged settings and the custom functions in order. |
| `PathMatch.CollapseSlashes` | src/AccessLog.php:143 | Collapsing never lengthens the string and keeps its first and last characters. |
| `PathMatch.CollapseHasNoRepeatedSlash` | src/AccessLog.php:143 | After `preg_replace('#/+#', '/')` no `//` remains. |
| `PathMatch.CollapseKeepsCollapsed` | src/AccessLog.php:143 | Collapsing is idempotent: a string without `//` is left as it is. |
| `PathMatch.Normalize` | src/AccessLog.php:142-143 | The normalised URI always starts with `/` and has no repeated `/`. |
| `PathMatch.TrimTrailingSlashes` | src/AccessLog.php:145 | `rtrim($ignore, '/')` is a prefix of the pattern that does not end in `/`, and only `/` was removed. |
| `PathMatch.Matches` | src/AccessLog.php:146 | For a path without a line feed, `^pattern(/.*)?$` matches exactly when the pattern is a prefix of the path that ends the path or is followed by `/`. |
| `PathMatch.IsIgnoredPath` | src/AccessLog.php:141-148 | An empty list exempts nothing; an exempt path starts with the first trimmed pattern. |
| `PathMatch.IsIgnoredByAny` | src/AccessLog.php:31-33 | The documented intent: a path is exempt exactly when some listed pattern, on its own, exempts it. |
| `PathMatch.OnlyFirstPatternConsulted` | src/AccessLog.php:144-148 | The verdict depends on the first pattern alone; an empty list ignores nothing. |
| `PathMatch.AsWrittenUnderApproximates` | src/AccessLog.php:141-148 | Every path the code exempts is exempted by some pattern; for at most one pattern the code equals the any-pattern intent. |
| `PathMatch.SecondPatternNeverConsulted` | src/AccessLog.php:144-147 | With `["/health", "/authorize"]`, `/authorize/login` matches the second pattern yet is not exempt. |
| `PathMatch.AuthorizeExamples` | src/AccessLog.php:31-33 | Pattern `/authorize` (with or without trailing `/`) exempts `/authorize`, `/authorize/`, `/authorize/login` and `//authorize///login`, but not `/auth`. |
| `PathMatch.AuthorizeNormalForms` | src/AccessLog.php:142-143 | The example paths normalise to themselves. |
| `PathMatch.DoubledSlashesNormalForm` | src/AccessLog.php:142-143 | `//authorize///login` normalises to `/authorize/login`. |
| `PathMatch.SlashOnlyPatternIgnoresEverything` | src/AccessLog.php:145-146 | A first pattern of only `/` trims to empty and exempts every path. |
| `PathMatch.SubPathOfIgnoredIsIgnored` | src/AccessLog.php:146 | If a path is exempt, so is every sub-path `path/rest`. |
| `Php.Keys` | src/AccessLog.php:183 | An ordered array's keys are its entries' keys in order. |
| `Php.Values` | src/AccessLog.php:201 | `array_values` gives the entries' values in key order. |
| `Php.LookupPut` | src/AccessLog.php:160-167 | Assigning a key changes the lookup of that key only. |
| `Php.KeysPut` | src/AccessLog.php:167 | Assigning a new key appends it; reassigning keeps the key order. |
| `Php.FirstOccurrences` | src/AccessLog.php:61 | The collapsed key list has no repeats and exactly the input's elements. |
| `Php.Explode` | src/AccessLog.php:157 | `explode` yields at least one piece, and no piece contains the separator. |
| `Php.ImplodeExplode` | src/AccessLog.php:157 | Joining the pieces of `explode` with the separator gives back the string. |
| `Php.ExplodeImplode` | src/AccessLog.php:157 | Exploding a join of separator-free pieces gives back the pieces. |
| `Php.Fill` | src/AccessLog.php:191 | `array_fill(0, n, x)` has n elements, each x. |
| `QueryString.SplitPair` | src/AccessLog.php:159 | The name contains no `=`; the value is null exactly when the piece has no `=`; name, `=` and value rebuild the piece. |
| `QueryString.SplitPairOfPair` | src/AccessLog.php:159 | `name=value` with an `=`-free name splits into that name and value, even when the value contains `=`. |
| `QueryString.Absorb` | src/AccessLog.php:160-168 | The stored entry is a list exactly when the name was `isset` (a key with a non-null value); a list keeps the earlier values and ends with the new one; otherwise the new value is stored as it is. |
| `QueryString.StepEffect` | src/AccessLog.php:158-168 | One more piece appends its name when new and keeps the key order otherwise; the name takes the absorbed entry and every other name keeps its entry. |
| `QueryString.ParseQuery` | src/AccessLog.php:152-171 | The result is `''` exactly for an input PHP deems `empty`, otherwise the array. |
| `QueryString.ProperParseStr` | src/AccessLog.php:152-171 | The loop computes the fold of all pieces, and the result is `''` exactly for an input PHP deems `empty` (including `"0"`). |
| `QueryString.ParseKeys` | src/AccessLog.php:156-170 | The array's keys are the piece names in order of first occurrence, each once. |
| `QueryString.ParseLookup` | src/AccessLog.php:158-169 | The entry under each name depends only on that name's values, in input order. |
| `QueryString.AccumulateIsCollected` | src/AccessLog.php:160-168 | Leading nulls are overwritten; from the first non-null value, one value stays scalar and several become the list of all of them. |
| `QueryString.EntryOfName` | src/AccessLog.php:158-170 | An absent name has no key; a name seen once keeps its value; a name seen n ≥ 2 times with a non-null first value holds all n values in order. |
| `QueryString.NullThenValue` | src/AccessLog.php:160-167 | `a&a=1` stores just `"1"` under `a`, because `isset` is false on null. |
| `QueryString.ValueThenNull` | src/AccessLog.php:160-165 | `a=1&a` stores the list `["1", null]`. |
| `Statements.BeforeStatement` | src/AccessLog.php:187-203 | writeBefore binds one value per column, 4 + k of each, and the i-th custom value binds to the i-th custom column. |
| `Statements.CompleteStatement` | src/AccessLog.php:227-246 | writeAfter binds one value per column, 7 + k of each, and the i-th custom value binds to the i-th custom column. |
| `Statements.UpdateStatement` | src/AccessLog.php:265-285 | updateAfter binds one value per assigned column plus the row key last, and the i-th custom value binds to the i-th custom column. |
| `Statements.BeforeSql` | src/AccessLog.php:187-192 | With custom columns the insert text contains `??`. |
| `Statements.CompleteSql` | src/AccessLog.php:227-232 | With custom columns the insert text contains `??`. |
| `Statements.BeforeSqlMarks` | src/AccessLog.php:187-192 | With a table name and column names free of `?`, the whole insert text holds 4 + k `?`s, one per bound value. |
| `Statements.CompleteSqlMarks` | src/AccessLog.php:227-232 | With a table name and column names free of `?`, the whole insert text holds 7 + k `?`s, one per bound value. |
| `Statements.UpdateSqlMarks` | src/AccessLog.php:256-272 | With a table name, key column and column names free of `?`, the whole update text holds 4 + k `?`s, one per bound value. |
| `Statements.CustomAssignmentsMarks` | src/AccessLog.php:257-263 | The custom part of the SET clause holds one `?` per custom column whose name has none. |
| `Statements.AssignmentSuffixMarks` | src/AccessLog.php:258-260 | The loop's assignments hold one `?` per `?`-free column name. |
| `Statements.InsertTextMarks` | src/AccessLog.php:187-192 | The fixed insert text around the VALUES tuple holds no `?`. |
| `Statements.UpdateTextMarks` | src/AccessLog.php:265-272 | The fixed update text holds three `?`s in the SET clause and one in the key test. |
| `Php.ImplodeWithout` | src/AccessLog.php:189 | Joining pieces that lack a character with a separator that lacks it gives a string without it. |
| `Statements.BuildWriteBefore` | src/AccessLog.php:181-203 | The statement is writeBefore's text with the four request fields then the custom values in column order (4 + k bound values). |
| `Statements.BuildWriteAfter` | src/AccessLog.php:221-246 | The statement is writeAfter's text with the seven request and response fields then the custom values (7 + k bound values). |
| `Statements.BuildUpdateAfter` | src/AccessLog.php:256-285 | The statement is updateAfter's text with the three response fields, the custom values, and the row key last (4 + k bound values). |
| `Statements.PlaceholdersShape` | src/AccessLog.php:191 | `implode(', ', array_fill(0, n, '?'))` has length 3n − 2 and n `?`s, and begins and ends with `?` (n ≥ 1). |
| `Statements.JoinedPlaceholders` | src/AccessLog.php:191 | Two placeholder lists glued without a separator form a list exactly when the second is empty, and otherwise contain `??` at the glue point; the `?` count is the sum. |
| `Statements.BeforeFixedPlaceholdersIsList` | src/AccessLog.php:191 | writeBefore's fixed `?, ?, ?, ?` is the list of four placeholders. |
| `Statements.CompleteFixedPlaceholdersIsList` | src/AccessLog.php:231 | writeAfter's fixed part is the list of seven placeholders. |
| `Statements.BeforePlaceholders` | src/AccessLog.php:191 | writeBefore's VALUES tuple has 4 + k `?`s and is a proper list iff there are no custom columns; otherwise it has `??` at index 9. |
| `Statements.CompletePlaceholders` | src/AccessLog.php:231 | writeAfter's VALUES tuple has 7 + k `?`s and is a proper list iff there are no custom columns; otherwise it has `??` at index 18. |
| `Statements.AssignmentLengths` | src/AccessLog.php:258-263 | Each custom assignment takes at least four characters, and the comma-separated form is longer by one character per assignment. |
| `Statements.UpdateAssignmentsSeparatedIff` | src/AccessLog.php:257-263 | The SET continuation equals the comma-separated one iff there is at most one custom column; otherwise k − 1 commas are missing. |
| `Statements.SingleAssignment` | src/AccessLog.php:261-263 | With one custom column, the leading comma makes the SET clause well formed. |
| `Database.RowOf` | src/AccessLog.php:193-202 | A written row has only the statement's columns, and every column that has a bound value. |
| `Database.InsertAddsOneRow` | src/AccessLog.php:187-205 | An accepted insert adds exactly one row under the next id and leaves every other row alone. |
| `Database.UpdateTouchesOnlyItsRow` | src/AccessLog.php:265-285 | An accepted update keeps the set of rows and changes at most the row whose id is the last bound value. |
| `Database.UpdateWithoutIdChangesNothing` | src/AccessLog.php:271 | An update keyed by a non-integer (`false` from a failed insert) changes nothing. |
| `Database.ExecutedWellFormed` | src/AccessLog.php:193 | Executing any statement keeps the ids below the next auto-increment id. |
| `Database.Store.Execute` | src/AccessLog.php:193-208 | The statement is journalled. It is applied exactly when the database accepts it. `lastInsertId` becomes the new row's id after an accepted insert. |
| `Messages.WithAttribute` | src/AccessLog.php:80 | The forwarded request carries the given `accessLogID`, and its path, body and every other attribute are unchanged. |
| `Middleware.CustomColumnsInOrder` | src/AccessLog.php:59-62 | With distinct names, the columns are exactly the configured names in order, each with its own function's value. |
| `Middleware.CustomColumnsPresent` | src/AccessLog.php:59-62 | A custom column is present exactly for each configured name; with distinct names the keys are the names themselves. |
| `Middleware.AfterStatement` | src/AccessLog.php:81-129 | The after-write logs the status and body of the downstream outcome: an exception's code and message, or the response's status and (when captured) body. |
| `Middleware.CustomColumnsKeys` | src/AccessLog.php:59-62 | For any names, the columns are keyed by the names in order of first occurrence. |
| `Middleware.AccessLog.ComputeColumns` | src/AccessLog.php:59-62 | The loop builds the custom columns of the request and response. |
| `Middleware.AccessLog.WriteBefore` | src/AccessLog.php:181-209 | One insert of the request fields is journalled and executed; the result is the new row's id when accepted and `false` otherwise. |
| `Middleware.AccessLog.WriteAfter` | src/AccessLog.php:221-247 | One complete insert is journalled and executed. |
| `Middleware.AccessLog.UpdateAfter` | src/AccessLog.php:256-286 | One update keyed by the given id is journalled and executed. |
| `Middleware.AccessLog.WriteOutcome` | src/AccessLog.php:81-129 | After downstream, exactly one write of the mode in force logs the outcome. |
| `Middleware.AccessLog.Invoke` | src/AccessLog.php:51-132 | The journal grows by exactly the run's events, in order. The table ends as the run's table, and the result is the run's result. |
| `Middleware.AccessLog.LogRequest` | src/AccessLog.php:59-129 | The logging branch has the effect of a logged run over the computed custom columns. |
| `Middleware.AccessLog.LogAround` | src/AccessLog.php:67-129 | The before-write (two-phase only), the call with the id, then the after-write, with exactly the events and table of the mode's run. |
| `Middleware.Downstream.Call` | src/AccessLog.php:80 | The call is journalled, and the outcome is the handler's on the forwarded request. |
| `Middleware.Intercept` | src/AccessLog.php:51-132 | The configuration error is raised exactly for a logged path with mismatched custom counts, and then nothing is done and the table is untouched. |
| `Middleware.Logging` | src/AccessLog.php:67-129 | A logged request ends with a write, which is an insert exactly in `writeOnce` mode. |
| `Middleware.TwoPhase` | src/AccessLog.php:67-129 | Insert, call, then write (an update unless `writeOnce`); the result is the outcome of that call passed on. |
| `Middleware.SinglePhase` | src/AccessLog.php:79-120 | Call with a null `accessLogID`, then one write (an insert in `writeOnce` mode); the result is the outcome of that call passed on. |
| `Middleware.WritesAndCalls` | src/AccessLog.php:51-130 | Ignored path: one call, no write. Count mismatch: nothing at all and the configuration error. Otherwise: one call plus two writes (two-phase) or one (`writeOnce`). |
| `Middleware.IgnoredPassesThrough` | src/AccessLog.php:53-54 | An ignored path is forwarded unchanged, the outcome passes through and the table is untouched. |
| `Middleware.TwoPhaseKeepsTheId` | src/AccessLog.php:67-129 | Insert, then call, then update. Downstream gets the inserted row's id, or `false` if the insert was refused, and the update is keyed by that same id. The forwarded request is the original with only `accessLogID` set. |
| `Middleware.TwoPhaseTouchesOnlyItsRow` | src/AccessLog.php:67-129 | No pre-existing row changes. An accepted insert adds exactly one row; a refused one leaves the table unchanged. |
| `Middleware.SinglePhaseWritesOnce` | src/AccessLog.php:79-120 | `writeOnce`: downstream gets the original request with only `accessLogID` set to null, and there is exactly one insert afterwards. No pre-existing row changes. |
| `Middleware.RequestFieldsIndependentOfOutcome` | src/AccessLog.php:67-120 | The request fields written do not depend on the downstream handler. |
| `Middleware.OutcomeLogged` | src/AccessLog.php:79-131 | A thrown exception is logged with its code and message and rethrown. A response is logged with its status, and its body only with `captureResponse`, and then returned. |
| `Middleware.LoggingLogsOutcome` | src/AccessLog.php:79-129 | For any custom columns, the last write logs the downstream outcome and that outcome is passed on. |
| `Middleware.CustomValuesReused` | src/AccessLog.php:59-129 | The custom values are computed once. The insert and the update bind the same values, in column order. |

## Left out

- **SQL execution.** Executing SQL is replaced by the store's `accepts` verdict. PDO's exception error mode is not modelled; the store behaves as PDO's silent mode, where `execute` returns false.
- **`lastInsertId`.** It returns a string in PHP; here it is an integer id.
- **`$_SERVER` and other inputs.** `$_SERVER` is a `Server` value holding the formatted request time, the path `parse_url` extracts, the method name and the query string. `urldecode`, `parse_url` and `DateTime` formatting are not modelled; the response time is a given string `now`.
- **`json_encode`.** The request parameters stay an opaque `Params(querystring, body)` value.
- **Regex metacharacters.** `preg_match` is modelled as a literal match of the trimmed pattern. Metacharacters in a configured pattern, and a regex compile failure (which makes `preg_match` return false, that is "log"), are not modelled.
- `PathMatch.Matches`: the path is assumed to hold no raw line feed. In PCRE, `$` also matches before a final `\n` and `.` does not match `\n`, so `/authorize\n` would be exempt and `/authorize/a\nb` logged, the reverse of the model. PSR-7's `getPath()` returns the path percent-encoded, so a raw line feed does not reach this code.
- **Unknown exception class.** The configuration error is thrown as an unqualified `Exception`, which PHP resolves in the class's namespace; it is modelled as the result `Misconfigured(functions, columns)`.
- **Throwables that are not `\Exception`s.** They escape `__invoke` without any after-write. Downstream is modelled as returning or throwing an `Exception` only.
- **Custom column functions.** They are pure functions of the request and response. The third `null` argument is dropped.
- **Settings.** `array_merge` is modelled for the six known keys only. `writeOnce` and `captureResponse` are booleans rather than PHP truthy values.
- **Concurrency.** Concurrent requests and the middleware's place in the Slim stack are not modelled.
- **Names containing `?`.** The whole-text `?` counts are stated for table and column names without `?`. A name holding `?` would add placeholders of its own.
