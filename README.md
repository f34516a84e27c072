# A verified model of the `Database` query builder

`myDb.js` holds a small SQL builder: a chainable `Database` object with three
fields. `query` is the current statement text. `tableName` is the target table.
`params` holds the values bound to the `?` placeholders. The methods fall into
three groups:

- `table`, `select`, `insert`, `update`, `delete` and `raw` replace the
  statement outright.
- `where`, `limit` and `orderBy` append to it.
- `where` is the only method that binds values.

`execute` submits the statement and its values to a MySQL connection. It then
clears the values, on success and on error alike. `count` sets the counting
statement, runs it and reads `count` from the first row.

The model has four modules:

- `Strings` (strings.dfy): counting characters, and `join`/`split` with a
  one-character separator.
- `JsValues` (js_values.dfy): the JavaScript values the builder receives
  (strings, integers, booleans, `null`, `undefined`, arrays, plain objects as
  ordered field lists). It also models the JavaScript semantics the builder
  relies on: truthiness, `typeof`, the string conversion done by a template
  literal or `+=`, and `Object.entries`.
- `SqlText` (sql_text.dfy): the text each operation produces, as pure
  functions, with the lemmas about that text.
- `MyDb` (my_db.dfy): the classes `Database` and `Connection`. `Database`
  keeps the three fields of the source (`query` and `tableName` start as
  `undefined`, as in JavaScript). Each method changes them in place. Each
  method's postcondition gives the whole new state in terms of the
  `SqlText` functions and the old state. `Connection` records every
  submission. The database's answer is a parameter of `Execute` and `Count`.
  Eight client methods (`FilterByColumn`, `FilterWithOperator`, `ListLatest`,
  `SelectColumnsWhere`, `CountAfterWhere`, `UpdateAfterWhere`, `InsertItem`,
  `UpdateWithoutData`) show what a caller can prove about a chain of calls.

Several behaviours of this code are easy to miss. The model keeps each of
them as the code has it:

- A condition is accepted when its column is any string, including `""`.
- A condition written `["id", "=", 5]` has three elements, so it is dropped,
  together with its value. interface.js:65 and interface.js:75 build
  conditions of exactly this shape, so those handlers run without a filter.
- `select([])` produces `SELECT  FROM t`. It does not fall back to `*`.
- `orderBy` compares the direction case-sensitively with `"asc"` and
  `"desc"`. `"ASC"` is ignored.
- `execute` clears only `params`. The statement text stays as it was.
- `insert` and `update` inline every value between double quotes without
  escaping (`InsertValueNotEscaped` shows the consequence).

`Aligned()` says that the statement holds exactly one `?` per bound value.
`table` establishes it for a fresh session with a `?`-free name. `where`,
`limit` and `orderBy` keep it when the column names and the ordering field
are `?`-free. It breaks in three ways:

- **A `?` in a column name.** `where` appends one `?` per bound value, plus
  every `?` that a column name carries. `MarkInColumnBreaksAlignment` shows
  two `?` for one value.
- **A `?` in any other interpolated text.** The same happens with a `?` in
  the table name, the `orderBy` field, the keys or values given to `insert`
  or `update`, or the text given to `raw`. Each of these adds a `?` with no
  value, as the `?` counts in the contracts of `Table`, `Select`, `Insert`,
  `Update`, `Delete` and `OrderBy` show.
- **A statement replaced after `where`.** `select`, `insert`, `update`,
  `delete`, `raw` and `count` replace the statement and keep `params`.
  Values bound by an earlier `where` are then submitted with a statement
  that lacks their placeholders. `CountAfterWhere` shows `count()` after a
  `where`: the counting statement has no `?`, it is sent with the bound
  value, and the filter is lost. `UpdateAfterWhere` shows `where(...).update(data)`
  leaving the session misaligned. interface.js:77 writes this chain with
  no data, and then `update()` throws before anything changes
  (`UpdateWithoutData`).

## Model

| member | source | states |
|---|---|---|
| `MyDb.Database.constructor` | myDb.js:4-7 | a new builder has no bound values, an undefined statement and table, and a connection that has been sent nothing |
| `MyDb.Database.Table` | myDb.js:15-19 | sets the table to `name` and the statement to `SELECT * FROM name`, keeps the bound values, and a session with nothing bound and a `?`-free name is aligned (placeholders = bound values) |
| `MyDb.Database.Select` | myDb.js:29-43 | replaces the statement by the select for the current table chosen by the precedence count, maxId, columns; table and bound values unchanged; the new statement's `?` are those of the table name plus, when the columns are used, those of the column list |
| `SqlText.SelectMarks` | myDb.js:29-43 | a select statement holds the `?` of the table name and, only when `count` and `maxId` are falsy and the columns are a string or an array, those of the column list |
| `SqlText.CountWins` | myDb.js:30-31 | a truthy `count` yields `SELECT COUNT(*) AS count FROM t` whatever `columns` and `maxId` are |
| `SqlText.MaxIdWins` | myDb.js:32-33 | without `count`, a truthy `maxId` yields `SELECT MAX(id) AS maxId FROM t` whatever the columns are |
| `SqlText.ColumnsSelected` | myDb.js:34-38 | with `count` and `maxId` falsy, a string or an array of columns is placed between `SELECT` and `FROM`: the string as it is, the array joined with `,` |
| `SqlText.SelectColumnsReadBack` | myDb.js:34-36 | for a non-empty array of comma-free names, splitting the column list at commas gives back exactly the names, in order |
| `SqlText.EmptyColumnArray` | myDb.js:34-38 | an empty column array yields `SELECT  FROM t` (no fallback to `*`) |
| `SqlText.OtherColumnsSelectAll` | myDb.js:39-41 | columns that are neither a string nor an array select `*` |
| `MyDb.Database.Where` | myDb.js:51-80 | with no accepted condition the state is unchanged; otherwise the statement gains ` WHERE c1 = ? AND ...` and the bound values gain exactly the accepted values in order; the `?` count grows by the number of new values plus the `?` in the accepted column names, so an aligned session stays aligned when those names are `?`-free |
| `MyDb.CollectConditions` | myDb.js:57-72 | the loop skips every condition that is not a two-element array with a string column and a defined value, and collects `column = ?` and the value of the others, in input order |
| `SqlText.ClausesAlign` | myDb.js:59-72 | the k-th clause and the k-th bound value both come from the k-th accepted condition: `column = ?` and its value |
| `SqlText.NothingBoundIffNoneAccepted` | myDb.js:74-77 | nothing is bound exactly when no condition is accepted, and clauses are produced exactly when values are bound |
| `SqlText.AllAcceptedAllBound` | myDb.js:59-72 | when every condition is well formed, every value is bound, in input order |
| `SqlText.ThreeElementConditionIgnored` | myDb.js:60-62 | a three-element condition such as `["id", "=", 5]` yields no clause and no value |
| `SqlText.OneCondition` | myDb.js:64-71 | one well-formed pair yields the clause `column = ?` and binds its value |
| `SqlText.WherePlaceholders` | myDb.js:70-75 | the WHERE fragment holds one `?` per bound value plus the `?` of the accepted column names |
| `SqlText.MarkInColumnBreaksAlignment` | myDb.js:70 | a column named `a?` gives two placeholders for one bound value |
| `SqlText.WhereExample` | myDb.js:70-76 | `table("items")` then `where([["id", 5]])` gives `SELECT * FROM items WHERE id = ?` with `[5]` bound |
| `MyDb.Database.Limit` | myDb.js:89-93 | appends ` LIMIT (pageNum-1)*pageSize, pageSize`, changes nothing else and adds no placeholder |
| `SqlText.LimitHasNoMark` | myDb.js:90-91 | the LIMIT clause holds no `?` |
| `SqlText.LimitClauseReadBack` | myDb.js:90-91 | reading the clause back, the number after `LIMIT` is `(pageNum-1)*pageSize` and the number after the comma is `pageSize` |
| `SqlText.LimitExamples` | myDb.js:90-91 | page 1 of 10 starts at offset 0; page 3 of 10 starts at offset 20 |
| `SqlText.LimitPagesAdjacent` | myDb.js:90-91 | the offset read back from the clause of page n+1 is the one read back from the clause of page n plus the page size |
| `JsValues.IntTextRoundTrip` | myDb.js:91 | a number printed into the statement reads back as the same number |
| `JsValues.Entries` | myDb.js:102-103 | `Object.keys`/`Object.entries` throw exactly on `undefined` and `null`; an object gives its fields in order |
| `MyDb.Database.Insert` | myDb.js:101-108 | replaces the statement by `INSERT INTO t (keys) VALUES ("v1",...)` for the data's fields; on `undefined`/`null` data it throws and changes nothing; bound values and table unchanged; the new statement's `?` are those of the table name, the keys and the values |
| `SqlText.InsertMarks` | myDb.js:102-106 | the insert text adds no `?` of its own: it holds those of the table name, the keys and the values' text |
| `SqlText.InsertListsMatch` | myDb.js:102-106 | with comma-free keys and values, the key list splits back into exactly the keys and the value list into exactly the quoted values, in order |
| `SqlText.QuotedValuesCount` | myDb.js:103-105 | quoting a value adds two double quotes and no other character |
| `SqlText.InsertValueQuotes` | myDb.js:103-105 | the value list holds exactly two builder quotes per field plus the quotes inside the values |
| `SqlText.InsertValueNotEscaped` | myDb.js:104 | a value `a","b` reads as two values for one column |
| `SqlText.InsertTwoFields` | myDb.js:102-106 | the insert text of two fields lists their keys in order and each value quoted as text |
| `MyDb.Database.Update` | myDb.js:116-122 | replaces the statement by `UPDATE t SET k1="v1",...`; on `undefined`/`null` data it throws and changes nothing; bound values and table unchanged; the new statement's `?` are those of the table name, the keys and the values |
| `SqlText.UpdateMarks` | myDb.js:117-120 | the update text adds no `?` of its own: it holds those of the table name, the keys and the values' text |
| `SqlText.AssignmentsCount` | myDb.js:117-119 | every assignment holds the characters of its key and its value's text, plus one `=` and two double quotes |
| `MyDb.Database.Delete` | myDb.js:129-132 | replaces the statement by `DELETE FROM t`; bound values and table unchanged; the new statement's `?` are those of the table name |
| `SqlText.DeleteMarks` | myDb.js:130 | the delete statement holds only the `?` of the table name |
| `MyDb.Database.OrderBy` | myDb.js:141-152 | appends ` ORDER BY field ASC/DESC` exactly when the order is accepted, otherwise changes nothing; bound values and table unchanged; adds only the `?` of the field name |
| `SqlText.OrderAcceptedExactly` | myDb.js:142-148 | the guards accept exactly a non-empty string field with direction `"asc"` or `"desc"` |
| `SqlText.OrderDirections` | myDb.js:146-150 | `asc`/`desc` are written `ASC`/`DESC`; `"ASC"` and `"Desc"` are refused |
| `SqlText.OrderClauseMarks` | myDb.js:146-150 | the ORDER BY clause holds exactly the `?` of the field and of the direction; upper-casing neither adds nor removes one |
| `SqlText.AcceptedOrderMarks` | myDb.js:142-150 | an accepted ordering adds exactly the `?` of the field name |
| `MyDb.Database.Count` | myDb.js:159-164 | sets `SELECT COUNT(*) AS count FROM t`, submits it with whatever values were bound, clears them, and settles with the first row's `count`, a rejection on no rows, or the database error |
| `MyDb.CountOf` | myDb.js:161-163 | an error rejects; no first row rejects; otherwise the result is the first row's `count`, or `undefined` when that row has no `count` field |
| `MyDb.Database.Raw` | myDb.js:172-175 | the statement becomes exactly the given text; table and bound values unchanged |
| `MyDb.Database.Execute` | myDb.js:182-209 | submits the statement with the bound values (the plain form when none are bound), returns the reply, and leaves no bound values on success and on error; statement and table unchanged |
| `MyDb.Submission` | myDb.js:183-198 | the plain call is used exactly when nothing is bound; otherwise all bound values are passed |
| `MyDb.Connection.Query` | myDb.js:198 | a query call is recorded after all earlier ones and the reply is handed back unchanged |
| `Strings.SplitJoin` | myDb.js:36 | splitting a comma-joined non-empty list of comma-free items gives back the items |
| `Strings.JoinOccurrences` | myDb.js:75 | a joined list holds the characters of its parts plus those of one separator per gap |

## Left out

- The MySQL library (`require("mysql")`, `createConnection(config)`) is a foreign library. The connection is reduced to a log of submissions, and the database's reply is a parameter. The constructor's `config` is therefore not modelled.
- Promises and `async`/`await` in `execute` and `count`. The methods return the settled outcome directly. The statement that the values are cleared before the caller sees the outcome becomes sequential order.
- Returning `this` for chaining. Each method changes the object and returns nothing, or only the `thrown` flag of `Insert`/`Update`.
- JavaScript numbers are integers here. Floating point, `NaN`, exponent notation, and the coercion of string arguments in `limit` (`"10" - 1`) are not modelled. `Limit` takes integers.
- `Object.keys` lists integer-like keys first in ascending order. The model takes an object's fields in the order given. Symbols, getters, array holes and objects with their own `toString` are not modelled.
- JsValues.Entries: an `Obj` value may list the same key twice or integer-like keys out of order, which no JavaScript object does. The lemmas hold for every such list, so they also cover real objects.
- JsValues.Entries: a string is split into Dafny characters (Unicode scalar values), while JavaScript splits it into UTF-16 code units. The two differ on characters outside the Basic Multilingual Plane.
- A thrown `TypeError` is modelled only where `Object.keys`/`Object.entries` meet `undefined` or `null` (the `thrown` result) and where `count` reads a missing first row (`NoFirstRow`).
- The meaning of the SQL text and what the database does with it.
- interface.js (response envelope, CRUD handlers, connection settings) and index.js (HTTP routing) are not part of this model.
