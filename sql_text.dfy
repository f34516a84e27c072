/** The SQL text each builder operation of `Database` produces, as pure
    functions of its arguments and the table name, with the properties the
    builder promises about them. The mutating methods in module MyDb are
    proved against these definitions. */
module SqlText {
  import opened Strings
  import opened JsValues

  // ---------------------------------------------------------------- select

  /** The column list of `select(columns)` once `count` and `maxId` are
      falsy: a string is used as it is, an array is joined with ",". */
  function ColumnList(columns: Value): string
  {
    if columns.Arr? then ArrayJoin(columns.elems, ",") else if columns.Str? then columns.s else "*"
  }

  /** `select(columns = "*", maxId, count)`: counting wins over `maxId`,
      which wins over the columns; a value that is neither a string nor an
      array selects every column. */
  function SelectSql(table: Value, columns: Value, maxId: Value, count: Value): string
  {
    var cols := if columns.Undef? then Str("*") else columns;
    if Truthy(count) then "SELECT COUNT(*) AS count FROM " + ToText(table)
    else if Truthy(maxId) then "SELECT MAX(id) AS maxId FROM " + ToText(table)
    else if cols.Str? || cols.Arr? then "SELECT " + ColumnList(cols) + " FROM " + ToText(table)
    else "SELECT * FROM " + ToText(table)
  }

  /** The statement `count()` runs. */
  function CountSql(table: Value): string
  {
    "SELECT COUNT(*) AS count FROM " + ToText(table)
  }

  /** A truthy `count` yields the counting statement whatever the columns and `maxId` are. */
  lemma CountWins(table: Value, columns: Value, maxId: Value, count: Value)
    requires Truthy(count)
    ensures SelectSql(table, columns, maxId, count) == CountSql(table)
  {
  }

  /** Without `count`, a truthy `maxId` yields the maximum-id statement whatever the columns are. */
  lemma MaxIdWins(table: Value, columns: Value, maxId: Value, count: Value)
    requires !Truthy(count) && Truthy(maxId)
    ensures SelectSql(table, columns, maxId, count) == "SELECT MAX(id) AS maxId FROM " + ToText(table)
  {
  }

  /** With `count` and `maxId` falsy, a string or an array of columns is
      placed, as its column list, between `SELECT` and `FROM`. */
  lemma ColumnsSelected(table: Value, columns: Value, maxId: Value, count: Value)
    requires !Truthy(count) && !Truthy(maxId) && (columns.Str? || columns.Arr?)
    ensures SelectSql(table, columns, maxId, count) == "SELECT " + ColumnList(columns) + " FROM " + ToText(table)
    ensures columns.Str? ==> ColumnList(columns) == columns.s
    ensures columns.Arr? ==> ColumnList(columns) == ArrayJoin(columns.elems, ",")
  {
  }

  /** A column list of comma-free names reads back, name by name, from the select list. */
  lemma SelectColumnsReadBack(names: seq<string>)
    requires |names| > 0 && forall i :: 0 <= i < |names| ==> ',' !in names[i]
    ensures Split(ColumnList(Arr(StrValues(names))), ',') == names
  {
    ArrayJoinStrings(names, ",");
    SplitJoin(names, ',');
  }

  /** An empty column array is joined into an empty select list; it does not fall back to `*`. */
  lemma EmptyColumnArray(table: Value)
    ensures SelectSql(table, Arr([]), Undef, Undef) == "SELECT  FROM " + ToText(table)
  {
    assert ArrayJoin([], ",") == "";
  }

  /** Columns that are neither a string nor an array select every column. */
  lemma OtherColumnsSelectAll(table: Value, columns: Value)
    requires !columns.Str? && !columns.Arr?
    ensures SelectSql(table, columns, Undef, Undef) == "SELECT * FROM " + ToText(table)
  {
  }

  /** The statement `table(name)` starts with holds no placeholder unless the name does. */
  lemma SelectAllMarks(table: Value)
    ensures Occurrences("SELECT * FROM " + ToText(table), '?') == Occurrences(ToText(table), '?')
  {
    FreePrefix("SELECT * FROM ", ToText(table), '?');
  }

  // ----------------------------------------------------------------- where

  /** A condition is used only when it is a two-element array whose first
      element is a string and whose second element is not undefined. */
  predicate Accepted(condition: Value)
  {
    && condition.Arr?
    && |condition.elems| == 2
    && TypeOf(condition.elems[0]) == "string"
    && !condition.elems[1].Undef?
  }

  /** The conditions `where` looks at: none unless it was given an array. */
  function ConditionsOf(conditions: Value): seq<Value>
  {
    if Truthy(conditions) && conditions.Arr? then conditions.elems else []
  }

  /** `column = ?` for every accepted condition, in order. */
  function Clauses(conds: seq<Value>): seq<string>
  {
    if conds == [] then []
    else
      var last := conds[|conds| - 1];
      Clauses(conds[..|conds| - 1]) + (if Accepted(last) then [ToText(last.elems[0]) + " = ?"] else [])
  }

  /** The value of every accepted condition, in order. */
  function BoundValues(conds: seq<Value>): seq<Value>
  {
    if conds == [] then []
    else
      var last := conds[|conds| - 1];
      BoundValues(conds[..|conds| - 1]) + (if Accepted(last) then [last.elems[1]] else [])
  }

  /** The accepted conditions themselves, in order. */
  function AcceptedConditions(conds: seq<Value>): (r: seq<Value>)
    ensures |r| <= |conds|
    ensures forall k :: 0 <= k < |r| ==> Accepted(r[k]) && r[k] in conds
  {
    if conds == [] then []
    else
      var last := conds[|conds| - 1];
      AcceptedConditions(conds[..|conds| - 1]) + (if Accepted(last) then [last] else [])
  }

  /** The fragment `where` appends once at least one condition is accepted. */
  function WhereClause(clauses: seq<string>): string
  {
    " WHERE " + Join(clauses, " AND ")
  }

  /** Question marks inside the column names of the accepted conditions. */
  function ColumnMarks(conds: seq<Value>): nat
  {
    if conds == [] then 0
    else
      var last := conds[|conds| - 1];
      ColumnMarks(conds[..|conds| - 1]) + (if Accepted(last) then Occurrences(ToText(last.elems[0]), '?') else 0)
  }

  /** The k-th clause and the k-th bound value come from the k-th accepted
      condition: one placeholder per value, in the same order. */
  lemma {:induction false} ClausesAlign(conds: seq<Value>)
    ensures |Clauses(conds)| == |BoundValues(conds)| == |AcceptedConditions(conds)|
    ensures forall k :: 0 <= k < |Clauses(conds)| ==>
              var c := AcceptedConditions(conds)[k];
              Clauses(conds)[k] == ToText(c.elems[0]) + " = ?" && BoundValues(conds)[k] == c.elems[1]
  {
    if conds != [] {
      ClausesAlign(conds[..|conds| - 1]);
    }
  }

  /** Nothing is bound exactly when no condition is accepted. */
  lemma {:induction false} NothingBoundIffNoneAccepted(conds: seq<Value>)
    ensures BoundValues(conds) == [] <==> forall i :: 0 <= i < |conds| ==> !Accepted(conds[i])
    ensures Clauses(conds) == [] <==> BoundValues(conds) == []
  {
    if conds != [] {
      var init, last := conds[..|conds| - 1], conds[|conds| - 1];
      NothingBoundIffNoneAccepted(init);
      assert forall i :: 0 <= i < |init| ==> init[i] == conds[i];
      assert BoundValues(conds) == BoundValues(init) + (if Accepted(last) then [last.elems[1]] else []);
      assert Clauses(conds) == Clauses(init) + (if Accepted(last) then [ToText(last.elems[0]) + " = ?"] else []);
    }
  }

  /** When every condition is accepted, every value is bound, in order. */
  lemma {:induction false} AllAcceptedAllBound(conds: seq<Value>)
    requires forall i :: 0 <= i < |conds| ==> Accepted(conds[i])
    ensures |BoundValues(conds)| == |conds|
    ensures forall i :: 0 <= i < |conds| ==> conds[i].Arr? && |conds[i].elems| == 2 && BoundValues(conds)[i] == conds[i].elems[1]
  {
    if conds != [] {
      var init, last := conds[..|conds| - 1], conds[|conds| - 1];
      assert forall i :: 0 <= i < |init| ==> init[i] == conds[i];
      AllAcceptedAllBound(init);
      assert BoundValues(conds) == BoundValues(init) + [last.elems[1]];
    }
  }

  /** One well-formed pair gives one clause and binds its value. */
  lemma OneCondition(column: string, value: Value)
    requires !value.Undef?
    ensures Clauses([Arr([Str(column), value])]) == [column + " = ?"]
    ensures BoundValues([Arr([Str(column), value])]) == [value]
  {
    var conds := [Arr([Str(column), value])];
    assert conds[..0] == [];
  }

  /** Selecting from `items` where `id` is 5: one clause, one bound value. */
  lemma WhereExample()
    ensures SelectSql(Str("items"), Undef, Undef, Undef) + WhereClause(Clauses([Arr([Str("id"), Num(5)])]))
         == "SELECT * FROM items WHERE id = ?"
    ensures BoundValues([Arr([Str("id"), Num(5)])]) == [Num(5)]
  {
    OtherColumnsSelectAll(Str("items"), Undef);
    OneCondition("id", Num(5));
    assert "SELECT * FROM " + ToText(Str("items")) + WhereClause(["id = ?"]) == "SELECT * FROM items WHERE id = ?";
  }

  /** A three-element condition such as `["id", "=", 5]` contributes nothing. */
  lemma ThreeElementConditionIgnored(column: string, op: string, value: Value)
    ensures Clauses([Arr([Str(column), Str(op), value])]) == []
    ensures BoundValues([Arr([Str(column), Str(op), value])]) == []
  {
    var conds := [Arr([Str(column), Str(op), value])];
    assert conds[..0] == [];
  }

  lemma {:induction false} ClauseMarks(conds: seq<Value>)
    ensures TotalOccurrences(Clauses(conds), '?') == |BoundValues(conds)| + ColumnMarks(conds)
  {
    if conds != [] {
      var init := conds[..|conds| - 1];
      var last := conds[|conds| - 1];
      ClauseMarks(init);
      if Accepted(last) {
        var clause := ToText(last.elems[0]) + " = ?";
        TotalOccurrencesAppend(Clauses(init), [clause], '?');
        var column := ToText(last.elems[0]);
        assert clause == (column + " = ") + "?";
        OccurrencesAppend(column + " = ", "?", '?');
        FreeSuffix(column, " = ", '?');
        assert [clause][1..] == [];
      } else {
        assert Clauses(conds) == Clauses(init);
        assert BoundValues(conds) == BoundValues(init);
        assert ColumnMarks(conds) == ColumnMarks(init);
      }
    }
  }

  /** The WHERE fragment holds one `?` per bound value, plus whatever
      question marks the column names themselves contain. */
  lemma WherePlaceholders(conds: seq<Value>)
    ensures Occurrences(WhereClause(Clauses(conds)), '?') == |BoundValues(conds)| + ColumnMarks(conds)
  {
    var clauses := Clauses(conds);
    FreePrefix(" WHERE ", Join(clauses, " AND "), '?');
    JoinFreeSeparator(clauses, " AND ", '?');
    ClauseMarks(conds);
  }

  /** A `?` in a column name is not escaped: one accepted condition then
      yields two placeholders for one bound value. */
  lemma MarkInColumnBreaksAlignment()
    ensures var conds := [Arr([Str("a?"), Num(1)])];
            Occurrences(WhereClause(Clauses(conds)), '?') == 2 && |BoundValues(conds)| == 1
  {
    var conds := [Arr([Str("a?"), Num(1)])];
    assert conds[..0] == [];
    WherePlaceholders(conds);
    assert Occurrences("a?", '?') == 1 by {
      assert "a?" == "a" + "?";
      OccurrencesAppend("a", "?", '?');
    }
  }

  // ----------------------------------------------------------------- limit

  /** ` LIMIT <offset>, <pageSize>` with a zero-based offset computed from the one-based page number. */
  function LimitClause(pageSize: int, pageNum: int): string
  {
    " LIMIT " + IntText((pageNum - 1) * pageSize) + ", " + IntText(pageSize)
  }

  /** The first page starts at offset 0; the third page of ten starts at 20. */
  lemma LimitExamples()
    ensures LimitClause(10, 1) == " LIMIT 0, 10"
    ensures LimitClause(10, 3) == " LIMIT 20, 10"
  {
    assert NatText(10) == "10";
    assert NatText(20) == "20";
    assert NatText(0) == "0";
  }

  /** The offset and the page size as a reader of the clause finds them:
      the number after ` LIMIT ` up to the comma, and the number after the
      comma and its space. */
  function LimitReadBack(clause: string): (int, int)
  {
    if |clause| < 7 then (0, 0)
    else
      var parts := Split(clause[7..], ',');
      (ParseInt(parts[0]), if |parts| > 1 && |parts[1]| > 0 then ParseInt(parts[1][1..]) else 0)
  }

  /** The clause reads back as the zero-based offset `(pageNum - 1) * pageSize`
      and the page size. */
  lemma LimitClauseReadBack(pageSize: int, pageNum: int)
    ensures LimitReadBack(LimitClause(pageSize, pageNum)) == ((pageNum - 1) * pageSize, pageSize)
  {
    var offset, size := IntText((pageNum - 1) * pageSize), IntText(pageSize);
    var clause := LimitClause(pageSize, pageNum);
    assert clause[7..] == offset + (", " + size);
    assert ',' !in offset;
    assert ',' !in " " + size;
    SplitPrefix(offset, ", " + size, ',');
    SplitPrefix(" " + size, "", ',');
    assert (", " + size)[1..] == " " + size + "";
    assert Split(", " + size, ',') == [""] + [" " + size];
    assert offset + "" == offset;
    assert Split(clause[7..], ',') == [offset, " " + size];
    assert (" " + size)[1..] == size;
    IntTextRoundTrip((pageNum - 1) * pageSize);
    IntTextRoundTrip(pageSize);
  }

  /** Page `pageNum + 1` starts exactly `pageSize` rows after page `pageNum`. */
  lemma LimitPagesAdjacent(pageSize: int, pageNum: int)
    ensures LimitReadBack(LimitClause(pageSize, pageNum + 1)).0
         == LimitReadBack(LimitClause(pageSize, pageNum)).0 + pageSize
  {
    LimitClauseReadBack(pageSize, pageNum + 1);
    LimitClauseReadBack(pageSize, pageNum);
  }

  /** The clause adds no placeholder. */
  lemma LimitHasNoMark(pageSize: int, pageNum: int)
    ensures Occurrences(LimitClause(pageSize, pageNum), '?') == 0
  {
    OccurrencesAbsent(LimitClause(pageSize, pageNum), '?');
  }

  // --------------------------------------------------------------- orderBy

  /** `orderBy` appends only for a non-empty string field and a direction
      that is exactly "asc" or "desc". */
  predicate OrderAccepted(field: Value, orderType: Value)
  {
    && Truthy(field) && TypeOf(field) == "string"
    && Truthy(orderType) && (orderType == Str("asc") || orderType == Str("desc"))
  }

  /** `s.toUpperCase()` on ASCII letters. */
  function UpperCase(s: string): (r: string)
    ensures |r| == |s|
  {
    if s == [] then []
    else [if 'a' <= s[0] <= 'z' then (s[0] as int - 32) as char else s[0]] + UpperCase(s[1..])
  }

  function OrderClause(field: string, orderType: string): string
  {
    " ORDER BY " + field + " " + UpperCase(orderType)
  }

  /** The JavaScript guards amount to: a non-empty string field and a lower-case direction. */
  lemma OrderAcceptedExactly(field: Value, orderType: Value)
    ensures OrderAccepted(field, orderType)
        <==> field.Str? && field.s != "" && orderType.Str? && (orderType.s == "asc" || orderType.s == "desc")
  {
  }

  /** Accepted directions are written upper-case; upper-case input is refused. */
  lemma OrderDirections(field: string)
    ensures OrderClause(field, "asc") == " ORDER BY " + field + " ASC"
    ensures OrderClause(field, "desc") == " ORDER BY " + field + " DESC"
    ensures !OrderAccepted(Str(field), Str("ASC")) && !OrderAccepted(Str(field), Str("Desc"))
  {
    assert "asc"[1..] == "sc" && "sc"[1..] == "c" && "c"[1..] == [];
    assert "desc"[1..] == "esc" && "esc"[1..] == "sc";
  }

  /** Upper-casing neither adds nor removes a `?`. */
  lemma {:induction false} UpperCaseMarks(s: string)
    ensures Occurrences(UpperCase(s), '?') == Occurrences(s, '?')
  {
    if s != [] {
      UpperCaseMarks(s[1..]);
    }
  }

  /** The ordering clause adds only the `?` of the field and the direction. */
  lemma OrderClauseMarks(field: string, orderType: string)
    ensures Occurrences(OrderClause(field, orderType), '?') == Occurrences(field, '?') + Occurrences(orderType, '?')
  {
    var tail := " " + UpperCase(orderType);
    assert OrderClause(field, orderType) == " ORDER BY " + (field + tail);
    FreePrefix(" ORDER BY ", field + tail, '?');
    OccurrencesAppend(field, tail, '?');
    FreePrefix(" ", UpperCase(orderType), '?');
    UpperCaseMarks(orderType);
  }

  /** An accepted ordering adds exactly the `?` of the field name. */
  lemma AcceptedOrderMarks(field: Value, orderType: Value)
    requires OrderAccepted(field, orderType)
    ensures Occurrences(OrderClause(field.s, orderType.s), '?') == Occurrences(field.s, '?')
  {
    OrderClauseMarks(field.s, orderType.s);
    assert '?' !in orderType.s;
    OccurrencesAbsent(orderType.s, '?');
  }

  // ---------------------------------------------------------- insert/update

  /** The keys of the data, in `Object.keys` order. */
  function Keys(data: seq<(string, Value)>): (r: seq<string>)
    ensures |r| == |data| && forall i :: 0 <= i < |r| ==> r[i] == data[i].0
  {
    if data == [] then [] else [data[0].0] + Keys(data[1..])
  }

  /** Every value, converted to text and wrapped in double quotes without any escaping. */
  function QuotedValues(data: seq<(string, Value)>): (r: seq<string>)
    ensures |r| == |data|
  {
    if data == [] then [] else ["\"" + ToText(data[0].1) + "\""] + QuotedValues(data[1..])
  }

  /** `key="value"` for every entry, again without escaping. */
  function Assignments(data: seq<(string, Value)>): (r: seq<string>)
    ensures |r| == |data|
  {
    if data == [] then [] else [data[0].0 + "=\"" + ToText(data[0].1) + "\""] + Assignments(data[1..])
  }

  function InsertSql(table: Value, data: seq<(string, Value)>): string
  {
    "INSERT INTO " + ToText(table) + " (" + Join(Keys(data), ",") + ") VALUES (" + Join(QuotedValues(data), ",") + ")"
  }

  function UpdateSql(table: Value, data: seq<(string, Value)>): string
  {
    "UPDATE " + ToText(table) + " SET " + Join(Assignments(data), ",")
  }

  function DeleteSql(table: Value): string
  {
    "DELETE FROM " + ToText(table)
  }

  /** Occurrences of `c` in the text of the values, summed. */
  function ValueOccurrences(data: seq<(string, Value)>, c: char): nat
  {
    if data == [] then 0 else Occurrences(ToText(data[0].1), c) + ValueOccurrences(data[1..], c)
  }

  /** Quoting a text adds two double quotes and nothing else. */
  lemma QuoteCount(text: string, c: char)
    ensures Occurrences("\"" + text + "\"", c) == Occurrences(text, c) + (if c == '"' then 2 else 0)
  {
    OccurrencesAppend("\"" + text, "\"", c);
    OccurrencesAppend("\"", text, c);
  }

  /** Each value sits between exactly one pair of quotes the builder adds;
      any further quote comes from the values themselves. */
  lemma {:induction false} InsertValueQuotes(data: seq<(string, Value)>)
    ensures Occurrences(Join(QuotedValues(data), ","), '"') == 2 * |data| + ValueOccurrences(data, '"')
  {
    QuotedValuesCount(data, '"');
    JoinFreeSeparator(QuotedValues(data), ",", '"');
  }

  /** The quoted values hold the characters of the values plus two quotes each. */
  lemma {:induction false} QuotedValuesCount(data: seq<(string, Value)>, c: char)
    ensures TotalOccurrences(QuotedValues(data), c) == ValueOccurrences(data, c) + (if c == '"' then 2 * |data| else 0)
  {
    if data != [] {
      QuoteCount(ToText(data[0].1), c);
      QuotedValuesCount(data[1..], c);
      assert QuotedValues(data)[1..] == QuotedValues(data[1..]);
    }
  }

  /** With comma-free keys and values, the column list and the value list
      of an insert split into as many items as there are fields, the keys
      coming back as they were. */
  lemma InsertListsMatch(data: seq<(string, Value)>)
    requires |data| > 0
    requires forall i :: 0 <= i < |data| ==> ',' !in data[i].0 && ',' !in ToText(data[i].1)
    ensures Split(Join(Keys(data), ","), ',') == Keys(data)
    ensures Split(Join(QuotedValues(data), ","), ',') == QuotedValues(data)
  {
    SplitJoin(Keys(data), ',');
    QuotedValuesFree(data, ',');
    SplitJoin(QuotedValues(data), ',');
  }

  lemma {:induction false} QuotedValuesFree(data: seq<(string, Value)>, c: char)
    requires c != '"'
    requires forall i :: 0 <= i < |data| ==> c !in ToText(data[i].1)
    ensures forall i :: 0 <= i < |data| ==> c !in QuotedValues(data)[i]
  {
    if data != [] {
      QuotedValuesFree(data[1..], c);
      assert QuotedValues(data)[1..] == QuotedValues(data[1..]);
      forall i | 0 <= i < |data|
        ensures c !in QuotedValues(data)[i]
      {
        if i > 0 {
          assert QuotedValues(data)[i] == QuotedValues(data[1..])[i - 1];
        }
      }
    }
  }

  /** Values are inlined unescaped: one field whose value is `a","b` reads
      as two values for one column. */
  lemma InsertValueNotEscaped()
    ensures var data := [("name", Str("a\",\"b"))];
            |Split(Join(QuotedValues(data), ","), ',')| == 2 && |Keys(data)| == 1
  {
    var data := [("name", Str("a\",\"b"))];
    assert data[1..] == [];
    assert QuotedValues(data) == ["\"" + "a\",\"b" + "\""];
    assert "\"" + "a\",\"b" + "\"" == "\"a\"" + ",\"b\"";
    assert Join(QuotedValues(data), ",") == "\"a\"" + ",\"b\"";
    SplitPrefix("\"a\"", ",\"b\"", ',');
    assert (",\"b\"")[1..] == "\"b\"";
    assert ",\"b\"" == [','] + "\"b\"";
    SplitPrefix("\"b\"", "", ',');
    assert "\"b\"" + "" == "\"b\"";
  }

  /** Inserting two fields: keys in order, every value quoted as text. */
  lemma InsertTwoFields(table: Value, k1: string, v1: Value, k2: string, v2: Value)
    ensures InsertSql(table, [(k1, v1), (k2, v2)])
         == "INSERT INTO " + ToText(table) + " (" + (k1 + "," + k2) + ") VALUES ("
            + (("\"" + ToText(v1) + "\"") + "," + ("\"" + ToText(v2) + "\"")) + ")"
  {
    var data := [(k1, v1), (k2, v2)];
    assert data[1..] == [(k2, v2)] && data[1..][1..] == [];
    var q1, q2 := "\"" + ToText(v1) + "\"", "\"" + ToText(v2) + "\"";
    assert Keys(data) == [k1, k2];
    assert QuotedValues(data) == [q1, q2];
    assert [k1, k2][1..] == [k2] && [q1, q2][1..] == [q2];
    assert Join([k1, k2], ",") == k1 + "," + k2;
    assert Join([q1, q2], ",") == q1 + "," + q2;
  }

  /** Every assignment of an update carries its key, one `=`, two builder
      quotes and its value's text, and nothing else. */
  lemma {:induction false} AssignmentsCount(data: seq<(string, Value)>, c: char)
    ensures TotalOccurrences(Assignments(data), c)
         == TotalOccurrences(Keys(data), c) + ValueOccurrences(data, c)
            + (if c == '"' then 2 * |data| else if c == '=' then |data| else 0)
  {
    if data != [] {
      AssignmentsCount(data[1..], c);
      assert Assignments(data)[1..] == Assignments(data[1..]);
      assert Keys(data)[1..] == Keys(data[1..]);
      AssignmentCount(data[0].0, ToText(data[0].1), c);
    }
  }

  /** One assignment `key="text"` holds the key, the text, one `=` and two quotes. */
  lemma AssignmentCount(key: string, text: string, c: char)
    ensures Occurrences(key + "=\"" + text + "\"", c)
         == Occurrences(key, c) + Occurrences(text, c) + (if c == '"' then 2 else if c == '=' then 1 else 0)
  {
    assert key + "=\"" + text + "\"" == key + ("=" + ("\"" + text + "\""));
    OccurrencesAppend(key, "=" + ("\"" + text + "\""), c);
    OccurrencesAppend("=", "\"" + text + "\"", c);
    QuoteCount(text, c);
  }

  // ------------------------------------------------------ placeholder counts

  /** A select of a column list holds the placeholders of the list and of the table name. */
  lemma ColumnSelectMarks(list: string, table: string)
    ensures Occurrences("SELECT " + list + " FROM " + table, '?') == Occurrences(list, '?') + Occurrences(table, '?')
  {
    OccurrencesAppend("SELECT " + list + " FROM ", table, '?');
    FreeSuffix("SELECT " + list, " FROM ", '?');
    FreePrefix("SELECT ", list, '?');
  }

  /** The counting, maximum-id and all-columns statements hold only the
      placeholders of the table name. */
  lemma FixedSelectMarks(table: string)
    ensures Occurrences("SELECT COUNT(*) AS count FROM " + table, '?') == Occurrences(table, '?')
    ensures Occurrences("SELECT MAX(id) AS maxId FROM " + table, '?') == Occurrences(table, '?')
    ensures Occurrences("SELECT * FROM " + table, '?') == Occurrences(table, '?')
    ensures Occurrences("SELECT " + "*" + " FROM " + table, '?') == Occurrences(table, '?')
  {
    FreePrefix("SELECT COUNT(*) AS count FROM ", table, '?');
    FreePrefix("SELECT MAX(id) AS maxId FROM ", table, '?');
    FreePrefix("SELECT * FROM ", table, '?');
    ColumnSelectMarks("*", table);
    OccurrencesAbsent("*", '?');
  }

  /** The placeholders of a select statement are those of the table name
      and, where the columns are used, those of the column list. */
  lemma SelectMarks(table: Value, columns: Value, maxId: Value, count: Value)
    ensures Occurrences(SelectSql(table, columns, maxId, count), '?')
         == Occurrences(ToText(table), '?')
            + (if !Truthy(count) && !Truthy(maxId) && (columns.Str? || columns.Arr?)
               then Occurrences(ColumnList(columns), '?') else 0)
  {
    FixedSelectMarks(ToText(table));
    ColumnSelectMarks(ColumnList(columns), ToText(table));
  }

  /** The placeholders of an insert are those of the table name, the keys
      and the values' text: the builder's own text adds none. */
  lemma InsertMarks(table: Value, data: seq<(string, Value)>)
    ensures Occurrences(InsertSql(table, data), '?')
         == Occurrences(ToText(table), '?') + TotalOccurrences(Keys(data), '?') + ValueOccurrences(data, '?')
  {
    var t, k, v := ToText(table), Join(Keys(data), ","), Join(QuotedValues(data), ",");
    var head := "INSERT INTO " + t + " (" + k + ") VALUES (";
    FreeSuffix(head + v, ")", '?');
    OccurrencesAppend(head, v, '?');
    FreeSuffix("INSERT INTO " + t + " (" + k, ") VALUES (", '?');
    OccurrencesAppend("INSERT INTO " + t + " (", k, '?');
    FreeSuffix("INSERT INTO " + t, " (", '?');
    FreePrefix("INSERT INTO ", t, '?');
    JoinFreeSeparator(Keys(data), ",", '?');
    JoinFreeSeparator(QuotedValues(data), ",", '?');
    QuotedValuesCount(data, '?');
  }

  /** The placeholders of an update are those of the table name, the keys
      and the values' text. */
  lemma UpdateMarks(table: Value, data: seq<(string, Value)>)
    ensures Occurrences(UpdateSql(table, data), '?')
         == Occurrences(ToText(table), '?') + TotalOccurrences(Keys(data), '?') + ValueOccurrences(data, '?')
  {
    var t, a := ToText(table), Join(Assignments(data), ",");
    OccurrencesAppend("UPDATE " + t + " SET ", a, '?');
    FreeSuffix("UPDATE " + t, " SET ", '?');
    FreePrefix("UPDATE ", t, '?');
    JoinFreeSeparator(Assignments(data), ",", '?');
    AssignmentsCount(data, '?');
  }

  /** The placeholders of a delete are those of the table name. */
  lemma DeleteMarks(table: Value)
    ensures Occurrences(DeleteSql(table), '?') == Occurrences(ToText(table), '?')
  {
    FreePrefix("DELETE FROM ", ToText(table), '?');
  }
}
