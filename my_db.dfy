/** The chainable query builder `Database` of myDb.js and the connection it
    submits statements to. Each builder method changes the object's fields
    in place (returning `this` for chaining is left implicit); `execute`
    hands the statement and its bound values to the connection and clears
    the values whatever the outcome. */
module MyDb {
  import opened Strings
  import opened JsValues
  import opened SqlText

  /** A result row: column name to value. */
  type Row = map<string, Value>

  /** What the database hands to the query callback: rows, or an error. */
  datatype Reply = Rows(rows: seq<Row>) | Error(message: string)

  /** One submission to the connection: the plain form when there is
      nothing to bind, the form with a value list otherwise. */
  datatype Call = Plain(sql: Value) | Prepared(sql: Value, values: seq<Value>)

  /** How `execute` calls the connection for the given statement and values. */
  function Submission(sql: Value, values: seq<Value>): (c: Call)
    ensures c.sql == sql
    ensures c.Prepared? <==> values != []
    ensures c.Prepared? ==> c.values == values
  {
    if |values| == 0 then Plain(sql) else Prepared(sql, values)
  }

  /** Why the promise of `count()` is rejected. */
  datatype CountFailure = Backend(message: string) | NoFirstRow

  /** How the promise of `count()` settles. */
  datatype CountResult = Counted(count: Value) | Rejected(reason: CountFailure)

  /** `results[0].count` after a successful count query; reading a field of
      a missing first row throws, and a missing field is undefined. */
  function CountOf(reply: Reply): (r: CountResult)
    ensures reply.Error? ==> r == Rejected(Backend(reply.message))
    ensures reply.Rows? && reply.rows == [] ==> r == Rejected(NoFirstRow)
    ensures reply.Rows? && reply.rows != [] ==>
              r == Counted(if "count" in reply.rows[0] then reply.rows[0]["count"] else Undef)
    ensures r.Counted? ==> reply.Rows? && |reply.rows| > 0
  {
    match reply
    case Error(message) => Rejected(Backend(message))
    case Rows(rows) =>
      if rows == [] then Rejected(NoFirstRow)
      else Counted(if "count" in rows[0] then rows[0]["count"] else Undef)
  }

  /** The database connection, reduced to the log of what was submitted to
      it. What the database answers is supplied by the caller of each query. */
  class Connection {
    var sent: seq<Call>

    constructor ()
      ensures sent == []
    {
      sent := [];
    }

    method Query(call: Call, reply: Reply) returns (r: Reply)
      modifies this
      ensures sent == old(sent) + [call]
      ensures r == reply
    {
      sent := sent + [call];
      r := reply;
    }
  }

  /** The loop of `where`: the clause and the value of every accepted
      condition, collected in order into two local lists. */
  method CollectConditions(conds: seq<Value>) returns (whereConditions: seq<string>, localParams: seq<Value>)
    ensures whereConditions == Clauses(conds)
    ensures localParams == BoundValues(conds)
  {
    whereConditions, localParams := [], [];
    for i := 0 to |conds|
      invariant whereConditions == Clauses(conds[..i])
      invariant localParams == BoundValues(conds[..i])
    {
      var condition := conds[i];
      assert conds[..i + 1][..i] == conds[..i];
      if !condition.Arr? || |condition.elems| != 2 {
        continue;
      }
      var column, value := condition.elems[0], condition.elems[1];
      if TypeOf(column) != "string" || value.Undef? {
        continue;
      }
      whereConditions := whereConditions + [ToText(column) + " = ?"];
      localParams := localParams + [value];
    }
    assert conds[..|conds|] == conds;
  }

  class Database {
    /** The statement text; undefined until the first statement-setting call. */
    var query: Value
    /** The target table; undefined until `table` is called. */
    var tableName: Value
    /** The values bound to the `?` placeholders, in order. */
    var params: seq<Value>
    const connection: Connection

    /** The number of placeholders in the statement equals the number of bound values. */
    predicate Aligned()
      reads this
    {
      Occurrences(ToText(query), '?') == |params|
    }

    constructor ()
      ensures query == Undef && tableName == Undef && params == []
      ensures fresh(connection) && connection.sent == []
    {
      query := Undef;
      tableName := Undef;
      params := [];
      connection := new Connection();
    }

    /** `table(name)`: targets `name` and starts a select of every column. */
    method Table(name: Value)
      modifies this
      ensures tableName == name
      ensures query == Str(SelectSql(name, Undef, Undef, Undef))
      ensures params == old(params)
      ensures params == [] && '?' !in ToText(name) ==> Aligned()
    {
      query := Str("SELECT * FROM " + ToText(name));
      tableName := name;
      OtherColumnsSelectAll(name, Undef);
      SelectAllMarks(name);
      OccurrencesAbsent(ToText(name), '?');
    }

    /** `select(columns, maxId, count)`: replaces the statement. */
    method Select(columns: Value, maxId: Value, count: Value)
      modifies this
      ensures query == Str(SelectSql(tableName, columns, maxId, count))
      ensures tableName == old(tableName) && params == old(params)
      ensures Occurrences(ToText(query), '?')
           == Occurrences(ToText(tableName), '?')
              + (if !Truthy(count) && !Truthy(maxId) && (columns.Str? || columns.Arr?)
                 then Occurrences(ColumnList(columns), '?') else 0)
    {
      SelectMarks(tableName, columns, maxId, count);
      var cols := if columns.Undef? then Str("*") else columns;
      if Truthy(count) {
        query := Str("SELECT COUNT(*) AS count FROM " + ToText(tableName));
      } else if Truthy(maxId) {
        query := Str("SELECT MAX(id) AS maxId FROM " + ToText(tableName));
      } else if cols.Str? || cols.Arr? {
        var selectedColumns := if cols.Arr? then ArrayJoin(cols.elems, ",") else cols.s;
        query := Str("SELECT " + selectedColumns + " FROM " + ToText(tableName));
      } else {
        query := Str("SELECT * FROM " + ToText(tableName));
      }
    }

    /** `where(conditions)`: appends ` WHERE c1 = ? AND c2 = ? ...` for the
        accepted conditions and binds their values, or changes nothing when
        no condition is accepted. */
    method Where(conditions: Value)
      modifies this
      ensures var conds := ConditionsOf(conditions);
              if Clauses(conds) == [] then query == old(query) && params == old(params)
              else (query == Str(ToText(old(query)) + WhereClause(Clauses(conds)))
                    && params == old(params) + BoundValues(conds))
      ensures tableName == old(tableName)
      ensures Occurrences(ToText(query), '?') + |old(params)|
           == Occurrences(ToText(old(query)), '?') + |params| + ColumnMarks(ConditionsOf(conditions))
      ensures old(Aligned()) && ColumnMarks(ConditionsOf(conditions)) == 0 ==> Aligned()
    {
      var conds := ConditionsOf(conditions);
      NothingBoundIffNoneAccepted(conds);
      ClauseMarks(conds);
      if !Truthy(conditions) || !conditions.Arr? || |conditions.elems| == 0 {
        return;
      }
      var whereConditions, localParams := CollectConditions(conds);
      if |whereConditions| > 0 {
        var before := ToText(query);
        var fragment := " WHERE " + Join(whereConditions, " AND ");
        WherePlaceholders(conds);
        OccurrencesAppend(before, fragment, '?');
        query := Str(before + fragment);
        params := params + localParams;
      }
    }

    /** `limit(pageSize, pageNum)`: appends the page window. */
    method Limit(pageSize: int, pageNum: int)
      modifies this
      ensures query == Str(ToText(old(query)) + LimitClause(pageSize, pageNum))
      ensures tableName == old(tableName) && params == old(params)
      ensures Occurrences(ToText(query), '?') == Occurrences(ToText(old(query)), '?')
    {
      var start := (pageNum - 1) * pageSize;
      var before := ToText(query);
      query := Str(ToText(query) + " LIMIT " + IntText(start) + ", " + IntText(pageSize));
      assert ToText(query) == before + LimitClause(pageSize, pageNum);
      OccurrencesAppend(before, LimitClause(pageSize, pageNum), '?');
      LimitHasNoMark(pageSize, pageNum);
    }

    /** `insert(data)`: replaces the statement with an insert of the data's
        fields; throws (`thrown`) and changes nothing when the data is
        undefined or null. */
    method Insert(data: Value) returns (thrown: bool)
      modifies this
      ensures thrown <==> Entries(data).None?
      ensures query == if thrown then old(query) else Str(InsertSql(tableName, Entries(data).value))
      ensures tableName == old(tableName) && params == old(params)
      ensures !thrown ==>
                (Occurrences(ToText(query), '?')
                 == Occurrences(ToText(tableName), '?') + TotalOccurrences(Keys(Entries(data).value), '?')
                    + ValueOccurrences(Entries(data).value, '?'))
    {
      var entries := Entries(data);
      if entries.None? {
        return true;
      }
      InsertMarks(tableName, entries.value);
      var keys := Join(Keys(entries.value), ",");
      var values := Join(QuotedValues(entries.value), ",");
      query := Str("INSERT INTO " + ToText(tableName) + " (" + keys + ") VALUES (" + values + ")");
      return false;
    }

    /** `update(data)`: replaces the statement with an update setting the
        data's fields; throws and changes nothing when the data is
        undefined or null. */
    method Update(data: Value) returns (thrown: bool)
      modifies this
      ensures thrown <==> Entries(data).None?
      ensures query == if thrown then old(query) else Str(UpdateSql(tableName, Entries(data).value))
      ensures tableName == old(tableName) && params == old(params)
      ensures !thrown ==>
                (Occurrences(ToText(query), '?')
                 == Occurrences(ToText(tableName), '?') + TotalOccurrences(Keys(Entries(data).value), '?')
                    + ValueOccurrences(Entries(data).value, '?'))
    {
      var entries := Entries(data);
      if entries.None? {
        return true;
      }
      UpdateMarks(tableName, entries.value);
      var setClause := Join(Assignments(entries.value), ",");
      query := Str("UPDATE " + ToText(tableName) + " SET " + setClause);
      return false;
    }

    /** `delete()`: replaces the statement with a delete of the whole table. */
    method Delete()
      modifies this
      ensures query == Str(DeleteSql(tableName))
      ensures tableName == old(tableName) && params == old(params)
      ensures Occurrences(ToText(query), '?') == Occurrences(ToText(tableName), '?')
    {
      DeleteMarks(tableName);
      query := Str("DELETE FROM " + ToText(tableName));
    }

    /** `orderBy(field, orderType)`: appends the ordering, or changes nothing
        when the field or the direction is refused. */
    method OrderBy(field: Value, orderType: Value)
      modifies this
      ensures query == if OrderAccepted(field, orderType)
                       then Str(ToText(old(query)) + OrderClause(field.s, orderType.s))
                       else old(query)
      ensures tableName == old(tableName) && params == old(params)
      ensures Occurrences(ToText(query), '?')
           == Occurrences(ToText(old(query)), '?') + (if OrderAccepted(field, orderType) then Occurrences(field.s, '?') else 0)
    {
      if !Truthy(field) || TypeOf(field) != "string" {
        return;
      }
      if !Truthy(orderType) || (orderType != Str("asc") && orderType != Str("desc")) {
        return;
      }
      var before := ToText(query);
      query := Str(before + OrderClause(ToText(field), ToText(orderType)));
      OccurrencesAppend(before, OrderClause(field.s, orderType.s), '?');
      AcceptedOrderMarks(field, orderType);
    }

    /** `raw(sql)`: replaces the statement with the caller's text. */
    method Raw(sql: Value)
      modifies this
      ensures query == sql
      ensures tableName == old(tableName) && params == old(params)
    {
      query := sql;
    }

    /** `execute()`: submits the statement with its bound values, then clears
        the values on success and on error alike; the settled outcome is the
        database's reply. */
    method Execute(reply: Reply) returns (r: Reply)
      modifies this, connection
      ensures connection.sent == old(connection.sent) + [Submission(old(query), old(params))]
      ensures r == reply
      ensures params == []
      ensures query == old(query) && tableName == old(tableName)
    {
      if |params| == 0 {
        r := connection.Query(Plain(query), reply);
        params := [];
      } else {
        var paramsCopy := params;
        r := connection.Query(Prepared(query, paramsCopy), reply);
        params := [];
      }
    }

    /** `count()`: sets the counting statement, executes it with whatever
        values are bound, and reads `count` from the first row. */
    method Count(reply: Reply) returns (r: CountResult)
      modifies this, connection
      ensures query == Str(CountSql(tableName))
      ensures connection.sent == old(connection.sent) + [Submission(query, old(params))]
      ensures r == CountOf(reply)
      ensures params == [] && tableName == old(tableName)
    {
      query := Str("SELECT COUNT(*) AS count FROM " + ToText(tableName));
      var results := Execute(reply);
      r := CountOf(results);
    }
  }

  /** `table(t).where([[column, value]]).execute()`: one placeholder, one
      bound value, and both reach the connection together. */
  method FilterByColumn(table: string, column: string, value: Value, reply: Reply)
    requires !value.Undef? && '?' !in table && '?' !in column
  {
    var db := new Database();
    db.Table(Str(table));
    OneCondition(column, value);
    var conds := [Arr([Str(column), value])];
    assert ColumnMarks(conds) == 0 by {
      assert conds[..0] == [];
      OccurrencesAbsent(column, '?');
    }
    db.Where(Arr(conds));
    assert db.params == [value] && db.Aligned();
    var submitted := db.query;
    var r := db.Execute(reply);
    assert db.connection.sent == [Prepared(submitted, [value])];
    assert Occurrences(ToText(submitted), '?') == 1;
    assert db.params == [] && db.tableName == Str(table);
  }

  /** `table(t).select().orderBy(field, "desc").execute()`: nothing is
      bound and no placeholder is written, so the plain form is submitted. */
  method ListLatest(table: string, field: string, reply: Reply)
    requires '?' !in table && '?' !in field
  {
    var db := new Database();
    db.Table(Str(table));
    db.Select(Undef, Undef, Undef);
    OccurrencesAbsent(table, '?');
    OccurrencesAbsent(field, '?');
    db.OrderBy(Str(field), Str("desc"));
    assert db.Aligned();
    var submitted := db.query;
    var r := db.Execute(reply);
    assert db.connection.sent == [Plain(submitted)];
    assert Occurrences(ToText(submitted), '?') == 0;
  }

  /** `table(t).select(columns).where([[column, value]])`: the column list
      adds no placeholder, so the one bound value matches the one `?`. */
  method SelectColumnsWhere(table: string, columns: string, column: string, value: Value)
    requires !value.Undef? && '?' !in table && '?' !in columns && '?' !in column
  {
    var db := new Database();
    db.Table(Str(table));
    OccurrencesAbsent(table, '?');
    OccurrencesAbsent(columns, '?');
    db.Select(Str(columns), Undef, Undef);
    assert ColumnList(Str(columns)) == columns;
    assert db.Aligned();
    OneCondition(column, value);
    var conds := [Arr([Str(column), value])];
    assert ColumnMarks(conds) == 0 by {
      assert conds[..0] == [];
      OccurrencesAbsent(column, '?');
    }
    db.Where(Arr(conds));
    assert db.params == [value] && db.Aligned();
  }

  /** `table(t).where([[column, value]]).count()`: `count()` replaces the
      statement but keeps the bound value, so a statement without any `?`
      is submitted together with that value and the filter is lost. */
  method CountAfterWhere(table: string, column: string, value: Value, reply: Reply)
    requires !value.Undef? && '?' !in table
  {
    var db := new Database();
    db.Table(Str(table));
    OneCondition(column, value);
    db.Where(Arr([Arr([Str(column), value])]));
    assert db.params == [value];
    var r := db.Count(reply);
    assert db.connection.sent == [Prepared(Str(CountSql(Str(table))), [value])];
    FreePrefix("SELECT COUNT(*) AS count FROM ", table, '?');
    OccurrencesAbsent(table, '?');
    assert Occurrences(CountSql(Str(table)), '?') == 0;
  }

  /** `table(t).where([[column, value]]).update(data)` with empty data: the
      update replaces the statement with one holding no `?` while the value
      stays bound, so the session is no longer aligned. */
  method UpdateAfterWhere(table: string, column: string, value: Value)
    requires !value.Undef? && '?' !in table
  {
    var db := new Database();
    db.Table(Str(table));
    OneCondition(column, value);
    db.Where(Arr([Arr([Str(column), value])]));
    var thrown := db.Update(Obj([]));
    OccurrencesAbsent(table, '?');
    assert Keys([]) == [] && ValueOccurrences([], '?') == 0;
    assert !thrown && db.params == [value] && Occurrences(ToText(db.query), '?') == 0;
    assert !db.Aligned();
  }

  /** `table(t).where([[column, op, value]]).execute()`: the three-element
      condition is dropped, so the whole table is selected with nothing bound. */
  method FilterWithOperator(table: string, column: string, op: string, value: Value, reply: Reply)
  {
    var db := new Database();
    db.Table(Str(table));
    OtherColumnsSelectAll(Str(table), Undef);
    ThreeElementConditionIgnored(column, op, value);
    db.Where(Arr([Arr([Str(column), Str(op), value])]));
    assert db.query == Str("SELECT * FROM " + table) && db.params == [];
    var r := db.Execute(reply);
    assert db.connection.sent == [Plain(Str("SELECT * FROM " + table))];
  }

  /** `table(table).insert({name: name, qty: qty})`: both values are inlined
      between quotes and nothing is bound. */
  method InsertItem(table: string, name: string, qty: int)
  {
    var db := new Database();
    db.Table(Str(table));
    InsertTwoFields(Str(table), "name", Str(name), "qty", Num(qty));
    var thrown := db.Insert(Obj([("name", Str(name)), ("qty", Num(qty))]));
    assert !thrown;
    assert db.query == Str("INSERT INTO " + table + " (" + ("name" + "," + "qty") + ") VALUES ("
                           + (("\"" + name + "\"") + "," + ("\"" + IntText(qty) + "\"")) + ")");
    assert db.params == [];
  }

  /** `update()` with no data throws before the statement changes. */
  method UpdateWithoutData(table: string)
  {
    var db := new Database();
    db.Table(Str(table));
    var thrown := db.Update(Undef);
    assert thrown && db.query == Str("SELECT * FROM " + table);
  }
}
