/** Statements made one after another on one database, and one statement written in two cases. */
module SqlClients {
  import opened Options
  import opened Text
  import opened SqlText
  import opened SqlCase
  import opened TestDb
  import opened RowAnswers

  function SelectWhere(table: string, t: Test): string {
    Sentence(["SELECT", "*"] + (["FROM"] + ([table] + WhereWords([t]))))
  }

  lemma SelectIsRead(table: string, t: Test)
    requires IsWord(table) && Writable(t)
    ensures ParseTableAndConditions(SelectWhere(table, t)) == Ok((table, [Meaning(t)]))
  {
    assert IsWord("SELECT") && IsWord("*");
    assert Upper("*")[0] == '*' && "FROM"[0] == 'F';
    StatementIsReadIff(["SELECT", "*"], table, [t]);
    assert [t][1..] == [] && [Meaning(t)] + [] == [Meaning(t)];
  }

  /** SELECT * FROM t WHERE a test. */
  method Ask(db: InMemoryDB, table: string, t: Test, params: seq<Value>) returns (r: Outcome, out: seq<array<Value>>)
    requires db.Valid() && Lower(table) in db.tables && IsWord(table) && Writable(t)
    ensures var s := Select(db.tables[Lower(table)].columns, Contents(db.tables[Lower(table)].rows), [Meaning(t)], params);
      if s.Rows? then r == Finished(Count(|out|)) && Contents(out) == s.rows else r == Finished(MatchFailed)
  {
    SelectIsRead(table, t);
    var names;
    r, names, out := db.QuerySelect(SelectWhere(table, t), params);
  }

  function InsertOne(table: string, column: string): string {
    Sentence(["INSERT", "INTO", table, "(" + column + ")"] + ["VALUES", "($1)"])
  }

  lemma InsertOneIsRead(table: string, column: string)
    requires IsWord(table) && '(' !in table && Listable(column)
    ensures ParseInsertColumns(InsertOne(table, column)) == Ok((table, [column]))
  {
    InsertSentence(table, column, ["VALUES", "($1)"]);
    InsertIsRead(table, [column], " " + Sentence(["VALUES", "($1)"]));
  }

  lemma NamedIsAccepted(columns: seq<string>, column: string, i: nat, x: Value)
    requires Names(columns, column, i)
    ensures Accepts(columns, [column], [x])
  {
    OneColumn(columns, column);
  }

  method AddOne(db: InMemoryDB, table: string, column: string, ghost i: nat, x: Value)
    requires db.Valid() && Lower(table) in db.tables
    requires IsWord(table) && '(' !in table && Listable(column) && Names(db.tables[Lower(table)].columns, column, i)
    modifies db
    ensures db.Valid() && Lower(table) in db.tables && db.tables[Lower(table)].columns == old(db.tables[Lower(table)].columns)
    ensures var before, after := old(Contents(db.tables[Lower(table)].rows)), Contents(db.tables[Lower(table)].rows);
      && |after| == |before| + 1 && after == before + [after[|before|]]
      && Inserted(db.tables[Lower(table)].columns, |before|, [column], [x], after[|before|])
  {
    InsertOneIsRead(table, column);
    NamedIsAccepted(db.tables[Lower(table)].columns, column, i, x);
    var inserted, row := db.InsertRow(InsertOne(table, column), [x]);
  }

  /** INSERT INTO t (c) VALUES ($1), then SELECT * FROM t WHERE c = $1: the new row comes last. */
  method InsertThenAsk(db: InMemoryDB, table: string, column: string, ghost i: nat, x: Value) returns (r: Outcome, out: seq<array<Value>>)
    requires db.Valid() && Lower(table) in db.tables
    requires IsWord(table) && '(' !in table && Listable(column) && Absent(column, "AND")
    requires Names(db.tables[Lower(table)].columns, column, i) && Wide(Contents(db.tables[Lower(table)].rows), i)
    modifies db
    ensures db.Valid() && Lower(table) in db.tables
    ensures var c, before := Condition(column, 1, false, false), old(Contents(db.tables[Lower(table)].rows));
      var columns, after := old(db.tables[Lower(table)].columns), Contents(db.tables[Lower(table)].rows);
      && |after| == |before| + 1 && after[..|before|] == before
      && r == Finished(Count(|out|))
      && Contents(out) == Those(columns, before, [c], [x], true)
           + if x == Nil && Names(columns, "id", i) then [] else [after[|before|]]
  {
    ghost var columns, before := db.tables[Lower(table)].columns, Contents(db.tables[Lower(table)].rows);
    AddOne(db, table, column, i, x);
    InsertThenSelect(columns, before, column, x, Contents(db.tables[Lower(table)].rows)[|before|], i);
    r, out := Ask(db, table, Equals(column, 1), [x]);
  }

  function UpdateOne(table: string, column: string, ts: seq<Test>): string {
    Sentence(["UPDATE", table, "SET"] + SetWords([ColParam(column, 1)]) + WhereWords(ts))
  }

  lemma UpdateOneIsRead(table: string, column: string, ts: seq<Test>)
    requires IsWord(table) && Upper(table) != "SET" && Upper(table) != "WHERE" && Assignable(ColParam(column, 1))
    requires ts != [] && AllWritable(ts)
    ensures ParseSimpleUpdate(UpdateOne(table, column, ts)) == Ok(Update(table, [ColParam(column, 1)], Meanings(ts)))
  {
    UpdateIsReadIff(table, [ColParam(column, 1)], ts);
  }

  /** Every row that met the conditions of an UPDATE is, as it now is, among the rows. */
  ghost predicate Returned(columns: seq<string>, before: seq<Row>, after: seq<Row>, conditions: seq<Condition>, params: seq<Value>, got: seq<Row>) {
    |after| == |before| && forall n :: 0 <= n < |before| && MeetsAll(columns, before[n], conditions, params) ==> after[n] in got
  }

  lemma UpdatedAreReturned(columns: seq<string>, rows: seq<Row>, column: string, conditions: seq<Condition>, params: seq<Value>, i: nat)
    requires UpdateRows(columns, rows, [ColParam(column, 1)], conditions, params).1.Count? && Wide(rows, i) && params != []
    requires Names(columns, column, i)
    ensures var after := UpdateRows(columns, rows, [ColParam(column, 1)], conditions, params).0;
      var s := Select(columns, after, [Condition(column, 1, false, false)], params);
      s.Rows? && Returned(columns, rows, after, conditions, params, s.rows)
  {
    var sets, c := [ColParam(column, 1)], Condition(column, 1, false, false);
    var after := UpdateRows(columns, rows, sets, conditions, params).0;
    UpdateIsMap(columns, rows, sets, conditions, params);
    UpdateKeepsWidth(columns, rows, sets, conditions, params, i);
    AllAnswerableOfOne(columns, after, c, params, i);
    StatementsAnswer(columns, after, [c], params);
    forall n | 0 <= n < |rows| && MeetsAll(columns, rows[n], conditions, params)
      ensures after[n] in Select(columns, after, [c], params).rows
    {
      UpdateThenSelect(columns, rows, sets, conditions, params, 0, i, c, n);
    }
  }

  method SetOne(db: InMemoryDB, table: string, column: string, ts: seq<Test>, params: seq<Value>) returns (u: Outcome)
    requires db.Valid() && Lower(table) in db.tables
    requires IsWord(table) && Upper(table) != "SET" && Upper(table) != "WHERE" && Assignable(ColParam(column, 1))
    requires ts != [] && AllWritable(ts)
    modifies db.Repr()
    ensures db.Valid() && db.tables == old(db.tables)
    ensures var t := db.tables[Lower(table)];
      var (rows, e) := UpdateRows(t.columns, old(Contents(t.rows)), [ColParam(column, 1)], Meanings(ts), params);
      u == Finished(e) && Contents(t.rows) == rows
  {
    UpdateOneIsRead(table, column, ts);
    u := db.ExecUpdate(UpdateOne(table, column, ts), params);
  }

  /** UPDATE t SET c = $1 WHERE tests, then SELECT * FROM t WHERE c = $1: every updated row is returned. */
  method UpdateThenReadBack(db: InMemoryDB, table: string, column: string, ts: seq<Test>, params: seq<Value>, ghost i: nat)
    returns (u: Outcome, r: Outcome, out: seq<array<Value>>)
    requires db.Valid() && Lower(table) in db.tables && params != []
    requires IsWord(table) && Upper(table) != "SET" && Upper(table) != "WHERE" && Assignable(ColParam(column, 1)) && Absent(column, "AND")
    requires ts != [] && AllWritable(ts)
    requires Names(db.tables[Lower(table)].columns, column, i) && Wide(Contents(db.tables[Lower(table)].rows), i)
    modifies db.Repr()
    ensures db.Valid() && db.tables == old(db.tables)
    ensures u.Finished? && (u.effect.Count? ==>
      && r == Finished(Count(|out|))
      && Returned(db.tables[Lower(table)].columns, old(Contents(db.tables[Lower(table)].rows)), Contents(db.tables[Lower(table)].rows),
                  Meanings(ts), params, Contents(out)))
  {
    ghost var columns, before := db.tables[Lower(table)].columns, Contents(db.tables[Lower(table)].rows);
    u := SetOne(db, table, column, ts, params);
    if u.effect.Count? {
      UpdatedAreReturned(columns, before, column, Meanings(ts), params, i);
    }
    r, out := Ask(db, table, Equals(column, 1), params);
  }

  /** Two statements of the same letters, with AND in capitals at the same places, ask the same of every table. */
  lemma StatementsAskTheSame(a: string, b: string, columns: seq<string>, rows: seq<Row>, params: seq<Value>)
    requires Alike(a, b)
    ensures var (x, y) := (ParseTableAndConditions(a), ParseTableAndConditions(b));
      && SameKind(x, y)
      && (x.Ok? ==>
           && Lower(x.value.0) == Lower(y.value.0)
           && Select(columns, rows, x.value.1, params) == Select(columns, rows, y.value.1, params)
           && Delete(columns, rows, x.value.1, params) == Delete(columns, rows, y.value.1, params))
  {
    StatementInAnyCase(a, b);
    var x, y := ParseTableAndConditions(a), ParseTableAndConditions(b);
    if x.Ok? {
      LowerIff(x.value.0, y.value.0);
      SelectInAnyCase(columns, rows, x.value.1, y.value.1, params);
    }
  }

  /** And so do two UPDATEs. */
  lemma UpdatesAskTheSame(a: string, b: string, columns: seq<string>, rows: seq<Row>, params: seq<Value>)
    requires Alike(a, b)
    ensures var (x, y) := (ParseSimpleUpdate(a), ParseSimpleUpdate(b));
      && SameKind(x, y)
      && (x.Ok? ==>
           && Lower(x.value.tableName) == Lower(y.value.tableName)
           && UpdateRows(columns, rows, x.value.assignments, x.value.conditions, params)
           == UpdateRows(columns, rows, y.value.assignments, y.value.conditions, params))
  {
    UpdateInAnyCase(a, b);
    var x, y := ParseSimpleUpdate(a), ParseSimpleUpdate(b);
    if x.Ok? {
      LowerIff(x.value.tableName, y.value.tableName);
      UpdateRowsInAnyCase(columns, rows, x.value.assignments, y.value.assignments, x.value.conditions, y.value.conditions, params);
    }
  }

  /** A table asked for in any case gives the same rows. */
  method SeedThenReadInAnyCase(db: InMemoryDB, name: string, name': string, columns: seq<string>, rows: seq<array<Value>>)
    returns (out: seq<array<Value>>)
    requires db.Valid() && SameName(name, name')
    modifies db
    ensures db.Valid() && Contents(out) == old(Contents(rows))
  {
    LowerIff(name, name');
    db.SeedRows(name, columns, rows);
    out := db.AllRows(name');
  }

  /** The same SELECT in two cases. */
  method SelectTwice(db: InMemoryDB, a: string, b: string, params: seq<Value>)
    returns (r: Outcome, columns: seq<string>, out: seq<array<Value>>, r': Outcome, columns': seq<string>, out': seq<array<Value>>)
    requires db.Valid() && Alike(a, b)
    ensures r == r'
    ensures r.Finished? && r.effect.Count? ==> columns == columns' && Contents(out) == Contents(out')
  {
    r, columns, out := db.QuerySelect(a, params);
    r', columns', out' := db.QuerySelect(b, params);
    var x := ParseTableAndConditions(a);
    if x.Ok? && Lower(x.value.0) in db.tables {
      var t := db.tables[Lower(x.value.0)];
      StatementsAskTheSame(a, b, t.columns, Contents(t.rows), params);
    } else {
      StatementsAskTheSame(a, b, [], [], params);
    }
  }
}
