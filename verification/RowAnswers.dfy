/** What statements answer, told by the cells of the rows. */
module RowAnswers {
  import opened Options
  import opened Text
  import opened Decimal
  import opened SqlText
  import opened SqlCase
  import opened TestDb

  /** The text a cell or parameter shows. */
  function Shows(v: Value): string {
    match v
    case Nil => "<nil>"
    case Val(_, shown) => shown
  }

  /** The column a name stands for: the first of that name, in any case. */
  predicate Names(columns: seq<string>, name: string, i: int) {
    0 <= i < |columns| && name != "" && SameName(columns[i], name) && forall j :: 0 <= j < i ==> !SameName(columns[j], name)
  }

  lemma ColumnIsFirstNamed(columns: seq<string>, name: string, i: int)
    ensures 0 <= i ==> (ColIndex(columns, name) == i <==> Names(columns, name, i))
  {
    forall j | 0 <= j < |columns|
      ensures Lower(columns[j]) == Lower(name) <==> SameName(columns[j], name)
    {
      LowerIff(columns[j], name);
    }
  }

  /** The row has a cell for the condition, and a parameter if one is asked for. */
  predicate Answerable(columns: seq<string>, row: Row, c: Condition, params: seq<Value>) {
    (exists i :: 0 <= i < |row| && Names(columns, c.column, i)) && (c.isNull || c.isNotNull || 1 <= c.paramIdx <= |params|)
  }

  /** The cell is nil, is not nil, or shows the same text as the parameter. */
  predicate Meets(columns: seq<string>, row: Row, c: Condition, params: seq<Value>) {
    exists i :: 0 <= i < |row| && Names(columns, c.column, i) &&
      if c.isNull then row[i] == Nil
      else if c.isNotNull then row[i] != Nil
      else 1 <= c.paramIdx <= |params| && Shows(row[i]) == Shows(params[c.paramIdx - 1])
  }

  lemma OneColumn(columns: seq<string>, name: string)
    ensures forall i :: 0 <= i < |columns| ==> (Names(columns, name, i) <==> ColIndex(columns, name) == i)
  {
    forall i | 0 <= i < |columns|
      ensures Names(columns, name, i) <==> ColIndex(columns, name) == i
    {
      ColumnIsFirstNamed(columns, name, i);
    }
  }

  lemma HoldsIff(columns: seq<string>, row: Row, c: Condition, params: seq<Value>)
    ensures Holds(columns, row, c, params) == Yes <==> Meets(columns, row, c, params)
    ensures Holds(columns, row, c, params) == Error <==> !Answerable(columns, row, c, params)
  {
    OneColumn(columns, c.column);
    var i := ColIndex(columns, c.column);
    assert i >= 0 ==> Names(columns, c.column, i);
  }

  predicate MeetsAll(columns: seq<string>, row: Row, conditions: seq<Condition>, params: seq<Value>) {
    forall k :: 0 <= k < |conditions| ==> Meets(columns, row, conditions[k], params)
  }

  /** The first condition that the row does not meet cannot be answered. */
  predicate Unanswerable(columns: seq<string>, row: Row, conditions: seq<Condition>, params: seq<Value>) {
    exists k :: 0 <= k < |conditions| && !Answerable(columns, row, conditions[k], params) && MeetsAll(columns, row, conditions[..k], params)
  }

  lemma MeetsAllStep(columns: seq<string>, row: Row, conditions: seq<Condition>, params: seq<Value>)
    requires conditions != []
    ensures MeetsAll(columns, row, conditions, params) <==>
      Meets(columns, row, conditions[0], params) && MeetsAll(columns, row, conditions[1..], params)
  {
    assert forall k :: 0 < k < |conditions| ==> conditions[k] == conditions[1..][k - 1];
  }

  lemma UnanswerableStep(columns: seq<string>, row: Row, conditions: seq<Condition>, params: seq<Value>)
    requires conditions != []
    ensures Unanswerable(columns, row, conditions, params) <==>
      !Answerable(columns, row, conditions[0], params)
      || (Meets(columns, row, conditions[0], params) && Unanswerable(columns, row, conditions[1..], params))
  {
    var rest := conditions[1..];
    if Unanswerable(columns, row, conditions, params) {
      var k :| 0 <= k < |conditions| && !Answerable(columns, row, conditions[k], params) && MeetsAll(columns, row, conditions[..k], params);
      if k > 0 {
        assert conditions[..k][0] == conditions[0] && conditions[..k][1..] == rest[..k - 1] && rest[k - 1] == conditions[k];
        MeetsAllStep(columns, row, conditions[..k], params);
      }
    }
    if !Answerable(columns, row, conditions[0], params) {
      assert MeetsAll(columns, row, conditions[..0], params);
    } else if Meets(columns, row, conditions[0], params) && Unanswerable(columns, row, rest, params) {
      var k :| 0 <= k < |rest| && !Answerable(columns, row, rest[k], params) && MeetsAll(columns, row, rest[..k], params);
      assert conditions[..k + 1][0] == conditions[0] && conditions[..k + 1][1..] == rest[..k] && rest[k] == conditions[k + 1];
      MeetsAllStep(columns, row, conditions[..k + 1], params);
    }
  }

  /** Every row: it is accepted when it meets every condition, and an error when it is unanswerable. */
  lemma {:induction false} MatchesIff(columns: seq<string>, row: Row, conditions: seq<Condition>, params: seq<Value>)
    ensures Matches(columns, row, conditions, params) == Yes <==> MeetsAll(columns, row, conditions, params)
    ensures Matches(columns, row, conditions, params) == Error <==> Unanswerable(columns, row, conditions, params)
  {
    if conditions != [] {
      HoldsIff(columns, row, conditions[0], params);
      MatchesIff(columns, row, conditions[1..], params);
      MeetsAllStep(columns, row, conditions, params);
      UnanswerableStep(columns, row, conditions, params);
    }
  }

  // The rows a statement is about

  /** The rows that meet the conditions, or those that do not, in order. */
  function Those(columns: seq<string>, rows: seq<Row>, conditions: seq<Condition>, params: seq<Value>, meet: bool): seq<Row> {
    if rows == [] then []
    else
      var rest := Those(columns, rows[1..], conditions, params, meet);
      if MeetsAll(columns, rows[0], conditions, params) == meet then [rows[0]] + rest else rest
  }

  /** Exactly those rows. */
  lemma {:induction false} ThoseAre(columns: seq<string>, rows: seq<Row>, conditions: seq<Condition>, params: seq<Value>, meet: bool, row: Row)
    ensures row in Those(columns, rows, conditions, params, meet) <==> row in rows && MeetsAll(columns, row, conditions, params) == meet
  {
    if rows != [] {
      ThoseAre(columns, rows[1..], conditions, params, meet, row);
      assert row in rows <==> row == rows[0] || row in rows[1..];
    }
  }

  lemma {:induction false} ThoseOfBoth(columns: seq<string>, a: seq<Row>, b: seq<Row>, conditions: seq<Condition>, params: seq<Value>, meet: bool)
    ensures Those(columns, a + b, conditions, params, meet)
         == Those(columns, a, conditions, params, meet) + Those(columns, b, conditions, params, meet)
  {
    if a == [] {
      assert a + b == b;
    } else {
      ThoseOfBoth(columns, a[1..], b, conditions, params, meet);
      assert (a + b)[1..] == a[1..] + b && (a + b)[0] == a[0];
    }
  }

  ghost predicate AllAnswerable(columns: seq<string>, rows: seq<Row>, conditions: seq<Condition>, params: seq<Value>) {
    forall k :: 0 <= k < |rows| ==> !Unanswerable(columns, rows[k], conditions, params)
  }

  lemma AllAnswerableStep(columns: seq<string>, rows: seq<Row>, conditions: seq<Condition>, params: seq<Value>)
    requires rows != []
    ensures AllAnswerable(columns, rows, conditions, params) <==>
      !Unanswerable(columns, rows[0], conditions, params) && AllAnswerable(columns, rows[1..], conditions, params)
  {
    assert forall k :: 0 < k < |rows| ==> rows[k] == rows[1..][k - 1];
  }

  /**
   A SELECT fails exactly when some row is unanswerable, and otherwise returns exactly the rows that meet
   every condition, in order; a DELETE fails likewise, and otherwise keeps exactly the others.
   */
  lemma {:induction false} StatementsAnswer(columns: seq<string>, rows: seq<Row>, conditions: seq<Condition>, params: seq<Value>)
    ensures Select(columns, rows, conditions, params) ==
      if AllAnswerable(columns, rows, conditions, params) then Rows(Those(columns, rows, conditions, params, true)) else SelectFailed
    ensures Delete(columns, rows, conditions, params) ==
      if AllAnswerable(columns, rows, conditions, params)
      then (Those(columns, rows, conditions, params, false), Count(|Those(columns, rows, conditions, params, true)|))
      else (rows, MatchFailed)
  {
    SelectAgrees(columns, rows, conditions, params);
    if rows != [] {
      StatementsAnswer(columns, rows[1..], conditions, params);
      SelectAgrees(columns, rows[1..], conditions, params);
      AllAnswerableStep(columns, rows, conditions, params);
      MatchesIff(columns, rows[0], conditions, params);
    }
  }

  // A condition on one column whose place is known

  predicate CellMeets(cell: Value, c: Condition, params: seq<Value>) {
    if c.isNull then cell == Nil
    else if c.isNotNull then cell != Nil
    else 1 <= c.paramIdx <= |params| && Shows(cell) == Shows(params[c.paramIdx - 1])
  }

  lemma MeetsAt(columns: seq<string>, row: Row, c: Condition, params: seq<Value>, i: nat)
    requires Names(columns, c.column, i) && i < |row| && (c.isNull || c.isNotNull || 1 <= c.paramIdx <= |params|)
    ensures Meets(columns, row, c, params) <==> CellMeets(row[i], c, params)
    ensures MeetsAll(columns, row, [c], params) <==> CellMeets(row[i], c, params)
    ensures !Unanswerable(columns, row, [c], params)
  {
    OneColumn(columns, c.column);
    MeetsAllStep(columns, row, [c], params);
    UnanswerableStep(columns, row, [c], params);
    assert [c][1..] == [];
  }

  /** Every row has a cell for column i. */
  ghost predicate Wide(rows: seq<Row>, i: nat) {
    forall k :: 0 <= k < |rows| ==> i < |rows[k]|
  }

  lemma AllAnswerableOfOne(columns: seq<string>, rows: seq<Row>, c: Condition, params: seq<Value>, i: nat)
    requires Names(columns, c.column, i) && Wide(rows, i) && (c.isNull || c.isNotNull || 1 <= c.paramIdx <= |params|)
    ensures AllAnswerable(columns, rows, [c], params)
  {
    forall k | 0 <= k < |rows|
      ensures !Unanswerable(columns, rows[k], [c], params)
    {
      MeetsAt(columns, rows[k], c, params, i);
    }
  }

  // Round trips

  /** What was written into a column by a successful UPDATE. */
  lemma UpdatedCell(columns: seq<string>, row: Row, sets: seq<ColParam>, params: seq<Value>, r: Row, k: nat, i: nat)
    requires Overwritten(columns, row, sets, params, r) && i < |row|
    requires k < |sets| && Names(columns, sets[k].column, i) && forall j :: k < j < |sets| ==> !Names(columns, sets[j].column, i)
    ensures 1 <= sets[k].paramIdx <= |params| && r[i] == params[sets[k].paramIdx - 1]
  {
    forall j | k <= j < |sets|
      ensures ColIndex(columns, sets[j].column) == i <==> j == k
    {
      OneColumn(columns, sets[j].column);
    }
    assert LastTo(columns, sets, i) == k;
  }

  /**
   After a successful UPDATE with a = $n as the last assignment to its column, a condition on that column,
   be it a = $m, IS NULL or IS NOT NULL, is met by an updated row exactly when the value written meets it.
   */
  lemma UpdateThenAsk(columns: seq<string>, rows: seq<Row>, sets: seq<ColParam>, conditions: seq<Condition>, params: seq<Value>,
                      k: nat, i: nat, c: Condition, asked: seq<Value>, n: nat)
    requires var (after, e) := UpdateRows(columns, rows, sets, conditions, params); e.Count?
    requires k < |sets| && Names(columns, sets[k].column, i) && forall j :: k < j < |sets| ==> !Names(columns, sets[j].column, i)
    requires Names(columns, c.column, i) && (c.isNull || c.isNotNull || 1 <= c.paramIdx <= |asked|)
    requires n < |rows| && i < |rows[n]| && MeetsAll(columns, rows[n], conditions, params)
    ensures var after := UpdateRows(columns, rows, sets, conditions, params).0;
      && |after| == |rows| && 1 <= sets[k].paramIdx <= |params|
      && (MeetsAll(columns, after[n], [c], asked) <==> CellMeets(params[sets[k].paramIdx - 1], c, asked))
  {
    UpdateIsMap(columns, rows, sets, conditions, params);
    MatchesIff(columns, rows[n], conditions, params);
    var after := UpdateRows(columns, rows, sets, conditions, params).0;
    UpdatedCell(columns, rows[n], sets, params, after[n], k, i);
    MeetsAt(columns, after[n], c, asked, i);
  }

  lemma WrittenParam(columns: seq<string>, rows: seq<Row>, sets: seq<ColParam>, conditions: seq<Condition>, params: seq<Value>,
                     k: nat, i: nat, n: nat)
    requires UpdateRows(columns, rows, sets, conditions, params).1.Count?
    requires k < |sets| && Names(columns, sets[k].column, i) && forall j :: k < j < |sets| ==> !Names(columns, sets[j].column, i)
    requires n < |rows| && i < |rows[n]| && MeetsAll(columns, rows[n], conditions, params)
    ensures 1 <= sets[k].paramIdx <= |params|
  {
    UpdateIsMap(columns, rows, sets, conditions, params);
    MatchesIff(columns, rows[n], conditions, params);
    UpdatedCell(columns, rows[n], sets, params, UpdateRows(columns, rows, sets, conditions, params).0[n], k, i);
  }

  /** So a SELECT for what was written returns every updated row. */
  lemma UpdateThenSelect(columns: seq<string>, rows: seq<Row>, sets: seq<ColParam>, conditions: seq<Condition>, params: seq<Value>,
                         k: nat, i: nat, c: Condition, n: nat)
    requires UpdateRows(columns, rows, sets, conditions, params).1.Count? && Wide(rows, i)
    requires k < |sets| && Names(columns, sets[k].column, i) && forall j :: k < j < |sets| ==> !Names(columns, sets[j].column, i)
    requires c == Condition(c.column, sets[k].paramIdx, false, false) && Names(columns, c.column, i)
    requires n < |rows| && MeetsAll(columns, rows[n], conditions, params)
    ensures var after := UpdateRows(columns, rows, sets, conditions, params).0;
      var s := Select(columns, after, [c], params);
      && |after| == |rows| && s.Rows? && after[n] in s.rows
  {
    WrittenParam(columns, rows, sets, conditions, params, k, i, n);
    UpdateThenAsk(columns, rows, sets, conditions, params, k, i, c, params, n);
    UpdateKeepsWidth(columns, rows, sets, conditions, params, i);
    var after := UpdateRows(columns, rows, sets, conditions, params).0;
    SelectReturns(columns, after, c, params, i, n);
  }

  lemma SelectReturns(columns: seq<string>, rows: seq<Row>, c: Condition, params: seq<Value>, i: nat, n: nat)
    requires Names(columns, c.column, i) && Wide(rows, i) && (c.isNull || c.isNotNull || 1 <= c.paramIdx <= |params|)
    requires n < |rows| && MeetsAll(columns, rows[n], [c], params)
    ensures var s := Select(columns, rows, [c], params);
      s.Rows? && rows[n] in s.rows
  {
    AllAnswerableOfOne(columns, rows, c, params, i);
    StatementsAnswer(columns, rows, [c], params);
    ThoseAre(columns, rows, [c], params, true, rows[n]);
  }

  lemma UpdateKeepsWidth(columns: seq<string>, rows: seq<Row>, sets: seq<ColParam>, conditions: seq<Condition>, params: seq<Value>, i: nat)
    requires UpdateRows(columns, rows, sets, conditions, params).1.Count? && Wide(rows, i)
    ensures Wide(UpdateRows(columns, rows, sets, conditions, params).0, i)
  {
    UpdateIsMap(columns, rows, sets, conditions, params);
  }

  /**
   What an INSERT puts into a column it names: the last parameter named for it, but an identifier where a
   nil is given for the column id.
   */
  lemma InsertedCell(columns: seq<string>, count: nat, cols: seq<string>, params: seq<Value>, row: Row, k: nat, i: nat)
    requires Inserted(columns, count, cols, params, row)
    requires k < |cols| && Names(columns, cols[k], i) && forall j :: k < j < |cols| ==> !Names(columns, cols[j], i)
    ensures |params| == |cols| && |row| == |columns|
    ensures row[i] == if params[k] == Nil && Names(columns, "id", i) then Val(0, "generated-id-" + Itoa(count + 1)) else params[k]
  {
    var sets := Positional(cols);
    forall j | k <= j < |cols|
      ensures ColIndex(columns, sets[j].column) == i <==> j == k
    {
      OneColumn(columns, cols[j]);
    }
    assert LastTo(columns, sets, i) == k;
    OneColumn(columns, "id");
  }

  /** And into a column it does not name: nil, but again an identifier for the column id. */
  lemma InsertedElsewhere(columns: seq<string>, count: nat, cols: seq<string>, params: seq<Value>, row: Row, i: nat)
    requires Inserted(columns, count, cols, params, row) && cols != [] && i < |columns|
    requires forall j :: 0 <= j < |cols| ==> !Names(columns, cols[j], i)
    ensures |row| == |columns|
    ensures row[i] == if Names(columns, "id", i) then Val(0, "generated-id-" + Itoa(count + 1)) else Nil
  {
    var sets := Positional(cols);
    forall j | 0 <= j < |cols|
      ensures ColIndex(columns, sets[j].column) != i
    {
      OneColumn(columns, cols[j]);
    }
    assert LastTo(columns, sets, i) == -1;
    OneColumn(columns, "id");
  }

  /** Without a list of columns the parameters are the row, but for a nil identifier. */
  lemma InsertedWhole(columns: seq<string>, count: nat, params: seq<Value>, row: Row, i: nat)
    requires Inserted(columns, count, [], params, row) && i < |columns|
    ensures |params| == |row| == |columns|
    ensures row[i] == if params[i] == Nil && Names(columns, "id", i) then Val(0, "generated-id-" + Itoa(count + 1)) else params[i]
  {
    OneColumn(columns, "id");
  }

  lemma GeneratedIsNotNil(n: nat)
    ensures Shows(Val(0, "generated-id-" + Itoa(n))) != Shows(Nil)
  {
    assert ("generated-id-" + Itoa(n))[0] == 'g' && "<nil>"[0] == '<';
  }

  /**
   An INSERT of x followed by a SELECT for x: the rows that show x before, in order, and then the new row.
   It is missing only when the column is id and x is nil, for which an identifier was generated.
   */
  lemma InsertThenSelect(columns: seq<string>, rows: seq<Row>, column: string, x: Value, row: Row, i: nat)
    requires Names(columns, column, i) && Wide(rows, i) && Inserted(columns, |rows|, [column], [x], row)
    ensures var c := Condition(column, 1, false, false);
      Select(columns, rows + [row], [c], [x]) ==
        Rows(Those(columns, rows, [c], [x], true) + if x == Nil && Names(columns, "id", i) then [] else [row])
  {
    var c := Condition(column, 1, false, false);
    InsertedCell(columns, |rows|, [column], [x], row, 0, i);
    GeneratedIsNotNil(|rows| + 1);
    MeetsAt(columns, row, c, [x], i);
    SelectWithOneMore(columns, rows, row, c, [x], i);
  }

  lemma SelectWithOneMore(columns: seq<string>, rows: seq<Row>, row: Row, c: Condition, params: seq<Value>, i: nat)
    requires Names(columns, c.column, i) && Wide(rows, i) && i < |row| && (c.isNull || c.isNotNull || 1 <= c.paramIdx <= |params|)
    ensures Select(columns, rows + [row], [c], params) ==
      Rows(Those(columns, rows, [c], params, true) + if MeetsAll(columns, row, [c], params) then [row] else [])
  {
    AllAnswerableOfOne(columns, rows + [row], c, params, i);
    StatementsAnswer(columns, rows + [row], [c], params);
    ThoseOfBoth(columns, rows, [row], [c], params, true);
    assert [row][1..] == [];
  }

  /** A nil cell and the text of nil: a parameter that shows as <nil> matches a nil cell, which IS NULL tells apart. */
  lemma NilShowsAsText(columns: seq<string>, row: Row, column: string, i: nat, k: int)
    requires Names(columns, column, i) && i < |row|
    ensures var text := Val(k, "<nil>");
      && (row[i] == Nil || row[i] == text ==> MeetsAll(columns, row, [Condition(column, 1, false, false)], [text]))
      && (row[i] == Nil || row[i] == text ==> MeetsAll(columns, row, [Condition(column, 1, false, false)], [Nil]))
      && (MeetsAll(columns, row, [Condition(column, 0, true, false)], []) <==> row[i] == Nil)
      && (MeetsAll(columns, row, [Condition(column, 0, false, true)], []) <==> row[i] != Nil)
  {
    var text := Val(k, "<nil>");
    MeetsAt(columns, row, Condition(column, 1, false, false), [text], i);
    MeetsAt(columns, row, Condition(column, 1, false, false), [Nil], i);
    MeetsAt(columns, row, Condition(column, 0, true, false), [], i);
    MeetsAt(columns, row, Condition(column, 0, false, true), [], i);
  }

  // When a statement is accepted

  predicate Named(columns: seq<string>, name: string, width: nat) {
    exists i :: 0 <= i < width && Names(columns, name, i)
  }

  /** An INSERT is accepted with one parameter for each column, or one for each column it names, all of them known. */
  lemma AcceptsIff(columns: seq<string>, cols: seq<string>, params: seq<Value>)
    ensures Accepts(columns, cols, params) <==>
      if cols == [] then |params| == |columns|
      else |params| == |cols| && forall k :: 0 <= k < |cols| ==> Named(columns, cols[k], |columns|)
  {
    forall k | 0 <= k < |cols|
      ensures ColIndex(columns, cols[k]) >= 0 <==> Named(columns, cols[k], |columns|)
    {
      NamedIff(columns, cols[k], |columns|);
    }
  }

  lemma NamedIff(columns: seq<string>, name: string, width: nat)
    ensures 0 <= ColIndex(columns, name) < width <==> Named(columns, name, width)
  {
    OneColumn(columns, name);
    var i := ColIndex(columns, name);
    assert 0 <= i < width ==> Names(columns, name, i);
  }

  /** Every assignment has a cell in the row and a parameter. */
  predicate Assignments(columns: seq<string>, row: Row, sets: seq<ColParam>, params: seq<Value>) {
    forall k :: 0 <= k < |sets| ==> Named(columns, sets[k].column, |row|) && 1 <= sets[k].paramIdx <= |params|
  }

  lemma AllReachIff(columns: seq<string>, row: Row, sets: seq<ColParam>, params: seq<Value>)
    ensures AllReach(columns, |row|, sets, params) <==> Assignments(columns, row, sets, params)
  {
    forall k | 0 <= k < |sets|
      ensures Reaches(columns, |row|, sets[k], params) <==> Named(columns, sets[k].column, |row|) && 1 <= sets[k].paramIdx <= |params|
    {
      NamedIff(columns, sets[k].column, |row|);
    }
  }

  /** An UPDATE can pass a row that it can judge, and change if it is to. */
  predicate Passes(columns: seq<string>, row: Row, sets: seq<ColParam>, conditions: seq<Condition>, params: seq<Value>) {
    && !Unanswerable(columns, row, conditions, params)
    && (MeetsAll(columns, row, conditions, params) ==> Assignments(columns, row, sets, params))
  }

  /** An UPDATE succeeds exactly when it can pass every row. */
  lemma UpdateSucceedsOnCells(columns: seq<string>, rows: seq<Row>, sets: seq<ColParam>, conditions: seq<Condition>, params: seq<Value>)
    ensures UpdateRows(columns, rows, sets, conditions, params).1.Count? <==>
      forall n :: 0 <= n < |rows| ==> Passes(columns, rows[n], sets, conditions, params)
  {
    UpdateSucceedsIff(columns, rows, sets, conditions, params);
    forall n | 0 <= n < |rows|
      ensures Halts(columns, rows[n], sets, conditions, params) <==> !Passes(columns, rows[n], sets, conditions, params)
    {
      MatchesIff(columns, rows[n], conditions, params);
      AllReachIff(columns, rows[n], sets, params);
    }
  }

  /** A row that does not meet the conditions, and a column that no assignment names, stay as they were. */
  lemma UpdateLeaves(columns: seq<string>, rows: seq<Row>, sets: seq<ColParam>, conditions: seq<Condition>, params: seq<Value>, n: nat, i: nat)
    requires UpdateRows(columns, rows, sets, conditions, params).1.Count? && n < |rows|
    ensures var after := UpdateRows(columns, rows, sets, conditions, params).0;
      && |after| == |rows| && |after[n]| == |rows[n]|
      && (!MeetsAll(columns, rows[n], conditions, params) ==> after[n] == rows[n])
      && (i < |rows[n]| && (forall k :: 0 <= k < |sets| ==> !Names(columns, sets[k].column, i)) ==> after[n][i] == rows[n][i])
  {
    UpdateIsMap(columns, rows, sets, conditions, params);
    MatchesIff(columns, rows[n], conditions, params);
    if i < |columns| && forall k :: 0 <= k < |sets| ==> !Names(columns, sets[k].column, i) {
      forall k | 0 <= k < |sets|
        ensures ColIndex(columns, sets[k].column) != i
      {
        OneColumn(columns, sets[k].column);
      }
      assert LastTo(columns, sets, i) < 0;
    }
  }

  /** What follows RETURNING: the cells of the named columns, in the order they are named. */
  lemma PickedCells(columns: seq<string>, row: Row, cols: seq<string>, cells: seq<Value>, k: nat, i: nat)
    requires Picked(columns, row, cols, cells) && k < |cols| && Names(columns, cols[k], i)
    ensures |cells| == |cols| && i < |row| && cells[k] == row[i]
  {
    OneColumn(columns, cols[k]);
  }

  // Names in any case

  lemma SameNameTwice(a: string, b: string, c: string)
    requires SameName(a, b)
    ensures SameName(c, a) <==> SameName(c, b)
  {
    LowerIff(a, b);
    LowerIff(c, a);
    LowerIff(c, b);
  }

  lemma ColumnInAnyCase(columns: seq<string>, a: string, b: string)
    requires SameName(a, b)
    ensures ColIndex(columns, a) == ColIndex(columns, b)
  {
    LowerIff(a, b);
  }

  lemma {:induction false} MatchesInAnyCase(columns: seq<string>, row: Row, a: seq<Condition>, b: seq<Condition>, params: seq<Value>)
    requires SameTests(a, b)
    ensures Matches(columns, row, a, params) == Matches(columns, row, b, params)
    decreases |a|
  {
    if a != [] {
      assert SameTest(a[0], b[0]);
      ColumnInAnyCase(columns, a[0].column, b[0].column);
      MatchesInAnyCase(columns, row, a[1..], b[1..], params);
    }
  }

  lemma {:induction false} SelectInAnyCase(columns: seq<string>, rows: seq<Row>, a: seq<Condition>, b: seq<Condition>, params: seq<Value>)
    requires SameTests(a, b)
    ensures Select(columns, rows, a, params) == Select(columns, rows, b, params)
    ensures Delete(columns, rows, a, params) == Delete(columns, rows, b, params)
    decreases |rows|
  {
    if rows != [] {
      MatchesInAnyCase(columns, rows[0], a, b, params);
      SelectInAnyCase(columns, rows[1..], a, b, params);
    }
  }

  lemma AssignOneInAnyCase(columns: seq<string>, row: Row, a: ColParam, b: ColParam, params: seq<Value>)
    requires SameParam(a, b)
    ensures AssignOne(columns, row, a, params) == AssignOne(columns, row, b, params)
  {
    ColumnInAnyCase(columns, a.column, b.column);
  }

  /** One assignment after others. */
  function Then(columns: seq<string>, before: (Row, Assigned), c: ColParam, params: seq<Value>): (Row, Assigned) {
    if before.1 != Assigned.Assigned then before else AssignOne(columns, before.0, c, params)
  }

  lemma AssignLast(columns: seq<string>, row: Row, front: seq<ColParam>, c: ColParam, params: seq<Value>)
    ensures Assign(columns, row, front + [c], params) == Then(columns, Assign(columns, row, front, params), c, params)
  {
    assert (front + [c])[..|front|] == front;
  }

  lemma {:induction false} AssignInAnyCase(columns: seq<string>, row: Row, a: seq<ColParam>, b: seq<ColParam>, params: seq<Value>)
    requires SameParams(a, b)
    ensures Assign(columns, row, a, params) == Assign(columns, row, b, params)
    decreases |a|
  {
    if a != [] {
      var n := |a| - 1;
      assert a == a[..n] + [a[n]] && b == b[..n] + [b[n]];
      AssignInAnyCase(columns, row, a[..n], b[..n], params);
      AssignLast(columns, row, a[..n], a[n], params);
      AssignLast(columns, row, b[..n], b[n], params);
      AssignOneInAnyCase(columns, Assign(columns, row, a[..n], params).0, a[n], b[n], params);
    }
  }

  /** An update of rows, from what it does to the first and the update of the rest. */
  function WithFirst(first: (Row, Verdict, Assigned), rest: seq<Row>, updated: (seq<Row>, Effect)): (seq<Row>, Effect) {
    if Stops(first.1, first.2) then ([first.0] + rest, StopEffect(first.1, first.2))
    else ([first.0] + updated.0, if first.1 == Yes && updated.1.Count? then Count(updated.1.n + 1) else updated.1)
  }

  lemma UpdateFirst(columns: seq<string>, row: Row, rest: seq<Row>, sets: seq<ColParam>, tests: seq<Condition>, params: seq<Value>)
    ensures UpdateRows(columns, [row] + rest, sets, tests, params)
         == WithFirst(UpdateRow(columns, row, sets, tests, params), rest, UpdateRows(columns, rest, sets, tests, params))
  {
    var rows := [row] + rest;
    assert rows[0] == row && rows[1..] == rest;
  }

  lemma UpdateRowInAnyCase(columns: seq<string>, row: Row, sets: seq<ColParam>, sets': seq<ColParam>,
                           tests: seq<Condition>, tests': seq<Condition>, params: seq<Value>)
    requires SameParams(sets, sets') && SameTests(tests, tests')
    ensures UpdateRow(columns, row, sets, tests, params) == UpdateRow(columns, row, sets', tests', params)
  {
    MatchesInAnyCase(columns, row, tests, tests', params);
    AssignInAnyCase(columns, row, sets, sets', params);
  }

  lemma {:induction false} UpdateRowsInAnyCase(columns: seq<string>, rows: seq<Row>, sets: seq<ColParam>, sets': seq<ColParam>,
                                               tests: seq<Condition>, tests': seq<Condition>, params: seq<Value>)
    requires SameParams(sets, sets') && SameTests(tests, tests')
    ensures UpdateRows(columns, rows, sets, tests, params) == UpdateRows(columns, rows, sets', tests', params)
    decreases |rows|
  {
    if rows != [] {
      var row, rest := rows[0], rows[1..];
      assert rows == [row] + rest;
      UpdateRowInAnyCase(columns, row, sets, sets', tests, tests', params);
      UpdateRowsInAnyCase(columns, rest, sets, sets', tests, tests', params);
      UpdateFirst(columns, row, rest, sets, tests, params);
      UpdateFirst(columns, row, rest, sets', tests', params);
    }
  }
}
