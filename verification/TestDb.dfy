/** The in-memory SQL backend of the test kit: tables whose rows are updated in place. */
module TestDb {
  import opened Text
  import opened Decimal
  import opened SqlText

  /** A cell: nil, or a value of some kind with the text fmt.Sprint shows for it. */
  datatype Value = Nil | Val(kind: int, shown: string)

  type Row = seq<Value>

  function Sprint(v: Value): string {
    if v.Nil? then "<nil>" else v.shown
  }

  /** colIndex: the first column of that name, in any case. */
  function ColIndex(columns: seq<string>, col: string): (i: int)
    ensures -1 <= i < |columns|
    ensures i >= 0 ==> Lower(columns[i]) == Lower(col) && forall j :: 0 <= j < i ==> Lower(columns[j]) != Lower(col)
    ensures i < 0 ==> col == "" || forall j :: 0 <= j < |columns| ==> Lower(columns[j]) != Lower(col)
  {
    if col == "" then -1 else FirstColumn(columns, Lower(col))
  }

  function FirstColumn(columns: seq<string>, lower: string): (i: int)
    ensures -1 <= i < |columns|
    ensures i >= 0 ==> Lower(columns[i]) == lower && forall j :: 0 <= j < i ==> Lower(columns[j]) != lower
    ensures i < 0 ==> forall j :: 0 <= j < |columns| ==> Lower(columns[j]) != lower
  {
    if columns == [] then -1
    else if Lower(columns[0]) == lower then 0
    else
      var i := FirstColumn(columns[1..], lower);
      if i < 0 then -1 else i + 1
  }

  // What one row does

  datatype Verdict = Yes | No | Error

  function Holds(columns: seq<string>, row: Row, c: Condition, params: seq<Value>): Verdict {
    var i := ColIndex(columns, c.column);
    if i < 0 || i >= |row| then Error
    else if c.isNull then if row[i] == Nil then Yes else No
    else if c.isNotNull then if row[i] == Nil then No else Yes
    else if c.paramIdx <= 0 || c.paramIdx > |params| then Error
    else if Sprint(row[i]) == Sprint(params[c.paramIdx - 1]) then Yes
    else No
  }

  /** matchesConditions: the first condition that does not hold decides. */
  function Matches(columns: seq<string>, row: Row, conditions: seq<Condition>, params: seq<Value>): Verdict {
    if conditions == [] then Yes
    else
      var first := Holds(columns, row, conditions[0], params);
      if first == Yes then Matches(columns, row, conditions[1..], params) else first
  }

  lemma MatchesStep(columns: seq<string>, row: Row, conditions: seq<Condition>, params: seq<Value>, k: nat)
    requires k < |conditions|
    ensures var first := Holds(columns, row, conditions[k], params);
      Matches(columns, row, conditions[k..], params) == if first == Yes then Matches(columns, row, conditions[k + 1..], params) else first
  {
    assert conditions[k..][0] == conditions[k] && conditions[k..][1..] == conditions[k + 1..];
  }

  method MatchesConditions(columns: seq<string>, row: array<Value>, conditions: seq<Condition>, params: seq<Value>)
    returns (r: Verdict)
    ensures r == Matches(columns, row[..], conditions, params)
  {
    ghost var cells := row[..];
    assert conditions[0..] == conditions;
    for k := 0 to |conditions|
      invariant Matches(columns, cells, conditions, params) == Matches(columns, cells, conditions[k..], params)
    {
      MatchesStep(columns, cells, conditions, params, k);
      var c := conditions[k];
      var i := ColIndex(columns, c.column);
      if i < 0 || i >= row.Length {
        return Error;
      }
      if c.isNull {
        if row[i] != Nil {
          return No;
        }
        continue;
      }
      if c.isNotNull {
        if row[i] == Nil {
          return No;
        }
        continue;
      }
      if c.paramIdx <= 0 || c.paramIdx > |params| {
        return Error;
      }
      if Sprint(row[i]) != Sprint(params[c.paramIdx - 1]) {
        return No;
      }
    }
    return Yes;
  }

  datatype Assigned = Assigned | NoSuchColumn | BadParam

  /** One assignment to one row. */
  function AssignOne(columns: seq<string>, row: Row, c: ColParam, params: seq<Value>): (Row, Assigned) {
    var i := ColIndex(columns, c.column);
    if i < 0 || i >= |row| then (row, NoSuchColumn)
    else if !(1 <= c.paramIdx <= |params|) then (row, BadParam)
    else (row[i := params[c.paramIdx - 1]], Assigned)
  }

  /** The assignments of an UPDATE to one row, in order, up to the first that fails. */
  function Assign(columns: seq<string>, row: Row, sets: seq<ColParam>, params: seq<Value>): (Row, Assigned) {
    if sets == [] then (row, Assigned)
    else
      var before := Assign(columns, row, sets[..|sets| - 1], params);
      if before.1 != Assigned.Assigned then before else AssignOne(columns, before.0, sets[|sets| - 1], params)
  }

  /** What failed stays failed. */
  lemma {:induction false} AssignStops(columns: seq<string>, row: Row, sets: seq<ColParam>, params: seq<Value>, k: nat)
    requires k <= |sets| && Assign(columns, row, sets[..k], params).1 != Assigned.Assigned
    ensures Assign(columns, row, sets, params) == Assign(columns, row, sets[..k], params)
  {
    if k == |sets| {
      assert sets[..k] == sets;
    } else {
      assert sets[..|sets| - 1][..k] == sets[..k];
      AssignStops(columns, row, sets[..|sets| - 1], params, k);
    }
  }

  lemma AssignNext(columns: seq<string>, row: Row, sets: seq<ColParam>, params: seq<Value>, k: nat, r: Row)
    requires k < |sets| && Assign(columns, row, sets[..k], params) == (r, Assigned.Assigned)
    ensures Assign(columns, row, sets[..k + 1], params) == AssignOne(columns, r, sets[k], params)
  {
    assert sets[..k + 1][..k] == sets[..k];
  }

  method AssignRow(columns: seq<string>, row: array<Value>, sets: seq<ColParam>, params: seq<Value>) returns (r: Assigned)
    modifies row
    ensures (row[..], r) == Assign(columns, old(row[..]), sets, params)
  {
    for k := 0 to |sets|
      invariant Assign(columns, old(row[..]), sets[..k], params) == (row[..], Assigned.Assigned)
    {
      AssignNext(columns, old(row[..]), sets, params, k, row[..]);
      var i := ColIndex(columns, sets[k].column);
      if i < 0 || i >= row.Length {
        AssignStops(columns, old(row[..]), sets, params, k + 1);
        return NoSuchColumn;
      }
      if !(1 <= sets[k].paramIdx <= |params|) {
        AssignStops(columns, old(row[..]), sets, params, k + 1);
        return BadParam;
      }
      ghost var before := row[..];
      row[i] := params[sets[k].paramIdx - 1];
      assert row[..] == before[i := params[sets[k].paramIdx - 1]];
    }
    assert sets[..|sets|] == sets;
    return Assigned.Assigned;
  }

  /** The last assignment to column i, or -1. */
  function LastTo(columns: seq<string>, sets: seq<ColParam>, i: int): (k: int)
    ensures -1 <= k < |sets|
    ensures k >= 0 ==> ColIndex(columns, sets[k].column) == i
    ensures forall j :: k < j < |sets| ==> ColIndex(columns, sets[j].column) != i
  {
    if sets == [] then -1
    else if ColIndex(columns, sets[|sets| - 1].column) == i then |sets| - 1
    else LastTo(columns, sets[..|sets| - 1], i)
  }

  /** What a row must become: every assigned column gets its last assignment, every other cell stays. */
  ghost predicate Overwritten(columns: seq<string>, row: Row, sets: seq<ColParam>, params: seq<Value>, r: Row) {
    && |r| == |row|
    && forall i :: 0 <= i < |row| ==>
      var k := LastTo(columns, sets, i);
      if k < 0 then r[i] == row[i] else 1 <= sets[k].paramIdx <= |params| && r[i] == params[sets[k].paramIdx - 1]
  }

  lemma OverwrittenOneMore(columns: seq<string>, row: Row, sets: seq<ColParam>, params: seq<Value>, r: Row)
    requires sets != [] && Overwritten(columns, row, sets[..|sets| - 1], params, r)
    requires var last := sets[|sets| - 1]; 0 <= ColIndex(columns, last.column) < |row| && 1 <= last.paramIdx <= |params|
    ensures var last := sets[|sets| - 1];
      Overwritten(columns, row, sets, params, r[ColIndex(columns, last.column) := params[last.paramIdx - 1]])
  {
  }

  lemma {:induction false} AssignKeepsLength(columns: seq<string>, row: Row, sets: seq<ColParam>, params: seq<Value>)
    ensures |Assign(columns, row, sets, params).0| == |row|
  {
    if sets != [] {
      AssignKeepsLength(columns, row, sets[..|sets| - 1], params);
    }
  }

  /** When all assignments succeed the row is overwritten, last assignment winning. */
  lemma {:induction false} AssignOverwrites(columns: seq<string>, row: Row, sets: seq<ColParam>, params: seq<Value>)
    requires Assign(columns, row, sets, params).1 == Assigned.Assigned
    ensures Overwritten(columns, row, sets, params, Assign(columns, row, sets, params).0)
  {
    if sets != [] {
      var front := sets[..|sets| - 1];
      AssignOverwrites(columns, row, front, params);
      OverwrittenOneMore(columns, row, sets, params, Assign(columns, row, front, params).0);
    }
  }

  // What a statement does to the rows of a table

  datatype Selection = Rows(rows: seq<Row>) | SelectFailed

  function Select(columns: seq<string>, rows: seq<Row>, conditions: seq<Condition>, params: seq<Value>): Selection {
    if rows == [] then Rows([])
    else
      match Matches(columns, rows[0], conditions, params)
      case Error => SelectFailed
      case No => Select(columns, rows[1..], conditions, params)
      case Yes =>
        var rest := Select(columns, rows[1..], conditions, params);
        if rest.Rows? then Rows([rows[0]] + rest.rows) else SelectFailed
  }

  datatype Effect = Count(n: nat) | MatchFailed | ColumnMissing | ParamPanic

  /** DELETE: the rows that stay and the number that go; a failure keeps them all. */
  function Delete(columns: seq<string>, rows: seq<Row>, conditions: seq<Condition>, params: seq<Value>): (seq<Row>, Effect) {
    if rows == [] then ([], Count(0))
    else
      var (kept, e) := Delete(columns, rows[1..], conditions, params);
      match Matches(columns, rows[0], conditions, params)
      case Error => (rows, MatchFailed)
      case No => (if e.Count? then [rows[0]] + kept else rows, e)
      case Yes => (if e.Count? then kept else rows, if e.Count? then Count(e.n + 1) else e)
  }

  /** UPDATE: row after row, so a failure keeps what was done before it. */
  function UpdateRows(columns: seq<string>, rows: seq<Row>, sets: seq<ColParam>, conditions: seq<Condition>, params: seq<Value>)
    : (seq<Row>, Effect)
  {
    if rows == [] then ([], Count(0))
    else
      match Matches(columns, rows[0], conditions, params)
      case Error => (rows, MatchFailed)
      case No =>
        var (rest, e) := UpdateRows(columns, rows[1..], sets, conditions, params);
        ([rows[0]] + rest, e)
      case Yes =>
        var (row, a) := Assign(columns, rows[0], sets, params);
        match a
        case NoSuchColumn => ([row] + rows[1..], ColumnMissing)
        case BadParam => ([row] + rows[1..], ParamPanic)
        case Assigned =>
          var (rest, e) := UpdateRows(columns, rows[1..], sets, conditions, params);
          ([row] + rest, if e.Count? then Count(e.n + 1) else e)
  }

  /** How many of the rows match. */
  function Matching(columns: seq<string>, rows: seq<Row>, conditions: seq<Condition>, params: seq<Value>): nat {
    if rows == [] then 0
    else (if Matches(columns, rows[0], conditions, params) == Yes then 1 else 0) + Matching(columns, rows[1..], conditions, params)
  }

  /** What a successful UPDATE does to one row. */
  ghost predicate Updated(columns: seq<string>, row: Row, sets: seq<ColParam>, conditions: seq<Condition>, params: seq<Value>, r: Row) {
    match Matches(columns, row, conditions, params)
    case Yes => Overwritten(columns, row, sets, params, r)
    case No => r == row
    case Error => false
  }

  /**
   A successful UPDATE is a map over the rows: matching rows are overwritten, others stay, length and
   order are kept, and the count is the number of rows that matched beforehand.
   */
  lemma {:induction false} UpdateIsMap(columns: seq<string>, rows: seq<Row>, sets: seq<ColParam>, conditions: seq<Condition>, params: seq<Value>)
    ensures var (after, e) := UpdateRows(columns, rows, sets, conditions, params);
      && |after| == |rows|
      && (e.Count? ==>
           && e.n == Matching(columns, rows, conditions, params)
           && forall i :: 0 <= i < |rows| ==> Updated(columns, rows[i], sets, conditions, params, after[i]))
  {
    if rows != [] {
      if Assign(columns, rows[0], sets, params).1 == Assigned.Assigned {
        AssignOverwrites(columns, rows[0], sets, params);
      }
      UpdateIsMap(columns, rows[1..], sets, conditions, params);
      var after := UpdateRows(columns, rows, sets, conditions, params).0;
      var rest := UpdateRows(columns, rows[1..], sets, conditions, params).0;
      assert forall i :: 0 < i < |rows| ==> rows[i] == rows[1..][i - 1];
      if after[1..] == rest {
        assert forall i :: 0 < i < |rows| ==> after[i] == rest[i - 1];
      }
    }
  }

  // Where an UPDATE stops, told before it is made

  /** An assignment that a row of this width has a cell for, with a parameter that there is. */
  predicate Reaches(columns: seq<string>, width: nat, c: ColParam, params: seq<Value>) {
    0 <= ColIndex(columns, c.column) < width && 1 <= c.paramIdx <= |params|
  }

  predicate AllReach(columns: seq<string>, width: nat, sets: seq<ColParam>, params: seq<Value>) {
    forall k :: 0 <= k < |sets| ==> Reaches(columns, width, sets[k], params)
  }

  /** The assignments before the first that does not reach. */
  function Reaching(columns: seq<string>, width: nat, sets: seq<ColParam>, params: seq<Value>): (good: seq<ColParam>)
    ensures good <= sets && AllReach(columns, width, good, params)
    ensures |good| < |sets| ==> !Reaches(columns, width, sets[|good|], params)
  {
    if sets == [] then []
    else
      var good := Reaching(columns, width, sets[..|sets| - 1], params);
      if |good| == |sets| - 1 && Reaches(columns, width, sets[|sets| - 1], params) then sets else good
  }

  /** The assignments to a row succeed exactly when they reach. */
  lemma {:induction false} AssignSucceedsIff(columns: seq<string>, row: Row, sets: seq<ColParam>, params: seq<Value>)
    ensures Assign(columns, row, sets, params).1 == Assigned.Assigned <==> AllReach(columns, |row|, sets, params)
  {
    if sets != [] {
      var front := sets[..|sets| - 1];
      AssignSucceedsIff(columns, row, front, params);
      AssignKeepsLength(columns, row, front, params);
      assert forall k :: 0 <= k < |front| ==> sets[k] == front[k];
    }
  }

  /** And when they do not, those before the first that does not reach have been made. */
  lemma AssignUpToReaching(columns: seq<string>, row: Row, sets: seq<ColParam>, params: seq<Value>)
    ensures var good := Reaching(columns, |row|, sets, params);
      Assign(columns, row, good, params) == (Assign(columns, row, sets, params).0, Assigned.Assigned)
  {
    var good := Reaching(columns, |row|, sets, params);
    AssignSucceedsIff(columns, row, good, params);
    if |good| < |sets| {
      var r := Assign(columns, row, good, params).0;
      AssignKeepsLength(columns, row, good, params);
      assert sets[..|good|] == good;
      AssignNext(columns, row, sets, params, |good|, r);
      AssignStops(columns, row, sets, params, |good| + 1);
    }
  }

  /** The assignments leave a row as it is: every column they assign already has its last value. */
  ghost predicate Keeps(columns: seq<string>, row: Row, good: seq<ColParam>, params: seq<Value>) {
    forall i :: 0 <= i < |row| ==>
      var k := LastTo(columns, good, i);
      k < 0 || (1 <= good[k].paramIdx <= |params| && row[i] == params[good[k].paramIdx - 1])
  }

  lemma KeepsIff(columns: seq<string>, row: Row, good: seq<ColParam>, params: seq<Value>)
    requires Assign(columns, row, good, params).1 == Assigned.Assigned
    ensures Assign(columns, row, good, params).0 == row <==> Keeps(columns, row, good, params)
  {
    AssignOverwrites(columns, row, good, params);
  }

  /** A row no UPDATE gets past: its WHERE clause is an error, or it matches and an assignment does not reach. */
  predicate Halts(columns: seq<string>, row: Row, sets: seq<ColParam>, conditions: seq<Condition>, params: seq<Value>) {
    match Matches(columns, row, conditions, params)
    case Error => true
    case No => false
    case Yes => !AllReach(columns, |row|, sets, params)
  }

  /** The first row that halts the UPDATE, or the number of rows. */
  function StopRow(columns: seq<string>, rows: seq<Row>, sets: seq<ColParam>, conditions: seq<Condition>, params: seq<Value>): (at: nat)
    ensures at <= |rows| && (at < |rows| ==> Halts(columns, rows[at], sets, conditions, params))
    ensures forall i :: 0 <= i < at ==> !Halts(columns, rows[i], sets, conditions, params)
  {
    if rows == [] || Halts(columns, rows[0], sets, conditions, params) then 0
    else 1 + StopRow(columns, rows[1..], sets, conditions, params)
  }

  /** A row once the UPDATE has worked on it: the assignments that reach have been made to it if it matches. */
  function Worked(columns: seq<string>, row: Row, sets: seq<ColParam>, conditions: seq<Condition>, params: seq<Value>): Row {
    if Matches(columns, row, conditions, params) == Yes then Assign(columns, row, Reaching(columns, |row|, sets, params), params).0
    else row
  }

  lemma UpdateUnfolds(columns: seq<string>, rows: seq<Row>, sets: seq<ColParam>, conditions: seq<Condition>, params: seq<Value>)
    requires rows != []
    ensures var (after, e) := UpdateRows(columns, rows, sets, conditions, params);
      var (rest, f) := UpdateRows(columns, rows[1..], sets, conditions, params);
      var first := Worked(columns, rows[0], sets, conditions, params);
      if Halts(columns, rows[0], sets, conditions, params) then
        after == [first] + rows[1..] && e == HaltEffect(columns, rows[0], sets, conditions, params)
      else after == [first] + rest && (e.Count? <==> f.Count?) && (!e.Count? ==> e == f)
  {
    AssignUpToReaching(columns, rows[0], sets, params);
    AssignSucceedsIff(columns, rows[0], sets, params);
    assert rows == [rows[0]] + rows[1..];
  }

  /** What an UPDATE reports of the row that halts it. */
  function HaltEffect(columns: seq<string>, row: Row, sets: seq<ColParam>, conditions: seq<Condition>, params: seq<Value>): Effect {
    StopEffect(Matches(columns, row, conditions, params), Assign(columns, row, sets, params).1)
  }

  /**
   Every UPDATE of every table: it works on the rows up to the first that halts it, that one included, and
   on no other; it succeeds exactly when no row halts it.
   */
  lemma {:induction false} UpdateWorksUpTo(columns: seq<string>, rows: seq<Row>, sets: seq<ColParam>, conditions: seq<Condition>, params: seq<Value>)
    ensures var (after, e) := UpdateRows(columns, rows, sets, conditions, params);
      var at := StopRow(columns, rows, sets, conditions, params);
      && |after| == |rows|
      && (e.Count? <==> at == |rows|)
      && (at < |rows| ==> e == HaltEffect(columns, rows[at], sets, conditions, params))
      && (forall i :: 0 <= i < |rows| ==> after[i] == if i <= at then Worked(columns, rows[i], sets, conditions, params) else rows[i])
  {
    if rows != [] {
      UpdateUnfolds(columns, rows, sets, conditions, params);
      var after := UpdateRows(columns, rows, sets, conditions, params).0;
      if Halts(columns, rows[0], sets, conditions, params) {
        assert forall i :: 0 < i < |rows| ==> after[i] == rows[i];
      } else {
        UpdateWorksUpTo(columns, rows[1..], sets, conditions, params);
        var rest := UpdateRows(columns, rows[1..], sets, conditions, params).0;
        assert forall i :: 0 < i < |rows| ==> rows[i] == rows[1..][i - 1] && after[i] == rest[i - 1];
      }
    }
  }

  lemma UpdateSucceedsIff(columns: seq<string>, rows: seq<Row>, sets: seq<ColParam>, conditions: seq<Condition>, params: seq<Value>)
    ensures UpdateRows(columns, rows, sets, conditions, params).1.Count? <==> StopRow(columns, rows, sets, conditions, params) == |rows|
  {
    UpdateWorksUpTo(columns, rows, sets, conditions, params);
  }

  /** What an UPDATE does to the rows before some row that it reaches does not depend on the rows after. */
  lemma UpdateOfPrefix(columns: seq<string>, rows: seq<Row>, sets: seq<ColParam>, conditions: seq<Condition>, params: seq<Value>)
    ensures var at := StopRow(columns, rows, sets, conditions, params);
      var (front, e) := UpdateRows(columns, rows[..at], sets, conditions, params);
      && e.Count? && |front| == at
      && forall i :: 0 <= i < at ==> front[i] == Worked(columns, rows[i], sets, conditions, params)
  {
    var at := StopRow(columns, rows, sets, conditions, params);
    UpdateWorksUpTo(columns, rows[..at], sets, conditions, params);
    StopRowOfPrefix(columns, rows, sets, conditions, params);
    assert forall i :: 0 <= i < at ==> rows[..at][i] == rows[i];
  }

  lemma StopRowOfPrefix(columns: seq<string>, rows: seq<Row>, sets: seq<ColParam>, conditions: seq<Condition>, params: seq<Value>)
    ensures var at := StopRow(columns, rows, sets, conditions, params);
      StopRow(columns, rows[..at], sets, conditions, params) == at
  {
    var at := StopRow(columns, rows, sets, conditions, params);
    assert forall i :: 0 <= i < at ==> rows[..at][i] == rows[i];
  }

  /**
   A failed UPDATE stops at one row: the rows before it are updated as by a success, the rows after it
   are untouched. In particular it is not undone.
   */
  lemma FailedUpdateStops(columns: seq<string>, rows: seq<Row>, sets: seq<ColParam>, conditions: seq<Condition>, params: seq<Value>)
    requires !UpdateRows(columns, rows, sets, conditions, params).1.Count?
    ensures var (after, e) := UpdateRows(columns, rows, sets, conditions, params);
      var at := StopRow(columns, rows, sets, conditions, params);
      && at < |rows| == |after|
      && UpdateRows(columns, rows[..at], sets, conditions, params).1.Count?
      && after[..at] == UpdateRows(columns, rows[..at], sets, conditions, params).0
      && after[at + 1..] == rows[at + 1..]
      && after[at] == Worked(columns, rows[at], sets, conditions, params)
      && e == HaltEffect(columns, rows[at], sets, conditions, params)
  {
    var at := StopRow(columns, rows, sets, conditions, params);
    UpdateWorksUpTo(columns, rows, sets, conditions, params);
    UpdateOfPrefix(columns, rows, sets, conditions, params);
    var after := UpdateRows(columns, rows, sets, conditions, params).0;
    SameRowsIff(after[..at], UpdateRows(columns, rows[..at], sets, conditions, params).0);
    SameRowsIff(after[at + 1..], rows[at + 1..]);
  }

  /**
   An UPDATE that fails has changed nothing exactly when every matching row, up to the one that halts it,
   already has the values of the assignments that reach it. For every table, ragged or not.
   */
  lemma FailedUpdateIsAtomicIff(columns: seq<string>, rows: seq<Row>, sets: seq<ColParam>, conditions: seq<Condition>, params: seq<Value>)
    requires !UpdateRows(columns, rows, sets, conditions, params).1.Count?
    ensures UpdateRows(columns, rows, sets, conditions, params).0 == rows <==>
      forall i :: 0 <= i < |rows| && i <= StopRow(columns, rows, sets, conditions, params) && Matches(columns, rows[i], conditions, params) == Yes ==>
        Keeps(columns, rows[i], Reaching(columns, |rows[i]|, sets, params), params)
  {
    var after := UpdateRows(columns, rows, sets, conditions, params).0;
    UpdateWorksUpTo(columns, rows, sets, conditions, params);
    forall i | 0 <= i < |rows| && Matches(columns, rows[i], conditions, params) == Yes
      ensures Worked(columns, rows[i], sets, conditions, params) == rows[i] <==> Keeps(columns, rows[i], Reaching(columns, |rows[i]|, sets, params), params)
    {
      AssignUpToReaching(columns, rows[i], sets, params);
      KeepsIff(columns, rows[i], Reaching(columns, |rows[i]|, sets, params), params);
    }
    SameRowsIff(after, rows);
  }

  lemma SameRowsIff(a: seq<Row>, b: seq<Row>)
    requires |a| == |b|
    ensures a == b <==> forall i :: 0 <= i < |b| ==> a[i] == b[i]
  {
  }

  // Tables without ragged rows

  ghost predicate Regular(columns: seq<string>, rows: seq<Row>) {
    forall i :: 0 <= i < |rows| ==> |rows[i]| == |columns|
  }

  predicate Sound(columns: seq<string>, c: Condition, params: seq<Value>) {
    ColIndex(columns, c.column) >= 0 && (c.isNull || c.isNotNull || 1 <= c.paramIdx <= |params|)
  }

  lemma {:induction false} SoundNeverErr(columns: seq<string>, row: Row, conditions: seq<Condition>, params: seq<Value>)
    requires |row| == |columns|
    ensures Matches(columns, row, conditions, params) == Yes ==> forall k :: 0 <= k < |conditions| ==> Sound(columns, conditions[k], params)
    ensures (forall k :: 0 <= k < |conditions| ==> Sound(columns, conditions[k], params)) ==> Matches(columns, row, conditions, params) != Error
  {
    if conditions != [] {
      SoundNeverErr(columns, row, conditions[1..], params);
      assert forall k :: 0 < k < |conditions| ==> conditions[k] == conditions[1..][k - 1];
    }
  }

  /** If one row of a regular table matches, no row is an error. */
  lemma MatchMeansNoError(columns: seq<string>, a: Row, b: Row, conditions: seq<Condition>, params: seq<Value>)
    requires |a| == |b| == |columns| && Matches(columns, a, conditions, params) == Yes
    ensures Matches(columns, b, conditions, params) != Error
  {
    SoundNeverErr(columns, a, conditions, params);
    SoundNeverErr(columns, b, conditions, params);
  }

  /** The first row that matches, or -1. */
  function FirstMatch(columns: seq<string>, rows: seq<Row>, conditions: seq<Condition>, params: seq<Value>): (i: int)
    ensures -1 <= i < |rows|
    ensures i >= 0 ==> Matches(columns, rows[i], conditions, params) == Yes
    ensures forall k :: 0 <= k < (if i < 0 then |rows| else i) ==> Matches(columns, rows[k], conditions, params) != Yes
  {
    if rows == [] then -1
    else if Matches(columns, rows[0], conditions, params) == Yes then 0
    else
      var i := FirstMatch(columns, rows[1..], conditions, params);
      if i < 0 then -1 else i + 1
  }

  /** What halts an UPDATE of a regular table: without a match a WHERE error, otherwise the first match. */
  lemma RegularStop(columns: seq<string>, rows: seq<Row>, sets: seq<ColParam>, conditions: seq<Condition>, params: seq<Value>)
    requires Regular(columns, rows) && StopRow(columns, rows, sets, conditions, params) < |rows|
    ensures var at, first := StopRow(columns, rows, sets, conditions, params), FirstMatch(columns, rows, conditions, params);
      if first < 0 then Matches(columns, rows[at], conditions, params) == Error
      else at == first && !AllReach(columns, |columns|, sets, params)
  {
    var at, first := StopRow(columns, rows, sets, conditions, params), FirstMatch(columns, rows, conditions, params);
    if first >= 0 {
      MatchMeansNoError(columns, rows[first], rows[at], conditions, params);
      assert Halts(columns, rows[at], sets, conditions, params) && Halts(columns, rows[first], sets, conditions, params);
    }
  }

  /**
   A failed UPDATE of a regular table is one of two. If no row matches it has changed nothing. Otherwise an
   assignment does not reach, and the assignments before that one have been made to the first matching row.
   */
  lemma FailedUpdateOfRegular(columns: seq<string>, rows: seq<Row>, sets: seq<ColParam>, conditions: seq<Condition>, params: seq<Value>)
    requires Regular(columns, rows) && !UpdateRows(columns, rows, sets, conditions, params).1.Count?
    ensures var first := FirstMatch(columns, rows, conditions, params);
      var (after, e) := UpdateRows(columns, rows, sets, conditions, params);
      if first < 0 then after == rows && e == MatchFailed
      else
        && !AllReach(columns, |columns|, sets, params) && (e == ColumnMissing || e == ParamPanic)
        && after == rows[first := Assign(columns, rows[first], Reaching(columns, |columns|, sets, params), params).0]
  {
    UpdateWorksUpTo(columns, rows, sets, conditions, params);
    RegularStop(columns, rows, sets, conditions, params);
    var first, after := FirstMatch(columns, rows, conditions, params), UpdateRows(columns, rows, sets, conditions, params).0;
    if first < 0 {
      SameRowsIff(after, rows);
    } else {
      SameRowsIff(after, rows[first := Assign(columns, rows[first], Reaching(columns, |columns|, sets, params), params).0]);
    }
  }

  /** So an UPDATE of a regular table is atomic whenever its assignments reach. */
  lemma ReachingUpdateIsAtomic(columns: seq<string>, rows: seq<Row>, sets: seq<ColParam>, conditions: seq<Condition>, params: seq<Value>)
    requires Regular(columns, rows) && AllReach(columns, |columns|, sets, params)
    requires !UpdateRows(columns, rows, sets, conditions, params).1.Count?
    ensures UpdateRows(columns, rows, sets, conditions, params) == (rows, MatchFailed)
  {
    FailedUpdateOfRegular(columns, rows, sets, conditions, params);
  }

  /** And one that fails is atomic exactly when no row matches, or the first that does has those values already. */
  lemma RegularUpdateIsAtomicIff(columns: seq<string>, rows: seq<Row>, sets: seq<ColParam>, conditions: seq<Condition>, params: seq<Value>)
    requires Regular(columns, rows) && !UpdateRows(columns, rows, sets, conditions, params).1.Count?
    ensures var first := FirstMatch(columns, rows, conditions, params);
      UpdateRows(columns, rows, sets, conditions, params).0 == rows <==>
        first < 0 || Keeps(columns, rows[first], Reaching(columns, |columns|, sets, params), params)
  {
    UpdateSucceedsIff(columns, rows, sets, conditions, params);
    RegularStop(columns, rows, sets, conditions, params);
    FailedUpdateIsAtomicIff(columns, rows, sets, conditions, params);
    var at, first := StopRow(columns, rows, sets, conditions, params), FirstMatch(columns, rows, conditions, params);
    assert forall i :: 0 <= i <= at && i != first && at < |rows| ==> Matches(columns, rows[i], conditions, params) != Yes;
  }

  // Two UPDATEs that fail and have changed a row

  /**
   Every assignment reaches, but the second row has no cell for the WHERE clause: the statement fails there,
   and the first row has already changed.
   */
  lemma RaggedUpdateChangesARow(x: Value, y: Value)
    ensures UpdateRows(["a", "b"], [[x, Nil], [x]], [ColParam("a", 1)], [Condition("b", 0, true, false)], [y])
         == ([[y, Nil], [x]], MatchFailed)
  {
    var columns, sets, conditions, params := ["a", "b"], [ColParam("a", 1)], [Condition("b", 0, true, false)], [y];
    assert Lower("a") == "a" && Lower("b") == "b" && columns[1..] == ["b"];
    assert ColIndex(columns, "a") == 0 && ColIndex(columns, "b") == 1;
    assert conditions[1..] == [];
    assert Holds(columns, [x, Nil], conditions[0], params) == Yes && Holds(columns, [x], conditions[0], params) == Error;
    assert Matches(columns, [x, Nil], conditions, params) == Yes && Matches(columns, [x], conditions, params) == Error;
    assert sets[..0] == [] && [x, Nil][0 := y] == [y, Nil];
    assert Assign(columns, [x, Nil], sets, params) == ([y, Nil], Assigned.Assigned);
    var rows := [[x, Nil], [x]];
    assert rows[1..] == [[x]] && [[y, Nil]] + [[x]] == [[y, Nil], [x]];
    assert UpdateRows(columns, rows[1..], sets, conditions, params) == ([[x]], MatchFailed);
    assert UpdateRows(columns, rows, sets, conditions, params) == ([[y, Nil]] + [[x]], MatchFailed);
  }

  /** SET a = $1, nosuch = $2: the statement fails, and the first row has already changed. */
  lemma FailedUpdateChangesARow(x: Value, y: Value, z: Value)
    requires x != Nil
    ensures UpdateRows(["a"], [[x]], [ColParam("a", 1), ColParam("nosuch", 2)], [Condition("a", 0, false, true)], [y, z])
         == ([[y]], ColumnMissing)
  {
    var sets, conditions, params := [ColParam("a", 1), ColParam("nosuch", 2)], [Condition("a", 0, false, true)], [y, z];
    assert Lower("a") == "a" && Lower("nosuch")[0] == 'n';
    assert ColIndex(["a"], "a") == 0 && ColIndex(["a"], "nosuch") == -1;
    assert conditions[1..] == [] && Holds(["a"], [x], conditions[0], params) == Yes;
    assert Matches(["a"], [x], conditions, params) == Yes;
    assert sets[..1] == [sets[0]] && sets[..1][..0] == [] && [x][0 := y] == [y];
    assert Assign(["a"], [x], sets[..1], params) == ([y], Assigned.Assigned);
    assert Assign(["a"], [x], sets, params) == ([y], NoSuchColumn);
    var rows := [[x]];
    assert rows[1..] == [] && [[y]] + rows[1..] == [[y]];
    assert UpdateRows(["a"], rows, sets, conditions, params) == ([[y]], ColumnMissing);
  }

  /** SELECT, DELETE and the count agree on when a WHERE clause can be evaluated and on how many rows match. */
  lemma {:induction false} SelectAgrees(columns: seq<string>, rows: seq<Row>, conditions: seq<Condition>, params: seq<Value>)
    ensures var s, (kept, e) := Select(columns, rows, conditions, params), Delete(columns, rows, conditions, params);
      && (s.Rows? <==> e.Count?)
      && (e.Count? ==> |s.rows| == e.n == Matching(columns, rows, conditions, params) && e.n + |kept| == |rows|)
      && (!e.Count? ==> e == MatchFailed && kept == rows)
      && (e.Count? ==> Select(columns, kept, conditions, params) == Rows([]))
  {
    if rows != [] {
      SelectAgrees(columns, rows[1..], conditions, params);
      var kept, rest := Delete(columns, rows, conditions, params).0, Delete(columns, rows[1..], conditions, params).0;
      if Matches(columns, rows[0], conditions, params) == No && Delete(columns, rows, conditions, params).1.Count? {
        assert kept[1..] == rest;
      }
    }
  }

  /** Exactly the rows that match, in order, when nothing fails. */
  ghost predicate Sifted(columns: seq<string>, rows: seq<Row>, conditions: seq<Condition>, params: seq<Value>, wanted: Verdict, r: seq<Row>) {
    if rows == [] then r == []
    else if Matches(columns, rows[0], conditions, params) == wanted then
      r != [] && r[0] == rows[0] && Sifted(columns, rows[1..], conditions, params, wanted, r[1..])
    else Sifted(columns, rows[1..], conditions, params, wanted, r)
  }

  /** A successful DELETE keeps exactly the rows that do not match, in order; SELECT returns exactly those that do. */
  lemma {:induction false} DeleteSifts(columns: seq<string>, rows: seq<Row>, conditions: seq<Condition>, params: seq<Value>)
    requires Delete(columns, rows, conditions, params).1.Count?
    ensures Sifted(columns, rows, conditions, params, No, Delete(columns, rows, conditions, params).0)
    ensures var s := Select(columns, rows, conditions, params);
      s.Rows? && Sifted(columns, rows, conditions, params, Yes, s.rows)
  {
    SelectAgrees(columns, rows, conditions, params);
    if rows != [] {
      SelectAgrees(columns, rows[1..], conditions, params);
      DeleteSifts(columns, rows[1..], conditions, params);
      var kept, rest := Delete(columns, rows, conditions, params).0, Delete(columns, rows[1..], conditions, params).0;
      var got, more := Select(columns, rows, conditions, params).rows, Select(columns, rows[1..], conditions, params).rows;
      if Matches(columns, rows[0], conditions, params) == No {
        assert kept[1..] == rest;
      } else {
        assert got[1..] == more;
      }
    }
  }

  // The row an INSERT adds

  /** The columns an INSERT names, with the parameter each is given. */
  function Positional(cols: seq<string>): (sets: seq<ColParam>)
    ensures |sets| == |cols| && forall k :: 0 <= k < |cols| ==> sets[k] == ColParam(cols[k], k + 1)
  {
    seq(|cols|, k requires 0 <= k < |cols| => ColParam(cols[k], k + 1))
  }

  /** What an INSERT demands of its parameters: one for each column, or one for each column it names. */
  predicate Accepts(columns: seq<string>, cols: seq<string>, params: seq<Value>) {
    if cols == [] then |params| == |columns|
    else |params| == |cols| && forall k :: 0 <= k < |cols| ==> ColIndex(columns, cols[k]) >= 0
  }

  /** The cell an INSERT gives for column i: the last parameter named for it, or nil. */
  function Given(columns: seq<string>, cols: seq<string>, params: seq<Value>, i: nat): Value
    requires i < |columns| && Accepts(columns, cols, params)
  {
    if cols == [] then params[i]
    else
      var k := LastTo(columns, Positional(cols), i);
      if k < 0 then Nil else params[k]
  }

  /** The added row: the given cells, and an identifier where a column id is given none. */
  ghost predicate Inserted(columns: seq<string>, count: nat, cols: seq<string>, params: seq<Value>, row: Row) {
    && Accepts(columns, cols, params) && |row| == |columns|
    && forall i :: 0 <= i < |columns| ==>
      var given := Given(columns, cols, params, i);
      row[i] == if i == ColIndex(columns, "id") && given == Nil then Val(0, "generated-id-" + Itoa(count + 1)) else given
  }

  ghost predicate AllGiven(columns: seq<string>, cols: seq<string>, params: seq<Value>, row: Row) {
    Accepts(columns, cols, params) && |row| == |columns| && forall i :: 0 <= i < |row| ==> row[i] == Given(columns, cols, params, i)
  }

  lemma NamesReachIff(columns: seq<string>, cols: seq<string>, params: seq<Value>)
    requires cols != [] && |params| == |cols|
    ensures AllReach(columns, |columns|, Positional(cols), params) <==> Accepts(columns, cols, params)
  {
    var sets := Positional(cols);
    assert forall k :: 0 <= k < |cols| ==> (Reaches(columns, |columns|, sets[k], params) <==> ColIndex(columns, cols[k]) >= 0);
  }

  lemma OverwrittenIsGiven(columns: seq<string>, cols: seq<string>, params: seq<Value>, blank: Row, row: Row)
    requires cols != [] && Accepts(columns, cols, params) && |blank| == |columns| && forall i :: 0 <= i < |blank| ==> blank[i] == Nil
    requires Overwritten(columns, blank, Positional(cols), params, row)
    ensures AllGiven(columns, cols, params, row)
  {
  }

  /** Assigning the named columns of a blank row. */
  lemma AssignedIsGiven(columns: seq<string>, cols: seq<string>, params: seq<Value>, blank: Row)
    requires cols != [] && |params| == |cols| && |blank| == |columns| && forall i :: 0 <= i < |blank| ==> blank[i] == Nil
    ensures var (row, a) := Assign(columns, blank, Positional(cols), params);
      (a == Assigned.Assigned <==> Accepts(columns, cols, params)) && (a == Assigned.Assigned ==> AllGiven(columns, cols, params, row))
  {
    var sets := Positional(cols);
    var (row, a) := Assign(columns, blank, sets, params);
    AssignSucceedsIff(columns, blank, sets, params);
    NamesReachIff(columns, cols, params);
    if a == Assigned.Assigned {
      AssignOverwrites(columns, blank, sets, params);
      OverwrittenIsGiven(columns, cols, params, blank, row);
    }
  }

  // The tables themselves

  datatype Table = Table(columns: seq<string>, rows: seq<array<Value>>)

  ghost function Contents(rows: seq<array<Value>>): (c: seq<Row>)
    reads rows
    ensures |c| == |rows| && forall i :: 0 <= i < |rows| ==> c[i] == rows[i][..]
  {
    if rows == [] then [] else [rows[0][..]] + Contents(rows[1..])
  }

  /** No two rows, of one table or of two, are the same piece of memory. */
  ghost predicate Unaliased(tables: map<string, Table>) {
    forall s, t, i, j :: (
      s in tables && t in tables && 0 <= i < |tables[s].rows| && 0 <= j < |tables[t].rows|
      && tables[s].rows[i] == tables[t].rows[j]) ==> s == t && i == j
  }

  ghost function AllRowsOf(tables: map<string, Table>): set<object> {
    set t, i | t in tables && 0 <= i < |tables[t].rows| :: tables[t].rows[i]
  }

  method CopyRow(row: array<Value>) returns (copy: array<Value>)
    ensures fresh(copy) && copy[..] == row[..]
  {
    copy := new Value[row.Length](i requires 0 <= i < row.Length reads row => row[i]);
  }

  method RowOf(cells: Row) returns (row: array<Value>)
    ensures fresh(row) && row[..] == cells
  {
    row := new Value[|cells|](i requires 0 <= i < |cells| => cells[i]);
  }

  /** The middle of insertRow: a blank row is filled by position or by name, then given its identifier. */
  method NewRow(columns: seq<string>, count: nat, cols: seq<string>, params: seq<Value>) returns (ok: bool, row: array<Value>)
    ensures fresh(row)
    ensures ok <==> Accepts(columns, cols, params)
    ensures ok ==> Inserted(columns, count, cols, params, row[..])
  {
    row := new Value[|columns|](_ => Nil);
    if cols == [] {
      if |params| != |columns| {
        return false, row;
      }
      row := RowOf(params);
    } else {
      if |params| != |cols| {
        return false, row;
      }
      AssignedIsGiven(columns, cols, params, row[..]);
      var a := AssignRow(columns, row, Positional(cols), params);
      if a != Assigned.Assigned {
        return false, row;
      }
    }
    assert AllGiven(columns, cols, params, row[..]);
    var id := ColIndex(columns, "id");
    if id >= 0 && row[id] == Nil {
      row[id] := Val(0, "generated-id-" + Itoa(count + 1));
    }
    return true, row;
  }

  /** Fresh copies of rows, none of them the same memory as another. */
  method CopyRows(rows: seq<array<Value>>) returns (copied: seq<array<Value>>)
    ensures |copied| == |rows| && Contents(copied) == Contents(rows)
    ensures forall i :: 0 <= i < |copied| ==> fresh(copied[i])
    ensures forall i, j :: 0 <= i < j < |copied| ==> copied[i] != copied[j]
  {
    copied := [];
    for i := 0 to |rows|
      invariant |copied| == i
      invariant forall j :: 0 <= j < i ==> fresh(copied[j]) && copied[j][..] == rows[j][..]
      invariant forall j, k :: 0 <= j < k < i ==> copied[j] != copied[k]
    {
      var row := CopyRow(rows[i]);
      copied := copied + [row];
    }
  }

  /** A selection with some rows before it. */
  function Before(done: seq<Row>, rest: Selection): Selection {
    if rest.Rows? then Rows(done + rest.rows) else SelectFailed
  }

  lemma TailOf<T>(s: seq<T>, i: nat)
    requires i < |s|
    ensures s[i..] == [s[i]] + s[i + 1..] && s[i..][0] == s[i] && s[i..][1..] == s[i + 1..]
  {
  }

  lemma Associate<T>(a: seq<T>, x: T, b: seq<T>)
    ensures a + ([x] + b) == a + [x] + b
  {
  }

  lemma SelectStep(columns: seq<string>, all: seq<Row>, i: nat, conditions: seq<Condition>, params: seq<Value>, done: seq<Row>)
    requires i < |all|
    ensures var rest := Select(columns, all[i + 1..], conditions, params);
      Before(done, Select(columns, all[i..], conditions, params)) ==
        match Matches(columns, all[i], conditions, params)
        case Error => SelectFailed
        case No => Before(done, rest)
        case Yes => Before(done + [all[i]], rest)
  {
    TailOf(all, i);
    var rest := Select(columns, all[i + 1..], conditions, params);
    if rest.Rows? {
      Associate(done, all[i], rest.rows);
    }
  }

  lemma ContentsAppend(rows: seq<array<Value>>, row: array<Value>)
    ensures Contents(rows + [row]) == Contents(rows) + [row[..]]
  {
  }

  /** The cells of all rows, as one value. */
  ghost predicate Show(rows: seq<array<Value>>, cells: seq<Row>)
    reads rows
  {
    |rows| == |cells| && forall i :: 0 <= i < |rows| ==> rows[i][..] == cells[i]
  }

  lemma ShowAppend(rows: seq<array<Value>>, cells: seq<Row>, row: array<Value>)
    requires Show(rows, cells)
    ensures Show(rows + [row], cells + [row[..]])
  {
  }

  lemma ShowIsContents(rows: seq<array<Value>>, cells: seq<Row>)
    requires Show(rows, cells)
    ensures Contents(rows) == cells
  {
  }

  /** The matching rows of a table, copied; they are compared and copied one at a time. */
  method SelectRows(t: Table, conditions: seq<Condition>, params: seq<Value>) returns (ok: bool, out: seq<array<Value>>)
    ensures var s := Select(t.columns, Contents(t.rows), conditions, params);
      ok == s.Rows? && (ok ==> Contents(out) == s.rows)
    ensures forall row :: row in out ==> fresh(row)
  {
    out := [];
    ghost var all := Contents(t.rows);
    ghost var done: seq<Row> := [];
    ghost var whole := Select(t.columns, all, conditions, params);
    assert all[0..] == all && Before([], whole) == whole;
    for i := 0 to |t.rows|
      invariant whole == Before(done, Select(t.columns, all[i..], conditions, params))
      invariant Show(out, done) && forall row :: row in out ==> fresh(row)
    {
      SelectStep(t.columns, all, i, conditions, params, done);
      var m := MatchesConditions(t.columns, t.rows[i], conditions, params);
      if m == Error {
        return false, [];
      }
      if m == Yes {
        var row := CopyRow(t.rows[i]);
        ShowAppend(out, done, row);
        done := done + [all[i]];
        out := out + [row];
      }
    }
    ShowIsContents(out, done);
    return true, out;
  }

  ghost predicate Distinct(rows: seq<array<Value>>) {
    forall i, j :: 0 <= i < j < |rows| ==> rows[i] != rows[j]
  }

  /** Distinct pieces of memory, all from one list. */
  ghost predicate Among(some: seq<array<Value>>, rows: seq<array<Value>>) {
    Distinct(some) && forall i :: 0 <= i < |some| ==> some[i] in rows
  }

  lemma DistinctAppend(rows: seq<array<Value>>, i: nat, some: seq<array<Value>>)
    requires Distinct(rows) && i < |rows| && Among(some, rows[..i])
    ensures Among(some + [rows[i]], rows[..i + 1])
  {
    assert rows[..i + 1] == rows[..i] + [rows[i]];
    assert rows[i] !in rows[..i];
  }

  /** A deletion of all rows, from what was kept and deleted so far and the deletion of the rest. */
  function AfterKeeping(all: seq<Row>, done: seq<Row>, deleted: nat, rest: (seq<Row>, Effect)): (seq<Row>, Effect) {
    if rest.1.Count? then (done + rest.0, Count(deleted + rest.1.n)) else (all, rest.1)
  }

  lemma DeleteStep(columns: seq<string>, all: seq<Row>, i: nat, conditions: seq<Condition>, params: seq<Value>, done: seq<Row>, deleted: nat)
    requires i < |all|
    ensures var rest := Delete(columns, all[i + 1..], conditions, params);
      AfterKeeping(all, done, deleted, Delete(columns, all[i..], conditions, params)) ==
        match Matches(columns, all[i], conditions, params)
        case Error => (all, MatchFailed)
        case No => AfterKeeping(all, done + [all[i]], deleted, rest)
        case Yes => AfterKeeping(all, done, deleted + 1, rest)
  {
    TailOf(all, i);
    Associate(done, all[i], Delete(columns, all[i + 1..], conditions, params).0);
  }

  lemma DeleteFailsWhole(columns: seq<string>, all: seq<Row>, conditions: seq<Condition>, params: seq<Value>)
    ensures var (kept, e) := Delete(columns, all, conditions, params);
      !e.Count? ==> e == MatchFailed && kept == all
  {
    SelectAgrees(columns, all, conditions, params);
  }

  /** The rows a DELETE keeps, as the same pieces of memory. */
  method DeleteRows(t: Table, conditions: seq<Condition>, params: seq<Value>) returns (kept: seq<array<Value>>, e: Effect)
    requires Distinct(t.rows)
    ensures (Contents(kept), e) == Delete(t.columns, Contents(t.rows), conditions, params)
    ensures Among(kept, t.rows)
  {
    kept := [];
    var deleted: nat := 0;
    ghost var all := Contents(t.rows);
    ghost var whole := Delete(t.columns, all, conditions, params);
    DeleteFailsWhole(t.columns, all, conditions, params);
    assert all[0..] == all && [] + whole.0 == whole.0;
    for i := 0 to |t.rows|
      invariant whole == AfterKeeping(all, Contents(kept), deleted, Delete(t.columns, all[i..], conditions, params))
      invariant Among(kept, t.rows[..i])
    {
      DeleteStep(t.columns, all, i, conditions, params, Contents(kept), deleted);
      var m := MatchesConditions(t.columns, t.rows[i], conditions, params);
      if m == Error {
        return t.rows, MatchFailed;
      }
      if m == Yes {
        deleted := deleted + 1;
      } else {
        ContentsAppend(kept, t.rows[i]);
        DistinctAppend(t.rows, i, kept);
        kept := kept + [t.rows[i]];
      }
    }
    assert Contents(kept) + [] == Contents(kept) && t.rows[..|t.rows|] == t.rows;
    return kept, Count(deleted);
  }

  /** What an UPDATE does to one row: its new cells, whether it matched and whether the assignments worked. */
  function UpdateRow(columns: seq<string>, row: Row, sets: seq<ColParam>, conditions: seq<Condition>, params: seq<Value>): (Row, Verdict, Assigned) {
    var m := Matches(columns, row, conditions, params);
    if m == Yes then
      var (r, a) := Assign(columns, row, sets, params);
      (r, m, a)
    else (row, m, Assigned.Assigned)
  }

  predicate Stops(m: Verdict, a: Assigned) {
    m == Error || a != Assigned.Assigned
  }

  function StopEffect(m: Verdict, a: Assigned): Effect {
    if m == Error then MatchFailed else if a == NoSuchColumn then ColumnMissing else ParamPanic
  }

  /** An update of all rows, from the rows done so far and the update of the rest. */
  function AfterUpdating(done: seq<Row>, updated: nat, rest: (seq<Row>, Effect)): (seq<Row>, Effect) {
    (done + rest.0, if rest.1.Count? then Count(updated + rest.1.n) else rest.1)
  }

  lemma UpdateStep(columns: seq<string>, all: seq<Row>, i: nat, sets: seq<ColParam>, conditions: seq<Condition>, params: seq<Value>,
                   done: seq<Row>, updated: nat)
    requires i < |all|
    ensures var (row, m, a) := UpdateRow(columns, all[i], sets, conditions, params);
      AfterUpdating(done, updated, UpdateRows(columns, all[i..], sets, conditions, params)) ==
        if Stops(m, a) then (done + [row] + all[i + 1..], StopEffect(m, a))
        else AfterUpdating(done + [row], if m == Yes then updated + 1 else updated, UpdateRows(columns, all[i + 1..], sets, conditions, params))
  {
    var row := UpdateRow(columns, all[i], sets, conditions, params).0;
    var rest := UpdateRows(columns, all[i + 1..], sets, conditions, params).0;
    TailOf(all, i);
    Associate(done, row, rest);
    Associate(done, row, all[i + 1..]);
  }

  /** The body of the loop of an UPDATE, for one row. */
  method UpdateOne(columns: seq<string>, row: array<Value>, sets: seq<ColParam>, conditions: seq<Condition>, params: seq<Value>)
    returns (m: Verdict, a: Assigned)
    modifies row
    ensures (row[..], m, a) == UpdateRow(columns, old(row[..]), sets, conditions, params)
  {
    m := MatchesConditions(columns, row, conditions, params);
    a := Assigned.Assigned;
    if m == Yes {
      a := AssignRow(columns, row, sets, params);
    }
  }

  /** Working on one of distinct rows changes that row of the value and nothing else. */
  method UpdateAt(columns: seq<string>, rows: seq<array<Value>>, i: nat, sets: seq<ColParam>, conditions: seq<Condition>, params: seq<Value>,
                  ghost done: seq<Row>, ghost all: seq<Row>)
    returns (m: Verdict, a: Assigned)
    requires Distinct(rows) && i == |done| < |all| && Show(rows, done + all[i..])
    modifies rows[i]
    ensures UpdateRow(columns, all[i], sets, conditions, params) == (rows[i][..], m, a)
    ensures Show(rows, done + [rows[i][..]] + all[i + 1..])
  {
    assert (done + all[i..])[i] == all[i];
    m, a := UpdateOne(columns, rows[i], sets, conditions, params);
    ghost var after := done + [rows[i][..]] + all[i + 1..];
    assert forall j :: 0 <= j < |rows| && j != i ==> after[j] == (done + all[i..])[j];
  }

  /** The loop of an UPDATE: rows that match are assigned in place. */
  method UpdateInPlace(t: Table, sets: seq<ColParam>, conditions: seq<Condition>, params: seq<Value>) returns (e: Effect)
    requires Distinct(t.rows)
    modifies t.rows
    ensures (Contents(t.rows), e) == UpdateRows(t.columns, old(Contents(t.rows)), sets, conditions, params)
  {
    ghost var all := Contents(t.rows);
    ghost var done: seq<Row> := [];
    ghost var whole := UpdateRows(t.columns, all, sets, conditions, params);
    assert all[0..] == all && [] + all == all && [] + whole.0 == whole.0;
    var updated: nat := 0;
    for i := 0 to |t.rows|
      invariant |done| == i && Show(t.rows, done + all[i..])
      invariant whole == AfterUpdating(done, updated, UpdateRows(t.columns, all[i..], sets, conditions, params))
    {
      UpdateStep(t.columns, all, i, sets, conditions, params, done, updated);
      var m, a := UpdateAt(t.columns, t.rows, i, sets, conditions, params, done, all);
      done := done + [t.rows[i][..]];
      if Stops(m, a) {
        ShowIsContents(t.rows, done + all[i + 1..]);
        return StopEffect(m, a);
      }
      if m == Yes {
        updated := updated + 1;
      }
    }
    ShowIsContents(t.rows, done + all[|t.rows|..]);
    return Count(updated);
  }

  datatype Insertion = Added | BadInsert | InsertPanic | NoTable | NotAccepted

  datatype Outcome = Finished(effect: Effect) | BadStatement | StatementPanic

  class InMemoryDB {
    var tables: map<string, Table>

    ghost predicate Valid()
      reads this
    {
      Unaliased(tables)
    }

    ghost function Repr(): set<object>
      reads this
    {
      AllRowsOf(tables)
    }

    constructor ()
      ensures Valid() && tables == map[]
    {
      tables := map[];
    }

    /** SeedRows: the caller's rows are copied, never kept. */
    method SeedRows(name: string, columns: seq<string>, rows: seq<array<Value>>)
      requires Valid()
      modifies this
      ensures Valid() && fresh(Repr() - old(Repr()))
      ensures tables.Keys == old(tables.Keys) + {Lower(name)}
      ensures tables[Lower(name)].columns == columns && Contents(tables[Lower(name)].rows) == Contents(rows)
      ensures forall row :: row in tables[Lower(name)].rows ==> fresh(row)
      ensures forall t :: t in old(tables) && t != Lower(name) ==> tables[t] == old(tables)[t]
    {
      var copied := CopyRows(rows);
      tables := tables[Lower(name) := Table(columns, copied)];
    }

    /** AllRows: what is handed out is a copy. */
    method AllRows(name: string) returns (out: seq<array<Value>>)
      requires Valid()
      ensures Contents(out) == if Lower(name) in tables then Contents(tables[Lower(name)].rows) else []
      ensures forall row :: row in out ==> fresh(row)
    {
      if Lower(name) !in tables {
        return [];
      }
      out := CopyRows(tables[Lower(name)].rows);
    }

    /** querySelect. */
    method QuerySelect(sql: string, params: seq<Value>) returns (r: Outcome, columns: seq<string>, out: seq<array<Value>>)
      requires Valid()
      ensures forall row :: row in out ==> fresh(row)
      ensures match ParseTableAndConditions(sql)
        case Malformed => r == BadStatement
        case Panic => r == StatementPanic
        case Ok((name, conditions)) =>
          if Lower(name) !in tables then r == Finished(Count(0)) && columns == [] && out == []
          else
            var t := tables[Lower(name)];
            var s := Select(t.columns, Contents(t.rows), conditions, params);
            if s.Rows? then r == Finished(Count(|s.rows|)) && columns == t.columns && Contents(out) == s.rows
            else r == Finished(MatchFailed)
    {
      columns, out := [], [];
      match ParseTableAndConditions(sql)
      case Malformed => r := BadStatement;
      case Panic => r := StatementPanic;
      case Ok((name, conditions)) =>
        if Lower(name) !in tables {
          return Finished(Count(0)), [], [];
        }
        var t := tables[Lower(name)];
        var ok, rows := SelectRows(t, conditions, params);
        if !ok {
          return Finished(MatchFailed), [], [];
        }
        return Finished(Count(|rows|)), t.columns, rows;
    }

    /** execDelete. */
    method ExecDelete(sql: string, params: seq<Value>) returns (r: Outcome)
      requires Valid()
      modifies this
      ensures Valid() && Repr() <= old(Repr())
      ensures match ParseTableAndConditions(sql)
        case Malformed => r == BadStatement && tables == old(tables)
        case Panic => r == StatementPanic && tables == old(tables)
        case Ok((name, conditions)) =>
          if Lower(name) !in old(tables) then r == Finished(Count(0)) && tables == old(tables)
          else
            var t := old(tables[Lower(name)]);
            var (kept, e) := Delete(t.columns, old(Contents(t.rows)), conditions, params);
            && r == Finished(e) && tables.Keys == old(tables.Keys)
            && tables[Lower(name)].columns == t.columns && Contents(tables[Lower(name)].rows) == kept
            && forall u :: u in tables && u != Lower(name) ==> tables[u] == old(tables)[u]
    {
      match ParseTableAndConditions(sql)
      case Malformed => r := BadStatement;
      case Panic => r := StatementPanic;
      case Ok((name, conditions)) =>
        if Lower(name) !in tables {
          return Finished(Count(0));
        }
        var t := tables[Lower(name)];
        var kept, e := DeleteRows(t, conditions, params);
        KeepingIsUnaliased(tables, Lower(name), kept);
        tables := tables[Lower(name) := t.(rows := kept)];
        r := Finished(e);
    }

    /** Updating the rows of one table touches no row of another. */
    method UpdateTable(name: string, sets: seq<ColParam>, conditions: seq<Condition>, params: seq<Value>) returns (e: Effect)
      requires Valid() && name in tables
      modifies Repr()
      ensures (Contents(tables[name].rows), e) == UpdateRows(tables[name].columns, old(Contents(tables[name].rows)), sets, conditions, params)
      ensures forall t :: t in tables && t != name ==> Contents(tables[t].rows) == old(Contents(tables[t].rows))
    {
      OthersAreElsewhere(tables, name);
      e := UpdateInPlace(tables[name], sets, conditions, params);
    }

    /** execUpdate: no row is replaced, only cells change, and only in the named table. */
    method ExecUpdate(sql: string, params: seq<Value>) returns (r: Outcome)
      requires Valid()
      modifies Repr()
      ensures Valid() && tables == old(tables)
      ensures match ParseSimpleUpdate(sql)
        case Malformed => r == BadStatement && forall t :: t in tables ==> Contents(tables[t].rows) == old(Contents(tables[t].rows))
        case Panic => r == StatementPanic && forall t :: t in tables ==> Contents(tables[t].rows) == old(Contents(tables[t].rows))
        case Ok(u) =>
          && (forall t :: t in tables && t != Lower(u.tableName) ==> Contents(tables[t].rows) == old(Contents(tables[t].rows)))
          && if Lower(u.tableName) !in tables then r == Finished(Count(0))
             else
               var t := tables[Lower(u.tableName)];
               var (rows, e) := UpdateRows(t.columns, old(Contents(t.rows)), u.assignments, u.conditions, params);
               r == Finished(e) && Contents(t.rows) == rows
    {
      match ParseSimpleUpdate(sql)
      case Malformed => r := BadStatement;
      case Panic => r := StatementPanic;
      case Ok(u) =>
        if Lower(u.tableName) !in tables {
          return Finished(Count(0));
        }
        var e := UpdateTable(Lower(u.tableName), u.assignments, u.conditions, params);
        r := Finished(e);
    }

    method AddRow(name: string, row: array<Value>)
      requires Valid() && name in tables && row !in Repr()
      modifies this
      ensures Valid() && Repr() <= old(Repr()) + {row}
      ensures tables == old(tables)[name := Table(old(tables[name]).columns, old(tables[name]).rows + [row])]
      ensures Contents(tables[name].rows) == old(Contents(tables[name].rows)) + [row[..]]
    {
      var t := tables[name];
      ContentsAppend(t.rows, row);
      AddingIsUnaliased(tables, name, row);
      tables := tables[name := t.(rows := t.rows + [row])];
    }

    /** insertRow: the added row is the last of its table. */
    method InsertRow(sql: string, params: seq<Value>) returns (r: Insertion, row: array?<Value>)
      requires Valid()
      modifies this
      ensures Valid() && fresh(Repr() - old(Repr()))
      ensures r != Added ==> tables == old(tables)
      ensures r == Added <==> row != null
      ensures match ParseInsertColumns(sql)
        case Malformed => r == BadInsert
        case Panic => r == InsertPanic
        case Ok((name, cols)) =>
          if Lower(name) !in old(tables) then r == NoTable
          else
            var t := old(tables[Lower(name)]);
            if !Accepts(t.columns, cols, params) then r == NotAccepted
            else
              && r == Added && row != null && fresh(row) && Inserted(t.columns, |t.rows|, cols, params, row[..])
              && tables == old(tables)[Lower(name) := Table(t.columns, t.rows + [row])]
              && Contents(tables[Lower(name)].rows) == old(Contents(t.rows)) + [row[..]]
    {
      match ParseInsertColumns(sql)
      case Malformed => r, row := BadInsert, null;
      case Panic => r, row := InsertPanic, null;
      case Ok((name, cols)) =>
        if Lower(name) !in tables {
          return NoTable, null;
        }
        var t := tables[Lower(name)];
        var ok, cells := NewRow(t.columns, |t.rows|, cols, params);
        if !ok {
          return NotAccepted, null;
        }
        AddRow(Lower(name), cells);
        return Added, cells;
    }

    /**
     queryInsert: the row is added before the returned columns are looked up, so of the failures exactly
     those that name an unknown column have added it.
     */
    method QueryInsert(sql: string, params: seq<Value>) returns (r: Returning)
      requires Valid()
      modifies this
      ensures Valid() && fresh(Repr() - old(Repr()))
      ensures tables == old(tables) <==> !Inserts(old(tables), sql, params)
      ensures r.Returned? <==> Inserts(old(tables), sql, params) && Returns(old(tables), sql)
      ensures r.Returned? ==>
        var name := Lower(ParseInsertColumns(sql).value.0);
        && name in tables && tables[name].rows != [] && r.columns == ParseReturning(sql).value
        && Picked(tables[name].columns, Contents(tables[name].rows)[|tables[name].rows| - 1], r.columns, r.cells)
    {
      var returning := ParseReturning(sql);
      if !returning.Ok? {
        return BadReturning;
      }
      if returning.value == [] {
        return NoReturning;
      }
      var outcome, row := InsertRow(sql, params);
      if outcome != Added {
        return Refused(outcome);
      }
      var columns := tables[Lower(ParseInsertColumns(sql).value.0)].columns;
      var ok, cells := Pick(columns, row, returning.value);
      return if ok then Returned(returning.value, cells) else UnknownColumn;
    }
  }

  datatype Returning =
    | Returned(columns: seq<string>, cells: seq<Value>)
    | BadReturning
    | NoReturning
    | Refused(why: Insertion)
    | UnknownColumn

  /** Something is to be returned, and the row is accepted by its table. */
  predicate Inserts(tables: map<string, Table>, sql: string, params: seq<Value>) {
    && ParseReturning(sql).Ok? && ParseReturning(sql).value != []
    && match ParseInsertColumns(sql)
       case Ok((name, cols)) => Lower(name) in tables && Accepts(tables[Lower(name)].columns, cols, params)
       case _ => false
  }

  /** Every column to be returned is one of the table. */
  predicate Returns(tables: map<string, Table>, sql: string) {
    match ParseInsertColumns(sql)
    case Ok((name, _)) =>
      ParseReturning(sql).Ok? && Lower(name) in tables && AllKnown(tables[Lower(name)].columns, ParseReturning(sql).value)
    case _ => false
  }

  predicate AllKnown(columns: seq<string>, cols: seq<string>) {
    forall k :: 0 <= k < |cols| ==> ColIndex(columns, cols[k]) >= 0
  }

  ghost predicate Picked(columns: seq<string>, row: Row, cols: seq<string>, cells: seq<Value>) {
    && |cells| == |cols|
    && forall k :: 0 <= k < |cols| ==> 0 <= ColIndex(columns, cols[k]) < |row| && cells[k] == row[ColIndex(columns, cols[k])]
  }

  method Pick(columns: seq<string>, row: array<Value>, cols: seq<string>) returns (ok: bool, cells: seq<Value>)
    requires row.Length == |columns|
    ensures ok <==> AllKnown(columns, cols)
    ensures ok ==> Picked(columns, row[..], cols, cells)
  {
    cells := [];
    for k := 0 to |cols|
      invariant Picked(columns, row[..], cols[..k], cells) && AllKnown(columns, cols[..k])
    {
      var i := ColIndex(columns, cols[k]);
      if i < 0 {
        return false, cells;
      }
      assert cols[..k + 1] == cols[..k] + [cols[k]];
      cells := cells + [row[i]];
    }
    assert cols[..|cols|] == cols;
    return true, cells;
  }

  /** The words of an INSERT of one column that returns another. */
  function ReturningWords(table: string, column: string, returned: string): seq<string> {
    ["INSERT", "INTO", table, "(" + column + ")"] + ["VALUES", "($1)", "RETURNING", returned]
  }

  /** Such a statement fails when the table has the one column but not the other, and yet it adds its row. */
  lemma FailedInsertAdds(tables: map<string, Table>, table: string, column: string, unknown: string, x: Value)
    requires IsWord(table) && '(' !in table && Upper(table) != "RETURNING" && Listable(column) && Listable(unknown)
    requires Lower(table) in tables
    requires ColIndex(tables[Lower(table)].columns, column) >= 0 && ColIndex(tables[Lower(table)].columns, unknown) < 0
    ensures var sql := Sentence(ReturningWords(table, column, unknown));
      Inserts(tables, sql, [x]) && !Returns(tables, sql)
  {
    ReturningStatementIsRead(table, column, unknown);
    assert [column][0] == column && [unknown][0] == unknown;
  }

  lemma ReturningStatementIsRead(table: string, column: string, returned: string)
    requires IsWord(table) && '(' !in table && Upper(table) != "RETURNING" && Listable(column) && Listable(returned)
    ensures var sql := Sentence(ReturningWords(table, column, returned));
      ParseInsertColumns(sql) == Ok((table, [column])) && ParseReturning(sql) == Ok([returned])
  {
    var more := ["VALUES", "($1)", "RETURNING", returned];
    InsertSentence(table, column, more);
    InsertIsRead(table, [column], " " + Sentence(more));
    var ws := ReturningWords(table, column, returned);
    NoEarlierReturning(ws, table, column, returned);
    assert ws[7..] == [returned] && Sentence([returned]) == returned == CommaList([returned]);
    ReturningIsRead(ws, 6, [returned]);
  }

  lemma NoEarlierReturning(ws: seq<string>, table: string, column: string, returned: string)
    requires IsWord(table) && Upper(table) != "RETURNING" && IsWord(column) && IsWord(returned)
    requires ws == ReturningWords(table, column, returned)
    ensures AllWords(ws) && |ws| == 8 && Upper(ws[6]) == "RETURNING" && forall j :: 0 < j < 6 ==> Upper(ws[j]) != "RETURNING"
  {
    assert IsWord("INSERT") && IsWord("INTO") && IsWord("VALUES") && IsWord("($1)") && IsWord("RETURNING");
    assert Upper("INTO")[0] == 'I' && Upper("VALUES")[0] == 'V' && Upper("($1)")[0] == '(' && Upper("(" + column + ")")[0] == '(';
    assert Upper("RETURNING") == "RETURNING";
  }

  lemma AddingIsUnaliased(tables: map<string, Table>, name: string, row: array<Value>)
    requires Unaliased(tables) && name in tables && row !in AllRowsOf(tables)
    ensures var after := tables[name := tables[name].(rows := tables[name].rows + [row])];
      Unaliased(after) && AllRowsOf(after) <= AllRowsOf(tables) + {row}
  {
    var after := tables[name := tables[name].(rows := tables[name].rows + [row])];
    assert forall t, i :: t in tables && 0 <= i < |tables[t].rows| ==> tables[t].rows[i] in AllRowsOf(tables);
  }

  lemma OthersAreElsewhere(tables: map<string, Table>, name: string)
    requires Unaliased(tables) && name in tables
    ensures Distinct(tables[name].rows)
    ensures forall row :: row in tables[name].rows ==> row in AllRowsOf(tables)
    ensures forall t, row :: t in tables && t != name && row in tables[t].rows ==> row !in tables[name].rows
  {
  }

  lemma KeepingIsUnaliased(tables: map<string, Table>, name: string, kept: seq<array<Value>>)
    requires Unaliased(tables) && name in tables
    requires Among(kept, tables[name].rows)
    ensures var after := tables[name := tables[name].(rows := kept)];
      Unaliased(after) && AllRowsOf(after) <= AllRowsOf(tables)
  {
    var after := tables[name := tables[name].(rows := kept)];
    forall t, i | t in after && 0 <= i < |after[t].rows|
      ensures exists k :: 0 <= k < |tables[t].rows| && tables[t].rows[k] == after[t].rows[i]
    {
      assert after[t].rows[i] in after[t].rows;
      assert after[t].rows[i] in tables[t].rows;
    }
  }
}
