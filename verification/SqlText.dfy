/** The SQL helpers of the test kit: what they read in a statement, and that they read back what is written. */
module SqlText {
  import opened Options
  import opened Text
  import opened Decimal

  /** A helper's result: a value, a returned error, or a run-time panic of its slicing or indexing. */
  datatype Parsed<+T> = Ok(value: T) | Malformed | Panic

  datatype ColParam = ColParam(column: string, paramIdx: int)

  datatype Condition = Condition(column: string, paramIdx: int, isNull: bool, isNotNull: bool)

  predicate EqualFold(a: string, b: string) {
    Upper(a) == Upper(b)
  }

  function DigitRun(s: string): (d: string)
    ensures d <= s && AllDigits(d)
  {
    if s == "" || !IsDigit(s[0]) then "" else [s[0]] + DigitRun(s[1..])
  }

  /** fmt.Sscanf with %d: an optional sign and the digits that follow; whatever comes after is ignored. */
  function ScanInt(s: string): Option<int> {
    var signed := s != "" && (s[0] == '+' || s[0] == '-');
    var digits := DigitRun(if signed then s[1..] else s);
    var n: int := Value(digits);
    var v := if signed && s[0] == '-' then -n else n;
    if digits == "" || v < -0x8000_0000_0000_0000 || v > 0x7FFF_FFFF_FFFF_FFFF then None else Some(v)
  }

  function ParseColParam(s: string): Parsed<ColParam> {
    var parts := Fields(s);
    if |parts| < 3 then Malformed
    else if !("$" <= parts[2]) then Malformed
    else
      match ScanInt(parts[2][1..])
      case None => Malformed
      case Some(n) => Ok(ColParam(parts[0], n))
  }

  function ParseCondition(s: string): Parsed<Condition> {
    var fields := Fields(s);
    if |fields| == 3 && EqualFold(fields[1], "IS") && EqualFold(fields[2], "NULL") then
      Ok(Condition(fields[0], 0, true, false))
    else if |fields| == 4 && EqualFold(fields[1], "IS") && EqualFold(fields[2], "NOT") && EqualFold(fields[3], "NULL") then
      Ok(Condition(fields[0], 0, false, true))
    else
      match ParseColParam(s)
      case Ok(p) => Ok(Condition(p.column, p.paramIdx, false, false))
      case Malformed => Malformed
      case Panic => Panic
  }

  /** The assignments in the parts of a list, up to the first that fails. */
  function ColParams(parts: seq<string>): Parsed<seq<ColParam>> {
    if parts == [] then Ok([])
    else
      match ParseColParam(TrimSpace(parts[0]))
      case Malformed => Malformed
      case Panic => Panic
      case Ok(first) => Prepend([first], ColParams(parts[1..]))
  }

  /** The conditions in the parts of a list, up to the first that fails. */
  function Conditions(parts: seq<string>): Parsed<seq<Condition>> {
    if parts == [] then Ok([])
    else
      match ParseCondition(TrimSpace(parts[0]))
      case Malformed => Malformed
      case Panic => Panic
      case Ok(first) => Prepend([first], Conditions(parts[1..]))
  }

  function Prepend<T>(done: seq<T>, rest: Parsed<seq<T>>): Parsed<seq<T>> {
    match rest
    case Ok(v) => Ok(done + v)
    case Malformed => Malformed
    case Panic => Panic
  }

  lemma PrependNothing<T>(rest: Parsed<seq<T>>)
    ensures Prepend([], rest) == rest
  {
    if rest.Ok? {
      assert [] + rest.value == rest.value;
    }
  }

  lemma PrependTwice<T>(a: seq<T>, b: seq<T>, rest: Parsed<seq<T>>)
    ensures Prepend(a, Prepend(b, rest)) == Prepend(a + b, rest)
  {
    if rest.Ok? {
      assert a + (b + rest.value) == a + b + rest.value;
    }
  }

  method ParseAssignments(s: string) returns (r: Parsed<seq<ColParam>>)
    ensures r == ColParams(Split(s, ","))
  {
    var parts := Split(s, ",");
    var done: seq<ColParam> := [];
    assert parts[0..] == parts;
    PrependNothing(ColParams(parts));
    for i := 0 to |parts|
      invariant ColParams(parts) == Prepend(done, ColParams(parts[i..]))
    {
      assert parts[i..][1..] == parts[i + 1..] && parts[i..][0] == parts[i];
      match ParseColParam(TrimSpace(parts[i])) {
        case Ok(a) =>
          PrependTwice(done, [a], ColParams(parts[i + 1..]));
          done := done + [a];
        case Malformed => return Malformed;
        case Panic => return Panic;
      }
    }
    assert parts[|parts|..] == [] && done + [] == done;
    return Ok(done);
  }

  method ParseConditions(s: string) returns (r: Parsed<seq<Condition>>)
    ensures r == Conditions(Split(s, "AND"))
  {
    var parts := Split(s, "AND");
    var done: seq<Condition> := [];
    assert parts[0..] == parts;
    PrependNothing(Conditions(parts));
    for i := 0 to |parts|
      invariant Conditions(parts) == Prepend(done, Conditions(parts[i..]))
    {
      assert parts[i..][1..] == parts[i + 1..] && parts[i..][0] == parts[i];
      match ParseCondition(TrimSpace(parts[i])) {
        case Ok(c) =>
          PrependTwice(done, [c], Conditions(parts[i + 1..]));
          done := done + [c];
        case Malformed => return Malformed;
        case Panic => return Panic;
      }
    }
    assert parts[|parts|..] == [] && done + [] == done;
    return Ok(done);
  }

  /** parseTableAndConditions, for SELECT and DELETE. */
  function ParseTableAndConditions(sql: string): Parsed<(string, seq<Condition>)> {
    var fromIdx := Index(Upper(sql), " FROM ");
    if fromIdx < 0 then Malformed else TableOf(TrimSpace(sql[fromIdx + 6..]))
  }

  function TableOf(rest: string): Parsed<(string, seq<Condition>)> {
    var whereIdx := Index(Upper(rest), " WHERE ");
    if whereIdx < 0 then if Fields(rest) == [] then Panic else Ok((Fields(rest)[0], []))
    else if Fields(rest[..whereIdx]) == [] then Panic
    else
      match Conditions(Split(TrimSpace(rest[whereIdx + 7..]), "AND"))
      case Ok(conditions) => Ok((Fields(rest[..whereIdx])[0], conditions))
      case Malformed => Malformed
      case Panic => Panic
  }

  datatype Update = Update(tableName: string, assignments: seq<ColParam>, conditions: seq<Condition>)

  /** parseSimpleUpdate. */
  function ParseSimpleUpdate(sql: string): Parsed<Update> {
    var trimmed := TrimSpace(sql);
    var upper := Upper(trimmed);
    if "UPDATE " <= upper then UpdateAt(trimmed, Index(upper, " SET "), Index(upper, " WHERE ")) else Malformed
  }

  function UpdateAt(trimmed: string, setIdx: int, whereIdx: int): Parsed<Update>
    requires setIdx <= |trimmed| - 5 && whereIdx <= |trimmed| - 7
  {
    if setIdx < 0 || whereIdx < 0 then Malformed
    else if setIdx < 7 || whereIdx < setIdx + 5 then Panic
    else UpdateOf(TrimSpace(trimmed[7..setIdx]), trimmed[setIdx + 5..whereIdx], trimmed[whereIdx + 7..])
  }

  function UpdateOf(table: string, sets: string, tests: string): Parsed<Update> {
    match ColParams(Split(sets, ","))
    case Malformed => Malformed
    case Panic => Panic
    case Ok(assignments) =>
      match Conditions(Split(tests, "AND"))
      case Malformed => Malformed
      case Panic => Panic
      case Ok(conditions) => Ok(Update(table, assignments, conditions))
  }

  /** What remains of the parts of a column list: the trimmed ones that are not empty. */
  function ColumnNames(parts: seq<string>): seq<string> {
    if parts == [] then []
    else
      var rest := ColumnNames(parts[1..]);
      if TrimSpace(parts[0]) == "" then rest else [TrimSpace(parts[0])] + rest
  }

  /** parseInsertColumns: the table, and the columns between the first parentheses, if there are any. */
  function ParseInsertColumns(sql: string): Parsed<(string, seq<string>)> {
    var intoIdx := Index(Upper(sql), " INTO ");
    if intoIdx < 0 then Malformed else InsertOf(TrimSpace(sql[intoIdx + 6..]))
  }

  function InsertOf(rest: string): Parsed<(string, seq<string>)> {
    var openIdx := Index(rest, "(");
    if openIdx < 0 then if Fields(rest) == [] then Panic else Ok((Fields(rest)[0], []))
    else
      var closeIdx := Index(rest[openIdx + 1..], ")");
      if closeIdx < 0 then Malformed
      else Ok((TrimSpace(rest[..openIdx]), ColumnNames(Split(rest[openIdx + 1..openIdx + 1 + closeIdx], ","))))
  }

  /** parseReturningColumns: none when there is no RETURNING, an error when nothing follows it. */
  function ParseReturning(sql: string): Parsed<seq<string>> {
    var returningIdx := Index(Upper(sql), " RETURNING ");
    if returningIdx < 0 then Ok([])
    else
      var rest := TrimSpace(sql[returningIdx + 11..]);
      if rest == "" then Malformed else Ok(ColumnNames(Split(rest, ",")))
  }

  // Writing statements

  datatype Test = Equals(column: string, param: nat) | IsNull(column: string) | IsNotNull(column: string)

  function TestWords(t: Test): seq<string> {
    match t
    case Equals(c, n) => [c, "=", "$" + Itoa(n)]
    case IsNull(c) => [c, "IS", "NULL"]
    case IsNotNull(c) => [c, "IS", "NOT", "NULL"]
  }

  function Meaning(t: Test): Condition {
    match t
    case Equals(c, n) => Condition(c, n, false, false)
    case IsNull(c) => Condition(c, 0, true, false)
    case IsNotNull(c) => Condition(c, 0, false, true)
  }

  function Meanings(ts: seq<Test>): seq<Condition> {
    if ts == [] then [] else [Meaning(ts[0])] + Meanings(ts[1..])
  }

  /** Tests joined by AND. */
  function AndWords(ts: seq<Test>): seq<string> {
    if ts == [] then [] else if |ts| == 1 then TestWords(ts[0]) else TestWords(ts[0]) + (["AND"] + AndWords(ts[1..]))
  }

  function WhereWords(ts: seq<Test>): seq<string> {
    if ts == [] then [] else ["WHERE"] + AndWords(ts)
  }

  /** Assignments "c = $n" separated by commas. */
  function SetWords(cs: seq<ColParam>): seq<string>
    requires forall i :: 0 <= i < |cs| ==> cs[i].paramIdx >= 0
  {
    if cs == [] then []
    else
      var value := "$" + Itoa(cs[0].paramIdx);
      if |cs| == 1 then [cs[0].column, "=", value] else [cs[0].column, "=", value + ","] + SetWords(cs[1..])
  }

  const MAX_INT64 := 0x7FFF_FFFF_FFFF_FFFF

  /** A test over a one-word column, with a parameter number that is an int. */
  predicate Spelt(t: Test) {
    IsWord(t.column) && (t.Equals? ==> t.param <= MAX_INT64)
  }

  predicate AllSpelt(ts: seq<Test>) {
    forall i :: 0 <= i < |ts| ==> Spelt(ts[i])
  }

  /** And AND does not occur in the column. */
  predicate Writable(t: Test) {
    Spelt(t) && Absent(t.column, "AND")
  }

  predicate AllWritable(ts: seq<Test>) {
    forall i :: 0 <= i < |ts| ==> Writable(ts[i])
  }

  // Reading them back

  lemma AbsentWithoutChar(s: string, part: string)
    requires part != "" && part[0] !in s
    ensures Absent(s, part)
  {
    forall i | 0 <= i <= |s|
      ensures !OccursAt(s, part, i)
    {
      if OccursAt(s, part, i) {
        OccursHasFirst(s, part, i);
        assert false;
      }
    }
  }

  lemma OccursHasFirst(s: string, part: string, i: nat)
    requires i <= |s| && part != "" && OccursAt(s, part, i)
    ensures i < |s| && s[i] == part[0] && part[0] in s
  {
    assert s[i..][0] == part[0];
  }

  lemma {:induction false} DigitRunOfDigits(s: string)
    requires AllDigits(s)
    ensures DigitRun(s) == s
  {
    if s != "" {
      DigitRunOfDigits(s[1..]);
    }
  }

  lemma ScanOfItoa(n: nat)
    requires n <= MAX_INT64
    ensures ScanInt(Itoa(n)) == Some(n)
  {
    DigitRunOfDigits(Itoa(n));
    ValueOfItoa(n);
    assert IsDigit(Itoa(n)[0]);
  }

  lemma ParamIsWord(n: nat)
    ensures var w := "$" + Itoa(n);
      IsWord(w) && 'A' !in w && ',' !in w && 'W' !in Upper(w) && 'F' !in Upper(w) && 'S' !in Upper(w)
  {
  }

  lemma TestWordsAreWords(t: Test)
    requires Spelt(t)
    ensures AllWords(TestWords(t)) && |TestWords(t)| >= 3
  {
    if t.Equals? {
      ParamIsWord(t.param);
    }
  }

  lemma NoAndInTest(t: Test)
    requires Writable(t)
    ensures Absent(Sentence(TestWords(t)), "AND")
  {
    var ws := TestWords(t);
    if t.Equals? {
      ParamIsWord(t.param);
    }
    forall i | 0 <= i < |ws|
      ensures Absent(ws[i], "AND")
    {
      if i > 0 {
        AbsentWithoutChar(ws[i], "AND");
      }
    }
    AbsentFromSentence(ws, "AND");
  }

  lemma TestIsRead(t: Test)
    requires Writable(t)
    ensures ParseCondition(Sentence(TestWords(t))) == Ok(Meaning(t))
  {
    TestWordsAreWords(t);
    FieldsOfSentence(TestWords(t));
    match t
    case Equals(_, n) =>
      ScanOfItoa(n);
      assert ("$" + Itoa(n))[1..] == Itoa(n);
      assert Upper("=")[0] == '=' && Upper("IS")[0] == 'I';
    case _ =>
  }

  lemma AbsentAfter(before: string, s: string, part: string)
    requires before in ["", " "] && part != "" && part[0] != ' ' && ' ' !in part && Absent(s, part)
    ensures Absent(before + s, part)
  {
    if before == " " {
      AbsentWithoutChar("", part);
      AbsentAcrossSpace("", s, part);
      assert "" + " " + s == before + s;
    } else {
      assert before + s == s;
    }
  }

  /** One test, with the spaces that splitting leaves around it. */
  lemma OneTestIsRead(before: string, t: Test)
    requires before in ["", " "] && Writable(t)
    ensures var s := before + Sentence(TestWords(t));
      && Absent(s, "AND")
      && ParseCondition(TrimSpace(s)) == Ok(Meaning(t))
      && ParseCondition(TrimSpace(s + " ")) == Ok(Meaning(t))
  {
    TestWordsAreWords(t);
    NoAndInTest(t);
    TestIsRead(t);
    var s := before + Sentence(TestWords(t));
    AbsentAfter(before, Sentence(TestWords(t)), "AND");
    TrimOfSentence(TestWords(t), before, "");
    TrimOfSentence(TestWords(t), before, " ");
    assert s + "" == s;
  }

  lemma Front(before: string, s: string, sep: string, rest: string)
    ensures before + (s + " " + sep + rest) == before + s + " " + sep + rest
  {
  }

  lemma AndText(ts: seq<Test>)
    requires |ts| > 1 && AllSpelt(ts)
    ensures Sentence(AndWords(ts)) == Sentence(TestWords(ts[0])) + " " + "AND" + (" " + Sentence(AndWords(ts[1..])))
  {
    var first, more := TestWords(ts[0]), AndWords(ts[1..]);
    AndWordsAreWords(ts[1..]);
    var more' := ["AND"] + more;
    SentenceAppend(first, more');
    SentenceStep(more');
    assert more'[1..] == more && more'[0] == "AND";
    Associate(Sentence(first) + " ", "AND", " " + Sentence(more));
  }

  lemma SplitFirstTest(before: string, ts: seq<Test>)
    requires before in ["", " "] && |ts| > 1 && AllSpelt(ts) && Writable(ts[0])
    ensures Split(before + Sentence(AndWords(ts)), "AND")
         == [before + Sentence(TestWords(ts[0])) + " "] + Split(" " + Sentence(AndWords(ts[1..])), "AND")
  {
    var first, rest := Sentence(TestWords(ts[0])), " " + Sentence(AndWords(ts[1..]));
    OneTestIsRead(before, ts[0]);
    AndText(ts);
    Front(before, first, "AND", rest);
    SplitAtFirst(before + first, "AND", rest);
  }

  lemma ConditionsCons(part: string, parts: seq<string>, c: Condition, cs: seq<Condition>)
    requires ParseCondition(TrimSpace(part)) == Ok(c) && Conditions(parts) == Ok(cs)
    ensures Conditions([part] + parts) == Ok([c] + cs)
  {
    assert ([part] + parts)[1..] == parts;
  }

  /** A conjunction, with or without a space before it, is split and read into its tests. */
  lemma {:induction false} TestsAreRead(before: string, ts: seq<Test>)
    requires before in ["", " "] && ts != [] && AllWritable(ts)
    ensures Conditions(Split(before + Sentence(AndWords(ts)), "AND")) == Ok(Meanings(ts))
    decreases |ts|
  {
    var first := before + Sentence(TestWords(ts[0]));
    OneTestIsRead(before, ts[0]);
    if |ts| == 1 {
      SplitAbsent(first, "AND");
      ConditionsCons(first, [], Meaning(ts[0]), []);
      assert [first] + [] == [first];
      assert ts[1..] == [];
    } else {
      SplitFirstTest(before, ts);
      TestsAreRead(" ", ts[1..]);
      ConditionsCons(first + " ", Split(" " + Sentence(AndWords(ts[1..])), "AND"), Meaning(ts[0]), Meanings(ts[1..]));
    }
  }

  lemma FirstAndInColumn(before: string, column: string, more: string, i: nat)
    requires before in ["", " "] && i <= |column| && OccursAt(column, "AND", i)
    requires forall j :: 0 <= j < i ==> !OccursAt(column, "AND", j)
    ensures Index(before + (column + more), "AND") == |before| + i
    ensures (before + (column + more))[..|before| + i] == before + column[..i]
  {
    var s := before + (column + more);
    assert s[|before| + i..] == column[i..] + more;
    forall j | 0 <= j < |before| + i
      ensures !OccursAt(s, "AND", j)
    {
      if j < |before| {
        assert s[j..][0] == ' ';
      } else {
        assert s[j..] == column[j - |before|..] + more;
        assert !OccursAt(column, "AND", j - |before|);
      }
    }
    IndexIsFirst(s, "AND", |before| + i);
  }

  /** A single word, or nothing, is not a test. */
  lemma PieceIsNoTest(before: string, piece: string)
    requires before in ["", " "] && (piece == "" || IsWord(piece))
    ensures ParseCondition(TrimSpace(before + piece)) == Malformed
  {
    if piece == "" {
      assert before + piece == before;
    } else {
      TrimOfSentence([piece], before, "");
      assert before + piece + "" == before + piece;
      FieldsOfSentence([piece]);
    }
  }

  lemma FirstAnd(column: string) returns (i: nat)
    requires !Absent(column, "AND")
    ensures i <= |column| && OccursAt(column, "AND", i) && forall j :: 0 <= j < i ==> !OccursAt(column, "AND", j)
  {
    i := 0;
    while !OccursAt(column, "AND", i)
      invariant i <= |column| && forall j :: 0 <= j < i ==> !OccursAt(column, "AND", j)
      decreases |column| - i
    {
      assert exists k :: i <= k <= |column| && OccursAt(column, "AND", k);
      i := i + 1;
    }
  }

  lemma ColumnFirst(ts: seq<Test>) returns (more: string)
    requires ts != []
    ensures Sentence(AndWords(ts)) == ts[0].column + more
  {
    SentenceStep(AndWords(ts));
    more := AfterFirst(AndWords(ts));
  }

  lemma BadHead(s: string, i: nat)
    requires Index(s, "AND") == i && ParseCondition(TrimSpace(s[..i])) == Malformed
    ensures Conditions(Split(s, "AND")) == Malformed
  {
  }

  /** A column in which AND occurs is torn apart, and the first piece of it is not a test. */
  lemma TornColumn(before: string, ts: seq<Test>)
    requires before in ["", " "] && ts != [] && IsWord(ts[0].column) && !Absent(ts[0].column, "AND")
    ensures Conditions(Split(before + Sentence(AndWords(ts)), "AND")) == Malformed
  {
    var i := FirstAnd(ts[0].column);
    var more := ColumnFirst(ts);
    FirstAndInColumn(before, ts[0].column, more, i);
    PieceIsNoTest(before, ts[0].column[..i]);
    BadHead(before + (ts[0].column + more), |before| + i);
  }

  lemma ConditionsFail(part: string, parts: seq<string>, c: Condition)
    requires ParseCondition(TrimSpace(part)) == Ok(c) && Conditions(parts) == Malformed
    ensures Conditions([part] + parts) == Malformed
  {
    assert ([part] + parts)[1..] == parts;
  }

  lemma TornAfterFirst(before: string, ts: seq<Test>)
    requires before in ["", " "] && |ts| > 1 && AllSpelt(ts) && Writable(ts[0])
    requires Conditions(Split(" " + Sentence(AndWords(ts[1..])), "AND")) == Malformed
    ensures Conditions(Split(before + Sentence(AndWords(ts)), "AND")) == Malformed
  {
    OneTestIsRead(before, ts[0]);
    SplitFirstTest(before, ts);
    ConditionsFail(before + Sentence(TestWords(ts[0])) + " ", Split(" " + Sentence(AndWords(ts[1..])), "AND"), Meaning(ts[0]));
  }

  /** So a conjunction with such a column anywhere is refused. */
  lemma {:induction false} TornTestsAreRefused(before: string, ts: seq<Test>)
    requires before in ["", " "] && AllSpelt(ts) && !AllWritable(ts)
    ensures Conditions(Split(before + Sentence(AndWords(ts)), "AND")) == Malformed
    decreases |ts|
  {
    if !Writable(ts[0]) {
      TornColumn(before, ts);
    } else {
      TornTestsAreRefused(" ", ts[1..]);
      TornAfterFirst(before, ts);
    }
  }

  lemma {:induction false} AndWordsAreWords(ts: seq<Test>)
    requires AllSpelt(ts)
    ensures AllWords(AndWords(ts)) && (ts != [] ==> |AndWords(ts)| >= 3)
  {
    if ts != [] {
      TestWordsAreWords(ts[0]);
      AndWordsAreWords(ts[1..]);
    }
  }

  lemma {:induction false} UpperPrefix(ws: seq<string>, k: nat)
    requires k <= |ws|
    ensures UpperWords(ws)[..k] == UpperWords(ws[..k])
  {
  }

  lemma IndexOfKeyword(ws: seq<string>, k: nat, keyword: string)
    requires AllWords(ws) && 0 < k < |ws| - 1 && Upper(ws[k]) == keyword
    requires forall j :: 0 < j < k ==> Upper(ws[j]) != keyword
    ensures Index(Upper(Sentence(ws)), " " + keyword + " ") == |Sentence(ws[..k])|
  {
    var upper := UpperWords(ws);
    forall j | 0 <= j < |ws|
      ensures IsWord(upper[j])
    {
      UpperIsWord(ws[j]);
    }
    UpperSentence(ws);
    IndexOfWord(upper, k, keyword);
    UpperPrefix(ws, k);
    UpperSentence(ws[..k]);
  }

  lemma Pieces(s: string, a: string, w: string, b: string)
    requires s == a + " " + w + " " + b
    ensures |a| + |w| + 2 <= |s| && s[..|a|] == a && s[|a| + |w| + 2..] == b
  {
  }

  /** Cutting a sentence at the first interior occurrence of a keyword, in any case. */
  lemma CutAtWord(ws: seq<string>, k: nat, keyword: string)
    requires AllWords(ws) && 0 < k < |ws| - 1 && Upper(ws[k]) == keyword
    requires forall j :: 0 < j < k ==> Upper(ws[j]) != keyword
    ensures var s, i := Sentence(ws), Index(Upper(Sentence(ws)), " " + keyword + " ");
      && i == |Sentence(ws[..k])| && i + |keyword| + 2 <= |s|
      && s[..i] == Sentence(ws[..k])
      && s[i + |keyword| + 2..] == Sentence(ws[k + 1..])
  {
    IndexOfKeyword(ws, k, keyword);
    SentenceAround(ws, k);
    Pieces(Sentence(ws), Sentence(ws[..k]), ws[k], Sentence(ws[k + 1..]));
  }

  lemma NoCut(ws: seq<string>, keyword: string)
    requires AllWords(ws) && IsWord(keyword) && |ws| <= 1
    ensures Index(Upper(Sentence(ws)), " " + keyword + " ") == -1
  {
    forall j | 0 <= j < |ws|
      ensures IsWord(UpperWords(ws)[j])
    {
      UpperIsWord(ws[j]);
    }
    UpperSentence(ws);
    IndexOfNoWord(UpperWords(ws), keyword);
  }

  lemma TailWords(table: string, ts: seq<Test>)
    requires IsWord(table) && AllSpelt(ts)
    ensures AllWords([table] + WhereWords(ts))
  {
    AndWordsAreWords(ts);
    assert IsWord("WHERE");
  }

  lemma SentenceAlone(ws: seq<string>)
    requires AllWords(ws) && ws != []
    ensures TrimSpace(Sentence(ws)) == Sentence(ws)
  {
    TrimOfSentence(ws, "", "");
    assert "" + Sentence(ws) + "" == Sentence(ws);
  }

  lemma TailCut(table: string, tests: seq<string>)
    requires IsWord(table) && AllWords(tests) && tests != []
    ensures var rest := Sentence([table] + (["WHERE"] + tests));
      var whereIdx := Index(Upper(rest), " WHERE ");
      0 <= whereIdx <= |rest| - 7 && rest[..whereIdx] == table && rest[whereIdx + 7..] == Sentence(tests)
  {
    var ws := [table] + (["WHERE"] + tests);
    assert Upper("WHERE") == "WHERE" && " " + "WHERE" + " " == " WHERE ";
    assert ws[1] == "WHERE" && ws[..1] == [table] && ws[2..] == tests;
    CutAtWord(ws, 1, "WHERE");
  }

  /** What a conjunction is read as: its tests, unless AND occurs in a column. */
  function ReadAs(ts: seq<Test>): Parsed<seq<Condition>> {
    if AllWritable(ts) then Ok(Meanings(ts)) else Malformed
  }

  lemma ConjunctionIsRead(ts: seq<Test>)
    requires AllSpelt(ts) && ts != []
    ensures var s := Sentence(AndWords(ts));
      TrimSpace(s) == s && Conditions(Split(s, "AND")) == ReadAs(ts)
  {
    AndWordsAreWords(ts);
    SentenceAlone(AndWords(ts));
    if AllWritable(ts) {
      TestsAreRead("", ts);
    } else {
      TornTestsAreRefused("", ts);
    }
    assert "" + Sentence(AndWords(ts)) == Sentence(AndWords(ts));
  }

  lemma TailIsRead(table: string, ts: seq<Test>)
    requires IsWord(table) && AllSpelt(ts)
    ensures TableOf(Sentence([table] + WhereWords(ts))) == if AllWritable(ts) then Ok((table, Meanings(ts))) else Malformed
  {
    FieldsOfSentence([table]);
    if ts == [] {
      assert [table] + WhereWords(ts) == [table];
      NoCut([table], "WHERE");
      assert " " + "WHERE" + " " == " WHERE ";
    } else {
      AndWordsAreWords(ts);
      TailCut(table, AndWords(ts));
      assert Sentence([table]) == table;
      ConjunctionIsRead(ts);
    }
  }

  lemma FromCut(ws: seq<string>, head: seq<string>, tail: seq<string>)
    requires head != [] && AllWords(ws) && tail != [] && ws == head + (["FROM"] + tail)
    requires forall j :: 0 < j < |head| ==> Upper(head[j]) != "FROM"
    ensures var sql := Sentence(ws);
      var fromIdx := Index(Upper(sql), " FROM ");
      0 <= fromIdx <= |sql| - 6 && sql[fromIdx + 6..] == Sentence(tail)
  {
    assert Upper("FROM") == "FROM" && " " + "FROM" + " " == " FROM ";
    assert ws[|head|] == "FROM" && ws[|head| + 1..] == tail;
    CutAtWord(ws, |head|, "FROM");
  }

  lemma FromWords(head: seq<string>, tail: seq<string>)
    requires AllWords(head) && AllWords(tail)
    ensures AllWords(head + (["FROM"] + tail))
  {
    assert IsWord("FROM");
  }

  /** Everything after FROM is what is left of the statement. */
  lemma AfterFrom(head: seq<string>, tail: seq<string>)
    requires head != [] && AllWords(head) && tail != [] && AllWords(tail)
    requires forall j :: 0 < j < |head| ==> Upper(head[j]) != "FROM"
    ensures ParseTableAndConditions(Sentence(head + (["FROM"] + tail))) == TableOf(Sentence(tail))
  {
    var ws := head + (["FROM"] + tail);
    FromWords(head, tail);
    FromCut(ws, head, tail);
    SentenceAlone(tail);
    AtFrom(Sentence(ws), Sentence(tail));
  }

  lemma AtFrom(sql: string, rest: string)
    requires var fromIdx := Index(Upper(sql), " FROM ");
      0 <= fromIdx <= |sql| - 6 && TrimSpace(sql[fromIdx + 6..]) == rest
    ensures ParseTableAndConditions(sql) == TableOf(rest)
  {
  }

  /**
   A SELECT or DELETE is read back: any words before FROM except FROM itself, any one-word table, any
   list of tests, exactly when AND does not occur in a column of the tests; otherwise it is refused.
   The split is on the letters AND, so a column named BRAND cannot be asked about.
   */
  lemma StatementIsReadIff(head: seq<string>, table: string, ts: seq<Test>)
    requires head != [] && AllWords(head) && IsWord(table) && AllSpelt(ts)
    requires forall j :: 0 < j < |head| ==> Upper(head[j]) != "FROM"
    ensures var sql := Sentence(head + (["FROM"] + ([table] + WhereWords(ts))));
      && (ParseTableAndConditions(sql) == Ok((table, Meanings(ts))) <==> AllWritable(ts))
      && (ParseTableAndConditions(sql) == Malformed <==> !AllWritable(ts))
  {
    var tail := [table] + WhereWords(ts);
    TailWords(table, ts);
    AfterFrom(head, tail);
    TailIsRead(table, ts);
  }

  // UPDATE

  /** An assignment to a one-word column without a comma that is not the keyword WHERE. */
  predicate Assignable(c: ColParam) {
    IsWord(c.column) && ',' !in c.column && Upper(c.column) != "WHERE" && 0 <= c.paramIdx <= MAX_INT64
  }

  predicate AllAssignable(cs: seq<ColParam>) {
    forall i :: 0 <= i < |cs| ==> Assignable(cs[i])
  }

  function OneSet(c: ColParam): seq<string>
    requires c.paramIdx >= 0
  {
    [c.column, "=", "$" + Itoa(c.paramIdx)]
  }

  lemma {:induction false} SetWordsAreWords(cs: seq<ColParam>)
    requires AllAssignable(cs)
    ensures AllWords(SetWords(cs)) && (cs != [] ==> |SetWords(cs)| >= 3)
    ensures forall i :: 0 <= i < |SetWords(cs)| ==> Upper(SetWords(cs)[i]) != "WHERE"
  {
    if cs != [] {
      var w := "$" + Itoa(cs[0].paramIdx);
      ParamIsWord(cs[0].paramIdx);
      assert Upper(w)[0] == '$' && Upper(w + ",")[0] == '$' && Upper("=")[0] == '=';
      SetWordsAreWords(cs[1..]);
    }
  }

  lemma OneSetIsRead(c: ColParam)
    requires Assignable(c)
    ensures AllWords(OneSet(c)) && Absent(Sentence(OneSet(c)), ",")
    ensures ParseColParam(Sentence(OneSet(c))) == Ok(c)
  {
    var ws := OneSet(c);
    ParamIsWord(c.paramIdx);
    forall i | 0 <= i < |ws|
      ensures Absent(ws[i], ",")
    {
      AbsentWithoutChar(ws[i], ",");
    }
    AbsentFromSentence(ws, ",");
    FieldsOfSentence(ws);
    ScanOfItoa(c.paramIdx);
    assert ws[2][1..] == Itoa(c.paramIdx);
  }

  lemma SplitAtComma(a: string, rest: string)
    requires Absent(a, ",")
    ensures Split(a + "," + rest, ",") == [a] + Split(rest, ",")
  {
    var s := a + "," + rest;
    forall j | 0 <= j < |a|
      ensures !OccursAt(s, ",", j)
    {
      assert !OccursAt(a, ",", j);
      assert s[j] == a[j] && a[j..][0] == a[j] && s[j..][0] == s[j];
    }
    assert s[|a|..] == "," + rest;
    IndexIsFirst(s, ",", |a|);
    assert s[..|a|] == a && s[|a| + 1..] == rest;
  }

  lemma ThreeWords(a: string, b: string, c: string)
    ensures Sentence([a, b, c]) == a + " " + b + " " + c
  {
    SentenceStep([a, b, c]);
    SentenceStep([b, c]);
    assert [a, b, c][1..] == [b, c] && [b, c][1..] == [c];
    assert Sentence([c]) == c;
    Regroup(a, b, c);
    Associate(a, " ", b + (" " + c));
  }

  lemma SetText(cs: seq<ColParam>)
    requires |cs| > 1 && AllAssignable(cs)
    ensures Sentence(SetWords(cs)) == Sentence(OneSet(cs[0])) + "," + (" " + Sentence(SetWords(cs[1..])))
  {
    var more := SetWords(cs[1..]);
    var c, w := cs[0].column, "$" + Itoa(cs[0].paramIdx);
    SetWordsAreWords(cs[1..]);
    SentenceAppend([c, "=", w + ","], more);
    ThreeWords(c, "=", w + ",");
    ThreeWords(c, "=", w);
    Associate(c + " " + "=" + " ", w, ",");
    Associate(Sentence(OneSet(cs[0])) + ",", " ", Sentence(more));
  }

  lemma ColParamsCons(part: string, parts: seq<string>, c: ColParam, cs: seq<ColParam>)
    requires ParseColParam(TrimSpace(part)) == Ok(c) && ColParams(parts) == Ok(cs)
    ensures ColParams([part] + parts) == Ok([c] + cs)
  {
    assert ([part] + parts)[1..] == parts;
  }

  /** One assignment, with the space that splitting leaves before it. */
  lemma OneAssignmentIsRead(before: string, c: ColParam)
    requires before in ["", " "] && Assignable(c)
    ensures var s := before + Sentence(OneSet(c));
      Absent(s, ",") && ParseColParam(TrimSpace(s)) == Ok(c)
  {
    var s := before + Sentence(OneSet(c));
    OneSetIsRead(c);
    AbsentAfter(before, Sentence(OneSet(c)), ",");
    TrimOfSentence(OneSet(c), before, "");
    assert s + "" == s;
  }

  lemma FrontComma(before: string, one: string, rest: string)
    ensures before + (one + "," + rest) == before + one + "," + rest
  {
  }

  lemma LastAssignmentIsRead(before: string, c: ColParam)
    requires before in ["", " "] && Assignable(c)
    ensures ColParams(Split(before + Sentence(SetWords([c])), ",")) == Ok([c])
  {
    var first := before + Sentence(OneSet(c));
    OneAssignmentIsRead(before, c);
    assert SetWords([c]) == OneSet(c);
    SplitAbsent(first, ",");
    ColParamsCons(first, [], c, []);
    assert [first] + [] == [first] && [c] + [] == [c];
  }

  lemma SplitFirstAssignment(before: string, cs: seq<ColParam>)
    requires before in ["", " "] && |cs| > 1 && AllAssignable(cs)
    ensures Split(before + Sentence(SetWords(cs)), ",")
         == [before + Sentence(OneSet(cs[0]))] + Split(" " + Sentence(SetWords(cs[1..])), ",")
  {
    var one, rest := Sentence(OneSet(cs[0])), " " + Sentence(SetWords(cs[1..]));
    OneAssignmentIsRead(before, cs[0]);
    SetText(cs);
    FrontComma(before, one, rest);
    SplitAtComma(before + one, rest);
  }

  lemma AssignmentsStep(whole: string, first: string, rest: string, cs: seq<ColParam>)
    requires cs != [] && ParseColParam(TrimSpace(first)) == Ok(cs[0]) && ColParams(Split(rest, ",")) == Ok(cs[1..])
    requires Split(whole, ",") == [first] + Split(rest, ",")
    ensures ColParams(Split(whole, ",")) == Ok(cs)
  {
    ColParamsCons(first, Split(rest, ","), cs[0], cs[1..]);
    assert cs == [cs[0]] + cs[1..];
  }

  lemma FirstAssignmentIsRead(before: string, cs: seq<ColParam>)
    requires before in ["", " "] && |cs| > 1 && AllAssignable(cs)
    requires ColParams(Split(" " + Sentence(SetWords(cs[1..])), ",")) == Ok(cs[1..])
    ensures ColParams(Split(before + Sentence(SetWords(cs)), ",")) == Ok(cs)
  {
    OneAssignmentIsRead(before, cs[0]);
    SplitFirstAssignment(before, cs);
    AssignmentsStep(before + Sentence(SetWords(cs)), before + Sentence(OneSet(cs[0])), " " + Sentence(SetWords(cs[1..])), cs);
  }

  lemma {:induction false} AssignmentsAreRead(before: string, cs: seq<ColParam>)
    requires before in ["", " "] && cs != [] && AllAssignable(cs)
    ensures ColParams(Split(before + Sentence(SetWords(cs)), ",")) == Ok(cs)
    decreases |cs|
  {
    if |cs| == 1 {
      LastAssignmentIsRead(before, cs[0]);
      assert cs == [cs[0]];
    } else {
      AssignmentsAreRead(" ", cs[1..]);
      FirstAssignmentIsRead(before, cs);
    }
  }

  /** The cut of an UPDATE at SET, the same whatever follows the first words. */
  lemma SetCut(ws: seq<string>, table: string, more: seq<string>)
    requires IsWord(table) && Upper(table) != "SET" && AllWords(more) && more != []
    requires ws == ["UPDATE", table, "SET"] + more
    ensures var s := Sentence(ws);
      var setIdx := Index(Upper(s), " SET ");
      && setIdx == |Sentence(["UPDATE", table])| && setIdx + 5 <= |s|
      && s[..setIdx] == Sentence(["UPDATE", table]) && s[setIdx + 5..] == Sentence(more)
  {
    assert Upper("SET") == "SET" && " " + "SET" + " " == " SET ";
    assert ws[2] == "SET" && ws[1] == table && ws[..2] == ["UPDATE", table] && ws[3..] == more;
    CutAtWord(ws, 2, "SET");
  }

  lemma WordBetween(ws: seq<string>, front: seq<string>, w: string, back: seq<string>)
    requires AllWords(front) && IsWord(w) && AllWords(back) && ws == front + ([w] + back)
    ensures AllWords(ws) && ws[|front|] == w && ws[..|front|] == front && ws[|front| + 1..] == back
  {
    assert forall i :: 0 <= i < |back| ==> ws[|front| + 1 + i] == back[i];
  }

  /** The cut of an UPDATE at WHERE. */
  lemma WhereCut(ws: seq<string>, front: seq<string>, tests: seq<string>)
    requires AllWords(front) && front != [] && AllWords(tests) && tests != []
    requires forall i :: 0 < i < |front| ==> Upper(front[i]) != "WHERE"
    requires ws == front + (["WHERE"] + tests)
    ensures var s := Sentence(ws);
      var whereIdx := Index(Upper(s), " WHERE ");
      0 <= whereIdx <= |s| - 7 && s[..whereIdx] == Sentence(front) && s[whereIdx + 7..] == Sentence(tests)
  {
    assert Upper("WHERE") == "WHERE" && " " + "WHERE" + " " == " WHERE ";
    WordBetween(ws, front, "WHERE", tests);
    CutAtWord(ws, |front|, "WHERE");
  }

  /** A statement with its two cuts in place: head, SET, assignments, WHERE, conditions. */
  ghost predicate CutAsUpdate(s: string, head: string, sets: string, tests: string) {
    var setIdx, whereIdx := Index(Upper(s), " SET "), Index(Upper(s), " WHERE ");
    && 0 <= setIdx && setIdx + 5 <= whereIdx <= |s| - 7
    && s[..setIdx] == head && s[setIdx + 5..whereIdx] == sets && s[whereIdx + 7..] == tests
  }

  /** What lies between the cuts, from the cuts of the whole and of its front. */
  lemma MiddleCut(s: string, front: string, head: string, sets: string, tests: string)
    requires var setIdx := Index(Upper(s), " SET ");
      0 <= setIdx <= |s| - 5 && s[..setIdx] == head && setIdx + 5 <= |front| && front[setIdx + 5..] == sets
    requires var whereIdx := Index(Upper(s), " WHERE ");
      0 <= whereIdx <= |s| - 7 && s[..whereIdx] == front && s[whereIdx + 7..] == tests
    ensures CutAsUpdate(s, head, sets, tests)
  {
    var setIdx, whereIdx := Index(Upper(s), " SET "), Index(Upper(s), " WHERE ");
    assert s[setIdx + 5..whereIdx] == s[..whereIdx][setIdx + 5..];
  }

  lemma UpdateWordsAreWords(front: seq<string>, table: string, sets: seq<string>, tests: seq<string>)
    requires IsWord(table) && AllWords(sets) && AllWords(tests)
    requires front == ["UPDATE", table, "SET"] + sets
    requires Upper(table) != "WHERE" && forall i :: 0 <= i < |sets| ==> Upper(sets[i]) != "WHERE"
    ensures AllWords(front) && AllWords(["WHERE"] + tests) && AllWords(front + (["WHERE"] + tests))
    ensures forall i :: 0 < i < |front| ==> Upper(front[i]) != "WHERE"
  {
    assert IsWord("UPDATE") && IsWord("SET") && IsWord("WHERE");
    assert AllWords(["UPDATE", table, "SET"]);
    forall i | 0 < i < |front|
      ensures Upper(front[i]) != "WHERE"
    {
      if i == 2 {
        assert Upper("SET")[0] == 'S';
      } else if i > 2 {
        assert front[i] == sets[i - 3];
      }
    }
  }

  lemma UpdateRegroup(front: seq<string>, table: string, sets: seq<string>, tests: seq<string>)
    requires front == ["UPDATE", table, "SET"] + sets
    ensures front + (["WHERE"] + tests) == ["UPDATE", table, "SET"] + (sets + (["WHERE"] + tests))
  {
  }

  lemma SetCuts(ws: seq<string>, front: seq<string>, table: string, sets: seq<string>, tests: seq<string>)
    requires IsWord(table) && Upper(table) != "SET" && AllWords(sets) && sets != [] && AllWords(["WHERE"] + tests)
    requires front == ["UPDATE", table, "SET"] + sets && ws == front + (["WHERE"] + tests)
    ensures var s := Sentence(ws);
      var setIdx := Index(Upper(s), " SET ");
      && 0 <= setIdx <= |s| - 5 && s[..setIdx] == Sentence(["UPDATE", table])
      && setIdx + 5 <= |Sentence(front)| && Sentence(front)[setIdx + 5..] == Sentence(sets)
  {
    UpdateRegroup(front, table, sets, tests);
    SetCut(front, table, sets);
    SetCut(ws, table, sets + (["WHERE"] + tests));
  }

  /** The two cuts of an UPDATE and the three pieces they leave. */
  lemma UpdateCuts(ws: seq<string>, front: seq<string>, table: string, sets: seq<string>, tests: seq<string>)
    requires IsWord(table) && Upper(table) != "SET" && Upper(table) != "WHERE"
    requires AllWords(sets) && sets != [] && AllWords(tests) && tests != []
    requires forall i :: 0 <= i < |sets| ==> Upper(sets[i]) != "WHERE"
    requires front == ["UPDATE", table, "SET"] + sets && ws == front + (["WHERE"] + tests)
    ensures AllWords(ws) && CutAsUpdate(Sentence(ws), Sentence(["UPDATE", table]), Sentence(sets), Sentence(tests))
  {
    UpdateWordsAreWords(front, table, sets, tests);
    SetCuts(ws, front, table, sets, tests);
    WhereCut(ws, front, tests);
    MiddleCut(Sentence(ws), Sentence(front), Sentence(["UPDATE", table]), Sentence(sets), Sentence(tests));
  }

  lemma UpdatePrefix(table: string, s: string, i: nat)
    requires IsWord(table) && i <= |s| && s[..i] == Sentence(["UPDATE", table])
    ensures 7 <= i && "UPDATE " <= Upper(s) && TrimSpace(s[7..i]) == table
  {
    SentenceStep(["UPDATE", table]);
    assert ["UPDATE", table][1..] == [table];
    assert Sentence([table]) == table;
    var head := "UPDATE " + table;
    assert s[..i] == head;
    assert s[7..i] == s[..i][7..] == table;
    SentenceAlone([table]);
    assert s[..7] == s[..i][..7] == "UPDATE ";
    assert Upper(s)[..7] == Upper(s[..7]);
    assert Upper("UPDATE ") == "UPDATE ";
  }

  /**
   An UPDATE is read back: any one-word table but SET and WHERE, any assignments, any tests, exactly when
   AND does not occur in a column of the tests; otherwise it is refused.
   */
  lemma UpdateIsReadIff(table: string, cs: seq<ColParam>, ts: seq<Test>)
    requires IsWord(table) && Upper(table) != "SET" && Upper(table) != "WHERE"
    requires cs != [] && AllAssignable(cs) && ts != [] && AllSpelt(ts)
    ensures var sql := Sentence(["UPDATE", table, "SET"] + SetWords(cs) + WhereWords(ts));
      && (ParseSimpleUpdate(sql) == Ok(Update(table, cs, Meanings(ts))) <==> AllWritable(ts))
      && (ParseSimpleUpdate(sql) == Malformed <==> !AllWritable(ts))
  {
    SetWordsAreWords(cs);
    AndWordsAreWords(ts);
    var front := ["UPDATE", table, "SET"] + SetWords(cs);
    var ws := front + WhereWords(ts);
    UpdateCuts(ws, front, table, SetWords(cs), AndWords(ts));
    SentenceAlone(ws);
    UpdateOfPieces(Sentence(ws), table, Sentence(SetWords(cs)), Sentence(AndWords(ts)));
    PiecesAreRead(table, cs, ts);
  }

  lemma UpdateOfPieces(s: string, table: string, sets: string, tests: string)
    requires IsWord(table) && TrimSpace(s) == s && CutAsUpdate(s, Sentence(["UPDATE", table]), sets, tests)
    ensures ParseSimpleUpdate(s) == UpdateOf(table, sets, tests)
  {
    var setIdx, whereIdx := Index(Upper(s), " SET "), Index(Upper(s), " WHERE ");
    UpdatePrefix(table, s, setIdx);
    UpdateAtCuts(s, setIdx, whereIdx, table, sets, tests);
    UpdateStarts(s);
  }

  lemma UpdateAtCuts(s: string, setIdx: int, whereIdx: int, table: string, sets: string, tests: string)
    requires 7 <= setIdx && setIdx + 5 <= whereIdx <= |s| - 7 && TrimSpace(s[7..setIdx]) == table
    requires s[setIdx + 5..whereIdx] == sets && s[whereIdx + 7..] == tests
    ensures UpdateAt(s, setIdx, whereIdx) == UpdateOf(table, sets, tests)
  {
  }

  lemma UpdateStarts(s: string)
    requires TrimSpace(s) == s && "UPDATE " <= Upper(s)
    ensures ParseSimpleUpdate(s) == UpdateAt(s, Index(Upper(s), " SET "), Index(Upper(s), " WHERE "))
  {
  }

  lemma PiecesAreRead(table: string, cs: seq<ColParam>, ts: seq<Test>)
    requires cs != [] && AllAssignable(cs) && ts != [] && AllSpelt(ts)
    ensures UpdateOf(table, Sentence(SetWords(cs)), Sentence(AndWords(ts))) ==
      if AllWritable(ts) then Ok(Update(table, cs, Meanings(ts))) else Malformed
  {
    AssignmentsAreRead("", cs);
    assert "" + Sentence(SetWords(cs)) == Sentence(SetWords(cs));
    ConjunctionIsRead(ts);
  }

  // INSERT

  /** Column names separated by commas. */
  function CommaList(cols: seq<string>): string {
    if cols == [] then "" else if |cols| == 1 then cols[0] else cols[0] + "," + (" " + CommaList(cols[1..]))
  }

  /** A one-word column without a comma or a closing parenthesis. */
  predicate Listable(c: string) {
    IsWord(c) && ',' !in c && ')' !in c
  }

  predicate AllListable(cols: seq<string>) {
    forall i :: 0 <= i < |cols| ==> Listable(cols[i])
  }

  lemma OneNameIsRead(before: string, c: string)
    requires before in ["", " "] && Listable(c)
    ensures Absent(before + c, ",") && TrimSpace(before + c) == c
  {
    AbsentWithoutChar(c, ",");
    AbsentAfter(before, c, ",");
    TrimOfSentence([c], before, "");
    assert before + c + "" == before + c;
  }

  lemma NamesCons(whole: string, part: string, rest: string, cols: seq<string>)
    requires cols != [] && cols[0] != "" && TrimSpace(part) == cols[0] && ColumnNames(Split(rest, ",")) == cols[1..]
    requires Split(whole, ",") == [part] + Split(rest, ",")
    ensures ColumnNames(Split(whole, ",")) == cols
  {
    assert Split(whole, ",")[1..] == Split(rest, ",");
    assert cols == [cols[0]] + cols[1..];
  }

  lemma {:induction false} NamesAreRead(before: string, cols: seq<string>)
    requires before in ["", " "] && cols != [] && AllListable(cols)
    ensures ColumnNames(Split(before + CommaList(cols), ",")) == cols
    decreases |cols|
  {
    OneNameIsRead(before, cols[0]);
    if |cols| == 1 {
      SplitAbsent(before + cols[0], ",");
      var parts := [before + cols[0]];
      assert parts[1..] == [] && cols == [cols[0]];
    } else {
      var rest := " " + CommaList(cols[1..]);
      FrontComma(before, cols[0], rest);
      SplitAtComma(before + cols[0], rest);
      NamesAreRead(" ", cols[1..]);
      NamesCons(before + CommaList(cols), before + cols[0], rest, cols);
    }
  }

  lemma {:induction false} ListHasNoParenthesis(cols: seq<string>)
    requires AllListable(cols)
    ensures ')' !in CommaList(cols)
  {
    if |cols| > 1 {
      ListHasNoParenthesis(cols[1..]);
    }
  }

  /** Trimming reaches no further back than the last character that is not a space. */
  lemma {:induction false} TrimRightKeeps(a: string, tail: string)
    requires a != "" && !IsSpace(a[|a| - 1])
    ensures a <= TrimRight(a + tail, IsSpace)
  {
    if tail == "" {
      assert a + tail == a;
    } else {
      var front := tail[..|tail| - 1];
      assert (a + tail)[..|a + tail| - 1] == a + front;
      TrimRightKeeps(a, front);
    }
  }

  lemma AfterInto(rest: string)
    ensures Index(Upper("INSERT INTO " + rest), " INTO ") == 6
    ensures ("INSERT INTO " + rest)[12..] == rest
  {
    var s := "INSERT INTO " + rest;
    var upper := Upper(s);
    assert Upper("INSERT INTO ") == "INSERT INTO ";
    UpperAppend("INSERT INTO ", rest);
    assert upper[..12] == "INSERT INTO ";
    assert upper[6..] == " INTO " + Upper(rest);
    forall j | 0 <= j < 6
      ensures !OccursAt(upper, " INTO ", j)
    {
      assert upper[j..][0] == upper[..12][j] == "INSERT INTO "[j];
    }
    IndexIsFirst(upper, " INTO ", 6);
  }

  lemma InsertCut(s: string, i: nat, n: nat, head: string, list: string)
    requires Index(s, "(") == i && Index(s[i + 1..], ")") == n && s[..i] == head && s[i + 1..][..n] == list
    ensures InsertOf(s) == Ok((TrimSpace(head), ColumnNames(Split(list, ","))))
  {
    assert s[i + 1..i + 1 + n] == list;
  }

  lemma InsertPieces(table: string, list: string, tail: string)
    requires IsWord(table) && '(' !in table && ')' !in list
    ensures InsertOf(table + " " + ("(" + (list + (")" + tail)))) == Ok((table, ColumnNames(Split(list, ","))))
  {
    var after := list + (")" + tail);
    var s := table + " " + ("(" + after);
    FirstChar(table + " ", '(', after);
    FirstChar(list, ')', tail);
    InsertCut(s, |table| + 1, |list|, table + " ", list);
    TrimOfSentence([table], "", " ");
    assert "" + table + " " == table + " ";
  }

  /** Trimming the statement only shortens what follows the columns. */
  lemma TrimmedInsert(table: string, list: string, tail: string) returns (t: string)
    requires IsWord(table)
    ensures TrimSpace(table + " " + ("(" + (list + (")" + tail)))) == table + " " + ("(" + (list + (")" + t)))
  {
    var head, rest := table + " " + ("(" + (list + ")")), table + " " + ("(" + (list + (")" + tail)));
    assert rest == head + tail;
    TrimRightKeeps(head, tail);
    assert TrimLeft(rest, IsSpace) == rest;
    t := TrimRight(rest, IsSpace)[|head|..];
    assert TrimRight(rest, IsSpace) == head + t;
  }

  lemma ListIsRead(cols: seq<string>)
    requires AllListable(cols)
    ensures ColumnNames(Split(CommaList(cols), ",")) == cols
  {
    if cols == [] {
      SplitAbsent("", ",");
    } else {
      NamesAreRead("", cols);
      assert "" + CommaList(cols) == CommaList(cols);
    }
  }

  /** An INSERT is read back: any one-word table, any list of columns, whatever follows them. */
  lemma InsertIsRead(table: string, cols: seq<string>, tail: string)
    requires IsWord(table) && '(' !in table && AllListable(cols)
    ensures ParseInsertColumns("INSERT INTO " + (table + " " + ("(" + (CommaList(cols) + (")" + tail))))) == Ok((table, cols))
  {
    var list := CommaList(cols);
    AfterInto(table + " " + ("(" + (list + (")" + tail))));
    var t := TrimmedInsert(table, list, tail);
    ListHasNoParenthesis(cols);
    InsertPieces(table, list, t);
    ListIsRead(cols);
  }

  lemma ListEnds(cols: seq<string>)
    requires cols != [] && AllListable(cols)
    ensures TrimSpace(CommaList(cols)) == CommaList(cols) && CommaList(cols) != ""
  {
    ListStarts(cols);
    ListStops(cols);
    var list := CommaList(cols);
    assert list + "" == list && "" + list == list;
    TrimAround("", list, "");
  }

  lemma ListStarts(cols: seq<string>)
    requires cols != [] && AllListable(cols)
    ensures CommaList(cols) != "" && !IsSpace(CommaList(cols)[0])
  {
    assert IsWord(cols[0]);
  }

  lemma {:induction false} ListStops(cols: seq<string>)
    requires cols != [] && AllListable(cols)
    ensures CommaList(cols) != "" && !IsSpace(CommaList(cols)[|CommaList(cols)| - 1])
  {
    assert IsWord(cols[0]);
    if |cols| > 1 {
      ListStops(cols[1..]);
    }
  }

  /** The columns after the first RETURNING are read back, whatever words come before. */
  lemma ReturningIsRead(ws: seq<string>, k: nat, cols: seq<string>)
    requires AllWords(ws) && 0 < k < |ws| - 1 && Upper(ws[k]) == "RETURNING"
    requires forall j :: 0 < j < k ==> Upper(ws[j]) != "RETURNING"
    requires cols != [] && AllListable(cols) && Sentence(ws[k + 1..]) == CommaList(cols)
    ensures ParseReturning(Sentence(ws)) == Ok(cols)
  {
    CutAtWord(ws, k, "RETURNING");
    assert " " + "RETURNING" + " " == " RETURNING ";
    ListEnds(cols);
    ListIsRead(cols);
  }

  lemma InsertSentence(table: string, column: string, more: seq<string>)
    requires more != []
    ensures Sentence(["INSERT", "INTO", table, "(" + column + ")"] + more)
         == "INSERT INTO " + (table + " " + ("(" + (CommaList([column]) + (")" + (" " + Sentence(more))))))
  {
    var ws := ["INSERT", "INTO", table, "(" + column + ")"] + more;
    assert ws[1..][1..] == [table, "(" + column + ")"] + more;
    assert ws[1..][1..][1..] == ["(" + column + ")"] + more && ws[1..][1..][1..][1..] == more;
    assert Sentence(ws[1..][1..][1..]) == "(" + column + ")" + (" " + Sentence(more));
    assert Sentence(ws) == "INSERT" + (" " + ("INTO" + (" " + Sentence(ws[1..][1..]))));
    assert "INSERT" + (" " + ("INTO" + (" " + Sentence(ws[1..][1..])))) == "INSERT INTO " + Sentence(ws[1..][1..]);
  }
}
