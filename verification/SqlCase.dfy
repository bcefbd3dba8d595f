/** Statements of the same letters in different cases: keywords, tables and columns in any case read the same. */
module SqlCase {
  import opened Options
  import opened Text
  import opened Decimal
  import opened SqlText

  predicate AndAt(s: string, i: int) {
    0 <= i && i + 3 <= |s| && s[i] == 'A' && s[i + 1] == 'N' && s[i + 2] == 'D'
  }

  /** The same letters, and AND in capitals at the same places. */
  predicate Alike(a: string, b: string) {
    SameName(a, b) && forall i :: 0 <= i < |a| ==> (AndAt(a, i) <==> AndAt(b, i))
  }

  predicate AllSameName(a: seq<string>, b: seq<string>) {
    |a| == |b| && forall i :: 0 <= i < |a| ==> SameName(a[i], b[i])
  }

  lemma PartIsAlike(a: string, b: string, i: nat, j: nat)
    requires SameName(a, b) && i <= j <= |a|
    ensures SameName(a[i..j], b[i..j])
    ensures Alike(a, b) ==> Alike(a[i..j], b[i..j])
  {
    if Alike(a, b) {
      forall k | 0 <= k < j - i
        ensures AndAt(a[i..j], k) <==> AndAt(b[i..j], k)
      {
        assert AndAt(a, i + k) <==> AndAt(b, i + k);
      }
    }
  }

  lemma RestIsAlike(a: string, b: string, i: nat)
    requires SameName(a, b) && i <= |a|
    ensures SameName(a[i..], b[i..])
    ensures Alike(a, b) ==> Alike(a[i..], b[i..])
  {
    PartIsAlike(a, b, i, |a|);
    assert a[i..] == a[i..|a|] && b[i..] == b[i..|a|];
  }

  lemma {:induction false} LeftTrimIsAlike(a: string, b: string)
    requires SameName(a, b)
    ensures SameName(TrimLeft(a, IsSpace), TrimLeft(b, IsSpace))
    ensures Alike(a, b) ==> Alike(TrimLeft(a, IsSpace), TrimLeft(b, IsSpace))
    decreases |a|
  {
    if a != "" {
      assert SameLetter(a[0], b[0]);
      RestIsAlike(a, b, 1);
      LeftTrimIsAlike(a[1..], b[1..]);
    }
  }

  lemma {:induction false} RightTrimIsAlike(a: string, b: string)
    requires SameName(a, b)
    ensures SameName(TrimRight(a, IsSpace), TrimRight(b, IsSpace))
    ensures Alike(a, b) ==> Alike(TrimRight(a, IsSpace), TrimRight(b, IsSpace))
    decreases |a|
  {
    if a != "" {
      assert SameLetter(a[|a| - 1], b[|a| - 1]);
      PartIsAlike(a, b, 0, |a| - 1);
      assert a[..|a| - 1] == a[0..|a| - 1] && b[..|a| - 1] == b[0..|a| - 1];
      RightTrimIsAlike(a[..|a| - 1], b[..|a| - 1]);
    }
  }

  lemma TrimIsAlike(a: string, b: string)
    requires SameName(a, b)
    ensures SameName(TrimSpace(a), TrimSpace(b))
    ensures Alike(a, b) ==> Alike(TrimSpace(a), TrimSpace(b))
  {
    LeftTrimIsAlike(a, b);
    RightTrimIsAlike(TrimLeft(a, IsSpace), TrimLeft(b, IsSpace));
  }

  lemma {:induction false} FirstWordEnds(s: string, n: nat)
    requires n <= |s| && (forall i :: 0 <= i < n ==> !IsSpace(s[i])) && (n < |s| ==> IsSpace(s[n]))
    ensures FirstWord(s) == s[..n]
  {
    if n > 0 {
      FirstWordEnds(s[1..], n - 1);
    }
  }

  lemma FirstWordIsAlike(a: string, b: string)
    requires SameName(a, b)
    ensures SameName(FirstWord(a), FirstWord(b))
  {
    var w := FirstWord(a);
    assert forall i :: 0 <= i < |a| ==> SameLetter(a[i], b[i]);
    assert forall i :: 0 <= i < |w| ==> w[i] == a[i];
    FirstWordEnds(b, |w|);
  }

  lemma {:induction false} FieldsAreAlike(a: string, b: string)
    requires SameName(a, b)
    ensures AllSameName(Fields(a), Fields(b))
    decreases |a|
  {
    if a != "" {
      assert SameLetter(a[0], b[0]);
      if IsSpace(a[0]) {
        RestIsAlike(a, b, 1);
        FieldsAreAlike(a[1..], b[1..]);
      } else {
        FirstWordIsAlike(a, b);
        var n := |FirstWord(a)|;
        RestIsAlike(a, b, n);
        FieldsAreAlike(a[n..], b[n..]);
      }
    }
  }

  lemma {:induction false} IndexIsAlike(a: string, b: string, part: string)
    requires |a| == |b| && forall i :: 0 <= i <= |a| ==> (OccursAt(a, part, i) <==> OccursAt(b, part, i))
    ensures Index(a, part) == Index(b, part)
    decreases |a|
  {
    assert a[0..] == a && b[0..] == b && (OccursAt(a, part, 0) <==> OccursAt(b, part, 0));
    if a != "" {
      forall i | 0 <= i <= |a| - 1
        ensures OccursAt(a[1..], part, i) <==> OccursAt(b[1..], part, i)
      {
        assert a[1..][i..] == a[i + 1..] && b[1..][i..] == b[i + 1..];
        assert OccursAt(a, part, i + 1) <==> OccursAt(b, part, i + 1);
      }
      IndexIsAlike(a[1..], b[1..], part);
    }
  }

  lemma OccursAtAnd(s: string, i: nat)
    requires i <= |s|
    ensures OccursAt(s, "AND", i) <==> AndAt(s, i)
  {
    if AndAt(s, i) {
      assert s[i..][..3] == "AND";
    }
    if OccursAt(s, "AND", i) {
      assert s[i..][0] == 'A' && s[i..][1] == 'N' && s[i..][2] == 'D';
    }
  }

  lemma AndIsAlike(a: string, b: string)
    requires Alike(a, b)
    ensures Index(a, "AND") == Index(b, "AND")
  {
    forall i | 0 <= i <= |a|
      ensures OccursAt(a, "AND", i) <==> OccursAt(b, "AND", i)
    {
      OccursAtAnd(a, i);
      OccursAtAnd(b, i);
    }
    IndexIsAlike(a, b, "AND");
  }

  predicate IsLetter(c: char) {
    'a' <= c <= 'z' || 'A' <= c <= 'Z'
  }

  lemma {:induction false} MarkIsAlike(a: string, b: string, c: char)
    requires SameName(a, b) && !IsLetter(c)
    ensures Index(a, [c]) == Index(b, [c])
    decreases |a|
  {
    if a != "" {
      assert SameLetter(a[0], b[0]);
      RestIsAlike(a, b, 1);
      MarkIsAlike(a[1..], b[1..], c);
    }
  }

  predicate AllAlike(a: seq<string>, b: seq<string>) {
    |a| == |b| && forall i :: 0 <= i < |a| ==> Alike(a[i], b[i])
  }

  lemma HeadIsAlike(a: string, b: string, i: nat)
    requires SameName(a, b) && i <= |a|
    ensures SameName(a[..i], b[..i]) && SameName(TrimSpace(a[..i]), TrimSpace(b[..i]))
    ensures Alike(a, b) ==> Alike(a[..i], b[..i])
  {
    PartIsAlike(a, b, 0, i);
    assert a[..i] == a[0..i] && b[..i] == b[0..i];
    TrimIsAlike(a[..i], b[..i]);
  }

  lemma SplitStep(s: string, sep: string, i: nat, front: string, back: string)
    requires sep != "" && Index(s, sep) == i && front == s[..i] && back == s[i + |sep|..]
    ensures Split(s, sep) == [front] + Split(back, sep)
  {
  }

  lemma AlikeCons(x: string, y: string, a: seq<string>, b: seq<string>)
    requires Alike(x, y) && AllAlike(a, b)
    ensures AllAlike([x] + a, [y] + b)
  {
  }

  lemma NoAnd(s: string)
    requires Index(s, "AND") < 0
    ensures Split(s, "AND") == [s]
  {
  }

  lemma AndCut(a: string, b: string, i: nat)
    requires Alike(a, b) && Index(a, "AND") == i == Index(b, "AND")
    ensures Split(a, "AND") == [a[..i]] + Split(a[i + 3..], "AND")
    ensures Split(b, "AND") == [b[..i]] + Split(b[i + 3..], "AND")
    ensures Alike(a[..i], b[..i]) && Alike(a[i + 3..], b[i + 3..])
  {
    SplitStep(a, "AND", i, a[..i], a[i + 3..]);
    SplitStep(b, "AND", i, b[..i], b[i + 3..]);
    HeadIsAlike(a, b, i);
    RestIsAlike(a, b, i + 3);
  }

  /** Alike texts split at the same places into alike parts. */
  lemma {:induction false} SplitIsAlike(a: string, b: string)
    requires Alike(a, b)
    ensures AllAlike(Split(a, "AND"), Split(b, "AND"))
    decreases |a|
  {
    AndIsAlike(a, b);
    var i := Index(a, "AND");
    if i < 0 {
      NoAnd(a);
      NoAnd(b);
    } else {
      AndCut(a, b, i);
      SplitIsAlike(a[i + 3..], b[i + 3..]);
      AlikeCons(a[..i], b[..i], Split(a[i + 3..], "AND"), Split(b[i + 3..], "AND"));
    }
  }

  lemma SameNameCons(x: string, y: string, a: seq<string>, b: seq<string>)
    requires SameName(x, y) && AllSameName(a, b)
    ensures AllSameName([x] + a, [y] + b)
  {
  }

  lemma {:induction false} ListIsAlike(a: string, b: string)
    requires SameName(a, b)
    ensures AllSameName(Split(a, ","), Split(b, ","))
    decreases |a|
  {
    MarkIsAlike(a, b, ',');
    var i := Index(a, ",");
    if i >= 0 {
      SplitStep(a, ",", i, a[..i], a[i + 1..]);
      SplitStep(b, ",", i, b[..i], b[i + 1..]);
      HeadIsAlike(a, b, i);
      RestIsAlike(a, b, i + 1);
      ListIsAlike(a[i + 1..], b[i + 1..]);
      SameNameCons(a[..i], b[..i], Split(a[i + 1..], ","), Split(b[i + 1..], ","));
    }
  }

  lemma {:induction false} DigitsAreAlike(a: string, b: string)
    requires SameName(a, b)
    ensures DigitRun(a) == DigitRun(b)
    decreases |a|
  {
    if a != "" {
      assert SameLetter(a[0], b[0]);
      RestIsAlike(a, b, 1);
      DigitsAreAlike(a[1..], b[1..]);
    }
  }

  lemma ScanOfRuns(a: string, b: string)
    requires a != "" && b != "" && (a[0] == b[0] || (a[0] !in "+-" && b[0] !in "+-"))
    requires DigitRun(a) == DigitRun(b) && DigitRun(a[1..]) == DigitRun(b[1..])
    ensures ScanInt(a) == ScanInt(b)
  {
  }

  lemma ScanIsAlike(a: string, b: string)
    requires SameName(a, b)
    ensures ScanInt(a) == ScanInt(b)
  {
    if a == "" {
      assert b == "";
    } else {
      assert SameLetter(a[0], b[0]);
      RestIsAlike(a, b, 1);
      DigitsAreAlike(a[1..], b[1..]);
      DigitsAreAlike(a, b);
      ScanOfRuns(a, b);
    }
  }

  // The parts of a statement

  predicate SameParam(a: ColParam, b: ColParam) {
    SameName(a.column, b.column) && a.paramIdx == b.paramIdx
  }

  predicate SameTest(a: Condition, b: Condition) {
    SameName(a.column, b.column) && a.paramIdx == b.paramIdx && a.isNull == b.isNull && a.isNotNull == b.isNotNull
  }

  predicate SameParams(a: seq<ColParam>, b: seq<ColParam>) {
    |a| == |b| && forall i :: 0 <= i < |a| ==> SameParam(a[i], b[i])
  }

  predicate SameTests(a: seq<Condition>, b: seq<Condition>) {
    |a| == |b| && forall i :: 0 <= i < |a| ==> SameTest(a[i], b[i])
  }

  /** Two values, two errors or two panics. */
  predicate SameKind<T>(a: Parsed<T>, b: Parsed<T>) {
    (a.Ok? <==> b.Ok?) && (a.Panic? <==> b.Panic?)
  }

  lemma DollarIsAlike(a: string, b: string)
    requires SameName(a, b)
    ensures "$" <= a <==> "$" <= b
  {
    if a != "" {
      assert SameLetter(a[0], b[0]);
    }
  }

  lemma ColParamIsAlike(a: string, b: string)
    requires SameName(a, b)
    ensures var (x, y) := (ParseColParam(a), ParseColParam(b));
      SameKind(x, y) && (x.Ok? ==> SameParam(x.value, y.value))
  {
    FieldsAreAlike(a, b);
    var p, q := Fields(a), Fields(b);
    if |p| >= 3 {
      assert SameName(p[2], q[2]) && SameName(p[0], q[0]);
      DollarIsAlike(p[2], q[2]);
      if "$" <= p[2] {
        RestIsAlike(p[2], q[2], 1);
        ScanIsAlike(p[2][1..], q[2][1..]);
      }
    }
  }

  lemma ConditionIsAlike(a: string, b: string)
    requires SameName(a, b)
    ensures var (x, y) := (ParseCondition(a), ParseCondition(b));
      SameKind(x, y) && (x.Ok? ==> SameTest(x.value, y.value))
  {
    FieldsAreAlike(a, b);
    ColParamIsAlike(a, b);
    var p, q := Fields(a), Fields(b);
    forall i | 0 <= i < |p|
      ensures Upper(p[i]) == Upper(q[i])
    {
      UpperIff(p[i], q[i]);
    }
  }

  lemma PrependTests(x: Condition, y: Condition, a: Parsed<seq<Condition>>, b: Parsed<seq<Condition>>)
    requires SameTest(x, y) && SameKind(a, b) && (a.Ok? ==> SameTests(a.value, b.value))
    ensures var (p, q) := (Prepend([x], a), Prepend([y], b));
      SameKind(p, q) && (p.Ok? ==> SameTests(p.value, q.value))
  {
  }

  lemma {:induction false} ConditionsAreAlike(a: seq<string>, b: seq<string>)
    requires AllAlike(a, b)
    ensures var (x, y) := (Conditions(a), Conditions(b));
      SameKind(x, y) && (x.Ok? ==> SameTests(x.value, y.value))
    decreases |a|
  {
    if a != [] {
      assert Alike(a[0], b[0]);
      TrimIsAlike(a[0], b[0]);
      var x, y := ParseCondition(TrimSpace(a[0])), ParseCondition(TrimSpace(b[0]));
      ConditionIsAlike(TrimSpace(a[0]), TrimSpace(b[0]));
      ConditionsAreAlike(a[1..], b[1..]);
      if x.Ok? {
        PrependTests(x.value, y.value, Conditions(a[1..]), Conditions(b[1..]));
      }
    }
  }

  lemma PrependParams(x: ColParam, y: ColParam, a: Parsed<seq<ColParam>>, b: Parsed<seq<ColParam>>)
    requires SameParam(x, y) && SameKind(a, b) && (a.Ok? ==> SameParams(a.value, b.value))
    ensures var (p, q) := (Prepend([x], a), Prepend([y], b));
      SameKind(p, q) && (p.Ok? ==> SameParams(p.value, q.value))
  {
  }

  lemma {:induction false} ColParamsAreAlike(a: seq<string>, b: seq<string>)
    requires AllSameName(a, b)
    ensures var (x, y) := (ColParams(a), ColParams(b));
      SameKind(x, y) && (x.Ok? ==> SameParams(x.value, y.value))
    decreases |a|
  {
    if a != [] {
      assert SameName(a[0], b[0]);
      TrimIsAlike(a[0], b[0]);
      var x, y := ParseColParam(TrimSpace(a[0])), ParseColParam(TrimSpace(b[0]));
      ColParamIsAlike(TrimSpace(a[0]), TrimSpace(b[0]));
      ColParamsAreAlike(a[1..], b[1..]);
      if x.Ok? {
        PrependParams(x.value, y.value, ColParams(a[1..]), ColParams(b[1..]));
      }
    }
  }

  lemma {:induction false} NamesAreAlike(a: seq<string>, b: seq<string>)
    requires AllSameName(a, b)
    ensures AllSameName(ColumnNames(a), ColumnNames(b))
    decreases |a|
  {
    if a != [] {
      assert SameName(a[0], b[0]);
      TrimIsAlike(a[0], b[0]);
      NamesAreAlike(a[1..], b[1..]);
    }
  }

  // Whole statements

  predicate SameTableAndTests(a: (string, seq<Condition>), b: (string, seq<Condition>)) {
    SameName(a.0, b.0) && SameTests(a.1, b.1)
  }

  predicate SameTableAndNames(a: (string, seq<string>), b: (string, seq<string>)) {
    SameName(a.0, b.0) && AllSameName(a.1, b.1)
  }

  predicate SameUpdate(a: Update, b: Update) {
    SameName(a.tableName, b.tableName) && SameParams(a.assignments, b.assignments) && SameTests(a.conditions, b.conditions)
  }

  lemma TestListIsAlike(a: string, b: string)
    requires Alike(a, b)
    ensures var (x, y) := (Conditions(Split(a, "AND")), Conditions(Split(b, "AND")));
      SameKind(x, y) && (x.Ok? ==> SameTests(x.value, y.value))
  {
    SplitIsAlike(a, b);
    ConditionsAreAlike(Split(a, "AND"), Split(b, "AND"));
  }

  /** The parts of a statement around its WHERE. */
  lemma WhereIsAlike(a: string, b: string, i: nat)
    requires Alike(a, b) && i + 7 <= |a|
    ensures AllSameName(Fields(a[..i]), Fields(b[..i]))
    ensures Alike(TrimSpace(a[i + 7..]), TrimSpace(b[i + 7..]))
  {
    PartIsAlike(a, b, 0, i);
    assert a[..i] == a[0..i] && b[..i] == b[0..i];
    FieldsAreAlike(a[..i], b[..i]);
    RestIsAlike(a, b, i + 7);
    TrimIsAlike(a[i + 7..], b[i + 7..]);
  }

  lemma TableIsAlike(a: string, b: string)
    requires Alike(a, b)
    ensures var (x, y) := (TableOf(a), TableOf(b));
      SameKind(x, y) && (x.Ok? ==> SameTableAndTests(x.value, y.value))
  {
    UpperIff(a, b);
    var i := Index(Upper(a), " WHERE ");
    if i < 0 {
      FieldsAreAlike(a, b);
    } else {
      WhereIsAlike(a, b, i);
      TestListIsAlike(TrimSpace(a[i + 7..]), TrimSpace(b[i + 7..]));
    }
  }

  /** A SELECT or DELETE in any case, but for AND, is read alike. */
  lemma StatementInAnyCase(a: string, b: string)
    requires Alike(a, b)
    ensures var (x, y) := (ParseTableAndConditions(a), ParseTableAndConditions(b));
      SameKind(x, y) && (x.Ok? ==> SameTableAndTests(x.value, y.value))
  {
    UpperIff(a, b);
    var fromIdx := Index(Upper(a), " FROM ");
    if fromIdx >= 0 {
      RestIsAlike(a, b, fromIdx + 6);
      TrimIsAlike(a[fromIdx + 6..], b[fromIdx + 6..]);
      TableIsAlike(TrimSpace(a[fromIdx + 6..]), TrimSpace(b[fromIdx + 6..]));
    }
  }

  lemma PiecesAreAlike(table: string, sets: string, tests: string, table': string, sets': string, tests': string)
    requires SameName(table, table') && SameName(sets, sets') && Alike(tests, tests')
    ensures var (x, y) := (UpdateOf(table, sets, tests), UpdateOf(table', sets', tests'));
      SameKind(x, y) && (x.Ok? ==> SameUpdate(x.value, y.value))
  {
    ListIsAlike(sets, sets');
    ColParamsAreAlike(Split(sets, ","), Split(sets', ","));
    TestListIsAlike(tests, tests');
  }

  lemma CutsAreAlike(s: string, t: string, setIdx: int, whereIdx: int)
    requires Alike(s, t) && setIdx <= |s| - 5 && whereIdx <= |s| - 7
    ensures var (x, y) := (UpdateAt(s, setIdx, whereIdx), UpdateAt(t, setIdx, whereIdx));
      SameKind(x, y) && (x.Ok? ==> SameUpdate(x.value, y.value))
  {
    if 7 <= setIdx && setIdx + 5 <= whereIdx {
      PartIsAlike(s, t, 7, setIdx);
      TrimIsAlike(s[7..setIdx], t[7..setIdx]);
      PartIsAlike(s, t, setIdx + 5, whereIdx);
      RestIsAlike(s, t, whereIdx + 7);
      PiecesAreAlike(TrimSpace(s[7..setIdx]), s[setIdx + 5..whereIdx], s[whereIdx + 7..],
                     TrimSpace(t[7..setIdx]), t[setIdx + 5..whereIdx], t[whereIdx + 7..]);
    }
  }

  /** An UPDATE in any case, but for AND, is read alike. */
  lemma UpdateInAnyCase(a: string, b: string)
    requires Alike(a, b)
    ensures var (x, y) := (ParseSimpleUpdate(a), ParseSimpleUpdate(b));
      SameKind(x, y) && (x.Ok? ==> SameUpdate(x.value, y.value))
  {
    TrimIsAlike(a, b);
    var s, t := TrimSpace(a), TrimSpace(b);
    UpperIff(s, t);
    if "UPDATE " <= Upper(s) {
      CutsAreAlike(s, t, Index(Upper(s), " SET "), Index(Upper(s), " WHERE "));
    }
  }

  lemma ColumnListIsAlike(a: string, b: string)
    requires SameName(a, b)
    ensures AllSameName(ColumnNames(Split(a, ",")), ColumnNames(Split(b, ",")))
  {
    ListIsAlike(a, b);
    NamesAreAlike(Split(a, ","), Split(b, ","));
  }

  lemma BareTableIsAlike(a: string, b: string)
    requires SameName(a, b) && Index(a, "(") < 0 && Index(b, "(") < 0
    ensures var (x, y) := (InsertOf(a), InsertOf(b));
      SameKind(x, y) && (x.Ok? ==> SameTableAndNames(x.value, y.value))
  {
    FieldsAreAlike(a, b);
  }

  lemma UnclosedInsert(s: string, i: nat)
    requires Index(s, "(") == i && Index(s[i + 1..], ")") < 0
    ensures InsertOf(s) == Malformed
  {
  }

  /** What an INSERT is read as, from its pieces. */
  lemma ClosedInsert(a: string, b: string, i: nat, n: nat)
    requires SameName(a, b) && i < |a| && n <= |a| - i - 1
    requires Index(a, "(") == i == Index(b, "(") && Index(a[i + 1..], ")") == n == Index(b[i + 1..], ")")
    ensures var (x, y) := (InsertOf(a), InsertOf(b));
      SameKind(x, y) && (x.Ok? ==> SameTableAndNames(x.value, y.value))
  {
    HeadIsAlike(a, b, i);
    RestIsAlike(a, b, i + 1);
    HeadIsAlike(a[i + 1..], b[i + 1..], n);
    var list, list' := a[i + 1..][..n], b[i + 1..][..n];
    ColumnListIsAlike(list, list');
    InsertCut(a, i, n, a[..i], list);
    InsertCut(b, i, n, b[..i], list');
  }

  lemma InsertedAlike(a: string, b: string)
    requires SameName(a, b)
    ensures var (x, y) := (InsertOf(a), InsertOf(b));
      SameKind(x, y) && (x.Ok? ==> SameTableAndNames(x.value, y.value))
  {
    MarkIsAlike(a, b, '(');
    var i := Index(a, "(");
    if i < 0 {
      BareTableIsAlike(a, b);
    } else {
      RestIsAlike(a, b, i + 1);
      MarkIsAlike(a[i + 1..], b[i + 1..], ')');
      var n := Index(a[i + 1..], ")");
      if n < 0 {
        UnclosedInsert(a, i);
        UnclosedInsert(b, i);
      } else {
        ClosedInsert(a, b, i, n);
      }
    }
  }

  /** What follows a keyword, in two cases. */
  lemma AfterIsAlike(a: string, b: string, i: nat)
    requires SameName(a, b) && i <= |a|
    ensures SameName(TrimSpace(a[i..]), TrimSpace(b[i..]))
    ensures Alike(a, b) ==> Alike(TrimSpace(a[i..]), TrimSpace(b[i..]))
  {
    RestIsAlike(a, b, i);
    TrimIsAlike(a[i..], b[i..]);
  }

  lemma IntoAt(sql: string, i: nat, rest: string)
    requires Index(Upper(sql), " INTO ") == i && rest == TrimSpace(sql[i + 6..])
    ensures ParseInsertColumns(sql) == InsertOf(rest)
  {
  }

  lemma InsertFrom(a: string, b: string, i: nat)
    requires SameName(a, b) && i + 6 <= |a| && Index(Upper(a), " INTO ") == i == Index(Upper(b), " INTO ")
    ensures var (x, y) := (ParseInsertColumns(a), ParseInsertColumns(b));
      SameKind(x, y) && (x.Ok? ==> SameTableAndNames(x.value, y.value))
  {
    AfterIsAlike(a, b, i + 6);
    var rest, rest' := TrimSpace(a[i + 6..]), TrimSpace(b[i + 6..]);
    InsertedAlike(rest, rest');
    IntoAt(a, i, rest);
    IntoAt(b, i, rest');
  }

  /** An INSERT in any case is read alike. */
  lemma InsertInAnyCase(a: string, b: string)
    requires SameName(a, b)
    ensures var (x, y) := (ParseInsertColumns(a), ParseInsertColumns(b));
      SameKind(x, y) && (x.Ok? ==> SameTableAndNames(x.value, y.value))
  {
    UpperIff(a, b);
    var i := Index(Upper(a), " INTO ");
    if i >= 0 {
      InsertFrom(a, b, i);
    }
  }

  lemma ReturningAt(sql: string, i: nat, rest: string)
    requires Index(Upper(sql), " RETURNING ") == i && rest == TrimSpace(sql[i + 11..])
    ensures ParseReturning(sql) == if rest == "" then Malformed else Ok(ColumnNames(Split(rest, ",")))
  {
  }

  lemma ReturningFrom(a: string, b: string, i: nat)
    requires SameName(a, b) && i + 11 <= |a| && Index(Upper(a), " RETURNING ") == i == Index(Upper(b), " RETURNING ")
    ensures var (x, y) := (ParseReturning(a), ParseReturning(b));
      SameKind(x, y) && (x.Ok? ==> AllSameName(x.value, y.value))
  {
    AfterIsAlike(a, b, i + 11);
    var rest, rest' := TrimSpace(a[i + 11..]), TrimSpace(b[i + 11..]);
    ColumnListIsAlike(rest, rest');
    ReturningAt(a, i, rest);
    ReturningAt(b, i, rest');
  }

  /** And so are the columns it returns. */
  lemma ReturningInAnyCase(a: string, b: string)
    requires SameName(a, b)
    ensures var (x, y) := (ParseReturning(a), ParseReturning(b));
      SameKind(x, y) && (x.Ok? ==> AllSameName(x.value, y.value))
  {
    UpperIff(a, b);
    var i := Index(Upper(a), " RETURNING ");
    if i >= 0 {
      ReturningFrom(a, b, i);
    }
  }

  // The exception: AND is looked for in capitals

  lemma NoCapitalAnd(w: string)
    requires Upper(w) == "AND" && w != "AND"
    ensures IsWord(w) && Absent(w, "AND")
  {
    assert |w| == 3;
    forall i | 0 <= i < 3
      ensures !IsSpace(w[i])
    {
      assert Upper(w)[i] == "AND"[i];
    }
    forall i | 0 <= i <= 3
      ensures !OccursAt(w, "AND", i)
    {
      OccursAtAnd(w, i);
    }
  }

  /**
   A conjunction joined by an and that is not in capitals is one condition: after a test of a parameter
   the rest is silently dropped, after a test for NULL the clause is an error.
   */
  lemma OtherAndIsLost(t: Test, w: string, more: seq<string>)
    requires Writable(t) && Upper(w) == "AND" && w != "AND"
    requires AllWords(more) && forall i :: 0 <= i < |more| ==> Absent(more[i], "AND")
    ensures Conditions(Split(Sentence(TestWords(t) + ([w] + more)), "AND")) == if t.Equals? then Ok([Meaning(t)]) else Malformed
  {
    var ws := TestWords(t) + ([w] + more);
    NoCapitalAnd(w);
    WordsOfOtherAnd(ws, t, w, more);
    AbsentFromSentence(ws, "AND");
    SentenceAlone(ws);
    FieldsOfSentence(ws);
    assert ws[..|TestWords(t)|] == TestWords(t);
    OnePart(Sentence(ws), t);
  }

  lemma OnePart(s: string, t: Test)
    requires Spelt(t) && |Fields(s)| > |TestWords(t)| && Fields(s)[..|TestWords(t)|] == TestWords(t)
    requires Absent(s, "AND") && TrimSpace(s) == s
    ensures Conditions(Split(s, "AND")) == if t.Equals? then Ok([Meaning(t)]) else Malformed
  {
    SplitAbsent(s, "AND");
    OneLongCondition(s, t);
    OneCondition(s);
  }

  lemma OneCondition(s: string)
    requires TrimSpace(s) == s
    ensures match ParseCondition(s)
      case Ok(c) => Conditions([s]) == Ok([c])
      case Malformed => Conditions([s]) == Malformed
      case Panic => Conditions([s]) == Panic
  {
    assert [s][1..] == [];
    if ParseCondition(s).Ok? {
      assert [ParseCondition(s).value] + [] == [ParseCondition(s).value];
    }
  }

  lemma WordsOfOtherAnd(ws: seq<string>, t: Test, w: string, more: seq<string>)
    requires ws == TestWords(t) + ([w] + more) && Writable(t) && IsWord(w) && Absent(w, "AND")
    requires AllWords(more) && forall i :: 0 <= i < |more| ==> Absent(more[i], "AND")
    ensures AllWords(ws) && forall i :: 0 <= i < |ws| ==> Absent(ws[i], "AND")
  {
    TestWordsAreWords(t);
    if t.Equals? {
      ParamIsWord(t.param);
    }
    forall i | 0 < i < |TestWords(t)|
      ensures Absent(ws[i], "AND")
    {
      AbsentWithoutChar(ws[i], "AND");
    }
    var n := |TestWords(t)|;
    assert forall i :: 0 <= i < |more| ==> ws[n + 1 + i] == more[i];
    assert ws[n] == w && ws[0] == t.column;
  }

  lemma FirstThree(f: seq<string>, g: seq<string>)
    requires |f| >= |g| >= 3 && f[..|g|] == g
    ensures f[0] == g[0] && f[1] == g[1] && f[2] == g[2]
  {
  }

  /** Of more fields than a test has only the first three are looked at. */
  lemma OneLongCondition(s: string, t: Test)
    requires Spelt(t) && |Fields(s)| > |TestWords(t)| && Fields(s)[..|TestWords(t)|] == TestWords(t)
    ensures ParseCondition(s) == if t.Equals? then Ok(Meaning(t)) else Malformed
  {
    var f := Fields(s);
    FirstThree(f, TestWords(t));
    match t
    case Equals(_, p) =>
      ScanOfItoa(p);
      assert ("$" + Itoa(p))[1..] == Itoa(p);
      assert Upper("=")[0] == '=' && Upper("IS")[0] == 'I';
    case IsNull(_) =>
      assert Upper("NULL")[1] == 'U' && Upper("NOT")[1] == 'O';
    case IsNotNull(_) =>
  }
}
