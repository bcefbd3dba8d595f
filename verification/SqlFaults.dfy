/** Statements that crash the helpers: exactly which. */
module SqlFaults {
  import opened Options
  import opened Text
  import opened SqlText

  lemma {:induction false} FieldsIffBlank(s: string)
    ensures Fields(s) == [] <==> Blank(s)
  {
    if s != "" {
      if IsSpace(s[0]) {
        FieldsIffBlank(s[1..]);
        assert forall i :: 0 < i < |s| ==> s[i] == s[1..][i - 1];
      } else {
        assert Fields(s)[0] == FirstWord(s);
      }
    }
  }

  lemma {:induction false} ConditionsNeverPanic(parts: seq<string>)
    ensures !Conditions(parts).Panic?
  {
    if parts != [] {
      ConditionsNeverPanic(parts[1..]);
    }
  }

  lemma {:induction false} ColParamsNeverPanic(parts: seq<string>)
    ensures !ColParams(parts).Panic?
  {
    if parts != [] {
      ColParamsNeverPanic(parts[1..]);
    }
  }

  lemma TrimmedStart(s: string)
    ensures var t := TrimSpace(s); t != "" ==> !IsSpace(t[0])
  {
    LeftIsEmptyIff(s);
    RightPrefix(TrimLeft(s, IsSpace));
  }

  lemma {:induction false} RightPrefix(t: string)
    ensures TrimRight(t, IsSpace) <= t
  {
    if t != "" && IsSpace(t[|t| - 1]) {
      RightPrefix(t[..|t| - 1]);
    }
  }

  lemma IndexStands(s: string, part: string)
    ensures var i := Index(s, part); i >= 0 ==> OccursAt(s, part, i)
  {
    IndexIsOccurrence(s, part);
  }

  lemma {:induction false} IndexIsOccurrence(s: string, part: string)
    ensures var i := Index(s, part); i >= 0 ==> part <= s[i..]
  {
    if !(part <= s) && s != "" {
      IndexIsOccurrence(s[1..], part);
      var i := Index(s[1..], part);
      assert i >= 0 ==> s[1..][i..] == s[i + 1..];
    }
  }

  /** The table is missing exactly when nothing follows FROM. */
  lemma TablePanicsIff(rest: string)
    requires rest != "" ==> !IsSpace(rest[0])
    ensures TableOf(rest) == Panic <==> rest == ""
  {
    var i := Index(Upper(rest), " WHERE ");
    if i < 0 {
      FieldsIffBlank(rest);
    } else {
      IndexStands(Upper(rest), " WHERE ");
      assert Upper(rest)[i..][0] == ' ';
      assert i > 0;
      FieldsIffBlank(rest[..i]);
      assert rest[..i][0] == rest[0];
      ConditionsNeverPanic(Split(TrimSpace(rest[i + 7..]), "AND"));
    }
  }

  /** A SELECT or DELETE makes the helper panic exactly when there is nothing but spaces after its first FROM. */
  lemma StatementPanicsIff(sql: string)
    ensures ParseTableAndConditions(sql) == Panic <==>
      var i := Index(Upper(sql), " FROM "); i >= 0 && Blank(sql[i + 6..])
  {
    var i := Index(Upper(sql), " FROM ");
    if i >= 0 {
      TrimIsEmptyIff(sql[i + 6..]);
      TrimmedStart(sql[i + 6..]);
      TablePanicsIff(TrimSpace(sql[i + 6..]));
    }
  }

  lemma UpdateOfNeverPanics(table: string, sets: string, tests: string)
    ensures !UpdateOf(table, sets, tests).Panic?
  {
    ColParamsNeverPanic(Split(sets, ","));
    ConditionsNeverPanic(Split(tests, "AND"));
  }

  lemma UpdateAtPanicsIff(s: string, setIdx: int, whereIdx: int)
    requires setIdx <= |s| - 5 && whereIdx <= |s| - 7
    ensures UpdateAt(s, setIdx, whereIdx) == Panic <==> setIdx >= 0 && whereIdx >= 0 && (setIdx < 7 || whereIdx < setIdx + 5)
  {
    if setIdx >= 7 && whereIdx >= setIdx + 5 {
      UpdateOfNeverPanics(TrimSpace(s[7..setIdx]), s[setIdx + 5..whereIdx], s[whereIdx + 7..]);
    }
  }

  /** The first SET between spaces stands behind UPDATE at the earliest. */
  lemma SetIsLate(upper: string)
    requires "UPDATE " <= upper
    ensures var setIdx := Index(upper, " SET "); setIdx < 0 || setIdx >= 6
  {
    var setIdx := Index(upper, " SET ");
    if setIdx >= 0 {
      IndexStands(upper, " SET ");
      assert upper[setIdx..][0] == ' ';
      assert forall k :: 0 <= k < 6 ==> upper[k] == "UPDATE "[k];
    }
  }

  /** An UPDATE panics exactly when its first SET comes right behind it, or its first WHERE before the assignments. */
  lemma UpdatePanicsIff(sql: string)
    ensures var s := TrimSpace(sql);
      var setIdx, whereIdx := Index(Upper(s), " SET "), Index(Upper(s), " WHERE ");
      ParseSimpleUpdate(sql) == Panic <==>
        "UPDATE " <= Upper(s) && setIdx >= 0 && whereIdx >= 0 && (setIdx == 6 || whereIdx < setIdx + 5)
  {
    var s := TrimSpace(sql);
    if "UPDATE " <= Upper(s) {
      SetIsLate(Upper(s));
      UpdateAtPanicsIff(s, Index(Upper(s), " SET "), Index(Upper(s), " WHERE "));
    }
  }

  lemma InsertOfPanicsIff(rest: string)
    requires rest != "" ==> !IsSpace(rest[0])
    ensures InsertOf(rest) == Panic <==> rest == ""
  {
    FieldsIffBlank(rest);
  }

  /** And an INSERT panics exactly when there is nothing but spaces after its first INTO. */
  lemma InsertPanicsIff(sql: string)
    ensures ParseInsertColumns(sql) == Panic <==>
      var i := Index(Upper(sql), " INTO "); i >= 0 && Blank(sql[i + 6..])
  {
    var i := Index(Upper(sql), " INTO ");
    if i >= 0 {
      TrimIsEmptyIff(sql[i + 6..]);
      TrimmedStart(sql[i + 6..]);
      InsertOfPanicsIff(TrimSpace(sql[i + 6..]));
    }
  }
}
