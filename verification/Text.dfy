/** The string functions the SQL helpers use, on ASCII text, and what they do to words in a sentence. */
module Text {

  function Upper(s: string): (u: string)
    ensures |u| == |s|
  {
    seq(|s|, i requires 0 <= i < |s| => if 'a' <= s[i] <= 'z' then s[i] - 'a' + 'A' else s[i])
  }

  function Lower(s: string): (l: string)
    ensures |l| == |s|
  {
    seq(|s|, i requires 0 <= i < |s| => if 'A' <= s[i] <= 'Z' then s[i] - 'A' + 'a' else s[i])
  }

  // One name in two cases

  predicate SameLetter(a: char, b: char) {
    a == b || ('a' <= a <= 'z' && a as int == b as int + 32) || ('a' <= b <= 'z' && b as int == a as int + 32)
  }

  predicate SameName(a: string, b: string) {
    |a| == |b| && forall i :: 0 <= i < |a| ==> SameLetter(a[i], b[i])
  }

  /** Upper case tells apart exactly what differs in more than case. */
  lemma UpperIff(a: string, b: string)
    ensures Upper(a) == Upper(b) <==> SameName(a, b)
    ensures forall i :: 0 <= i < |a| ==> SameLetter(Upper(a)[i], a[i]) && !('a' <= Upper(a)[i] <= 'z')
  {
    if SameName(a, b) {
      assert forall i :: 0 <= i < |a| ==> SameLetter(a[i], b[i]) && Upper(a)[i] == Upper(b)[i];
    }
    if Upper(a) == Upper(b) {
      forall i | 0 <= i < |a|
        ensures SameLetter(a[i], b[i])
      {
        assert Upper(a)[i] == Upper(b)[i];
      }
    }
  }

  /** And so does lower case. */
  lemma LowerIff(a: string, b: string)
    ensures Lower(a) == Lower(b) <==> SameName(a, b)
    ensures forall i :: 0 <= i < |a| ==> SameLetter(Lower(a)[i], a[i]) && !('A' <= Lower(a)[i] <= 'Z')
  {
    if SameName(a, b) {
      assert forall i :: 0 <= i < |a| ==> SameLetter(a[i], b[i]) && Lower(a)[i] == Lower(b)[i];
    }
    if Lower(a) == Lower(b) {
      forall i | 0 <= i < |a|
        ensures SameLetter(a[i], b[i])
      {
        assert Lower(a)[i] == Lower(b)[i];
      }
    }
  }

  predicate IsSpace(c: char) {
    c == ' ' || '\t' <= c <= '\r'
  }

  function TrimLeft(s: string, cut: char -> bool): string {
    if s != "" && cut(s[0]) then TrimLeft(s[1..], cut) else s
  }

  function TrimRight(s: string, cut: char -> bool): string {
    if s != "" && cut(s[|s| - 1]) then TrimRight(s[..|s| - 1], cut) else s
  }

  /** strings.Trim, for the characters of a cut set. */
  function Trim(s: string, cut: char -> bool): string {
    TrimRight(TrimLeft(s, cut), cut)
  }

  /** strings.TrimSpace. */
  function TrimSpace(s: string): string {
    Trim(s, IsSpace)
  }

  /** Nothing but spaces: the blank, and the characters from tab to carriage return. */
  predicate Blank(s: string) {
    forall i :: 0 <= i < |s| ==> s[i] == ' ' || 9 <= s[i] as int <= 13
  }

  /** Trimming leaves nothing exactly of what is blank. */
  lemma TrimIsEmptyIff(s: string)
    ensures TrimSpace(s) == "" <==> Blank(s)
  {
    LeftIsEmptyIff(s);
    RightKeepsFirst(TrimLeft(s, IsSpace));
  }

  lemma {:induction false} LeftIsEmptyIff(s: string)
    ensures var t := TrimLeft(s, IsSpace);
      (t == "" <==> Blank(s)) && (t != "" ==> !IsSpace(t[0]))
  {
    if s != "" && IsSpace(s[0]) {
      LeftIsEmptyIff(s[1..]);
      assert Blank(s) <==> Blank(s[1..]) by {
        assert forall i :: 0 < i < |s| ==> s[i] == s[1..][i - 1];
      }
    }
  }

  lemma {:induction false} RightKeepsFirst(t: string)
    requires t != "" ==> !IsSpace(t[0])
    ensures TrimRight(t, IsSpace) == "" <==> t == ""
  {
    if t != "" && IsSpace(t[|t| - 1]) {
      RightKeepsFirst(t[..|t| - 1]);
    }
  }

  /** The characters before the first space. */
  function FirstWord(s: string): (w: string)
    ensures w <= s && forall i :: 0 <= i < |w| ==> !IsSpace(w[i])
    ensures |w| < |s| ==> IsSpace(s[|w|])
  {
    if s == "" || IsSpace(s[0]) then "" else [s[0]] + FirstWord(s[1..])
  }

  /** strings.Fields. */
  function Fields(s: string): (f: seq<string>)
    ensures forall i :: 0 <= i < |f| ==> IsWord(f[i])
    decreases |s|
  {
    if s == "" then []
    else if IsSpace(s[0]) then Fields(s[1..])
    else
      var w := FirstWord(s);
      [w] + Fields(s[|w|..])
  }

  /** strings.Index. */
  function Index(s: string, part: string): (i: int)
    ensures -1 <= i && (i >= 0 ==> i + |part| <= |s|)
  {
    if part <= s then 0
    else if s == "" then -1
    else
      var i := Index(s[1..], part);
      if i < 0 then -1 else i + 1
  }

  /** strings.Split. */
  function Split(s: string, sep: string): seq<string>
    requires sep != ""
    decreases |s|
  {
    var i := Index(s, sep);
    if i < 0 then [s] else [s[..i]] + Split(s[i + |sep|..], sep)
  }

  // Words and sentences

  predicate IsWord(w: string) {
    w != "" && forall i :: 0 <= i < |w| ==> !IsSpace(w[i])
  }

  predicate AllWords(ws: seq<string>) {
    forall i :: 0 <= i < |ws| ==> IsWord(ws[i])
  }

  /** Words with single spaces between them. */
  function Sentence(ws: seq<string>): string {
    if ws == [] then "" else if |ws| == 1 then ws[0] else ws[0] + " " + Sentence(ws[1..])
  }

  lemma {:induction false} SentenceAppend(a: seq<string>, b: seq<string>)
    requires a != [] && b != []
    ensures Sentence(a + b) == Sentence(a) + " " + Sentence(b)
  {
    assert (a + b)[1..] == a[1..] + b;
    if |a| > 1 {
      SentenceAppend(a[1..], b);
    }
  }

  lemma {:induction false} UpperAppend(a: string, b: string)
    ensures Upper(a + b) == Upper(a) + Upper(b)
  {
  }

  function UpperWords(ws: seq<string>): (r: seq<string>)
    ensures |r| == |ws| && forall i :: 0 <= i < |ws| ==> r[i] == Upper(ws[i])
  {
    if ws == [] then [] else [Upper(ws[0])] + UpperWords(ws[1..])
  }

  lemma {:induction false} UpperSentence(ws: seq<string>)
    ensures Upper(Sentence(ws)) == Sentence(UpperWords(ws))
  {
    if |ws| > 1 {
      UpperSentence(ws[1..]);
      UpperAppend(ws[0] + " ", Sentence(ws[1..]));
      UpperAppend(ws[0], " ");
      assert UpperWords(ws)[1..] == UpperWords(ws[1..]);
      assert Upper(" ") == " ";
    }
  }

  lemma UpperIsWord(w: string)
    requires IsWord(w)
    ensures IsWord(Upper(w))
  {
  }

  lemma {:induction false} FirstWordOf(w: string, rest: string)
    requires IsWord(w) && (rest == "" || IsSpace(rest[0]))
    ensures FirstWord(w + rest) == w
  {
    if |w| > 1 {
      FirstWordOf(w[1..], rest);
      assert (w + rest)[1..] == w[1..] + rest;
    } else {
      assert (w + rest)[1..] == rest;
    }
  }

  /** Fields inverts Sentence. */
  lemma {:induction false} FieldsOfSentence(ws: seq<string>)
    requires AllWords(ws)
    ensures Fields(Sentence(ws)) == ws
  {
    if ws != [] {
      var rest := if |ws| == 1 then "" else " " + Sentence(ws[1..]);
      var s := Sentence(ws);
      assert s == ws[0] + rest;
      FirstWordOf(ws[0], rest);
      assert s[|ws[0]|..] == rest;
      FieldsOfSentence(ws[1..]);
      if |ws| > 1 {
        assert rest[1..] == Sentence(ws[1..]);
      }
    }
  }

  /** A sentence starts and ends with a word. */
  lemma {:induction false} SentenceEnds(ws: seq<string>)
    requires AllWords(ws) && ws != []
    ensures var s := Sentence(ws); s != "" && !IsSpace(s[0]) && !IsSpace(s[|s| - 1])
  {
    assert IsWord(ws[0]);
    if |ws| > 1 {
      SentenceEnds(ws[1..]);
    }
  }

  lemma TrimRightOnce(s: string, after: string)
    requires s != "" && !IsSpace(s[|s| - 1]) && after in ["", " "]
    ensures TrimRight(s + after, IsSpace) == s
  {
    var t := s + after;
    assert TrimRight(s, IsSpace) == s;
    if after == "" {
      assert t == s;
    } else {
      assert t[..|t| - 1] == s && t[|t| - 1] == ' ';
      assert TrimRight(t, IsSpace) == TrimRight(t[..|t| - 1], IsSpace);
    }
  }

  lemma TrimAround(before: string, s: string, after: string)
    requires s != "" && !IsSpace(s[0]) && !IsSpace(s[|s| - 1])
    requires before in ["", " "] && after in ["", " "]
    ensures TrimSpace(before + s + after) == s
  {
    var t := s + after;
    Associate(before, s, after);
    TrimRightOnce(s, after);
    assert t[0] == s[0] && TrimLeft(t, IsSpace) == t;
    if before == "" {
      assert before + t == t;
    } else {
      assert (before + t)[1..] == t && (before + t)[0] == ' ';
      assert TrimLeft(before + t, IsSpace) == TrimLeft(t, IsSpace);
    }
  }

  /** Single spaces around a sentence are trimmed away. */
  lemma TrimOfSentence(ws: seq<string>, before: string, after: string)
    requires AllWords(ws) && ws != []
    requires before in ["", " "] && after in ["", " "]
    ensures TrimSpace(before + Sentence(ws) + after) == Sentence(ws)
  {
    SentenceEnds(ws);
    TrimAround(before, Sentence(ws), after);
  }

  // Where a text occurs

  predicate OccursAt(s: string, part: string, i: nat)
    requires i <= |s|
  {
    part <= s[i..]
  }

  /** The first occurrence is what Index finds. */
  lemma {:induction false} IndexIsFirst(s: string, part: string, i: nat)
    requires i <= |s| && OccursAt(s, part, i)
    requires forall j :: 0 <= j < i ==> !OccursAt(s, part, j)
    ensures Index(s, part) == i
  {
    if i > 0 {
      assert !OccursAt(s, part, 0) && s[0..] == s;
      forall j | 0 <= j < i - 1
        ensures !OccursAt(s[1..], part, j)
      {
        assert !OccursAt(s, part, j + 1);
        assert s[1..][j..] == s[j + 1..];
      }
      assert s[1..][i - 1..] == s[i..];
      IndexIsFirst(s[1..], part, i - 1);
    } else {
      assert s[0..] == s;
    }
  }

  predicate Absent(s: string, part: string) {
    forall i :: 0 <= i <= |s| ==> !OccursAt(s, part, i)
  }

  lemma {:induction false} IndexOfAbsent(s: string, part: string)
    requires Absent(s, part)
    ensures Index(s, part) == -1
  {
    assert !OccursAt(s, part, 0) && s[0..] == s;
    if s != "" {
      forall j | 0 <= j <= |s| - 1
        ensures !OccursAt(s[1..], part, j)
      {
        assert !OccursAt(s, part, j + 1);
        assert s[1..][j..] == s[j + 1..];
      }
      IndexOfAbsent(s[1..], part);
    }
  }

  /** A character that does not occur before is found where it is. */
  lemma FirstChar(a: string, c: char, b: string)
    requires c !in a
    ensures var s := a + ([c] + b);
      Index(s, [c]) == |a| && s[..|a|] == a && s[|a| + 1..] == b
  {
    var s := a + ([c] + b);
    assert s[|a|..] == [c] + b;
    forall j | 0 <= j < |a|
      ensures !OccursAt(s, [c], j)
    {
      assert s[j..][0] == a[j];
    }
    IndexIsFirst(s, [c], |a|);
  }

  /** Where the first of a character is. */
  lemma {:induction false} IndexOfChar(s: string, c: char)
    ensures var i := Index(s, [c]);
      if i < 0 then c !in s else s[i] == c && c !in s[..i]
  {
    if s != "" && s[0] != c {
      IndexOfChar(s[1..], c);
      var i := Index(s[1..], [c]);
      assert i >= 0 ==> s[..i + 1] == [s[0]] + s[1..][..i];
    }
  }

  lemma CharInside(s: string, i: nat, part: string, at: nat)
    requires i <= at < i + |part| <= |s| && part == s[i..i + |part|]
    ensures s[at] in part
  {
    assert part[at - i] == s[at];
  }

  /** Something without spaces cannot straddle a space. */
  lemma OccursBeforeSpace(a: string, b: string, part: string, i: nat)
    requires i <= |a| && part != "" && ' ' !in part
    requires OccursAt(a + " " + b, part, i)
    ensures OccursAt(a, part, i)
  {
    var s := a + " " + b;
    assert s[|a|] == ' ';
    assert part == s[i..i + |part|];
    var space: nat := |a|;
    if i + |part| > space {
      CharInside(s, i, part, space);
      assert false;
    }
    assert s[i..i + |part|] == a[i..i + |part|];
  }

  lemma AbsentAcrossSpace(a: string, b: string, part: string)
    requires part != "" && ' ' !in part && Absent(a, part) && Absent(b, part)
    ensures Absent(a + " " + b, part)
  {
    var s := a + " " + b;
    forall i | 0 <= i <= |s|
      ensures !OccursAt(s, part, i)
    {
      if OccursAt(s, part, i) {
        if i <= |a| {
          OccursBeforeSpace(a, b, part, i);
          assert false;
        } else {
          assert s[i..] == b[i - |a| - 1..];
          assert OccursAt(b, part, i - |a| - 1);
          assert false;
        }
      }
    }
  }

  lemma {:induction false} AbsentFromSentence(ws: seq<string>, part: string)
    requires part != "" && ' ' !in part
    requires forall i :: 0 <= i < |ws| ==> Absent(ws[i], part)
    ensures Absent(Sentence(ws), part)
  {
    if |ws| > 1 {
      AbsentFromSentence(ws[1..], part);
      AbsentAcrossSpace(ws[0], Sentence(ws[1..]), part);
    }
  }

  /** Splitting at the first occurrence after a space. */
  lemma SplitAtFirst(a: string, sep: string, rest: string)
    requires sep != "" && ' ' !in sep && Absent(a, sep)
    ensures Split(a + " " + sep + rest, sep) == [a + " "] + Split(rest, sep)
  {
    var s := a + " " + sep + rest;
    assert s == a + " " + (sep + rest);
    forall j | 0 <= j < |a| + 1
      ensures !OccursAt(s, sep, j)
    {
      if OccursAt(s, sep, j) {
        OccursBeforeSpace(a, sep + rest, sep, j);
        assert false;
      }
    }
    assert s[|a| + 1..] == sep + rest;
    IndexIsFirst(s, sep, |a| + 1);
    assert s[..|a| + 1] == a + " " && s[|a| + 1 + |sep|..] == rest;
  }

  lemma SplitAbsent(s: string, sep: string)
    requires sep != "" && Absent(s, sep)
    ensures Split(s, sep) == [s]
  {
    IndexOfAbsent(s, sep);
  }

  // Finding a word with a space on either side

  lemma {:induction false} IndexSkips(a: string, b: string, part: string)
    requires part != "" && part[0] == ' ' && ' ' !in a
    ensures Index(a + b, part) == if Index(b, part) < 0 then -1 else |a| + Index(b, part)
  {
    if a == "" {
      assert a + b == b;
    } else {
      assert (a + b)[0] != ' ' by {
        assert a[0] in a;
      }
      assert (a + b)[1..] == a[1..] + b;
      IndexSkips(a[1..], b, part);
    }
  }

  /** Text starts with "w " exactly when its first word is w and it does not end there. */
  lemma WordPrefix(first: string, rest: string, w: string)
    requires IsWord(first) && IsWord(w) && (rest == "" || rest[0] == ' ')
    ensures w + " " <= first + rest <==> first == w && rest != ""
  {
    var s := first + rest;
    FirstWordOf(first, rest);
    if w + " " <= s {
      PrefixIsFirstWord(w, s);
      assert |s| > |w|;
    }
    if rest != "" {
      assert s[..|first| + 1] == first + " ";
    }
  }

  /** A sentence is its first word and what follows it. */
  function AfterFirst(ws: seq<string>): string
    requires ws != []
  {
    if |ws| == 1 then "" else " " + Sentence(ws[1..])
  }

  lemma SentenceStep(ws: seq<string>)
    requires ws != []
    ensures Sentence(ws) == ws[0] + AfterFirst(ws)
  {
  }

  lemma WordAtStart(ws: seq<string>, w: string)
    requires AllWords(ws) && ws != [] && IsWord(w)
    ensures " " + w + " " <= " " + Sentence(ws) <==> ws[0] == w && |ws| > 1
  {
    assert IsWord(ws[0]);
    SentenceStep(ws);
    WordPrefix(ws[0], AfterFirst(ws), w);
    AfterSpace(w + " ", Sentence(ws));
    Associate(" ", w, " ");
  }

  lemma Regroup(a: string, b: string, c: string)
    ensures a + " " + (b + (" " + c)) == a + " " + b + " " + c
  {
  }

  lemma Associate(a: string, b: string, c: string)
    ensures a + b + c == a + (b + c)
  {
  }

  lemma PrefixIsFirstWord(w: string, s: string)
    requires IsWord(w) && w + " " <= s
    ensures FirstWord(s) == w
  {
    var more := s[|w|..];
    assert more[0] == (w + " ")[|w|];
    assert s == w + more;
    FirstWordOf(w, more);
  }

  lemma AfterSpace(a: string, b: string)
    ensures " " + a <= " " + b <==> a <= b
  {
    assert (" " + b)[1..] == b && (" " + a)[1..] == a;
    if " " + a <= " " + b {
      assert " " + b == " " + a + (" " + b)[|a| + 1..];
      assert b == a + (" " + b)[|a| + 1..];
    }
  }

  /** Index finds a keyword between spaces where its first interior occurrence as a word is. */
  lemma {:induction false} IndexOfWord(ws: seq<string>, k: nat, w: string)
    requires AllWords(ws) && IsWord(w) && 0 < k < |ws| - 1 && ws[k] == w
    requires forall j :: 0 < j < k ==> ws[j] != w
    ensures Index(Sentence(ws), " " + w + " ") == |Sentence(ws[..k])|
  {
    var rest := ws[1..];
    IndexAfterFirst(ws, w);
    if k == 1 {
      assert ws[..1] == [ws[0]];
    } else {
      IndexOfWord(rest, k - 1, w);
      assert ws[..k][1..] == rest[..k - 1];
    }
  }

  lemma IndexAfterFirst(ws: seq<string>, w: string)
    requires AllWords(ws) && IsWord(w) && |ws| > 1
    ensures var key, rest := " " + w + " ", ws[1..];
      Index(Sentence(ws), key) ==
        if rest[0] == w && |rest| > 1 then |ws[0]|
        else if Index(Sentence(rest), key) < 0 then -1
        else |ws[0]| + 1 + Index(Sentence(rest), key)
  {
    var key, rest := " " + w + " ", ws[1..];
    assert IsWord(ws[0]);
    assert ' ' !in ws[0];
    SentenceStep(ws);
    IndexSkips(ws[0], " " + Sentence(rest), key);
    WordAtStart(rest, w);
    assert (" " + Sentence(rest))[1..] == Sentence(rest);
  }

  lemma SentenceCut(ws: seq<string>, k: nat)
    requires 0 < k < |ws|
    ensures Sentence(ws) == Sentence(ws[..k]) + " " + Sentence(ws[k..])
  {
    assert ws == ws[..k] + ws[k..];
    SentenceOf(ws, ws[..k], ws[k..]);
  }

  lemma SentenceOf(ws: seq<string>, a: seq<string>, b: seq<string>)
    requires a != [] && b != [] && ws == a + b
    ensures Sentence(ws) == Sentence(a) + " " + Sentence(b)
  {
    SentenceAppend(a, b);
  }

  lemma SentenceAround(ws: seq<string>, k: nat)
    requires 0 < k < |ws| - 1
    ensures Sentence(ws) == Sentence(ws[..k]) + " " + ws[k] + " " + Sentence(ws[k + 1..])
  {
    SentenceCut(ws, k);
    SentenceStep(ws[k..]);
    assert ws[k..][1..] == ws[k + 1..];
    Regroup(Sentence(ws[..k]), ws[k], Sentence(ws[k + 1..]));
  }

  lemma {:induction false} IndexOfNoWord(ws: seq<string>, w: string)
    requires AllWords(ws) && IsWord(w)
    requires forall j :: 0 < j < |ws| - 1 ==> ws[j] != w
    ensures Index(Sentence(ws), " " + w + " ") == -1
  {
    var key := " " + w + " ";
    if |ws| <= 1 {
      var s := Sentence(ws);
      assert |ws| == 1 ==> IsWord(ws[0]);
      assert ' ' !in s;
      IndexSkips(s, "", key);
      assert s + "" == s;
    } else {
      IndexAfterFirst(ws, w);
      IndexOfNoWord(ws[1..], w);
    }
  }
}
