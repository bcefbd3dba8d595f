/** Slash-separated paths: trimming, splitting and joining. */
module Paths {
  import opened Options
  import opened Text

  predicate IsSlash(c: char) {
    c == '/'
  }

  function Join(segments: seq<string>): string {
    if segments == [] then ""
    else if |segments| == 1 then segments[0]
    else segments[0] + "/" + Join(segments[1..])
  }

  function Segments(path: string): seq<string> {
    var trimmed := Trim(path, IsSlash);
    if trimmed == "" then [] else Split(trimmed, "/")
  }

  /** splitProjectPath: the project id and the rest of a path under /projects. */
  function SplitProjectPath(path: string): Option<(string, string)> {
    var segments := Segments(path);
    if |segments| < 2 || segments[0] != "projects" then None
    else if |segments| == 2 then Some((segments[1], "/"))
    else Some((segments[1], "/" + Join(segments[2..])))
  }

  /** Segments as a clean path has them: not empty, no slash inside. */
  ghost predicate Clean(segments: seq<string>) {
    forall i :: 0 <= i < |segments| ==> segments[i] != "" && '/' !in segments[i]
  }

  lemma SplitAppend(a: string, b: string)
    requires '/' !in a
    ensures Split(a + "/" + b, "/") == [a] + Split(b, "/")
  {
    Associate(a, "/", b);
    FirstChar(a, '/', b);
  }

  lemma SplitOne(a: string)
    requires '/' !in a
    ensures Split(a, "/") == [a]
  {
    IndexOfChar(a, '/');
  }

  lemma {:induction false} PartsHaveNoSlash(s: string)
    ensures forall i :: 0 <= i < |Split(s, "/")| ==> '/' !in Split(s, "/")[i]
    decreases |s|
  {
    IndexOfChar(s, '/');
    var i := Index(s, "/");
    if i >= 0 {
      PartsHaveNoSlash(s[i + 1..]);
    }
  }

  lemma {:induction false} SplitJoin(segments: seq<string>)
    requires segments != [] && forall i :: 0 <= i < |segments| ==> '/' !in segments[i]
    ensures Split(Join(segments), "/") == segments
  {
    if |segments| == 1 {
      SplitOne(segments[0]);
    } else {
      SplitAppend(segments[0], Join(segments[1..]));
      SplitJoin(segments[1..]);
    }
  }

  /** A join of clean segments neither starts nor ends with a slash. */
  lemma {:induction false} JoinEnds(segments: seq<string>)
    requires segments != [] && Clean(segments)
    ensures var j := Join(segments); j != "" && j[0] != '/' && j[|j| - 1] != '/'
  {
    if |segments| == 1 {
      assert segments[0][0] in segments[0] && segments[0][|segments[0]| - 1] in segments[0];
    } else {
      JoinEnds(segments[1..]);
      assert segments[0][0] in segments[0];
    }
  }

  /** A clean path is read back as the segments it was built from. */
  lemma SegmentsOfJoin(segments: seq<string>)
    requires Clean(segments)
    ensures Segments("/" + Join(segments)) == segments
  {
    var j := Join(segments);
    assert ("/" + j)[1..] == j;
    if segments != [] {
      JoinEnds(segments);
      SplitJoin(segments);
      assert TrimLeft("/" + j, IsSlash) == TrimLeft(j, IsSlash) == j;
      assert TrimRight(j, IsSlash) == j;
    }
  }

  function Slashes(s: string): nat {
    if s == "" then 0 else (if s[0] == '/' then 1 else 0) + Slashes(s[1..])
  }

  lemma {:induction false} SlashesAppend(a: string, b: string)
    ensures Slashes(a + b) == Slashes(a) + Slashes(b)
  {
    if a == "" {
      assert a + b == b;
    } else {
      assert (a + b)[1..] == a[1..] + b;
      SlashesAppend(a[1..], b);
    }
  }

  lemma {:induction false} NoSlashes(s: string)
    requires '/' !in s
    ensures Slashes(s) == 0
  {
    if s != "" {
      NoSlashes(s[1..]);
    }
  }

  lemma SlashesAround(s: string, i: nat)
    requires i < |s| && s[i] == '/'
    ensures Slashes(s) == Slashes(s[..i]) + 1 + Slashes(s[i + 1..])
  {
    assert s == s[..i] + s[i..] && s[i..][1..] == s[i + 1..];
    SlashesAppend(s[..i], s[i..]);
  }

  lemma {:induction false} SplitLength(s: string)
    ensures |Split(s, "/")| == Slashes(s) + 1
    decreases |s|
  {
    IndexOfChar(s, '/');
    var i := Index(s, "/");
    if i < 0 {
      NoSlashes(s);
    } else {
      NoSlashes(s[..i]);
      SlashesAround(s, i);
      SplitLength(s[i + 1..]);
    }
  }

  lemma {:induction false} TrimLeftSlashes(s: string)
    ensures Slashes(TrimLeft(s, IsSlash)) <= Slashes(s)
  {
    if s != "" && s[0] == '/' {
      TrimLeftSlashes(s[1..]);
    }
  }

  lemma {:induction false} TrimRightSlashes(s: string)
    ensures Slashes(TrimRight(s, IsSlash)) <= Slashes(s)
  {
    if s != "" && s[|s| - 1] == '/' {
      TrimRightSlashes(s[..|s| - 1]);
      SlashesAppend(s[..|s| - 1], "/");
      assert s == s[..|s| - 1] + "/";
    }
  }

  lemma {:induction false} JoinSlashes(segments: seq<string>)
    requires segments != [] && forall i :: 0 <= i < |segments| ==> '/' !in segments[i]
    ensures Slashes(Join(segments)) == |segments| - 1
  {
    SplitJoin(segments);
    SplitLength(Join(segments));
  }

  /** Whatever empty segments it has, the project-relative path is at least two segments shorter. */
  lemma RelativeIsShorter(path: string)
    requires SplitProjectPath(path).Some?
    ensures |Segments(SplitProjectPath(path).value.1)| <= |Segments(path)| - 2
  {
    var segments := Segments(path);
    PartsHaveNoSlash(Trim(path, IsSlash));
    if |segments| == 2 {
      assert Segments("/") == [] by {
        assert "/"[1..] == "";
      }
    } else {
      var rest := Join(segments[2..]);
      assert ("/" + rest)[1..] == rest;
      TrimLeftSlashes(rest);
      TrimRightSlashes(TrimLeft(rest, IsSlash));
      SplitLength(Trim("/" + rest, IsSlash));
      JoinSlashes(segments[2..]);
    }
  }

  /** For a clean path it is exactly the path without its first two segments. */
  lemma RelativeOfClean(path: string)
    requires SplitProjectPath(path).Some? && Clean(Segments(path))
    ensures Segments(SplitProjectPath(path).value.1) == Segments(path)[2..]
  {
    SegmentsOfJoin(Segments(path)[2..]);
    if |Segments(path)| == 2 {
      assert "/" == "/" + Join([]);
    }
  }

  predicate AllSlashes(s: string) {
    forall i :: 0 <= i < |s| ==> s[i] == '/'
  }

  lemma {:induction false} LeftCut(s: string) returns (before: string)
    ensures AllSlashes(before) && s == before + TrimLeft(s, IsSlash)
    ensures var t := TrimLeft(s, IsSlash); t != "" ==> t[0] != '/'
  {
    if s != "" && s[0] == '/' {
      var rest := LeftCut(s[1..]);
      before := "/" + rest;
    } else {
      before := "";
    }
  }

  lemma {:induction false} RightCut(s: string) returns (after: string)
    ensures AllSlashes(after) && s == TrimRight(s, IsSlash) + after
    ensures var t := TrimRight(s, IsSlash); t != "" ==> t[0] == s[0] && t[|t| - 1] != '/'
  {
    if s != "" && s[|s| - 1] == '/' {
      var rest := RightCut(s[..|s| - 1]);
      after := rest + "/";
      assert s == s[..|s| - 1] + "/";
    } else {
      after := "";
    }
  }

  lemma {:induction false} JoinSplit(s: string)
    ensures Join(Split(s, "/")) == s
    decreases |s|
  {
    IndexOfChar(s, '/');
    var i := Index(s, "/");
    if i >= 0 {
      JoinSplit(s[i + 1..]);
      JoinCons(s[..i], Split(s[i + 1..], "/"));
      assert s == s[..i] + "/" + s[i + 1..];
    }
  }

  lemma JoinCons(first: string, rest: seq<string>)
    requires rest != []
    ensures Join([first] + rest) == first + "/" + Join(rest)
  {
    assert ([first] + rest)[1..] == rest;
  }

  /**
   Any path, clean or not, is its segments with slashes between them and more slashes around; no segment
   has a slash, and the first and the last are not empty.
   */
  lemma SegmentsOfAny(path: string) returns (before: string, after: string)
    ensures AllSlashes(before) && AllSlashes(after)
    ensures var segments := Segments(path);
      && path == before + Join(segments) + after
      && (forall i :: 0 <= i < |segments| ==> '/' !in segments[i])
      && (segments != [] ==> segments[0] != "" && segments[|segments| - 1] != "")
  {
    before := LeftCut(path);
    var t := TrimLeft(path, IsSlash);
    after := RightCut(t);
    var core := TrimRight(t, IsSlash);
    if core != "" {
      JoinSplit(core);
      PartsHaveNoSlash(core);
      EndsOfJoin(Split(core, "/"));
    }
  }

  /** The first and the last part of a text that neither starts nor ends with a slash. */
  lemma {:induction false} EndsOfJoin(parts: seq<string>)
    requires var s := Join(parts); s != "" && s[0] != '/' && s[|s| - 1] != '/'
    ensures parts != [] && parts[0] != "" && parts[|parts| - 1] != ""
  {
    if |parts| > 1 {
      if parts[|parts| - 1] == "" {
        LastOfJoin(parts);
      }
    }
  }

  lemma {:induction false} LastOfJoin(parts: seq<string>)
    requires |parts| > 1 && parts[|parts| - 1] == ""
    ensures Join(parts) != "" && Join(parts)[|Join(parts)| - 1] == '/'
  {
    if |parts| > 2 {
      LastOfJoin(parts[1..]);
    } else {
      assert Join(parts[1..]) == "";
    }
  }
}
