/** Cutting text to a byte budget without splitting a rune. */
module Utf8Cut {
  import opened Machine

  /** utf8.RuneStart: not a continuation byte. */
  predicate RuneStart(b: byte) {
    b < 0x80 || b >= 0xC0
  }

  predicate Tail(b: byte) {
    0x80 <= b <= 0xBF
  }

  /** The length of the encoded character at the start, by the grammar of section 4 of RFC 3629, or 0. */
  function Rune(s: seq<byte>): (n: nat)
    ensures n <= |s| && n <= 4
  {
    if |s| >= 1 && s[0] <= 0x7F then 1
    else if |s| >= 2 && 0xC2 <= s[0] <= 0xDF && Tail(s[1]) then 2
    else if |s| >= 3 && 0xE0 <= s[0] <= 0xEF && Tail(s[1]) && Tail(s[2])
            && (s[0] == 0xE0 ==> s[1] >= 0xA0) && (s[0] == 0xED ==> s[1] <= 0x9F) then 3
    else if |s| >= 4 && 0xF0 <= s[0] <= 0xF4 && Tail(s[1]) && Tail(s[2]) && Tail(s[3])
            && (s[0] == 0xF0 ==> s[1] >= 0x90) && (s[0] == 0xF4 ==> s[1] <= 0x8F) then 4
    else 0
  }

  predicate ValidUtf8(s: seq<byte>) {
    s == [] || (Rune(s) > 0 && ValidUtf8(s[Rune(s)..]))
  }

  /** A Unicode scalar value: a code point that is no surrogate. */
  predicate Scalar(c: nat) {
    c <= 0xD7FF || 0xE000 <= c <= 0x10FFFF
  }

  /** The bytes of a scalar value, by section 3 of RFC 3629. */
  function Encoded(c: nat): seq<byte>
    requires Scalar(c)
  {
    if c <= 0x7F then [c]
    else if c <= 0x7FF then [0xC0 + c / 64, 0x80 + c % 64]
    else if c <= 0xFFFF then [0xE0 + c / 4096, 0x80 + c / 64 % 64, 0x80 + c % 64]
    else [0xF0 + c / 262144, 0x80 + c / 4096 % 64, 0x80 + c / 64 % 64, 0x80 + c % 64]
  }

  /** Every encoded value is one character of the grammar. */
  lemma EncodedIsRune(c: nat, rest: seq<byte>)
    requires Scalar(c)
    ensures Rune(Encoded(c) + rest) == |Encoded(c)| > 0
  {
    var s := Encoded(c) + rest;
    assert s[..|Encoded(c)|] == Encoded(c);
    if 0x7FF < c <= 0xFFFF {
      ThreeBytes(c);
    } else if c > 0xFFFF {
      FourBytes(c);
    }
  }

  lemma ThreeBytes(c: nat)
    requires 0x800 <= c <= 0xFFFF && Scalar(c)
    ensures 0 <= c / 4096 <= 15
    ensures c / 4096 == 0 ==> c / 64 % 64 >= 0x20
    ensures c / 4096 == 13 ==> c / 64 % 64 <= 0x1F
  {
    assert c / 64 / 64 == c / 4096 && c / 64 == 64 * (c / 64 / 64) + c / 64 % 64;
  }

  lemma FourBytes(c: nat)
    requires 0x10000 <= c <= 0x10FFFF
    ensures 0 <= c / 262144 <= 4
    ensures c / 262144 == 0 ==> c / 4096 % 64 >= 0x10
    ensures c / 262144 == 4 ==> c / 4096 % 64 <= 0x0F
  {
    assert c / 4096 / 64 == c / 262144 && c / 4096 == 64 * (c / 4096 / 64) + c / 4096 % 64;
  }

  lemma TwoFrom(a: nat, b: nat)
    requires 0xC2 <= a <= 0xDF && 0x80 <= b <= 0xBF
    ensures var c := (a - 0xC0) * 64 + (b - 0x80); Scalar(c) && Encoded(c) == [a, b]
  {
    var c := (a - 0xC0) * 64 + (b - 0x80);
    assert c / 64 == a - 0xC0 && c % 64 == b - 0x80;
  }

  lemma ThreeFrom(a: nat, b: nat, d: nat)
    requires 0xE0 <= a <= 0xEF && 0x80 <= b <= 0xBF && 0x80 <= d <= 0xBF
    requires (a == 0xE0 ==> b >= 0xA0) && (a == 0xED ==> b <= 0x9F)
    ensures var c := (a - 0xE0) * 4096 + (b - 0x80) * 64 + (d - 0x80); Scalar(c) && Encoded(c) == [a, b, d]
  {
    var c := (a - 0xE0) * 4096 + (b - 0x80) * 64 + (d - 0x80);
    var high := (a - 0xE0) * 64 + (b - 0x80);
    assert c / 64 == high && c % 64 == d - 0x80;
    assert high / 64 == a - 0xE0 && high % 64 == b - 0x80;
  }

  lemma FourFrom(a: nat, b: nat, d: nat, e: nat)
    requires 0xF0 <= a <= 0xF4 && 0x80 <= b <= 0xBF && 0x80 <= d <= 0xBF && 0x80 <= e <= 0xBF
    requires (a == 0xF0 ==> b >= 0x90) && (a == 0xF4 ==> b <= 0x8F)
    ensures var c := (a - 0xF0) * 262144 + (b - 0x80) * 4096 + (d - 0x80) * 64 + (e - 0x80); Scalar(c) && Encoded(c) == [a, b, d, e]
  {
    var c := (a - 0xF0) * 262144 + (b - 0x80) * 4096 + (d - 0x80) * 64 + (e - 0x80);
    var high := (a - 0xF0) * 4096 + (b - 0x80) * 64 + (d - 0x80);
    var top := (a - 0xF0) * 64 + (b - 0x80);
    assert c / 64 == high && c % 64 == e - 0x80;
    assert high / 64 == top && high % 64 == d - 0x80 && c / 4096 == top;
    assert top / 64 == a - 0xF0 && top % 64 == b - 0x80 && c / 262144 == top / 64;
  }

  /** And every character of the grammar is an encoded value: valid text is a sequence of these. */
  lemma RuneIsEncoded(s: seq<byte>) returns (c: nat)
    requires Rune(s) > 0
    ensures Scalar(c) && s[..Rune(s)] == Encoded(c)
  {
    var a: int := s[0];
    if Rune(s) == 1 {
      c := a;
    } else if Rune(s) == 2 {
      c := (a - 0xC0) * 64 + (s[1] as int - 0x80);
      TwoFrom(s[0], s[1]);
    } else if Rune(s) == 3 {
      c := (a - 0xE0) * 4096 + (s[1] as int - 0x80) * 64 + (s[2] as int - 0x80);
      ThreeFrom(s[0], s[1], s[2]);
    } else {
      c := (a - 0xF0) * 262144 + (s[1] as int - 0x80) * 4096 + (s[2] as int - 0x80) * 64 + (s[3] as int - 0x80);
      FourFrom(s[0], s[1], s[2], s[3]);
    }
  }

  /** A place where the text can be cut. */
  predicate Boundary(s: seq<byte>, i: nat)
    requires i <= |s|
  {
    i == |s| || RuneStart(s[i])
  }

  /** In valid text the byte test finds exactly the places where both sides, or either side, are valid. */
  lemma {:induction false} BoundaryIff(s: seq<byte>, i: nat)
    requires ValidUtf8(s) && i <= |s|
    ensures Boundary(s, i) <==> ValidUtf8(s[..i])
    ensures Boundary(s, i) <==> ValidUtf8(s[i..])
  {
    if s == [] || i == 0 {
      assert s[i..] == s && s[..i] == [];
    } else {
      var n := Rune(s);
      if i < n {
        assert !Boundary(s, i);
        assert Rune(s[i..]) == 0;
        assert Rune(s[..i]) == 0;
      } else {
        BoundaryIff(s[n..], i - n);
        assert s[n..][i - n..] == s[i..];
        assert s[n..][..i - n] == s[..i][n..];
        assert Rune(s[..i]) == n;
      }
    }
  }

  /** Boundaries are never more than three bytes away, in either direction. */
  lemma {:induction false} BoundaryNear(s: seq<byte>, i: nat) returns (before: nat, after: nat)
    requires ValidUtf8(s) && i <= |s|
    ensures before <= i <= after <= |s| && i <= before + 3 && after <= i + 3
    ensures Boundary(s, before) && Boundary(s, after)
  {
    var n := Rune(s);
    if s == [] || i == 0 {
      before, after := i, i;
    } else if i < n {
      before, after := 0, n;
      if n < |s| {
        assert Rune(s[n..]) > 0;
      }
    } else {
      before, after := BoundaryNear(s[n..], i - n);
      before, after := before + n, after + n;
    }
  }

  /** The longest prefix, or suffix, of at most n bytes that is valid text. */
  ghost predicate LongestValidPrefix(s: seq<byte>, n: nat, r: seq<byte>) {
    && r <= s && |r| <= n && ValidUtf8(r)
    && forall k :: |r| < k <= n && k <= |s| ==> !ValidUtf8(s[..k])
  }

  ghost predicate LongestValidSuffix(s: seq<byte>, n: nat, r: seq<byte>) {
    && |r| <= |s| && s[|s| - |r|..] == r && |r| <= n && ValidUtf8(r)
    && forall i :: 0 <= i < |s| - |r| && |s| - n <= i ==> !ValidUtf8(s[i..])
  }

  method CutHead(s: seq<byte>, n: int) returns (r: seq<byte>)
    requires 0 <= n <= |s|
    ensures r <= s && |r| <= n
    ensures forall k :: |r| < k <= n ==> !Boundary(s, k)
    ensures |r| == 0 || Boundary(s, |r|)
    ensures ValidUtf8(s) ==> LongestValidPrefix(s, n, r) && n <= |r| + 3
  {
    var m := n;
    while m > 0 && m < |s| && !RuneStart(s[m])
      invariant 0 <= m <= n
      invariant forall k :: m < k <= n ==> !Boundary(s, k)
    {
      m := m - 1;
    }
    r := s[..m];
    if ValidUtf8(s) {
      PrefixIsLongest(s, n, m);
    }
  }

  lemma PrefixIsLongest(s: seq<byte>, n: nat, m: nat)
    requires ValidUtf8(s) && m <= n <= |s| && (m == 0 || Boundary(s, m))
    requires forall k :: m < k <= n ==> !Boundary(s, k)
    ensures LongestValidPrefix(s, n, s[..m]) && n <= m + 3
  {
    forall k | m <= k <= n && (k == m ==> m > 0)
      ensures Boundary(s, k) <==> ValidUtf8(s[..k])
    {
      BoundaryIff(s, k);
    }
    var before, _ := BoundaryNear(s, n);
    assert before <= m;
  }

  method CutTail(s: seq<byte>, n: int) returns (r: seq<byte>)
    requires 0 <= n <= |s|
    ensures |r| <= n && s[|s| - |r|..] == r
    ensures forall k :: |s| - n <= k < |s| - |r| ==> !Boundary(s, k)
    ensures Boundary(s, |s| - |r|)
    ensures ValidUtf8(s) ==> LongestValidSuffix(s, n, r) && n <= |r| + 3
  {
    var i := |s| - n;
    while i < |s| && !RuneStart(s[i])
      invariant |s| - n <= i <= |s|
      invariant forall k :: |s| - n <= k < i ==> !Boundary(s, k)
    {
      i := i + 1;
    }
    r := s[i..];
    if ValidUtf8(s) {
      SuffixIsLongest(s, n, i);
    }
  }

  lemma SuffixIsLongest(s: seq<byte>, n: nat, i: nat)
    requires ValidUtf8(s) && n <= |s| && |s| - n <= i <= |s| && Boundary(s, i)
    requires forall k :: |s| - n <= k < i ==> !Boundary(s, k)
    ensures LongestValidSuffix(s, n, s[i..]) && n <= |s| - i + 3
  {
    forall k | |s| - n <= k <= i
      ensures Boundary(s, k) <==> ValidUtf8(s[k..])
    {
      BoundaryIff(s, k);
    }
    var _, after := BoundaryNear(s, |s| - n);
    assert i <= after;
  }

  /** The end of GetDiff: a positive limit below the length cuts the text, and only that. */
  method LimitHead(text: seq<byte>, maxBytes: int) returns (r: seq<byte>, truncated: bool)
    ensures truncated <==> 0 < maxBytes < |text|
    ensures !truncated ==> r == text
    ensures truncated && ValidUtf8(text) ==> LongestValidPrefix(text, maxBytes, r) && maxBytes <= |r| + 3
  {
    if maxBytes > 0 && |text| > maxBytes {
      r := CutHead(text, maxBytes);
      return r, true;
    }
    return text, false;
  }

  /** The end of GetCheckLogs: the same from the other end. */
  method LimitTail(text: seq<byte>, tailBytes: int) returns (r: seq<byte>, truncated: bool)
    ensures truncated <==> 0 < tailBytes < |text|
    ensures !truncated ==> r == text
    ensures truncated && ValidUtf8(text) ==> LongestValidSuffix(text, tailBytes, r) && tailBytes <= |r| + 3
  {
    if tailBytes > 0 && |text| > tailBytes {
      r := CutTail(text, tailBytes);
      return r, true;
    }
    return text, false;
  }
}
