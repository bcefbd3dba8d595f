/** Decimal numerals as strconv and fmt write and read them. */
module Decimal {
  import opened Options

  predicate IsDigit(c: char) {
    '0' <= c <= '9'
  }

  function Digit(d: nat): (c: char)
    requires d < 10
    ensures IsDigit(c)
  {
    '0' + d as char
  }

  predicate AllDigits(s: string) {
    forall i :: 0 <= i < |s| ==> IsDigit(s[i])
  }

  /** strconv.Itoa of a non-negative number. */
  function Itoa(n: nat): (s: string)
    ensures s != "" && AllDigits(s)
  {
    if n < 10 then [Digit(n)] else Itoa(n / 10) + [Digit(n % 10)]
  }

  function Value(s: string): nat
    requires AllDigits(s)
  {
    if s == "" then 0 else 10 * Value(s[..|s| - 1]) + (s[|s| - 1] - '0') as nat
  }

  /** strconv.Atoi: an optional sign and digits, nothing else. */
  function Atoi(s: string): Option<int> {
    var signed := s != "" && (s[0] == '+' || s[0] == '-');
    var digits := if signed then s[1..] else s;
    if digits == "" || !AllDigits(digits) then None
    else
      var n: int := Value(digits);
      Some(if signed && s[0] == '-' then -n else n)
  }

  lemma {:induction false} ValueOfItoa(n: nat)
    ensures Value(Itoa(n)) == n
  {
    if n < 10 {
      assert Itoa(n)[..0] == "";
    } else {
      ValueOfItoa(n / 10);
      assert Itoa(n)[..|Itoa(n)| - 1] == Itoa(n / 10);
    }
  }

  lemma AtoiOfItoa(n: nat)
    ensures Atoi(Itoa(n)) == Some(n)
  {
    ValueOfItoa(n);
    assert IsDigit(Itoa(n)[0]);
  }

  /** The numeral of one digit, and of a number with one digit more: these determine every numeral. */
  lemma ItoaOfDigit(d: nat)
    requires d < 10
    ensures Itoa(d) == ["0123456789"[d]]
  {
  }

  lemma ItoaOfMore(n: nat, d: nat)
    requires n > 0 && d < 10
    ensures Itoa(10 * n + d) == Itoa(n) + ["0123456789"[d]]
  {
    assert (10 * n + d) / 10 == n && (10 * n + d) % 10 == d;
  }

  /** A numeral may have a sign and leading zeros. */
  lemma AtoiOfSigned(n: nat, zeros: string)
    requires forall i :: 0 <= i < |zeros| ==> zeros[i] == '0'
    ensures Atoi(zeros + Itoa(n)) == Some(n)
    ensures Atoi("-" + (zeros + Itoa(n))) == Some(0 - n)
    ensures Atoi("+" + (zeros + Itoa(n))) == Some(n)
  {
    ValueOfZeros(zeros, Itoa(n));
    ValueOfItoa(n);
    var s := zeros + Itoa(n);
    assert IsDigit(s[0]);
    assert ("-" + s)[1..] == s && ("+" + s)[1..] == s;
  }

  lemma {:induction false} ValueOfZeros(zeros: string, s: string)
    requires AllDigits(s) && forall i :: 0 <= i < |zeros| ==> zeros[i] == '0'
    ensures AllDigits(zeros + s) && Value(zeros + s) == Value(s)
    decreases |zeros| + |s|
  {
    var t := zeros + s;
    if s != "" {
      ValueOfZeros(zeros, s[..|s| - 1]);
      assert t[..|t| - 1] == zeros + s[..|s| - 1];
    } else if zeros != "" {
      ValueOfZeros(zeros[..|zeros| - 1], "");
      assert t[..|t| - 1] == zeros[..|zeros| - 1] + "";
    }
  }

  predicate IsSign(c: char) {
    c == '+' || c == '-'
  }

  /** Nothing else is a numeral. */
  lemma AtoiIff(s: string)
    ensures Atoi(s).Some? <==>
      s != "" && (IsSign(s[0]) ==> |s| > 1) && forall k :: (if IsSign(s[0]) then 1 else 0) <= k < |s| ==> '0' <= s[k] <= '9'
  {
    if s != "" && IsSign(s[0]) {
      assert Atoi(s).Some? <==> s[1..] != "" && AllDigits(s[1..]);
      if AllDigits(s[1..]) {
        forall k | 1 <= k < |s|
          ensures '0' <= s[k] <= '9'
        {
          assert IsDigit(s[1..][k - 1]);
        }
      }
    }
  }

  /** An identifier made of a prefix, a dash and a sequence number. */
  function Id(prefix: string, n: nat): string {
    prefix + "-" + Itoa(n)
  }

  /** Two such identifiers are equal only for the same prefix and number, whatever dashes the prefixes have. */
  lemma IdIsInjective(p: string, m: nat, q: string, n: nat)
    requires Id(p, m) == Id(q, n)
    ensures p == q && m == n
  {
    var s := Id(p, m);
    assert s[|p|] == '-' && s[|q|] == '-';
    assert forall i :: |p| < i < |s| ==> s[i] == Itoa(m)[i - |p| - 1];
    assert forall i :: |q| < i < |s| ==> s[i] == Itoa(n)[i - |q| - 1];
    assert |p| == |q|;
    assert s[..|p|] == p && s[..|q|] == q;
    assert s[|p| + 1..] == Itoa(m) && s[|q| + 1..] == Itoa(n);
    ValueOfItoa(m);
    ValueOfItoa(n);
  }
}
