/**
  Base-10 formatting and parsing of 64-bit integers, as `strconv.FormatInt`,
  `strconv.FormatUint` and `strconv.ParseInt(s, 10, 64)` do it.
 */
module Decimal {
  import opened Wrappers

  const INT64_MIN: int := -0x8000_0000_0000_0000
  const INT64_MAX: int := 0x7fff_ffff_ffff_ffff

  predicate IsDigit(c: char) {
    '0' <= c <= '9'
  }

  predicate AllDigits(s: string) {
    forall i :: 0 <= i < |s| ==> IsDigit(s[i])
  }

  function Digit(d: nat): char
    requires d < 10
  {
    ('0' as int + d) as char
  }

  function FormatNat(n: nat): (s: string)
    ensures |s| > 0 && AllDigits(s)
  {
    if n < 10 then [Digit(n)] else FormatNat(n / 10) + [Digit(n % 10)]
  }

  function FormatInt(n: int): string {
    if n < 0 then "-" + FormatNat(-n) else FormatNat(n)
  }

  // The number that a string of digits denotes; the empty string denotes 0.
  function Magnitude(s: string): nat
    requires AllDigits(s)
  {
    if s == "" then 0
    else Magnitude(s[..|s| - 1]) * 10 + (s[|s| - 1] as int - '0' as int)
  }

  // An optional sign, at least one digit, nothing else, and a value that fits 64 bits.
  function ParseInt(s: string): Option<int> {
    var signed := s != "" && (s[0] == '+' || s[0] == '-');
    var digits := if signed then s[1..] else s;
    if digits == "" || !AllDigits(digits) then None
    else
      var n: int := if signed && s[0] == '-' then 0 - Magnitude(digits) else Magnitude(digits);
      if INT64_MIN <= n <= INT64_MAX then Some(n) else None
  }

  // The digits, most significant first, and none before the first that counts.
  lemma DigitsAreUsual(n: nat)
    ensures n < 10 ==> FormatNat(n) == ["0123456789"[n]]
    ensures n >= 10 ==> FormatNat(n) == FormatNat(n / 10) + FormatNat(n % 10) && FormatNat(n)[0] == FormatNat(n / 10)[0]
    ensures n > 0 ==> FormatNat(n)[0] != '0'
  {
  }

  lemma {:induction false} FormatNatDenotes(n: nat)
    ensures Magnitude(FormatNat(n)) == n
  {
    var s := FormatNat(n);
    if n >= 10 {
      FormatNatDenotes(n / 10);
      assert s[..|s| - 1] == FormatNat(n / 10);
    } else {
      assert s[..|s| - 1] == "";
    }
  }

  lemma FormatIntDistinct(m: int, n: int)
    requires FormatInt(m) == FormatInt(n)
    ensures m == n
  {
    var s, t := FormatInt(m), FormatInt(n);
    assert m < 0 <==> s[0] == '-';
    assert n < 0 <==> t[0] == '-';
    if m < 0 {
      assert s[1..] == FormatNat(-m) && t[1..] == FormatNat(-n);
      FormatNatDenotes(-m);
      FormatNatDenotes(-n);
    } else {
      FormatNatDenotes(m);
      FormatNatDenotes(n);
    }
  }

  lemma ParseFormat(n: int)
    requires INT64_MIN <= n <= INT64_MAX
    ensures ParseInt(FormatInt(n)) == Some(n)
  {
    var s := FormatInt(n);
    if n < 0 {
      assert s[1..] == FormatNat(-n);
      FormatNatDenotes(-n);
    } else {
      assert IsDigit(s[0]);
      FormatNatDenotes(n);
    }
  }

  function Zeros(n: nat): (s: string)
    ensures |s| == n && AllDigits(s)
  {
    seq(n, _ => '0')
  }

  // Every string of digits is the decimal form of a number behind some zeros.
  lemma {:induction false} DigitsAreDecimal(s: string) returns (zeros: nat)
    requires s != "" && AllDigits(s)
    ensures s == Zeros(zeros) + FormatNat(Magnitude(s))
  {
    var head, last := s[..|s| - 1], s[|s| - 1];
    assert s == head + [last];
    if head == "" {
      zeros := 0;
    } else {
      zeros := DigitsAreDecimal(head);
      if Magnitude(head) == 0 {
        zeros := zeros + 1;
      } else {
        assert FormatNat(Magnitude(s)) == FormatNat(Magnitude(head)) + [last];
      }
    }
  }

  lemma {:induction false} ZerosDoNotCount(zeros: nat, n: nat)
    ensures AllDigits(Zeros(zeros) + FormatNat(n)) && Magnitude(Zeros(zeros) + FormatNat(n)) == n
    decreases n
  {
    var s := Zeros(zeros) + FormatNat(n);
    if n < 10 {
      assert s[..|s| - 1] == Zeros(zeros);
      ZeroIsNothing(zeros);
    } else {
      ZerosDoNotCount(zeros, n / 10);
      assert s[..|s| - 1] == Zeros(zeros) + FormatNat(n / 10);
    }
  }

  lemma {:induction false} ZeroIsNothing(zeros: nat)
    ensures Magnitude(Zeros(zeros)) == 0
  {
    if zeros > 0 {
      assert Zeros(zeros)[..zeros - 1] == Zeros(zeros - 1);
      ZeroIsNothing(zeros - 1);
    }
  }

  function Absolute(n: int): nat {
    if n < 0 then -n else n
  }

  // `s` is a sign that suits n, or none, some zeros, and the decimal form of n without its sign.
  ghost predicate SpelledBy(s: string, sign: string, zeros: nat, n: int) {
    && (sign == "-" || (n >= 0 && (sign == "" || sign == "+"))) && (n > 0 ==> sign != "-")
    && s == sign + (Zeros(zeros) + FormatNat(Absolute(n)))
  }

  ghost predicate Spells(s: string, n: int) {
    exists sign, zeros: nat :: SpelledBy(s, sign, zeros, n)
  }

  lemma SignedDigits(sign: string, digits: string)
    requires sign == "" || sign == "+" || sign == "-"
    requires digits != "" && AllDigits(digits)
    ensures var n: int := if sign == "-" then 0 - Magnitude(digits) else Magnitude(digits);
            ParseInt(sign + digits) == if INT64_MIN <= n <= INT64_MAX then Some(n) else None
  {
    var s := sign + digits;
    if sign == "" {
      assert IsDigit(s[0]) && s == digits;
    } else {
      assert s[1..] == digits;
    }
  }

  lemma SpelledIsParsed(s: string, sign: string, zeros: nat, n: int)
    requires SpelledBy(s, sign, zeros, n) && INT64_MIN <= n <= INT64_MAX
    ensures ParseInt(s) == Some(n)
  {
    ZerosDoNotCount(zeros, Absolute(n));
    SignedDigits(sign, Zeros(zeros) + FormatNat(Absolute(n)));
  }

  lemma ParsedIsSpelled(s: string, n: int)
    requires ParseInt(s) == Some(n)
    ensures Spells(s, n)
  {
    var sign, digits := SplitSign(s, n);
    var zeros := DigitsAreDecimal(digits);
    assert SpelledBy(s, sign, zeros, n);
  }

  lemma SplitSign(s: string, n: int) returns (sign: string, digits: string)
    requires ParseInt(s) == Some(n)
    ensures sign == "" || sign == "+" || sign == "-"
    ensures s == sign + digits && digits != "" && AllDigits(digits)
    ensures n == if sign == "-" then 0 - Magnitude(digits) else Magnitude(digits)
  {
    if s[0] == '+' || s[0] == '-' {
      sign, digits := [s[0]], s[1..];
    } else {
      sign, digits := "", s;
    }
  }

  // Parsing accepts exactly what spells a 64-bit integer.
  lemma ParseIntIsExact(s: string, n: int)
    ensures ParseInt(s) == Some(n) <==> INT64_MIN <= n <= INT64_MAX && Spells(s, n)
  {
    if ParseInt(s) == Some(n) {
      ParsedIsSpelled(s, n);
    } else if INT64_MIN <= n <= INT64_MAX && Spells(s, n) {
      var sign, zeros: nat :| SpelledBy(s, sign, zeros, n);
      SpelledIsParsed(s, sign, zeros, n);
    }
  }

  lemma PrefixCancels(p: string, x: string, y: string)
    requires p + x == p + y
    ensures x == y
  {
    assert x == (p + x)[|p|..] && y == (p + y)[|p|..];
  }

  // Digits followed by a non-digit are a uniquely readable header.
  lemma DigitHeaderUnique(a: string, b: string, sep: char, x: string, y: string)
    requires AllDigits(a) && AllDigits(b) && !IsDigit(sep)
    requires a + [sep] + x == b + [sep] + y
    ensures a == b && x == y
  {
    var s, t := a + [sep] + x, b + [sep] + y;
    assert s[|a|] == sep && t[|b|] == sep;
    assert forall i :: 0 <= i < |a| ==> IsDigit(s[i]);
    assert forall i :: 0 <= i < |b| ==> IsDigit(t[i]);
    assert |a| == |b|;
    assert a == s[..|a|] && b == t[..|b|];
    assert x == s[|a| + 1..] && y == t[|b| + 1..];
  }
}
