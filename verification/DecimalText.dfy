/** Printing an int as decimal text: a digit loop, lowest digit first, and a reversal in place. */
module DecimalText {
  import opened Basics

  /** The value of an int on a 64-bit platform. */
  type Int64 = n: int | -TWO63 <= n < TWO63

  const MIN_INT: Int64 := -TWO63

  /** Negation as the machine does it: it wraps. */
  function Negated(n: Int64): Int64 {
    var m: int := n;
    if -m < TWO63 then -m else -m - TWO64
  }

  // ----- What decimal text means -----

  predicate IsDigit(c: char) {
    '0' <= c <= '9'
  }

  function DigitValue(c: char): (v: int)
    requires IsDigit(c)
    ensures 0 <= v <= 9
  {
    c as int - '0' as int
  }

  function DigitOf(v: int): (c: char)
    requires 0 <= v <= 9
    ensures IsDigit(c) && DigitValue(c) == v
  {
    ('0' as int + v) as char
  }

  predicate AllDigits(s: string) {
    forall i :: 0 <= i < |s| ==> IsDigit(s[i])
  }

  /** Positional value of the first n digits, highest digit first. */
  function ValueFirst(s: string, n: nat): (v: int)
    requires AllDigits(s) && n <= |s|
    ensures v >= 0
  {
    if n == 0 then 0 else 10 * ValueFirst(s, n - 1) + DigitValue(s[n - 1])
  }

  function Value(s: string): (v: int)
    requires AllDigits(s)
    ensures v >= 0
  {
    ValueFirst(s, |s|)
  }

  lemma {:induction false} ValuePrefix(s: string, t: string, n: nat)
    requires AllDigits(s) && AllDigits(t) && n <= |s| <= |t| && t[..|s|] == s
    ensures ValueFirst(t, n) == ValueFirst(s, n)
  {
    if n > 0 {
      ValuePrefix(s, t, n - 1);
      assert t[n - 1] == t[..|s|][n - 1];
    }
  }

  /** Reads decimal text with an optional minus sign. */
  function Parse(s: string): Option<int> {
    if s == "" || s == "-" then None
    else if AllDigits(s) then Some(Value(s))
    else if s[0] == '-' && AllDigits(s[1..]) then Some(-Value(s[1..]))
    else None
  }

  /** Canonical text: no leading zero, and a sign only before a non-zero number. */
  predicate Canonical(s: string) {
    || s == "0"
    || (s != "" && AllDigits(s) && s[0] != '0')
    || (|s| > 1 && s[0] == '-' && AllDigits(s[1..]) && s[1] != '0')
  }

  // ----- The text of a number -----

  /** The digits of a number, highest first; none for zero. */
  function Digits(n: nat): (s: string)
    ensures AllDigits(s) && Value(s) == n && (n > 0 ==> s != "" && s[0] != '0') && (n == 0 ==> s == "")
  {
    if n == 0 then "" else
      var init := Digits(n / 10);
      var s := init + [DigitOf(n % 10)];
      assert s[..|init|] == init;
      ValuePrefix(init, s, |init|);
      s
  }

  function Text(n: int): string {
    if n == 0 then "0" else if n < 0 then "-" + Digits(-n) else Digits(n)
  }

  /** Appending a digit to a number and taking it off again. */
  lemma DigitStep(v: nat, d: int)
    requires 0 <= d <= 9
    ensures (10 * v + d) / 10 == v && (10 * v + d) % 10 == d
  {
  }

  lemma DigitBack(c: char)
    requires IsDigit(c)
    ensures DigitOf(DigitValue(c)) == c
  {
  }

  /** The digits of a number with one digit more. */
  lemma DigitsOneMore(v: nat, c: char)
    requires IsDigit(c) && (v > 0 || c != '0')
    ensures 10 * v + DigitValue(c) > 0 && Digits(10 * v + DigitValue(c)) == Digits(v) + [c]
  {
    DigitStep(v, DigitValue(c));
    DigitBack(c);
  }

  /** Digit text without a leading zero is determined by its value. */
  lemma {:induction false} DigitsUnique(s: string, n: nat)
    requires AllDigits(s) && n <= |s| && (n == 0 || s[0] != '0')
    ensures s[..n] == Digits(ValueFirst(s, n)) && (n > 0 ==> ValueFirst(s, n) > 0)
  {
    if n > 0 {
      DigitsUnique(s, n - 1);
      DigitsOneMore(ValueFirst(s, n - 1), s[n - 1]);
      assert s[..n] == s[..n - 1] + [s[n - 1]];
    }
  }

  lemma DigitsOfValue(s: string)
    requires AllDigits(s) && s != "" && s[0] != '0'
    ensures s == Digits(Value(s)) && Value(s) > 0
  {
    DigitsUnique(s, |s|);
    assert s[..|s|] == s;
  }

  /** Text(n) is the one canonical text that reads back as n. */
  lemma TextIsTheCanonicalForm(n: int, s: string)
    ensures s == Text(n) <==> Canonical(s) && Parse(s) == Some(n)
  {
    TextReadsBack(n);
    if Canonical(s) && Parse(s) == Some(n) {
      if s[0] == '-' {
        assert s == "-" + s[1..];
        DigitsOfValue(s[1..]);
      } else if s == "0" {
        ZeroReads();
      } else {
        DigitsOfValue(s);
      }
    }
  }

  lemma ZeroReads()
    ensures Parse("0") == Some(0)
  {
    assert ValueFirst("0", 1) == 10 * ValueFirst("0", 0) + DigitValue('0');
  }

  lemma TextReadsBack(n: int)
    ensures Canonical(Text(n)) && Parse(Text(n)) == Some(n)
  {
    var s := Text(n);
    if n == 0 {
      ZeroReads();
    } else if n < 0 {
      assert s[1..] == Digits(-n);
      assert !IsDigit(s[0]);
    }
  }

  // ----- The loops -----

  /** The digits of a number, lowest first. */
  function LowFirst(n: nat): string {
    if n == 0 then "" else [DigitOf(n % 10)] + LowFirst(n / 10)
  }

  ghost predicate Mirrored(s: string, t: string) {
    |s| == |t| && forall k :: 0 <= k < |s| ==> s[k] == t[|s| - 1 - k]
  }

  lemma {:induction false} LowFirstMirrors(n: nat)
    ensures Mirrored(Digits(n), LowFirst(n))
  {
    if n > 0 {
      LowFirstMirrors(n / 10);
    }
  }

  method Reverse(a: array<char>)
    modifies a
    ensures Mirrored(a[..], old(a[..]))
  {
    var i, j := 0, a.Length - 1;
    while i < j
      invariant 0 <= i <= a.Length && j == a.Length - 1 - i
      invariant i <= j + 1 || a.Length == 0
      invariant forall k :: 0 <= k < i ==> a[k] == old(a[a.Length - 1 - k])
      invariant forall k :: j < k < a.Length ==> a[k] == old(a[a.Length - 1 - k])
      invariant forall k :: i <= k <= j ==> a[k] == old(a[k])
    {
      a[i], a[j] := a[j], a[i];
      i, j := i + 1, j - 1;
    }
  }

  /** The digits of n, lowest first, then a minus sign where asked for. */
  method Collect(n: Int64, neg: bool) returns (digits: string)
    ensures digits == LowFirst(if n > 0 then n else 0) + (if neg then "-" else "")
  {
    var rest := n;
    digits := "";
    while rest > 0
      invariant rest <= 0 ==> rest == 0 || rest == n
      invariant digits + LowFirst(if rest > 0 then rest else 0) == LowFirst(if n > 0 then n else 0)
    {
      digits := digits + [DigitOf(rest % 10)];
      rest := rest / 10;
    }
    if neg {
      digits := digits + "-";
    }
  }

  /**
   * Every int but the least prints as its canonical text. Negating the least
   * leaves it negative, so its digit loop does not run and only the sign comes out. */
  method IntToStr(n: Int64) returns (s: string)
    ensures s == if n == MIN_INT then "-" else Text(n)
    ensures Parse(s) == Some(n) <==> n != MIN_INT
  {
    if n == 0 {
      TextReadsBack(n);
      return "0";
    }
    var neg := n < 0;
    var magnitude := if neg then Negated(n) else n;
    var digits := Collect(magnitude, neg);
    var a := new char[|digits|](i requires 0 <= i < |digits| => digits[i]);
    assert a[..] == digits;
    Reverse(a);
    s := a[..];
    MirroredText(n, digits, s);
    TextReadsBack(n);
  }

  lemma MirroredText(n: Int64, digits: string, s: string)
    requires n != 0
    requires var m := if n < 0 then Negated(n) else n;
      digits == LowFirst(if m > 0 then m else 0) + (if n < 0 then "-" else "")
    requires Mirrored(s, digits)
    ensures s == if n == MIN_INT then "-" else Text(n)
  {
    if n == MIN_INT {
      assert s == "-";
    } else {
      LowFirstMirrors(if n < 0 then -n else n);
      assert s == Text(n);
    }
  }

  /** Two ints print alike only if they are the same int: the sign alone is no number's text. */
  lemma PrintingIsInjective(m: int, n: int)
    ensures Text(m) == Text(n) <==> m == n
    ensures Text(m) != "-"
  {
    TextReadsBack(m);
    TextReadsBack(n);
  }
}
