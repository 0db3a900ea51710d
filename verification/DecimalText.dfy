/**
 Decimal text: `__polaron_decimal_str` prints a sign, an integer part and an 18-digit fraction,
 `__polaron_itoa` prints a 64-bit integer, and `decimalScaledString` reads a lexeme back as the
 mantissa, the value times 10^18.
 */
module DecimalText {
  type Text = seq<char>

  const SCALE: nat := 18
  const INT64_MIN: int := -0x8000_0000_0000_0000
  const INT64_MAX: int := 0x7FFF_FFFF_FFFF_FFFF

  // ---- digits and what they denote ----

  predicate IsDigit(c: char) { '0' <= c <= '9' }

  ghost predicate AllDigits(s: Text) { forall i :: 0 <= i < |s| ==> IsDigit(s[i]) }

  function Digit(n: nat): (c: char)
    requires n < 10
    ensures IsDigit(c)
  {
    '0' + (n as char)
  }

  function DigitValue(c: char): nat
    requires IsDigit(c)
  {
    c as nat - '0' as nat
  }

  lemma DigitReadsBack(n: nat)
    requires n < 10
    ensures DigitValue(Digit(n)) == n
  {
  }

  function Pow10(k: nat): (r: nat)
    ensures r > 0
  {
    if k == 0 then 1 else 10 * Pow10(k - 1)
  }

  /** The number a run of digits denotes. */
  ghost function Value(s: Text): nat
    requires AllDigits(s)
  {
    if s == [] then 0 else 10 * Value(s[..|s| - 1]) + DigitValue(s[|s| - 1])
  }

  /** The number a signed run of digits denotes. */
  ghost function SignedValue(s: Text): int
    requires s != [] && ((s[0] == '-' && AllDigits(s[1..])) || AllDigits(s))
  {
    if s[0] == '-' then -(Value(s[1..]) as int) else Value(s)
  }

  /** The last `k` digits of a number. */
  function LowDigits(n: nat, k: nat): (r: Text)
    ensures |r| == k
    decreases k
  {
    if k == 0 then [] else LowDigits(n / 10, k - 1) + [Digit(n % 10)]
  }

  /** The digits of a number, none in front that is not needed. */
  function Digits(n: nat): (r: Text)
    ensures |r| > 0
  {
    if n < 10 then [Digit(n)] else Digits(n / 10) + [Digit(n % 10)]
  }

  ghost predicate Canonical(s: Text)
  {
    AllDigits(s) && s != [] && (s[0] == '0' ==> s == "0")
  }

  lemma {:induction false} LowDigitsMean(n: nat, k: nat)
    ensures AllDigits(LowDigits(n, k))
    ensures n < Pow10(k) ==> Value(LowDigits(n, k)) == n
    decreases k
  {
    if k > 0 {
      LowDigitsMean(n / 10, k - 1);
      DigitReadsBack(n % 10);
      assert LowDigits(n, k)[..k - 1] == LowDigits(n / 10, k - 1);
    }
  }

  lemma {:induction false} DigitsMean(n: nat)
    ensures Canonical(Digits(n)) && Value(Digits(n)) == n
  {
    DigitReadsBack(n % 10);
    var s := Digits(n);
    if n >= 10 {
      DigitsMean(n / 10);
      assert s[..|s| - 1] == Digits(n / 10);
      assert s[0] == Digits(n / 10)[0];
    } else {
      assert s[..0] == [];
    }
  }

  /** A number has one canonical text. */
  lemma {:induction false} CanonicalIsUnique(s: Text, t: Text)
    requires Canonical(s) && Canonical(t) && Value(s) == Value(t)
    ensures s == t
    decreases |s|
  {
    var a, b := s[..|s| - 1], t[..|t| - 1];
    assert s == a + [s[|s| - 1]] && t == b + [t[|t| - 1]];
    assert DigitValue(s[|s| - 1]) == DigitValue(t[|t| - 1]) && Value(a) == Value(b);
    if a == [] {
      LeadingDigitCounts(t);
    } else if b == [] {
      LeadingDigitCounts(s);
    } else {
      CanonicalIsUnique(a, b);
    }
  }

  /** A canonical text of two or more digits denotes at least ten. */
  lemma {:induction false} LeadingDigitCounts(s: Text)
    requires Canonical(s)
    ensures |s| >= 2 ==> Value(s) >= 10
    ensures s[0] != '0' ==> Value(s) > 0
  {
    var a := s[..|s| - 1];
    if |s| >= 2 {
      assert a[0] == s[0];
      LeadingDigitCounts(a);
    }
  }

  /** A canonical text is no longer than its number needs. */
  lemma {:induction false} DigitsLength(n: nat, k: nat)
    requires k > 0 && n < Pow10(k)
    ensures |Digits(n)| <= k
    decreases k
  {
    if n >= 10 {
      assert k > 1;
      DigitsLength(n / 10, k - 1);
    }
  }

  // ---- __polaron_itoa ----

  function Reversed(s: Text): (r: Text)
    ensures |r| == |s|
  {
    if s == [] then [] else Reversed(s[1..]) + [s[0]]
  }

  lemma {:induction false} ReversedAppend(s: Text, c: char)
    ensures Reversed(s + [c]) == [c] + Reversed(s)
  {
    if s != [] {
      ReversedAppend(s[1..], c);
      assert (s + [c])[1..] == s[1..] + [c];
    }
  }

  /** What is left to write once `u` has come down to this. */
  function Rest(u: nat): Text { if u == 0 then [] else Digits(u) }

  lemma RestStep(u: nat, tail: Text)
    requires u > 0
    ensures Rest(u) + tail == Rest(u / 10) + ([Digit(u % 10)] + tail)
  {
    assert Rest(u) == Rest(u / 10) + [Digit(u % 10)];
  }

  lemma DigitsStart(n: nat)
    ensures Reversed("0") == Digits(0)
    ensures Rest(n) + Reversed([]) == if n == 0 then [] else Digits(n)
  {
  }

  /** The digits of a number, least significant first. */
  method DigitsBackwards(n: nat) returns (tmp: Text)
    ensures Reversed(tmp) == Digits(n)
  {
    hide Digits, Digit, Reversed;
    DigitsStart(n);
    if n == 0 {
      return "0";
    }
    tmp := [];
    var u := n;
    while u > 0
      invariant Rest(u) + Reversed(tmp) == Digits(n)
    {
      ReversedAppend(tmp, Digit(u % 10));
      RestStep(u, Reversed(tmp));
      tmp := tmp + [Digit(u % 10)];
      u := u / 10;
    }
  }

  /** The digits of `n`, least significant first, then copied backwards. */
  method Unsigned(n: nat) returns (s: Text)
    ensures s == Digits(n)
  {
    var tmp := DigitsBackwards(n);
    s := [];
    var i := |tmp|;
    assert tmp[..i] == tmp;
    while i > 0
      invariant 0 <= i <= |tmp| && s + Reversed(tmp[..i]) == Reversed(tmp)
    {
      i := i - 1;
      ReversedAppend(tmp[..i], tmp[i]);
      assert tmp[..i + 1] == tmp[..i] + [tmp[i]];
      s := s + [tmp[i]];
    }
  }

  function SignedDigits(n: int): Text { if n < 0 then "-" + Digits(-n) else Digits(n) }

  /** Every 64-bit integer, the least one included: its negation is taken without overflow. */
  method Itoa(n: int) returns (s: Text)
    requires INT64_MIN <= n <= INT64_MAX
    ensures s == SignedDigits(n)
  {
    var neg := n < 0;
    assert neg ==> INT64_MIN <= -(n + 1) <= INT64_MAX;
    var u := if neg then -(n + 1) + 1 else n;
    s := if neg then ['-'] else [];
    var digits := Unsigned(u);
    s := s + digits;
  }

  /** A sign only in front of a number other than zero, no needless zeros. */
  ghost predicate SignedCanonical(s: Text)
  {
    s != [] && (if s[0] == '-' then Canonical(s[1..]) && s[1..] != "0" else Canonical(s))
  }

  /** What itoa prints denotes the number, is canonical, and no other canonical text denotes it. */
  lemma ItoaIsTheDecimalForm(n: int)
    requires INT64_MIN <= n <= INT64_MAX
    ensures SignedCanonical(SignedDigits(n)) && SignedValue(SignedDigits(n)) == n && |SignedDigits(n)| <= 20
    ensures forall s :: SignedCanonical(s) && SignedValue(s) == n ==> s == SignedDigits(n)
  {
    var m: nat := if n < 0 then -n else n;
    DigitsMean(m);
    Below19(m);
    DigitsLength(m, 19);
    forall s | SignedCanonical(s) && SignedValue(s) == n
      ensures s == SignedDigits(n)
    {
      if s[0] == '-' {
        NonzeroValue(s[1..]);
        CanonicalIsUnique(s[1..], Digits(m));
        assert s == ['-'] + s[1..];
      } else {
        CanonicalIsUnique(s, Digits(m));
      }
    }
  }

  lemma NonzeroValue(s: Text)
    requires Canonical(s) && s != "0"
    ensures Value(s) > 0
  {
    LeadingDigitCounts(s);
  }

  lemma Below19(n: nat)
    requires n <= 0x8000_0000_0000_0000
    ensures n < Pow10(19)
  {
    assert Pow10(3) == 1000;
    assert Pow10(6) == 1000000;
    assert Pow10(9) == 1000000000;
    assert Pow10(12) == 1000000000000;
    assert Pow10(15) == 1000000000000000;
    assert Pow10(18) == 1000000000000000000;
  }

  // ---- __polaron_decimal_str ----

  function Trimmed(s: Text): (r: Text)
    ensures r <= s
  {
    if s != [] && s[|s| - 1] == '0' then Trimmed(s[..|s| - 1]) else s
  }

  /** Sign, integer part, and the fraction without its final zeros, if any is left. */
  function Printed(neg: bool, intPart: nat, frac: nat): Text
  {
    var f := Trimmed(LowDigits(frac, SCALE));
    (if neg then "-" else "") + Digits(intPart) + (if f == [] then "" else "." + f)
  }

  /** The eighteen fraction digits, written from the last to the first. */
  method FractionDigits(frac: nat) returns (frac18: Text)
    ensures frac18 == LowDigits(frac, SCALE)
  {
    hide Digit;
    frac18 := [];
    var left := frac;
    for i := 0 to 18
      invariant LowDigits(left, 18 - i) + frac18 == LowDigits(frac, 18)
    {
      assert LowDigits(left, 18 - i) + frac18 == LowDigits(left / 10, 17 - i) + ([Digit(left % 10)] + frac18);
      frac18 := [Digit(left % 10)] + frac18;
      left := left / 10;
    }
  }

  /** How many digits are left without the final zeros. */
  method TrimmedLength(s: Text) returns (flen: nat)
    ensures flen <= |s| && s[..flen] == Trimmed(s)
  {
    flen := |s|;
    assert s[..flen] == s;
    while flen > 0 && s[flen - 1] == '0'
      invariant flen <= |s| && Trimmed(s[..flen]) == Trimmed(s)
    {
      assert s[..flen][..flen - 1] == s[..flen - 1];
      flen := flen - 1;
    }
  }

  method DecimalStr(neg: bool, intPart: nat, frac: nat) returns (buf: Text)
    ensures buf == Printed(neg, intPart, frac)
  {
    var frac18 := FractionDigits(frac);
    var flen := TrimmedLength(frac18);
    buf := if neg then ['-'] else [];
    var digits := Unsigned(intPart);
    buf := buf + digits;
    if flen > 0 {
      buf := buf + (['.'] + frac18[..flen]);
    }
  }

  /** At most 39 characters, so 40 bytes with the terminator. */
  lemma PrintedFits(neg: bool, intPart: nat, frac: nat)
    requires intPart <= INT64_MAX
    ensures |Printed(neg, intPart, frac)| + 1 <= 40
  {
    Below19(intPart);
    DigitsLength(intPart, 19);
  }

  // ---- decimalScaledString ----

  function Without(s: Text, c: char): Text
  {
    if s == [] then [] else (if s[0] == c then [] else [s[0]]) + Without(s[1..], c)
  }

  function BeforeDot(s: Text): Text
  {
    if s == [] || s[0] == '.' then [] else [s[0]] + BeforeDot(s[1..])
  }

  function AfterDot(s: Text): Text
  {
    if s == [] then [] else if s[0] == '.' then Without(s[1..], '.') else AfterDot(s[1..])
  }

  /** Exactly `SCALE` fraction digits: cut, or filled up with zeros. */
  function Padded(f: Text): (r: Text)
    ensures |r| == SCALE
  {
    if |f| >= SCALE then f[..SCALE] else f + seq(SCALE - |f|, i => '0')
  }

  /** Whether a lexeme starts with a sign. */
  predicate HasSign(s: Text) { s != [] && (s[0] == '-' || s[0] == '+') }

  function Scaled(text: Text): Text
  {
    var s := Without(text, '_');
    var body := if HasSign(s) then s[1..] else s;
    (if HasSign(s) && s[0] == '-' then "-" else "")
    + (if BeforeDot(body) == [] then "0" else BeforeDot(body)) + Padded(AfterDot(body))
  }

  lemma {:induction false} WithoutAppend(s: Text, x: char, c: char)
    ensures Without(s + [x], c) == Without(s, c) + (if x == c then [] else [x])
  {
    if s == [] {
      assert [x][1..] == [];
    } else {
      WithoutAppend(s[1..], x, c);
      assert (s + [x])[1..] == s[1..] + [x];
    }
  }

  method Split(s: Text) returns (intPart: Text, fracPart: Text)
    ensures intPart == BeforeDot(s) && fracPart == AfterDot(s)
  {
    intPart, fracPart := [], [];
    var inFrac := false;
    for i := 0 to |s|
      invariant !inFrac ==> fracPart == [] && BeforeDot(s) == intPart + BeforeDot(s[i..]) && AfterDot(s) == AfterDot(s[i..])
      invariant inFrac ==> BeforeDot(s) == intPart && AfterDot(s) == fracPart + Without(s[i..], '.')
    {
      assert s[i..][1..] == s[i + 1..];
      if s[i] == '.' {
        inFrac := true;
      } else if inFrac {
        fracPart := fracPart + [s[i]];
      } else {
        intPart := intPart + [s[i]];
      }
    }
    assert s[|s|..] == [];
  }

  method DecimalScaledString(text: Text) returns (r: Text)
    ensures r == Scaled(text)
  {
    var s: Text := [];
    for i := 0 to |text|
      invariant s == Without(text[..i], '_')
    {
      WithoutAppend(text[..i], text[i], '_');
      assert text[..i + 1] == text[..i] + [text[i]];
      if text[i] != '_' {
        s := s + [text[i]];
      }
    }
    assert text[..|text|] == text;
    var neg := false;
    var i := 0;
    if |s| > 0 && (s[0] == '-' || s[0] == '+') {
      neg := s[0] == '-';
      i := 1;
    }
    assert s[0..] == s;
    var intPart, fracPart := Split(s[i..]);
    if intPart == [] {
      intPart := ['0'];
    }
    ghost var f := fracPart;
    if |fracPart| > SCALE {
      fracPart := fracPart[..SCALE];
    }
    while |fracPart| < SCALE
      invariant |fracPart| <= SCALE && (if |f| >= SCALE then fracPart == f[..SCALE] else fracPart == f + seq(|fracPart| - |f|, k => '0') && |f| <= |fracPart|)
    {
      fracPart := fracPart + ['0'];
    }
    r := (if neg then "-" else "") + intPart + fracPart;
  }

  // ---- the round trip ----

  lemma {:induction false} ValueAppend(a: Text, b: Text)
    requires AllDigits(a) && AllDigits(b)
    ensures AllDigits(a + b) && Value(a + b) == Value(a) * Pow10(|b|) + Value(b)
    decreases |b|
  {
    if b == [] {
      assert a + b == a;
    } else {
      var c := b[..|b| - 1];
      ValueAppend(a, c);
      assert (a + b)[..|a + b| - 1] == a + c;
      Regroup(Value(a), Pow10(|c|));
    }
  }

  lemma Regroup(x: nat, p: nat)
    ensures 10 * (x * p) == x * (10 * p)
  {
  }

  lemma {:induction false} WithoutNone(s: Text, c: char)
    requires c !in s
    ensures Without(s, c) == s
  {
    if s != [] {
      WithoutNone(s[1..], c);
      assert s == [s[0]] + s[1..];
    }
  }

  /** A text without dots in front of a dot, or of nothing. */
  lemma {:induction false} SplitAtDot(a: Text, b: Text)
    requires '.' !in a && '.' !in b
    ensures BeforeDot(a) == a && AfterDot(a) == []
    ensures BeforeDot(a + "." + b) == a && AfterDot(a + "." + b) == b
  {
    if a == [] {
      assert a + "." + b == "." + b && ("." + b)[1..] == b;
      WithoutNone(b, '.');
    } else {
      SplitAtDot(a[1..], b);
      assert a == [a[0]] + a[1..];
      assert (a + "." + b)[1..] == a[1..] + "." + b;
    }
  }

  /** Filling up undoes trimming. */
  lemma {:induction false} PaddingUndoesTrimming(s: Text)
    requires |s| <= SCALE
    ensures Padded(Trimmed(s)) == Padded(s)
    decreases |s|
  {
    if s != [] && s[|s| - 1] == '0' {
      var t := s[..|s| - 1];
      PaddingUndoesTrimming(t);
      assert s == t + "0";
      assert Padded(t) == Padded(s);
    }
  }

  lemma DigitsArePlain(s: Text)
    requires AllDigits(s)
    ensures '.' !in s && '_' !in s && '-' !in s && '+' !in s
  {
  }

  function Sign(neg: bool): Text { if neg then "-" else "" }

  /** Reading a signed lexeme of plain digits. */
  lemma ScaledOf(neg: bool, whole: Text, f: Text)
    requires AllDigits(whole) && AllDigits(f) && whole != []
    ensures Scaled(Sign(neg) + whole + (if f == [] then "" else "." + f)) == Sign(neg) + whole + Padded(f)
  {
    hide Padded, Without, BeforeDot, AfterDot;
    var body := whole + (if f == [] then "" else "." + f);
    var text := Sign(neg) + whole + (if f == [] then "" else "." + f);
    DigitsArePlain(whole);
    DigitsArePlain(f);
    SplitAtDot(whole, f);
    assert body == if f == [] then whole else whole + "." + f;
    assert text == Sign(neg) + body;
    assert '_' !in text;
    WithoutNone(text, '_');
    assert IsDigit(body[0]) by {
      assert body[0] == whole[0];
    }
    assert if neg then text[1..] == body && text[0] == '-' else text == body;
  }

  /** What is printed reads back as sign, integer part and all eighteen fraction digits. */
  lemma PrintedReadsBack(neg: bool, intPart: nat, frac: nat)
    ensures Scaled(Printed(neg, intPart, frac)) == Sign(neg) + Digits(intPart) + LowDigits(frac, SCALE)
  {
    hide Digits, LowDigits, Trimmed, Scaled;
    var whole, all := Digits(intPart), LowDigits(frac, SCALE);
    var f := Trimmed(all);
    DigitsMean(intPart);
    LowDigitsMean(frac, SCALE);
    PaddingUndoesTrimming(all);
    assert AllDigits(f);
    ScaledOf(neg, whole, f);
    assert Padded(all) == all;
  }

  lemma SignedValueOf(neg: bool, d: Text)
    requires AllDigits(d) && d != []
    ensures
      var r := Sign(neg) + d;
      && r != [] && ((r[0] == '-' && AllDigits(r[1..])) || AllDigits(r))
      && SignedValue(r) == if neg then -(Value(d) as int) else Value(d)
  {
    var r := Sign(neg) + d;
    assert IsDigit(d[0]);
    assert if neg then r[1..] == d else r == d;
  }

  /** The mantissa of a decimal: its value times 10^18. */
  function Mantissa(neg: bool, intPart: nat, frac: nat): int
  {
    var m := intPart * Pow10(SCALE) + frac;
    if neg then -m else m
  }

  /** Printing and reading back gives exactly the mantissa when the fraction is one, and only then. */
  lemma DecimalRoundTripIff(neg: bool, intPart: nat, frac: nat)
    ensures
      var r := Scaled(Printed(neg, intPart, frac));
      && r != [] && ((r[0] == '-' && AllDigits(r[1..])) || AllDigits(r))
      && (SignedValue(r) == Mantissa(neg, intPart, frac) <==> frac < Pow10(SCALE))
  {
    hide Digits, LowDigits, Scaled, Printed, Value, SignedValue;
    var whole, all := Digits(intPart), LowDigits(frac, SCALE);
    PrintedReadsBack(neg, intPart, frac);
    DigitsMean(intPart);
    LowDigitsMean(frac, SCALE);
    LowDigitsBelow(frac, SCALE);
    ValueAppend(whole, all);
    SignedValueOf(neg, whole + all);
    assert Sign(neg) + whole + all == Sign(neg) + (whole + all);
  }

  lemma {:induction false} LowDigitsBelow(n: nat, k: nat)
    requires AllDigits(LowDigits(n, k))
    ensures Value(LowDigits(n, k)) < Pow10(k)
    decreases k
  {
    if k > 0 {
      var s := LowDigits(n, k);
      assert s[..k - 1] == LowDigits(n / 10, k - 1);
      assert AllDigits(s[..k - 1]);
      LowDigitsBelow(n / 10, k - 1);
    }
  }

  /** From the printer to the reader: the signed mantissa survives, in at most 40 bytes. */
  method PrintAndRead(neg: bool, intPart: nat, frac: nat) returns (text: Text, scaled: Text)
    requires intPart <= INT64_MAX && frac < Pow10(SCALE)
    ensures |text| + 1 <= 40
    ensures scaled != [] && ((scaled[0] == '-' && AllDigits(scaled[1..])) || AllDigits(scaled))
    ensures SignedValue(scaled) == Mantissa(neg, intPart, frac)
  {
    text := DecimalStr(neg, intPart, frac);
    scaled := DecimalScaledString(text);
    PrintedFits(neg, intPart, frac);
    DecimalRoundTripIff(neg, intPart, frac);
  }
}