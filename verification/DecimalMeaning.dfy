/**
 What a decimal lexeme of any form denotes once it is scaled: the number it writes, times 10^18,
 cut towards zero. And what the printed form looks like: the shortest that says it all.
 */
module DecimalMeaning {
  import opened DecimalText

  // ---- underscores ----

  /** Pieces with an underscore between each two. */
  function Joined(pieces: seq<Text>): Text
  {
    if pieces == [] then [] else if |pieces| == 1 then pieces[0] else pieces[0] + "_" + Joined(pieces[1..])
  }

  function Together(pieces: seq<Text>): Text { if pieces == [] then [] else pieces[0] + Together(pieces[1..]) }

  lemma {:induction false} WithoutConcat(a: Text, b: Text, c: char)
    ensures Without(a + b, c) == Without(a, c) + Without(b, c)
  {
    if a == [] {
      assert a + b == b;
    } else {
      assert (a + b)[1..] == a[1..] + b;
      WithoutConcat(a[1..], b, c);
    }
  }

  /** Underscores say nothing, wherever they stand. */
  lemma {:induction false} UnderscoresGo(pieces: seq<Text>)
    requires forall i :: 0 <= i < |pieces| ==> '_' !in pieces[i]
    ensures Without(Joined(pieces), '_') == Together(pieces)
  {
    hide Without;
    if |pieces| > 1 {
      var p, rest := pieces[0], Joined(pieces[1..]);
      WithoutNone(p, '_');
      UnderscoresGo(pieces[1..]);
      WithoutConcat(p + "_", rest, '_');
      WithoutConcat(p, "_", '_');
      UnderscoreAlone();
      assert p + [] + Without(rest, '_') == p + Without(rest, '_');
    } else if |pieces| == 1 {
      WithoutNone(pieces[0], '_');
      assert Together(pieces[1..]) == [] && pieces[0] + [] == pieces[0];
    } else {
      WithoutNone([], '_');
    }
  }

  lemma UnderscoreAlone()
    ensures Without("_", '_') == []
  {
    assert "_"[1..] == [];
  }

  // ---- what is read ----

  datatype Sign = Plain | Plus | Minus

  function SignText(s: Sign): Text { match s case Plain => "" case Plus => "+" case Minus => "-" }

  /** A lexeme without underscores: a sign or none, digits or none, and a point with digits or none. */
  function Lexeme(s: Sign, whole: Text, dot: bool, f: Text): Text { SignText(s) + whole + (if dot then "." + f else "") }

  function WholeDigits(whole: Text): Text { if whole == [] then "0" else whole }

  /** What scaling leaves of it. */
  lemma ScaledIs(text: Text, s: Sign, whole: Text, dot: bool, f: Text)
    requires AllDigits(whole) && AllDigits(f) && (!dot ==> f == []) && Without(text, '_') == Lexeme(s, whole, dot, f)
    ensures Scaled(text) == (if s == Minus then "-" else "") + WholeDigits(whole) + Padded(f)
  {
    hide Padded, Without;
    var body := whole + (if dot then "." + f else "");
    var t := Lexeme(s, whole, dot, f);
    assert t == SignText(s) + body;
    DigitsArePlain(whole);
    DigitsArePlain(f);
    Splits(whole, dot, f);
    assert !HasSign(body);
    assert if s == Plain then t == body else HasSign(t) && t[1..] == body;
  }

  lemma Splits(whole: Text, dot: bool, f: Text)
    requires '.' !in whole && '.' !in f && (!dot ==> f == [])
    ensures
      var body := whole + (if dot then "." + f else "");
      BeforeDot(body) == whole && AfterDot(body) == f
  {
    if dot && f == [] {
      EndsInDot(whole);
      assert "." + f == ".";
    } else {
      SplitAtDot(whole, f);
      assert whole + "" == whole;
      assert whole + ("." + f) == whole + "." + f;
    }
  }

  lemma {:induction false} EndsInDot(whole: Text)
    requires '.' !in whole
    ensures BeforeDot(whole + ".") == whole && AfterDot(whole + ".") == []
  {
    if whole == [] {
      assert whole + "." == ".";
      assert "."[1..] == [];
    } else {
      assert (whole + ".")[1..] == whole[1..] + ".";
      EndsInDot(whole[1..]);
    }
  }

  /** `p * a` is the largest multiple of `a` that is at most `v * b`. */
  ghost predicate Cuts(p: nat, a: nat, v: nat, b: nat) { p * a <= v * b < (p + 1) * a }

  /** `m` is the number `whole.f` times 10^18, cut: at most it, and less than one below. */
  ghost predicate IsCut(m: nat, whole: Text, f: Text)
    requires AllDigits(whole) && AllDigits(f)
  {
    Cuts(m, Pow10(|f|), Value(whole + f), Pow10(SCALE))
  }

  /** A run of digits, with a minus in front exactly when `neg`, that denotes the cut number. */
  ghost predicate Denotes(r: Text, neg: bool, whole: Text, f: Text)
    requires AllDigits(whole) && AllDigits(f)
  {
    var d := if neg && r != [] then r[1..] else r;
    AllDigits(d) && d != [] && r == (if neg then "-" else "") + d && IsCut(Value(d), whole, f)
  }

  /** Every lexeme scales to the number it writes, times 10^18 and cut towards zero, with its sign. */
  lemma ScaledMeans(text: Text, s: Sign, whole: Text, dot: bool, f: Text)
    requires AllDigits(whole) && AllDigits(f) && (!dot ==> f == []) && Without(text, '_') == Lexeme(s, whole, dot, f)
    ensures Denotes(Scaled(text), s == Minus, whole, f)
  {
    hide Padded, Without, Scaled, Value, Lexeme, IsCut, WholeDigits;
    var w, p := WholeDigits(whole), Padded(f);
    ScaledIs(text, s, whole, dot, f);
    CutValue(whole, f);
    var d := w + p;
    var r := Scaled(text);
    assert r == (if s == Minus then "-" else "") + d;
    assert (if s == Minus then r[1..] else r) == d;
  }

  lemma PaddedDigits(f: Text)
    requires AllDigits(f)
    ensures AllDigits(Padded(f))
  {
  }

  lemma CutValue(whole: Text, f: Text)
    requires AllDigits(whole) && AllDigits(f)
    ensures AllDigits(WholeDigits(whole) + Padded(f)) && IsCut(Value(WholeDigits(whole) + Padded(f)), whole, f)
  {
    hide Value, Padded, Cuts;
    PaddedDigits(f);
    ValueAppend(WholeDigits(whole), Padded(f));
    ValueAppend(whole, f);
    SameWhole(whole);
    FractionCut(f);
    Scales(Value(whole), Value(f), Value(Padded(f)), Pow10(|f|), Pow10(SCALE));
  }

  lemma SameWhole(whole: Text)
    requires AllDigits(whole)
    ensures Value(WholeDigits(whole)) == Value(whole)
  {
    if whole == [] { assert "0"[..0] == []; }
  }

  /** The whole part only shifts what the fraction gives. */
  lemma Scales(w: nat, v: nat, p: nat, a: nat, b: nat)
    requires Cuts(p, a, v, b)
    ensures Cuts(w * b + p, a, w * a + v, b)
  {
    assert (w * b + p) * a == w * b * a + p * a;
    assert (w * a + v) * b == w * a * b + v * b;
    assert (w * b + p + 1) * a == w * b * a + (p + 1) * a;
    assert w * b * a == w * a * b;
  }

  /** The eighteen digits kept of a fraction. */
  lemma FractionCut(f: Text)
    requires AllDigits(f) && AllDigits(Padded(f))
    ensures Cuts(Value(Padded(f)), Pow10(|f|), Value(f), Pow10(SCALE))
  {
    hide Value, Pow10, Cuts;
    if |f| >= SCALE {
      LongFraction(Padded(f), f[SCALE..], f);
    } else {
      var zeros := FilledWith(f);
      ShortFilled(f, zeros);
    }
  }

  lemma FilledWith(f: Text) returns (zeros: Text)
    requires |f| < SCALE
    ensures |f| + |zeros| == SCALE && Padded(f) == f + zeros && forall i :: 0 <= i < |zeros| ==> zeros[i] == '0'
  {
    zeros := Padded(f)[|f|..];
  }

  lemma LongFraction(kept: Text, rest: Text, f: Text)
    requires AllDigits(f) && f == kept + rest && |kept| == SCALE
    ensures AllDigits(kept) && Cuts(Value(kept), Pow10(|f|), Value(f), Pow10(SCALE))
  {
    hide Value, Pow10;
    assert AllDigits(kept) && AllDigits(rest) by {
      assert forall i :: 0 <= i < |kept| ==> kept[i] == f[i];
      assert forall i :: 0 <= i < |rest| ==> rest[i] == f[|kept| + i];
    }
    ValueAppend(kept, rest);
    ValueBelow(rest);
    Pow10Adds(|rest|, SCALE);
    CutsRest(Value(kept), Value(rest), Pow10(|rest|), Pow10(SCALE));
  }

  lemma ShortFilled(f: Text, zeros: Text)
    requires AllDigits(f) && |f| + |zeros| == SCALE && forall i :: 0 <= i < |zeros| ==> zeros[i] == '0'
    ensures AllDigits(f + zeros) && Cuts(Value(f + zeros), Pow10(|f|), Value(f), Pow10(SCALE))
  {
    hide Value, Pow10;
    ZerosAreNothing(zeros);
    ValueAppend(f, zeros);
    Pow10Adds(|f|, |zeros|);
    FillsUp(Value(f), Pow10(|zeros|), Pow10(|f|));
  }

  lemma CutsRest(k: nat, r: nat, a: nat, b: nat)
    requires r < a && b > 0
    ensures k * (a * b) <= (k * a + r) * b < (k + 1) * (a * b)
  {
    assert (k * a + r) * b == k * (a * b) + r * b;
    assert (k + 1) * (a * b) == k * (a * b) + a * b;
    assert r * b < a * b by { assert (a - r) * b > 0; assert a * b == r * b + (a - r) * b; }
  }

  lemma FillsUp(v: nat, z: nat, a: nat)
    requires a > 0
    ensures (v * z) * a == v * (a * z) && v * (a * z) < (v * z + 1) * a
  {
    assert (v * z) * a == v * (a * z);
    assert (v * z + 1) * a == (v * z) * a + a;
  }

  lemma {:induction false} ZerosAreNothing(s: Text)
    requires forall i :: 0 <= i < |s| ==> s[i] == '0'
    ensures AllDigits(s) && Value(s) == 0
    decreases |s|
  {
    if s != [] { ZerosAreNothing(s[..|s| - 1]); }
  }

  lemma {:induction false} ValueBelow(s: Text)
    requires AllDigits(s)
    ensures Value(s) < Pow10(|s|)
    decreases |s|
  {
    if s != [] { ValueBelow(s[..|s| - 1]); }
  }

  lemma {:induction false} Pow10Adds(m: nat, n: nat)
    ensures Pow10(m + n) == Pow10(m) * Pow10(n)
    decreases n
  {
    if n > 0 { Pow10Adds(m, n - 1); }
  }

  // ---- what is printed ----

  lemma {:induction false} TrimmedEnds(s: Text)
    ensures Trimmed(s) == [] || Trimmed(s)[|Trimmed(s)| - 1] != '0'
    decreases |s|
  {
    if s != [] && s[|s| - 1] == '0' { TrimmedEnds(s[..|s| - 1]); }
  }

  /** The printed form: a minus exactly for the negative, the shortest integer part, and the shortest
      fraction: without a final zero, and without its point when nothing is left. */
  lemma PrintedIsShortest(neg: bool, intPart: nat, frac: nat)
    ensures exists f: Text :: ShortFraction(f, frac) && Printed(neg, intPart, frac) == Spelled(neg, Digits(intPart), f)
    ensures Canonical(Digits(intPart)) && Value(Digits(intPart)) == intPart
  {
    hide Digits, LowDigits, Trimmed, Value;
    var all := LowDigits(frac, SCALE);
    TrimmedEnds(all);
    LowDigitsMean(frac, SCALE);
    PaddingUndoesTrimming(all);
    DigitsMean(intPart);
    assert Padded(all) == all;
    assert ShortFraction(Trimmed(all), frac);
  }

  function Spelled(neg: bool, whole: Text, f: Text): Text { (if neg then "-" else "") + whole + (if f == [] then "" else "." + f) }

  /** Filled up it is the fraction's eighteen digits, and its last digit is not 0. */
  ghost predicate ShortFraction(f: Text, frac: nat)
  {
    AllDigits(f) && |f| <= SCALE && Padded(f) == LowDigits(frac, SCALE) && (f == [] || f[|f| - 1] != '0')
  }
}
