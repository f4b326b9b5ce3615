// Numerals of RFC 8259, and the looser ones that the parser takes: strtod reads all of one, and the
// integer is that of the number that the numeral stands for.
module RfcNumbers {
  import opened Bytes
  import opened Json
  import opened TextFacts
  import opened NumberLiteral
  import opened Rfc8259
  import opened JsonGrammar
  import R = RoundTrip

  lemma {:induction false} RunIs(s: seq<byte>, i: nat, j: nat)
    requires i <= j <= |s| && (forall k :: i <= k < j ==> IsDigit(s[k])) && (j < |s| ==> !IsDigit(s[j]))
    ensures DigitRun(s, i) == j
    decreases j - i
  {
    if i < j {
      RunIs(s, i + 1, j);
    }
  }

  lemma {:induction false} RowValue(ds: seq<Digit>)
    ensures (forall i :: 0 <= i < |ds| ==> IsDigit(Row(ds)[i])) && DigitsValue(Row(ds)) == Spelled(ds)
  {
    if ds != [] {
      RowValue(ds[..|ds| - 1]);
      assert Row(ds)[..|ds| - 1] == Row(ds[..|ds| - 1]);
    }
  }

  lemma RowOfBoth(a: seq<Digit>, b: seq<Digit>)
    ensures Row(a + b) == Row(a) + Row(b)
  {
  }

  // ---------- the parts of a numeral ----------

  // Where the parts of a numeral are in its spelling.
  function WholeAt(n: Numeral): nat { if n.minus then 1 else 0 }

  function PointAt(n: Numeral): nat { WholeAt(n) + |n.whole| }

  function FractionAt(n: Numeral): nat { PointAt(n) + if n.fraction.Some? then 1 else 0 }

  function ExponentAt(n: Numeral): nat { FractionAt(n) + |FractionDigits(n)| }

  lemma Parts(n: Numeral)
    requires IsNumeral(n, Loose)
    ensures var s := SpellNumeral(n);
            && WholeAt(n) <= PointAt(n) <= FractionAt(n) <= ExponentAt(n) <= |s|
            && s[WholeAt(n)..PointAt(n)] == Row(n.whole)
            && (n.fraction.Some? ==> s[PointAt(n)] == DOT)
            && s[FractionAt(n)..ExponentAt(n)] == Row(FractionDigits(n))
            && s[ExponentAt(n)..] == SpellExponent(n.exponent)
            && |s| == ExponentAt(n) + |SpellExponent(n.exponent)|
  {
    hide Row, SpellExponent, IsNumeral;
    var sign: seq<byte> := if n.minus then [MINUS] else [];
    var w, f, e := Row(n.whole), SpellFraction(n.fraction), SpellExponent(n.exponent);
    Cut(sign, w, f, e);
    FractionParts(n);
    hide SpellFraction, FractionDigits;
    var s := SpellNumeral(n);
    assert s == sign + w + f + e;
    assert s[PointAt(n)..ExponentAt(n)] == f;
    if n.fraction.Some? {
      assert s[PointAt(n)] == f[0];
      assert s[FractionAt(n)..ExponentAt(n)] == s[PointAt(n)..ExponentAt(n)][1..];
    }
  }

  lemma FractionParts(n: Numeral)
    ensures |Row(n.whole)| == |n.whole| && |SpellFraction(n.fraction)| == ExponentAt(n) - PointAt(n)
    ensures n.fraction.Some? ==> SpellFraction(n.fraction)[0] == DOT && SpellFraction(n.fraction)[1..] == Row(FractionDigits(n))
    ensures n.fraction.None? ==> SpellFraction(n.fraction) == Row(FractionDigits(n)) == []
  {
  }

  lemma NumeralStart(n: Numeral)
    requires IsNumeral(n, Loose)
    ensures |SpellNumeral(n)| > 0
    ensures if n.minus then SpellNumeral(n)[0] == MINUS else IsDigit(SpellNumeral(n)[0])
  {
    if !n.minus {
      assert SpellNumeral(n)[0] == Row(n.whole)[0];
    }
  }

  lemma Cut(a: seq<byte>, b: seq<byte>, c: seq<byte>, d: seq<byte>)
    ensures var s := a + b + c + d;
            && s[|a|..|a| + |b|] == b && s[|a| + |b|..|a| + |b| + |c|] == c && s[|a| + |b| + |c|..] == d
  {
  }

  // What may follow the digits of a numeral is no digit.
  lemma NoDigit(n: Numeral)
    requires IsNumeral(n, Loose)
    ensures var s := SpellNumeral(n);
            && ExponentAt(n) <= |s| && PointAt(n) <= |s|
            && (ExponentAt(n) < |s| ==> s[ExponentAt(n)] == 'e' as int || s[ExponentAt(n)] == 'E' as int)
            && (n.exponent.None? <==> ExponentAt(n) == |s|)
            && (PointAt(n) < |s| ==> !IsDigit(s[PointAt(n)]))
            && (PointAt(n) < |s| && n.fraction.None? ==> s[PointAt(n)] != DOT)
  {
    Parts(n);
    var s, x := SpellNumeral(n), ExponentAt(n);
    if n.exponent.Some? {
      assert s[x] == s[x..][0] == n.exponent.value.letter;
    } else {
      assert SpellExponent(n.exponent) == [];
    }
    hide SpellNumeral, SpellExponent, Row;
  }

  lemma Runs(n: Numeral)
    requires IsNumeral(n, Loose)
    ensures var s := SpellNumeral(n);
            && WholeAt(n) <= |s| && DigitRun(s, WholeAt(n)) == PointAt(n)
            && FractionAt(n) <= |s| && DigitRun(s, FractionAt(n)) == ExponentAt(n)
  {
    hide SpellNumeral, SpellExponent, Row;
    Parts(n);
    NoDigit(n);
    var s := SpellNumeral(n);
    forall k | WholeAt(n) <= k < PointAt(n) ensures IsDigit(s[k]) {
      assert s[k] == s[WholeAt(n)..PointAt(n)][k - WholeAt(n)];
    }
    forall k | FractionAt(n) <= k < ExponentAt(n) ensures IsDigit(s[k]) {
      assert s[k] == s[FractionAt(n)..ExponentAt(n)][k - FractionAt(n)];
    }
    RunIs(s, WholeAt(n), PointAt(n));
    RunIs(s, FractionAt(n), ExponentAt(n));
  }

  lemma ExponentParts(e: Exponent, s: seq<byte>, p: nat)
    requires IsExponent(e) && p <= |s| && s[p..] == [e.letter] + e.sign + Row(e.digits)
    ensures p < |s| && s[p] == e.letter
    ensures SignLength(s, p + 1) == |e.sign| && p + 1 + |e.sign| < |s|
    ensures s[p + 1] == MINUS <==> e.sign == [MINUS]
    ensures s[p + 1 + |e.sign|..] == Row(e.digits)
  {
    var t := [e.letter] + e.sign + Row(e.digits);
    assert |t| == 1 + |e.sign| + |e.digits|;
    assert s[p] == s[p..][0] && s[p + 1] == s[p..][1];
    if e.sign == [] {
      assert t[1] == Row(e.digits)[0];
    } else {
      assert t[1] == e.sign[0];
    }
    assert t[1 + |e.sign|..] == Row(e.digits);
    assert s[p..][1 + |e.sign|..] == s[p + 1 + |e.sign|..];
  }

  lemma DigitsToEnd(ds: seq<Digit>, s: seq<byte>, d: nat)
    requires d <= |s| && s[d..] == Row(ds)
    ensures DigitRun(s, d) == |s| && DigitsValue(s[d..|s|]) == Spelled(ds)
  {
    RowValue(ds);
    forall k | d <= k < |s| ensures IsDigit(s[k]) {
      assert s[k] == s[d..][k - d];
    }
    RunIs(s, d, |s|);
    assert s[d..|s|] == s[d..];
  }

  // The exponent is read to the end.
  lemma ExponentRead(n: Numeral)
    requires IsNumeral(n, Loose)
    ensures var s := SpellNumeral(n);
            && ExponentAt(n) <= |s| && ExponentEnd(s, ExponentAt(n)) == |s|
            && ExponentValue(s, ExponentAt(n)) == PowerOfTen(n)
  {
    hide SpellNumeral, Row, DigitRun, DigitsValue, SignLength, Spelled;
    Parts(n);
    NoDigit(n);
    var s, p := SpellNumeral(n), ExponentAt(n);
    if n.exponent.Some? {
      var e := n.exponent.value;
      ExponentParts(e, s, p);
      DigitsToEnd(e.digits, s, p + 1 + |e.sign|);
    }
  }

  lemma NumeralRead(n: Numeral)
    requires IsNumeral(n, Loose)
    ensures var s := SpellNumeral(n);
            Strtod(s) == Some(Decimal(n.minus, Spelled(n.whole + FractionDigits(n)), PowerOfTen(n) - |FractionDigits(n)|, |s|))
  {
    hide SpellNumeral, SpellExponent, Row, ExponentEnd, ExponentValue, DigitRun;
    var s := SpellNumeral(n);
    Parts(n);
    NumeralStart(n);
    NoDigit(n);
    Runs(n);
    ExponentRead(n);
    RowValue(n.whole + FractionDigits(n));
    RowOfBoth(n.whole, FractionDigits(n));
    assert SignLength(s, 0) == WholeAt(n);
    assert (if PointAt(n) < |s| && s[PointAt(n)] == DOT then 1 else 0) == FractionAt(n) - PointAt(n);
  }

  // ---------- the value ----------

  lemma {:induction false} TenIs(k: nat)
    ensures Ten(k) == Pow10(k) as real && Ten(-(k as int)) * Pow10(k) as real == 1.0
  {
    if k > 0 {
      TenIs(k - 1);
      var a, b := Ten(-(k as int) + 1), Pow10(k - 1) as real;
      assert Ten(-(k as int)) == a / 10.0 && Pow10(k) as real == 10.0 * b;
      assert a / 10.0 * (10.0 * b) == a * b;
    }
  }

  lemma FloorIs(m: nat, p: nat, x: real)
    requires p >= 1 && x * p as real == m as real
    ensures x.Floor == m / p
  {
    var q, r := m / p, m % p;
    assert m == q * p + r;
    assert (q * p) as real == q as real * p as real;
    assert (x - q as real) * p as real == r as real;
    Between(x - q as real, p, r);
  }

  lemma Between(y: real, p: nat, r: nat)
    requires p >= 1 && r < p && y * p as real == r as real
    ensures 0.0 <= y < 1.0
  {
    if y < 0.0 {
      Product(-y, p);
    } else if y >= 1.0 {
      Product(y - 1.0, p);
    }
  }

  lemma Product(y: real, p: nat)
    requires p >= 1 && y >= 0.0
    ensures y * p as real >= y
  {
  }

  lemma WholePart(m: nat, e: int)
    ensures (m as real * Ten(e)).Floor == if e >= 0 then m * Pow10(e) else m / Pow10(-e)
  {
    hide Ten, Pow10;
    if e >= 0 {
      TenIs(e);
      assert m as real * Pow10(e) as real == (m * Pow10(e)) as real;
    } else {
      TenIs(-e);
      var a, b := Ten(e), Pow10(-e) as real;
      assert m as real * a * b == m as real * (a * b);
      FloorIs(m, Pow10(-e), m as real * a);
    }
  }

  // The integer that the parser makes of a decimal is the integer part of the number.
  lemma ValueIs(n: Numeral, length: nat)
    ensures ValueInt(Decimal(n.minus, Spelled(n.whole + FractionDigits(n)), PowerOfTen(n) - |FractionDigits(n)|, length))
            == IntegerOf(n)
  {
    hide Spelled, PowerOfTen, FractionDigits, Ten, Pow10;
    WholePart(Spelled(n.whole + FractionDigits(n)), PowerOfTen(n) - |FractionDigits(n)|);
  }

  // ---------- in the input ----------

  lemma NumberChars(n: Numeral)
    requires IsNumeral(n, Loose)
    ensures forall i :: 0 <= i < |SpellNumeral(n)| ==> IsNumberChar(SpellNumeral(n)[i])
  {
    forall i | 0 <= i < |SpellNumeral(n)| ensures IsNumberChar(SpellNumeral(n)[i]) {
    }
  }

  // A numeral of up to 63 characters is read as the integer it means.
  lemma NumeralAccepted(n: Numeral, c: seq<byte>, o: nat)
    requires IsNumeral(n, Loose) && |SpellNumeral(n)| <= 63
    requires At(c, o, SpellNumeral(n)) && R.Stops(c, o + |SpellNumeral(n)|)
    ensures ParseNumber(c, o) == Ok(IntegerOf(n), o + |SpellNumeral(n)|)
  {
    hide SpellNumeral, Strtod, ValueInt, IntegerOf, IsNumberChar, NumberCharCount;
    var s := SpellNumeral(n);
    NumberChars(n);
    forall i | o <= i < o + |s| ensures IsNumberChar(c[i]) {
      assert c[i] == c[o..o + |s|][i - o];
    }
    R.CountAll(c, o, o + |s|, 63);
    NumeralRead(n);
    ValueIs(n, |s|);
  }
}
