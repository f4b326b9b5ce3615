// What the parser accepts is derived by the loose grammar: with RfcParsing this says exactly which
// texts it accepts.
module RfcAcceptance {
  import opened Bytes
  import opened Json
  import opened TextFacts
  import opened StringLiteral
  import opened NumberLiteral
  import opened JsonGrammar
  import opened Rfc8259
  import N = RfcNumbers
  import P = RfcParsing
  import U = Unicode
  import R = RoundTrip

  // ---------- strings ----------

  // The second pass over a literal comes to a \\u with a quote or a backslash among the four bytes
  // that it takes for digits. The first pass reads those another way.
  ghost predicate OddAt(c: seq<byte>, i: nat, end: nat, p: nat)
    requires end < |c|
  {
    && U.Reached(c, i, end, p) && p + 6 <= end && c[p] == BACKSLASH && c[p + 1] == LETTER_U
    && (QUOTE in c[p + 2..p + 6] || BACKSLASH in c[p + 2..p + 6])
  }

  ghost predicate LiteralInStep(c: seq<byte>, i: nat, end: nat)
    requires end < |c|
  {
    forall p: nat :: !OddAt(c, i, end, p)
  }

  // No literal in the input has one of those.
  ghost predicate InStep(c: seq<byte>) {
    forall o: nat, end: nat :: Has(c, o, QUOTE) && Closing(c, o + 1) == Some(end) ==> LiteralInStep(c, o + 1, end)
  }

  // The character that one step of the second pass reads.
  lemma CharRead(c: seq<byte>, i: nat, end: nat) returns (x: Char)
    requires i < end < |c| && Closing(c, i) == Some(end) && Token(c, i, end).1 > 0 && LiteralInStep(c, i, end)
    ensures IsChar(x, Loose) && At(c, i, SpellChar(x)) && CharBytes(x) == Token(c, i, end).0
    ensures |SpellChar(x)| == Token(c, i, end).1 && i + |SpellChar(x)| <= end
    ensures Closing(c, i + |SpellChar(x)|) == Some(end)
  {
    if c[i] != BACKSLASH {
      x := Unescaped(c[i]);
      assert c[i..i + 1] == [c[i]];
    } else if c[i + 1] != LETTER_U {
      x := Short(c[i + 1]);
      assert c[i..i + 2] == [BACKSLASH, c[i + 1]];
      ShortRead(c[i + 1]);
      assert Closing(c, i) == Closing(c, i + 2);
    } else {
      x := EscapeRead(c, i, end);
    }
  }

  lemma ShortRead(b: byte)
    requires b != LETTER_U
    ensures ShortFor(b) == SimpleEscape(b)
  {
  }

  // The four digits of a unit, or what stands for them.
  lemma UnitRead(c: seq<byte>, i: nat, end: nat)
    requires i + 6 <= end < |c| && c[i] == BACKSLASH && c[i + 1] == LETTER_U
    requires QUOTE !in c[i + 2..i + 6] && BACKSLASH !in c[i + 2..i + 6]
    ensures var unit := Hex4(c[i + 2..i + 6]);
            U.IsUnit(c[i..i + 6], unit) || (unit == 0 && IsBadUnit(c[i..i + 6]))
    ensures Closing(c, i) == Closing(c, i + 6)
  {
    var t := c[i..i + 6];
    assert t == [BACKSLASH, LETTER_U] + c[i + 2..i + 6] && t[2..6] == c[i + 2..i + 6];
    U.Hex4Spelled(c[i + 2..i + 6], Hex4(c[i + 2..i + 6]));
    if !U.IsUnit(t, Hex4(t[2..6])) {
      NotAllDigits(t);
    }
    hide U.IsUnit, IsBadUnit, Hex4;
    assert Closing(c, i) == Closing(c, i + 2) == Closing(c, i + 3) == Closing(c, i + 4);
    assert Closing(c, i + 4) == Closing(c, i + 5) == Closing(c, i + 6);
  }

  lemma NotAllDigits(t: seq<byte>)
    requires |t| == 6 && t[0] == BACKSLASH && t[1] == LETTER_U && !U.IsUnit(t, Hex4(t[2..6]))
    requires QUOTE !in t[2..6] && BACKSLASH !in t[2..6]
    ensures Hex4(t[2..6]) == 0 && IsBadUnit(t)
  {
    var s := t[2..6];
    if IsHex(s[0]) && IsHex(s[1]) && IsHex(s[2]) && IsHex(s[3]) {
      U.FourDigits(HexValue(s[0]), HexValue(s[1]), HexValue(s[2]), HexValue(s[3]), Hex4(s));
      U.HexSpelled(s[0], HexValue(s[0]));
      U.HexSpelled(s[1], HexValue(s[1]));
      U.HexSpelled(s[2], HexValue(s[2]));
      U.HexSpelled(s[3], HexValue(s[3]));
      assert false;
    }
    var k :| 0 <= k < 4 && !IsHex(s[k]);
    assert t[k + 2] == s[k];
    forall digit ensures !U.Spells(s[k], digit) {
      U.HexSpelled(s[k], digit);
    }
    assert !IsDigit16(t[k + 2]);
    assert forall j :: 2 <= j < 6 ==> t[j] in s;
  }

  lemma EscapeRead(c: seq<byte>, i: nat, end: nat) returns (x: Char)
    requires i < end < |c| && c[i] == BACKSLASH && c[i + 1] == LETTER_U
    requires Closing(c, i) == Some(end) && Token(c, i, end).1 > 0 && LiteralInStep(c, i, end)
    ensures IsChar(x, Loose) && At(c, i, SpellChar(x)) && CharBytes(x) == Token(c, i, end).0
    ensures |SpellChar(x)| == Token(c, i, end).1 && i + |SpellChar(x)| <= end
    ensures Closing(c, i + |SpellChar(x)|) == Some(end)
  {
    hide Hex4, Utf8, Closing;
    assert !OddAt(c, i, end, i);
    UnitRead(c, i, end);
    var first := Hex4(c[i + 2..i + 6]);
    if 0xD800 <= first <= 0xDBFF {
      x := PairRead(c, i, end);
    } else {
      x := Escaped(c[i..i + 6], first);
    }
  }

  lemma PairRead(c: seq<byte>, i: nat, end: nat) returns (x: Char)
    requires i + 12 <= end < |c| && c[i] == BACKSLASH && c[i + 1] == LETTER_U
    requires c[i + 6] == BACKSLASH && c[i + 7] == LETTER_U
    requires var first, second := Hex4(c[i + 2..i + 6]), Hex4(c[i + 8..i + 12]);
             && 0xD800 <= first <= 0xDBFF && 0xDC00 <= second <= 0xDFFF && U.IsUnit(c[i..i + 6], first)
    requires Closing(c, i) == Closing(c, i + 6) == Some(end)
    ensures var p := 0x1_0000 + (Hex4(c[i + 2..i + 6]) - 0xD800) * 0x400 + (Hex4(c[i + 8..i + 12]) - 0xDC00);
            x == Escaped(c[i..i + 12], p) && U.IsEscape(x.spelling, p)
    ensures Closing(c, i + 12) == Some(end)
  {
    hide Hex4, Closing, U.IsUnit, U.IsEscape;
    var first, second := Hex4(c[i + 2..i + 6]), Hex4(c[i + 8..i + 12]);
    x := Escaped(c[i..i + 12], 0x1_0000 + (first - 0xD800) * 0x400 + (second - 0xDC00));
    SecondUnit(c, i + 6, second);
    assert c[i..i + 12][..6] == c[i..i + 6] && c[i..i + 12][6..] == c[i + 6..i + 12];
    PairIsEscape(c[i..i + 12], first - 0xD800, second - 0xDC00);
  }

  lemma SecondUnit(c: seq<byte>, i: nat, unit: nat)
    requires i + 6 <= |c| && c[i] == BACKSLASH && c[i + 1] == LETTER_U && Hex4(c[i + 2..i + 6]) == unit && unit > 0
    ensures U.IsUnit(c[i..i + 6], unit) && Closing(c, i) == Closing(c, i + 6)
  {
    hide Hex4, Closing, U.IsUnit;
    assert c[i..i + 6] == [BACKSLASH, LETTER_U] + c[i + 2..i + 6];
    U.Hex4Spelled(c[i + 2..i + 6], unit);
    U.UnitAt(c[i..i + 6], unit, c, i);
  }

  lemma PairIsEscape(t: seq<byte>, high: nat, low: nat)
    requires |t| == 12 && high < 0x400 && low < 0x400
    requires U.IsUnit(t[..6], 0xD800 + high) && U.IsUnit(t[6..], 0xDC00 + low)
    ensures U.IsEscape(t, 0x1_0000 + high * 0x400 + low)
  {
    hide U.IsUnit;
    Halves(high, low);
  }

  lemma Halves(high: nat, low: nat)
    requires low < 0x400
    ensures (high * 0x400 + low) / 0x400 == high && (high * 0x400 + low) % 0x400 == low
  {
  }

  lemma {:induction false} CharsRead(c: seq<byte>, i: nat, end: nat) returns (xs: seq<Char>)
    requires i <= end < |c| && Closing(c, i) == Some(end) && Decode(c, i, end).Decoded? && LiteralInStep(c, i, end)
    ensures AreChars(xs, Loose) && At(c, i, SpellChars(xs)) && i + |SpellChars(xs)| == end
    ensures StringBytes(xs) == Decode(c, i, end).bytes
    decreases end - i
  {
    hide Token, Closing, IsChar, SpellChar, CharBytes;
    if i == end {
      return [];
    }
    var x := CharRead(c, i, end);
    var next := i + |SpellChar(x)|;
    LaterInStep(c, i, end);
    var rest := CharsRead(c, next, end);
    xs := [x] + rest;
    assert xs[1..] == rest;
    AtSplit(c, i, SpellChar(x), SpellChars(rest));
  }

  lemma LaterInStep(c: seq<byte>, i: nat, end: nat)
    requires i < end < |c| && Token(c, i, end).1 > 0 && LiteralInStep(c, i, end)
    ensures LiteralInStep(c, i + Token(c, i, end).1, end)
  {
    hide Token;
    var next := i + Token(c, i, end).1;
    forall p: nat ensures !OddAt(c, next, end, p) {
      assert !OddAt(c, i, end, p);
    }
  }

  lemma StringDerived(c: seq<byte>, o: nat) returns (xs: seq<Char>)
    requires ParseString(c, o).Ok? && InStep(c)
    ensures AreChars(xs, Loose) && At(c, o, Quoted(xs)) && o + |Quoted(xs)| == ParseString(c, o).next
    ensures UpToNul(StringBytes(xs)) == ParseString(c, o).value
  {
    hide LiteralInStep, Closing, Decode, AreChars, StringBytes, SpellChars, UpToNul;
    var end := Closing(c, o + 1).value;
    xs := CharsRead(c, o + 1, end);
    R.AtOne(c, o, QUOTE);
    R.AtOne(c, end, QUOTE);
    AtSplit(c, o, [QUOTE], SpellChars(xs));
    AtSplit(c, o, [QUOTE] + SpellChars(xs), [QUOTE]);
  }

  // ---------- numbers ----------

  function ToDigit(b: byte): Digit {
    if IsDigit(b) then b - ZERO else 0
  }

  // The digits that some bytes are.
  function DigitsOf(b: seq<byte>): (ds: seq<Digit>)
    requires forall i :: 0 <= i < |b| ==> IsDigit(b[i])
    ensures Row(ds) == b
  {
    var ds := seq(|b|, i requires 0 <= i < |b| => ToDigit(b[i]));
    assert forall i :: 0 <= i < |b| ==> Row(ds)[i] == b[i];
    ds
  }

  lemma NumberDerived(c: seq<byte>, o: nat) returns (n: Numeral)
    requires ParseNumber(c, o).Ok? && o < |c| && (c[o] == MINUS || IsDigit(c[o]))
    ensures IsNumeral(n, Loose) && At(c, o, SpellNumeral(n)) && |SpellNumeral(n)| <= 63
    ensures o + |SpellNumeral(n)| == ParseNumber(c, o).next && IntegerOf(n) == ParseNumber(c, o).value
  {
    hide Strtod, ValueInt, IntegerOf, SpellNumeral;
    var s := c[o..o + NumberCharCount(c, o, 63)];
    assert s[0] == c[o] by {
      StrtodSome(s);
    }
    n := NumeralOf(s);
    N.ValueIs(n, |SpellNumeral(n)|);
    assert c[o..o + |SpellNumeral(n)|] == s[..|SpellNumeral(n)|];
  }

  lemma StrtodSome(s: seq<byte>)
    requires Strtod(s).Some?
    ensures |s| > 0
  {
  }

  // The numeral that strtod reads at the start of s.
  lemma NumeralOf(s: seq<byte>) returns (n: Numeral)
    requires Strtod(s).Some? && |s| > 0 && (s[0] == MINUS || IsDigit(s[0]))
    ensures IsNumeral(n, Loose) && |SpellNumeral(n)| <= |s| && SpellNumeral(n) == s[..|SpellNumeral(n)|]
    ensures Strtod(s).value
         == Decimal(n.minus, Spelled(n.whole + FractionDigits(n)), PowerOfTen(n) - |FractionDigits(n)|, |SpellNumeral(n)|)
  {
    hide DigitsOf, SpellExponent, ExponentEnd, ExponentValue, Row, Spelled, DigitsValue, SpellNumeral, Strtod, DigitRun;
    var start, whole, point, fraction := Split(s);
    var w, f := DigitsOf(s[start..whole]), DigitsOf(s[point..fraction]);
    var e := ExponentOf(s, fraction);
    n := Numeral(start == 1, w, if point > whole then Some(f) else None, e);
    N.RowOfBoth(w, f);
    N.RowValue(w + f);
    RowSize(w);
    RowSize(f);
    assert FractionDigits(n) == f;
    Pieces(s, n, start, whole, point, fraction);
  }

  // The places between the parts that strtod reads.
  lemma Split(s: seq<byte>) returns (start: nat, whole: nat, point: nat, fraction: nat)
    requires Strtod(s).Some? && |s| > 0 && (s[0] == MINUS || IsDigit(s[0]))
    ensures start <= whole <= point <= fraction <= |s| && fraction <= ExponentEnd(s, fraction) <= |s|
    ensures start == (if s[0] == MINUS then 1 else 0) && (start == 0 ==> whole > 0) && whole - start + fraction - point > 0
    ensures (point == whole && fraction == point) || (point == whole + 1 && s[whole] == DOT)
    ensures (forall k :: start <= k < whole ==> IsDigit(s[k])) && (forall k :: point <= k < fraction ==> IsDigit(s[k]))
    ensures forall k :: 0 <= k < whole - start + fraction - point ==> IsDigit((s[start..whole] + s[point..fraction])[k])
    ensures Strtod(s).value
         == Decimal(start == 1, DigitsValue(s[start..whole] + s[point..fraction]),
                    ExponentValue(s, fraction) - (fraction - point), ExponentEnd(s, fraction))
  {
    hide ExponentEnd, ExponentValue, DigitsValue;
    start := SignLength(s, 0);
    whole := DigitRun(s, start);
    point := whole + if whole < |s| && s[whole] == DOT then 1 else 0;
    fraction := DigitRun(s, point);
    NoFraction(s, whole);
    if start == 0 {
      assert whole > 0;
    }
    DigitsJoin(s[start..whole], s[point..fraction]);
  }

  lemma DigitsJoin(a: seq<byte>, b: seq<byte>)
    requires (forall k :: 0 <= k < |a| ==> IsDigit(a[k])) && forall k :: 0 <= k < |b| ==> IsDigit(b[k])
    ensures forall k :: 0 <= k < |a| + |b| ==> IsDigit((a + b)[k])
  {
  }

  lemma RowSize(ds: seq<Digit>)
    ensures |Row(ds)| == |ds|
  {
  }

  lemma NoFraction(s: seq<byte>, whole: nat)
    requires whole <= |s| && (whole < |s| ==> !IsDigit(s[whole]))
    ensures DigitRun(s, whole) == whole
  {
  }

  lemma Pieces(s: seq<byte>, n: Numeral, start: nat, whole: nat, point: nat, fraction: nat)
    requires start <= whole <= point <= fraction <= |s|
    requires s[..start] == (if n.minus then [MINUS] else []) && s[start..whole] == Row(n.whole)
    requires s[whole..point] == (if n.fraction.Some? then [DOT] else []) && s[point..fraction] == Row(FractionDigits(n))
    requires fraction + |SpellExponent(n.exponent)| <= |s|
    requires s[fraction..fraction + |SpellExponent(n.exponent)|] == SpellExponent(n.exponent)
    ensures |SpellNumeral(n)| == fraction + |SpellExponent(n.exponent)| && SpellNumeral(n) == s[..|SpellNumeral(n)|]
  {
    hide SpellExponent, Row;
    var end := fraction + |SpellExponent(n.exponent)|;
    FiveParts(s, start, whole, point, fraction, end);
    FractionSpelled(n);
    hide SpellFraction, FractionDigits;
    assert |s[..end]| == end;
  }

  lemma FiveParts(s: seq<byte>, start: nat, whole: nat, point: nat, fraction: nat, end: nat)
    requires start <= whole <= point <= fraction <= end <= |s|
    ensures s[..end] == s[..start] + s[start..whole] + (s[whole..point] + s[point..fraction]) + s[fraction..end]
  {
  }

  lemma FractionSpelled(n: Numeral)
    ensures SpellFraction(n.fraction) == (if n.fraction.Some? then [DOT] else []) + Row(FractionDigits(n))
  {
  }

  // The exponent that is read at p.
  lemma ExponentOf(s: seq<byte>, p: nat) returns (e: Option<Exponent>)
    requires p <= |s|
    ensures e.Some? ==> IsExponent(e.value)
    ensures p + |SpellExponent(e)| == ExponentEnd(s, p) && s[p..ExponentEnd(s, p)] == SpellExponent(e)
    ensures ExponentValue(s, p) == PowerOfTen(Numeral(false, [], None, e))
  {
    var end := ExponentEnd(s, p);
    if end == p {
      return None;
    }
    var d := p + 1 + SignLength(s, p + 1);
    var ds := DigitsOf(s[d..end]);
    e := Some(Exponent(s[p], s[p + 1..d], ds));
    hide DigitsOf, DigitRun, Row, Spelled, DigitsValue;
    N.RowValue(ds);
    ExponentSpelled(s, p, d, end, ds);
  }

  lemma ExponentSpelled(s: seq<byte>, p: nat, d: nat, end: nat, ds: seq<Digit>)
    requires p < d < end <= |s| && d <= p + 2 && Row(ds) == s[d..end]
    ensures SpellExponent(Some(Exponent(s[p], s[p + 1..d], ds))) == s[p..end]
    ensures ds != [] && s[p + 1..d] == if d == p + 1 then [] else [s[p + 1]]
  {
    hide Row;
    RowSize(ds);
    assert s[p..end] == [s[p]] + s[p + 1..d] + s[d..end];
  }

  // ---------- values ----------

  // A byte that is no blank is reached over blanks alone.
  lemma OverBlanks(c: seq<byte>, o: nat)
    requires Skip(c, o) < |c| && c[Skip(c, o)] > 32
    ensures o <= Skip(c, o) && AreBlanks(c[o..Skip(c, o)], Loose) && At(c, o, c[o..Skip(c, o)])
  {
  }

  lemma ValueStarts(c: seq<byte>, o: nat, depth: nat)
    requires ParseValue(c, o, depth).Ok?
    ensures o < |c| && c[o] > 32 && ParseValue(c, o, depth).next <= |c|
  {
    hide ParseString, ParseNumber, ParseArray, ParseObject;
    if At(c, o, NULL_TEXT) { R.FirstByteAt(c, o, NULL_TEXT); }
    if At(c, o, TRUE_TEXT) { R.FirstByteAt(c, o, TRUE_TEXT); }
    if At(c, o, FALSE_TEXT) { R.FirstByteAt(c, o, FALSE_TEXT); }
  }

  // Every value that is accepted is derived, and is what its derivation means.
  lemma {:induction false} ValueDerived(c: seq<byte>, o: nat, depth: nat) returns (t: Tree)
    requires ParseValue(c, o, depth).Ok? && InStep(c)
    ensures Derives(t, Loose) && ShortNumerals(t, 63) && At(c, o, Yield(t))
    ensures o + |Yield(t)| == ParseValue(c, o, depth).next && Meaning(t) == ParseValue(c, o, depth).value
    decreases Left(c, o), 0
  {
    hide InStep, ParseString, ParseNumber, ParseItems, ParseMembers, SpellNumeral, IsNumeral, Quoted, AreChars;
    hide StringBytes;
    hide UpToNul, IntegerOf, ParseArray, ParseObject, YieldElements, YieldPairs;
    ValueStarts(c, o, depth);
    if At(c, o, NULL_TEXT) {
      t := Null;
    } else if At(c, o, FALSE_TEXT) {
      t := False;
    } else if At(c, o, TRUE_TEXT) {
      t := True;
    } else if Has(c, o, QUOTE) {
      var xs := StringDerived(c, o);
      t := String(xs);
    } else if c[o] == MINUS || ZERO <= c[o] <= NINE {
      var n := NumberDerived(c, o);
      t := Number(n);
    } else if Has(c, o, OPEN_BRACKET) {
      t := ArrayDerived(c, o, depth);
    } else {
      t := ObjectDerived(c, o, depth);
    }
  }

  // From o, or from behind its blanks, the next byte that is no blank is the same.
  lemma SameSkip(c: seq<byte>, o: nat, a: nat)
    requires (a == o || a == Skip(c, o)) && Skip(c, a) < |c| && c[Skip(c, a)] > 32
    ensures Skip(c, a) == Skip(c, o)
  {
  }

  lemma {:induction false} ArrayDerived(c: seq<byte>, o: nat, depth: nat) returns (t: Tree)
    requires Has(c, o, OPEN_BRACKET) && ParseArray(c, o, depth).Ok? && InStep(c)
    ensures Derives(t, Loose) && ShortNumerals(t, 63) && At(c, o, Yield(t))
    ensures o + |Yield(t)| == ParseArray(c, o, depth).next && Meaning(t) == ParseArray(c, o, depth).value
    decreases Left(c, o) - 1, 3
  {
    hide InStep, ParseItems, Skip, AreBlanks, At, YieldElements;
    var p := Skip(c, o + 1);
    if Has(c, p, CLOSE_BRACKET) {
      OverBlanks(c, o + 1);
      t := Array(c[o + 1..p], []);
      Bracketed(c, o, OPEN_BRACKET, c[o + 1..p], CLOSE_BRACKET);
    } else {
      var es := ItemsDerived(c, o + 1, p, depth + 1);
      t := Array([], es);
      NoBlank();
      Bracketed(c, o, OPEN_BRACKET, YieldElements(es), CLOSE_BRACKET);
    }
  }

  lemma NoBlank()
    ensures AreBlanks([], Loose)
  {
  }

  lemma Bracketed(c: seq<byte>, o: nat, open: byte, inner: seq<byte>, close: byte)
    requires Has(c, o, open) && At(c, o + 1, inner) && Has(c, o + 1 + |inner|, close)
    ensures At(c, o, [open] + inner + [close])
  {
    R.AtOne(c, o, open);
    R.AtOne(c, o + 1 + |inner|, close);
    AtSplit(c, o, [open], inner);
    AtSplit(c, o, [open] + inner, [close]);
  }

  // The elements from o on, of which the parser may have skipped the blanks in front already.
  lemma {:induction false} ItemsDerived(c: seq<byte>, o: nat, a: nat, depth: nat) returns (es: seq<Element>)
    requires ParseItems(c, a, depth).Ok? && InStep(c) && (a == o || a == Skip(c, o))
    ensures es != [] && DerivesElements(es, Loose) && ShortElements(es, 63) && At(c, o, YieldElements(es))
    ensures Has(c, o + |YieldElements(es)|, CLOSE_BRACKET)
    ensures ParseItems(c, a, depth) == Ok(MeaningElements(es), o + |YieldElements(es)| + 1)
    decreases Left(c, a), 1
  {
    hide InStep, ParseValue, ParseItems, Skip, AreBlanks, At, YieldElements, Derives, ShortNumerals, Meaning, Yield;
    hide MeaningElements;
    var v := Skip(c, a);
    var r := ParseValue(c, v, depth);
    ItemsParts(c, a, depth);
    ValueStarts(c, v, depth);
    SameSkip(c, o, a);
    OverBlanks(c, o);
    var t := ValueDerived(c, v, depth);
    var q := Skip(c, r.next);
    assert q < |c| && c[q] > 32;
    OverBlanks(c, r.next);
    var e := Element(c[o..v], t, c[r.next..q]);
    if Has(c, q, COMMA) {
      var rest := ItemsDerived(c, q + 1, q + 1, depth);
      es := [e] + rest;
      assert es[1..] == rest;
      ElementsJoin(c, o, e, rest);
      P.MoreItems(c, a, depth);
    } else {
      es := [e];
      assert es[1..] == [];
      ElementJoins(c, o, e);
      P.OneItem(c, a, depth);
      P.NothingMeans();
    }
    P.MeaningsAre(es);
  }

  lemma ItemsParts(c: seq<byte>, a: nat, depth: nat)
    requires ParseItems(c, a, depth).Ok?
    ensures var r := ParseValue(c, Skip(c, a), depth);
            && r.Ok? && a <= Skip(c, a) < r.next <= Skip(c, r.next) < |c|
            && (if Has(c, Skip(c, r.next), COMMA) then ParseItems(c, Skip(c, r.next) + 1, depth).Ok?
                else Has(c, Skip(c, r.next), CLOSE_BRACKET))
  {
    hide ParseValue;
  }

  lemma ElementJoins(c: seq<byte>, o: nat, e: Element)
    requires At(c, o, e.before) && At(c, o + |e.before|, Yield(e.value)) && At(c, o + |e.before| + |Yield(e.value)|, e.after)
    ensures At(c, o, YieldElements([e])) && |YieldElements([e])| == |e.before| + |Yield(e.value)| + |e.after|
  {
    hide At, Yield;
    assert e.after + [] == e.after;
    AtSplit(c, o + |e.before|, Yield(e.value), e.after);
    AtSplit(c, o, e.before, Yield(e.value) + e.after);
  }

  lemma ElementsJoin(c: seq<byte>, o: nat, e: Element, rest: seq<Element>)
    requires At(c, o, e.before) && At(c, o + |e.before|, Yield(e.value)) && At(c, o + |e.before| + |Yield(e.value)|, e.after)
    requires rest != []
    requires var q := o + |e.before| + |Yield(e.value)| + |e.after|; Has(c, q, COMMA) && At(c, q + 1, YieldElements(rest))
    ensures At(c, o, YieldElements([e] + rest))
    ensures |YieldElements([e] + rest)| == |e.before| + |Yield(e.value)| + |e.after| + 1 + |YieldElements(rest)|
  {
    hide At, Yield;
    var es := [e] + rest;
    assert es[1..] == rest && es[0] == e;
    var tail := [COMMA] + YieldElements(rest);
    assert YieldElements(es) == e.before + (Yield(e.value) + (e.after + tail));
    hide YieldElements;
    var q := o + |e.before| + |Yield(e.value)| + |e.after|;
    R.AtOne(c, q, COMMA);
    AtSplit(c, q, [COMMA], YieldElements(rest));
    AtSplit(c, o + |e.before| + |Yield(e.value)|, e.after, tail);
    AtSplit(c, o + |e.before|, Yield(e.value), e.after + tail);
    AtSplit(c, o, e.before, Yield(e.value) + (e.after + tail));
  }

  lemma {:induction false} ObjectDerived(c: seq<byte>, o: nat, depth: nat) returns (t: Tree)
    requires Has(c, o, OPEN_BRACE) && ParseObject(c, o, depth).Ok? && InStep(c)
    ensures Derives(t, Loose) && ShortNumerals(t, 63) && At(c, o, Yield(t))
    ensures o + |Yield(t)| == ParseObject(c, o, depth).next && Meaning(t) == ParseObject(c, o, depth).value
    decreases Left(c, o) - 1, 3
  {
    hide InStep, ParseMembers, Skip, AreBlanks, At, YieldPairs;
    var p := Skip(c, o + 1);
    if Has(c, p, CLOSE_BRACE) {
      OverBlanks(c, o + 1);
      t := Object(c[o + 1..p], []);
      Bracketed(c, o, OPEN_BRACE, c[o + 1..p], CLOSE_BRACE);
    } else {
      var ps := MembersDerived(c, o + 1, p, depth + 1);
      t := Object([], ps);
      NoBlank();
      Bracketed(c, o, OPEN_BRACE, YieldPairs(ps), CLOSE_BRACE);
    }
  }

  // A key with its colon, and where the value behind it starts.
  lemma KeyDerived(c: seq<byte>, o: nat, a: nat, depth: nat) returns (p: Pair, v: nat)
    requires ParseMember(c, a, depth).Ok? && InStep(c) && (a == o || a == Skip(c, o))
    ensures IsKey(p, Loose) && At(c, o, SpellKey(p)) && v == o + |SpellKey(p)| && v > a
    ensures var r := ParseValue(c, v, depth);
            r.Ok? && ParseMember(c, a, depth) == Ok(Member(UpToNul(StringBytes(p.key)), r.value), r.next)
  {
    hide InStep, ParseValue, ParseString, Skip, AreBlanks, AreChars, UpToNul, StringBytes, At, Quoted;
    var k := Skip(c, a);
    var key := ParseString(c, k);
    StringStarts(c, k);
    SameSkip(c, o, a);
    OverBlanks(c, o);
    var xs := StringDerived(c, k);
    var colon := Skip(c, key.next);
    OverBlanks(c, key.next);
    v := Skip(c, colon + 1);
    ValueStarts(c, v, depth);
    OverBlanks(c, colon + 1);
    p := Pair(c[o..k], xs, c[key.next..colon], c[colon + 1..v], Null, []);
    R.AtOne(c, colon, COLON);
    AtSplit(c, colon, [COLON], p.afterColon);
    AtSplit(c, key.next, p.afterKey, [COLON] + p.afterColon);
    AtSplit(c, k, Quoted(xs), p.afterKey + ([COLON] + p.afterColon));
    AtSplit(c, o, p.before, Quoted(xs) + (p.afterKey + ([COLON] + p.afterColon)));
  }

  lemma StringStarts(c: seq<byte>, k: nat)
    requires ParseString(c, k).Ok?
    ensures Has(c, k, QUOTE)
  {
  }

  lemma {:induction false} MembersDerived(c: seq<byte>, o: nat, a: nat, depth: nat) returns (ps: seq<Pair>)
    requires ParseMembers(c, a, depth).Ok? && InStep(c) && (a == o || a == Skip(c, o))
    ensures ps != [] && DerivesPairs(ps, Loose) && ShortPairs(ps, 63) && At(c, o, YieldPairs(ps))
    ensures Has(c, o + |YieldPairs(ps)|, CLOSE_BRACE)
    ensures ParseMembers(c, a, depth) == Ok(MeaningPairs(ps), o + |YieldPairs(ps)| + 1)
    decreases Left(c, a), 1
  {
    hide InStep, ParseMember, ParseMembers, ParseValue, Skip, AreBlanks, At, YieldPairs, Derives, ShortNumerals;
    hide Meaning, Yield;
    hide UpToNul, StringBytes, MeaningPairs, IsKey, SpellKey;
    var r := ParseMember(c, a, depth);
    MembersParts(c, a, depth);
    var key, v := KeyDerived(c, o, a, depth);
    var t := ValueDerived(c, v, depth);
    var q := Skip(c, r.next);
    assert q < |c| && c[q] > 32;
    OverBlanks(c, r.next);
    var p := key.(value := t, after := c[r.next..q]);
    SameKey(key, p);
    if Has(c, q, COMMA) {
      var rest := MembersDerived(c, q + 1, q + 1, depth);
      ps := [p] + rest;
      assert ps[1..] == rest;
      PairsJoin(c, o, p, rest);
      P.MorePairs(c, a, depth);
    } else {
      ps := [p];
      assert ps[1..] == [];
      PairJoins(c, o, p);
      P.OnePair(c, a, depth);
      P.NothingMeans();
    }
    P.PairMeaningsAre(ps);
  }

  lemma MembersParts(c: seq<byte>, a: nat, depth: nat)
    requires ParseMembers(c, a, depth).Ok?
    ensures var r := ParseMember(c, a, depth);
            && r.Ok? && a < r.next <= Skip(c, r.next) < |c|
            && (if Has(c, Skip(c, r.next), COMMA) then ParseMembers(c, Skip(c, r.next) + 1, depth).Ok?
                else Has(c, Skip(c, r.next), CLOSE_BRACE))
  {
    hide ParseMember;
  }

  lemma SameKey(key: Pair, p: Pair)
    requires p == key.(value := p.value, after := p.after)
    ensures IsKey(p, Loose) == IsKey(key, Loose) && SpellKey(p) == SpellKey(key)
  {
  }

  lemma PairJoins(c: seq<byte>, o: nat, p: Pair)
    requires At(c, o, SpellKey(p)) && At(c, o + |SpellKey(p)|, Yield(p.value))
    requires At(c, o + |SpellKey(p)| + |Yield(p.value)|, p.after)
    ensures At(c, o, YieldPairs([p])) && |YieldPairs([p])| == |SpellKey(p)| + |Yield(p.value)| + |p.after|
  {
    hide At, Yield, SpellKey;
    assert p.after + [] == p.after;
    AtSplit(c, o + |SpellKey(p)|, Yield(p.value), p.after);
    AtSplit(c, o, SpellKey(p), Yield(p.value) + p.after);
  }

  lemma PairsJoin(c: seq<byte>, o: nat, p: Pair, rest: seq<Pair>)
    requires At(c, o, SpellKey(p)) && At(c, o + |SpellKey(p)|, Yield(p.value))
    requires At(c, o + |SpellKey(p)| + |Yield(p.value)|, p.after) && rest != []
    requires var q := o + |SpellKey(p)| + |Yield(p.value)| + |p.after|; Has(c, q, COMMA) && At(c, q + 1, YieldPairs(rest))
    ensures At(c, o, YieldPairs([p] + rest))
    ensures |YieldPairs([p] + rest)| == |SpellKey(p)| + |Yield(p.value)| + |p.after| + 1 + |YieldPairs(rest)|
  {
    hide At, Yield, SpellKey;
    var ps := [p] + rest;
    assert ps[1..] == rest && ps[0] == p;
    var tail := [COMMA] + YieldPairs(rest);
    assert YieldPairs(ps) == SpellKey(p) + (Yield(p.value) + (p.after + tail));
    hide YieldPairs;
    var q := o + |SpellKey(p)| + |Yield(p.value)| + |p.after|;
    R.AtOne(c, q, COMMA);
    AtSplit(c, q, [COMMA], YieldPairs(rest));
    AtSplit(c, o + |SpellKey(p)| + |Yield(p.value)|, p.after, tail);
    AtSplit(c, o + |SpellKey(p)|, Yield(p.value), p.after + tail);
    AtSplit(c, o, SpellKey(p), Yield(p.value) + (p.after + tail));
  }

  // ---------- whole texts ----------

  // The input is a byte order mark, if it is marked and longer than 4 bytes, blanks, what t yields,
  // and the bytes behind; t is no deeper than the parser allows and its numerals no longer.
  ghost predicate IsText(c: seq<byte>, marked: bool, before: seq<byte>, t: Tree, behind: seq<byte>) {
    && c == (if marked then BOM else []) + before + Yield(t) + behind && (marked ==> |c| > 4)
    && AreBlanks(before, Loose) && Derives(t, Loose) && ShortNumerals(t, 63) && Nesting(Meaning(t)) <= NESTING_LIMIT
  }

  // Blanks up to a NUL that ends the input.
  ghost predicate IsEnd(behind: seq<byte>) {
    behind != [] && behind[|behind| - 1] == 0 && AreBlanks(behind, Loose)
  }

  lemma TextDerived(c: seq<byte>, requireNul: bool) returns (marked: bool, before: seq<byte>, t: Tree, behind: seq<byte>)
    requires ParseText(c, requireNul).Ok? && InStep(c)
    ensures IsText(c, marked, before, t, behind) && (requireNul ==> IsEnd(behind))
    ensures ParseText(c, requireNul) == Ok(Meaning(t), if requireNul then |c| - 1 else |c| - |behind|)
  {
    hide InStep, ParseValue, ParseText, Skip, AreBlanks, Yield, Derives, ShortNumerals, Meaning, Nesting, Has;
    hide IsNumberChar;
    marked := |c| > 4 && At(c, 0, BOM);
    var start := if marked then 3 else 0;
    var o := Skip(c, start);
    var r := ParseValue(c, o, 0);
    P.TextIs(c, o, requireNul);
    ValueStarts(c, o, 0);
    OverBlanks(c, start);
    before := c[start..o];
    t := ValueDerived(c, o, 0);
    R.ParsedNesting(c, o, 0);
    behind := c[r.next..];
    P.NulRequired(c, r.next, behind);
    assert c[..start] == if marked then BOM else [];
    FourParts(c, start, o, r.next);
  }

  lemma FourParts(c: seq<byte>, i: nat, j: nat, k: nat)
    requires i <= j <= k <= |c|
    ensures c == c[..i] + c[i..j] + c[j..k] + c[k..]
  {
  }

  ghost predicate EndsText(c: seq<byte>, v: Json, marked: bool, before: seq<byte>, t: Tree, behind: seq<byte>) {
    IsText(c, marked, before, t, behind) && IsEnd(behind) && Meaning(t) == v
  }

  // Exactly which inputs are taken for a value when the NUL is required.
  lemma AcceptedExactly(c: seq<byte>, v: Json)
    requires InStep(c)
    ensures ParseText(c, true).Ok? && ParseText(c, true).value == v <==>
            exists marked, before, t, behind :: EndsText(c, v, marked, before, t, behind)
    ensures ParseText(c, true).Ok? ==> ParseText(c, true).next + 1 == |c|
  {
    hide InStep, ParseText, IsText, IsEnd, Meaning;
    if ParseText(c, true).Ok? {
      var marked, before, t, behind := TextDerived(c, true);
      assert EndsText(c, ParseText(c, true).value, marked, before, t, behind);
    }
    forall marked, before, t, behind | EndsText(c, v, marked, before, t, behind)
      ensures ParseText(c, true).Ok? && ParseText(c, true).value == v {
      EndNoNumber(behind);
      TextTaken(c, marked, before, t, behind);
    }
  }

  lemma EndNoNumber(behind: seq<byte>)
    requires IsEnd(behind)
    ensures !IsNumberChar(behind[0])
  {
    assert behind[0] <= 32;
  }

  lemma TextTaken(c: seq<byte>, marked: bool, before: seq<byte>, t: Tree, behind: seq<byte>)
    requires IsText(c, marked, before, t, behind) && IsEnd(behind) && !IsNumberChar(behind[0])
    ensures c != [] && ParseText(c, true) == Ok(Meaning(t), |c| - 1)
  {
    hide ParseText, Yield, Derives, ShortNumerals, Meaning, Nesting, AreBlanks;
    P.TextAccepted(c, marked, before, t, behind, true);
  }
}
