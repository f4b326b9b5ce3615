// JSON texts as RFC 8259 defines them: derivations of its grammar (sections 2 to 7), the bytes they
// yield, and what they mean to a reader of the RFC.
module Rfc8259 {
  import opened Bytes
  import opened Json
  import opened Unicode
  import StringLiteral

  // ---------- derivations ----------

  // A character of a string: as it is, by a two-character escape, or by its code in \u escapes.
  datatype Char = Unescaped(b: byte) | Short(letter: byte) | Escaped(spelling: seq<byte>, p: nat)

  type Digit = d: nat | d < 10

  datatype Exponent = Exponent(letter: byte, sign: seq<byte>, digits: seq<Digit>)

  datatype Numeral = Numeral(minus: bool, whole: seq<Digit>, fraction: Option<seq<Digit>>, exponent: Option<Exponent>)

  // The blank of an array or object is what stands in it when it is empty. Elements and pairs have
  // the blanks around their parts with them.
  datatype Tree =
    | Null
    | True
    | False
    | Number(n: Numeral)
    | String(chars: seq<Char>)
    | Array(blank: seq<byte>, elements: seq<Element>)
    | Object(blank: seq<byte>, pairs: seq<Pair>)

  datatype Element = Element(before: seq<byte>, value: Tree, after: seq<byte>)

  datatype Pair = Pair(before: seq<byte>, key: seq<Char>, afterKey: seq<byte>, afterColon: seq<byte>,
                       value: Tree, after: seq<byte>)

  // ---------- what they yield ----------

  function SpellChar(x: Char): seq<byte> {
    match x
    case Unescaped(b) => [b]
    case Short(letter) => [BACKSLASH, letter]
    case Escaped(spelling, _) => spelling
  }

  function SpellChars(xs: seq<Char>): seq<byte> {
    if xs == [] then [] else SpellChar(xs[0]) + SpellChars(xs[1..])
  }

  function Quoted(xs: seq<Char>): seq<byte> {
    [QUOTE] + SpellChars(xs) + [QUOTE]
  }

  function Row(ds: seq<Digit>): (r: seq<byte>)
    ensures |r| == |ds| && forall i :: 0 <= i < |ds| ==> r[i] == ZERO + ds[i]
  {
    seq(|ds|, i requires 0 <= i < |ds| => ZERO + ds[i])
  }

  function SpellFraction(fraction: Option<seq<Digit>>): seq<byte> {
    match fraction
    case None => []
    case Some(ds) => [DOT] + Row(ds)
  }

  function SpellExponent(exponent: Option<Exponent>): seq<byte> {
    match exponent
    case None => []
    case Some(e) => [e.letter] + e.sign + Row(e.digits)
  }

  function SpellNumeral(n: Numeral): seq<byte> {
    (if n.minus then [MINUS] else []) + Row(n.whole) + SpellFraction(n.fraction) + SpellExponent(n.exponent)
  }

  function Yield(t: Tree): seq<byte>
    decreases t, 1
  {
    match t
    case Null => [110, 117, 108, 108]
    case True => [116, 114, 117, 101]
    case False => [102, 97, 108, 115, 101]
    case Number(n) => SpellNumeral(n)
    case String(xs) => Quoted(xs)
    case Array(blank, es) => [OPEN_BRACKET] + (if es == [] then blank else YieldElements(es)) + [CLOSE_BRACKET]
    case Object(blank, ps) => [OPEN_BRACE] + (if ps == [] then blank else YieldPairs(ps)) + [CLOSE_BRACE]
  }

  function YieldElements(es: seq<Element>): seq<byte>
    requires es != []
    decreases es, 0
  {
    es[0].before + (Yield(es[0].value) + (es[0].after + if |es| == 1 then [] else [COMMA] + YieldElements(es[1..])))
  }

  // A pair up to its value.
  function SpellKey(p: Pair): seq<byte> {
    p.before + (Quoted(p.key) + (p.afterKey + ([COLON] + p.afterColon)))
  }

  function YieldPairs(ps: seq<Pair>): seq<byte>
    requires ps != []
    decreases ps, 0
  {
    SpellKey(ps[0]) + (Yield(ps[0].value) + (ps[0].after + if |ps| == 1 then [] else [COMMA] + YieldPairs(ps[1..])))
  }

  // ---------- the grammar ----------

  // The grammar of the RFC; or what the parser takes besides: any control character as a blank or
  // inside of a string, numerals with leading zeros or without digits on one side of the point, and
  // for the character 0 also \u with something else than four digits.
  datatype Dialect = Rfc | Loose

  ghost predicate AreBlanks(s: seq<byte>, d: Dialect) {
    forall i :: 0 <= i < |s| ==>
      if d.Rfc? then s[i] == SPACE || s[i] == TAB || s[i] == NEWLINE || s[i] == CARRIAGE_RETURN else s[i] <= 32
  }

  // The letters of two-character escapes, and what they stand for.
  function ShortFor(letter: byte): Option<byte> {
    if letter == '"' as int || letter == '\\' as int || letter == '/' as int then Some(letter)
    else if letter == 'b' as int then Some(8)
    else if letter == 'f' as int then Some(12)
    else if letter == 'n' as int then Some(10)
    else if letter == 'r' as int then Some(13)
    else if letter == 't' as int then Some(9)
    else None
  }

  ghost predicate IsChar(x: Char, d: Dialect) {
    match x
    case Unescaped(b) => b != QUOTE && b != BACKSLASH && (d.Rfc? ==> b >= 0x20)
    case Short(letter) => ShortFor(letter).Some?
    case Escaped(spelling, p) => IsEscape(spelling, p) || (d.Loose? && p == 0 && IsBadUnit(spelling))
  }

  // \u with four characters that are not all digits, and no quote or backslash among them.
  ghost predicate IsBadUnit(t: seq<byte>) {
    && |t| == 6 && t[0] == BACKSLASH && t[1] == LETTER_U
    && (exists k :: 2 <= k < 6 && !IsDigit16(t[k]))
    && forall k :: 2 <= k < 6 ==> t[k] != QUOTE && t[k] != BACKSLASH
  }

  ghost predicate IsDigit16(b: byte) {
    exists digit :: Spells(b, digit)
  }

  ghost predicate AreChars(xs: seq<Char>, d: Dialect) {
    forall i :: 0 <= i < |xs| ==> IsChar(xs[i], d)
  }

  predicate IsExponent(e: Exponent) {
    && (e.letter == 'e' as int || e.letter == 'E' as int)
    && (e.sign == [] || e.sign == [PLUS] || e.sign == [MINUS])
    && e.digits != []
  }

  predicate IsNumeral(n: Numeral, d: Dialect) {
    && (n.exponent.Some? ==> IsExponent(n.exponent.value))
    && if d.Rfc? then
         && (n.whole == [0] || (n.whole != [] && n.whole[0] != 0))
         && (n.fraction.Some? ==> n.fraction.value != [])
       else
         && (n.minus || n.whole != [])
         && (n.whole != [] || (n.fraction.Some? && n.fraction.value != []))
  }

  ghost predicate Derives(t: Tree, d: Dialect)
    decreases t, 1
  {
    match t
    case Number(n) => IsNumeral(n, d)
    case String(xs) => AreChars(xs, d)
    case Array(blank, es) => AreBlanks(blank, d) && DerivesElements(es, d)
    case Object(blank, ps) => AreBlanks(blank, d) && DerivesPairs(ps, d)
    case _ => true
  }

  ghost predicate DerivesElements(es: seq<Element>, d: Dialect)
    decreases es, 0
  {
    es == [] || (&& AreBlanks(es[0].before, d) && Derives(es[0].value, d) && AreBlanks(es[0].after, d)
                 && DerivesElements(es[1..], d))
  }

  ghost predicate IsKey(p: Pair, d: Dialect) {
    AreBlanks(p.before, d) && AreChars(p.key, d) && AreBlanks(p.afterKey, d) && AreBlanks(p.afterColon, d)
  }

  ghost predicate DerivesPairs(ps: seq<Pair>, d: Dialect)
    decreases ps, 0
  {
    ps == [] || (IsKey(ps[0], d) && Derives(ps[0].value, d) && AreBlanks(ps[0].after, d) && DerivesPairs(ps[1..], d))
  }

  // ---------- what they mean ----------

  // The bytes of a string, in UTF-8.
  function CharBytes(x: Char): seq<byte> {
    match x
    case Unescaped(b) => [b]
    case Short(letter) => (match ShortFor(letter) case Some(b) => [b] case None => [])
    case Escaped(_, p) => if p <= 0x10_FFFF then StringLiteral.Utf8(p) else []
  }

  function StringBytes(xs: seq<Char>): seq<byte> {
    if xs == [] then [] else CharBytes(xs[0]) + StringBytes(xs[1..])
  }

  // The number that digits spell.
  function Spelled(ds: seq<Digit>): nat {
    if ds == [] then 0 else 10 * Spelled(ds[..|ds| - 1]) + ds[|ds| - 1]
  }

  // Ten to any integer power.
  function Ten(e: int): (r: real)
    ensures r > 0.0
    decreases if e < 0 then -e else e
  {
    if e == 0 then 1.0 else if e > 0 then 10.0 * Ten(e - 1) else Ten(e + 1) / 10.0
  }

  function FractionDigits(n: Numeral): seq<Digit> {
    if n.fraction.Some? then n.fraction.value else []
  }

  function PowerOfTen(n: Numeral): int {
    match n.exponent
    case None => 0
    case Some(e) => if e.sign == [MINUS] then -(Spelled(e.digits) as int) else Spelled(e.digits)
  }

  // The number without its sign.
  function Magnitude(n: Numeral): real {
    Spelled(n.whole + FractionDigits(n)) as real * Ten(PowerOfTen(n) - |FractionDigits(n)|)
  }

  // Its integer part, or the nearest integer of 64 bits.
  function IntegerOf(n: Numeral): Int64 {
    var whole := Magnitude(n).Floor;
    var i := if n.minus then -whole else whole;
    if i < -0x8000_0000_0000_0000 then -0x8000_0000_0000_0000
    else if i > 0x7FFF_FFFF_FFFF_FFFF then 0x7FFF_FFFF_FFFF_FFFF
    else i
  }

  // Strings are C strings, and numbers integers.
  function Meaning(t: Tree): Json
    decreases t, 1
  {
    match t
    case Null => JNull
    case True => JBool(true)
    case False => JBool(false)
    case Number(n) => JNum(IntegerOf(n))
    case String(xs) => JStr(UpToNul(StringBytes(xs)))
    case Array(_, es) => JArr(MeaningElements(es))
    case Object(_, ps) => JObj(MeaningPairs(ps))
  }

  function MeaningElements(es: seq<Element>): seq<Json>
    decreases es, 0
  {
    if es == [] then [] else [Meaning(es[0].value)] + MeaningElements(es[1..])
  }

  function MeaningPairs(ps: seq<Pair>): seq<Member>
    decreases ps, 0
  {
    if ps == [] then []
    else [Member(UpToNul(StringBytes(ps[0].key)), Meaning(ps[0].value))] + MeaningPairs(ps[1..])
  }

  // Every numeral has so many characters at most.
  predicate ShortNumerals(t: Tree, most: nat)
    decreases t, 1
  {
    match t
    case Number(n) => |SpellNumeral(n)| <= most
    case Array(_, es) => ShortElements(es, most)
    case Object(_, ps) => ShortPairs(ps, most)
    case _ => true
  }

  predicate ShortElements(es: seq<Element>, most: nat)
    decreases es, 0
  {
    es == [] || (ShortNumerals(es[0].value, most) && ShortElements(es[1..], most))
  }

  predicate ShortPairs(ps: seq<Pair>, most: nat)
    decreases ps, 0
  {
    ps == [] || (ShortNumerals(ps[0].value, most) && ShortPairs(ps[1..], most))
  }

  // What the RFC allows is allowed.
  lemma {:induction false} RfcIsLoose(t: Tree)
    requires Derives(t, Rfc)
    ensures Derives(t, Loose)
    decreases t, 1
  {
    match t
    case Array(_, es) => RfcElementsAreLoose(es);
    case Object(_, ps) => RfcPairsAreLoose(ps);
    case _ =>
  }

  lemma {:induction false} RfcElementsAreLoose(es: seq<Element>)
    requires DerivesElements(es, Rfc)
    ensures DerivesElements(es, Loose)
    decreases es, 0
  {
    if es != [] {
      RfcIsLoose(es[0].value);
      RfcElementsAreLoose(es[1..]);
    }
  }

  lemma {:induction false} RfcPairsAreLoose(ps: seq<Pair>)
    requires DerivesPairs(ps, Rfc)
    ensures DerivesPairs(ps, Loose)
    decreases ps, 0
  {
    if ps != [] {
      RfcIsLoose(ps[0].value);
      RfcPairsAreLoose(ps[1..]);
    }
  }
}
