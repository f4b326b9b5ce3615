// Numbers in JSON text: the characters parse_number collects, the part of them strtod converts
// and the 64-bit integer that results. The double in between is read as exact.
module NumberLiteral {
  import opened Bytes
  import opened Json
  import opened TextFacts

  // A decimal numeral: (-)mantissa * 10^exponent, and how many characters spell it.
  datatype Decimal = Decimal(negative: bool, mantissa: nat, exponent: int, length: nat)

  predicate IsDigit(b: byte) {
    ZERO <= b <= NINE
  }

  predicate IsNumberChar(b: byte) {
    IsDigit(b) || b == PLUS || b == MINUS || b == 'e' as int || b == 'E' as int || b == DOT
  }

  function NumberCharCount(c: seq<byte>, o: nat, most: nat): (n: nat)
    requires o <= |c|
    ensures o + n <= |c| && n <= most
    ensures forall i :: o <= i < o + n ==> IsNumberChar(c[i])
    ensures n == most || o + n == |c| || !IsNumberChar(c[o + n])
    decreases most
  {
    if most > 0 && o < |c| && IsNumberChar(c[o]) then 1 + NumberCharCount(c, o + 1, most - 1) else 0
  }

  function DigitRun(s: seq<byte>, i: nat): (e: nat)
    requires i <= |s|
    ensures i <= e <= |s|
    ensures forall k :: i <= k < e ==> IsDigit(s[k])
    ensures e < |s| ==> !IsDigit(s[e])
    decreases |s| - i
  {
    if i < |s| && IsDigit(s[i]) then DigitRun(s, i + 1) else i
  }

  function DigitsValue(d: seq<byte>): nat
    requires forall i :: 0 <= i < |d| ==> IsDigit(d[i])
  {
    if d == [] then 0 else
      var last := d[|d| - 1];
      assert IsDigit(last);
      DigitsValue(d[..|d| - 1]) * 10 + (last as int - ZERO)
  }

  function SignLength(s: seq<byte>, i: nat): nat {
    if i < |s| && (s[i] == PLUS || s[i] == MINUS) then 1 else 0
  }

  // Where the exponent that may start at p ends, or p when there is none.
  function ExponentEnd(s: seq<byte>, p: nat): (e: nat)
    requires p <= |s|
    ensures p <= e <= |s|
  {
    if p == |s| || (s[p] != 'e' as int && s[p] != 'E' as int) then p else
      var d := p + 1 + SignLength(s, p + 1);
      if DigitRun(s, d) > d then DigitRun(s, d) else p
  }

  function ExponentValue(s: seq<byte>, p: nat): int
    requires p <= |s|
  {
    if ExponentEnd(s, p) == p then 0 else
      var d := p + 1 + SignLength(s, p + 1);
      var e: int := DigitsValue(s[d..DigitRun(s, d)]);
      if s[p + 1] == MINUS then -e else e
  }

  // strtod on text that holds number characters only.
  function Strtod(s: seq<byte>): (r: Option<Decimal>)
    ensures r.Some? ==> 0 < r.value.length <= |s|
  {
    var start := SignLength(s, 0);
    var whole := DigitRun(s, start);
    var point := if whole < |s| && s[whole] == DOT then 1 else 0;
    var fraction := DigitRun(s, whole + point);
    var digits := s[start..whole] + s[whole + point..fraction];
    if digits == [] then None
    else Some(Decimal(start == 1 && s[0] == MINUS, DigitsValue(digits),
                      ExponentValue(s, fraction) - (fraction - whole - point), ExponentEnd(s, fraction)))
  }

  // The number truncated towards zero and saturated to 64 bits.
  function ValueInt(d: Decimal): Int64 {
    var magnitude := if d.exponent >= 0 then d.mantissa * Pow10(d.exponent) else d.mantissa / Pow10(-d.exponent);
    var n := if d.negative then -magnitude else magnitude;
    if n > 0x7FFF_FFFF_FFFF_FFFF then 0x7FFF_FFFF_FFFF_FFFF
    else if n < -0x8000_0000_0000_0000 then -0x8000_0000_0000_0000
    else n
  }
}
