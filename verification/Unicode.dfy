// \u escapes in string literals against the definitions of UTF-8 (RFC 3629, section 3) and
// UTF-16 (RFC 2781, section 2).
module Unicode {
  import opened Bytes
  import opened Json
  import opened StringLiteral
  import opened JsonGrammar

  predicate IsScalar(p: nat) {
    p <= 0x10_FFFF && !(0xD800 <= p <= 0xDFFF)
  }

  // The hexadecimal digits, 0123456789ABCDEF and 0123456789abcdef.
  const UPPER: seq<byte> := [48, 49, 50, 51, 52, 53, 54, 55, 56, 57, 65, 66, 67, 68, 69, 70]
  const LOWER: seq<byte> := [48, 49, 50, 51, 52, 53, 54, 55, 56, 57, 97, 98, 99, 100, 101, 102]

  ghost predicate Spells(b: byte, digit: nat) {
    digit < 16 && (b == UPPER[digit] || b == LOWER[digit])
  }

  // \uXXXX: the unit in hexadecimal digits, each in either case.
  ghost predicate IsUnit(t: seq<byte>, unit: nat) {
    && |t| == 6 && t[0] == BACKSLASH && t[1] == LETTER_U
    && Spells(t[2], unit / 4096) && Spells(t[3], unit / 256 % 16)
    && Spells(t[4], unit / 16 % 16) && Spells(t[5], unit % 16)
  }

  // The escape of a scalar value: one unit, or a surrogate pair beyond the basic plane.
  ghost predicate IsEscape(t: seq<byte>, p: nat) {
    && IsScalar(p)
    && if p < 0x1_0000 then IsUnit(t, p)
       else |t| == 12 && IsUnit(t[..6], 0xD800 + (p - 0x1_0000) / 0x400) && IsUnit(t[6..], 0xDC00 + (p - 0x1_0000) % 0x400)
  }

  ghost predicate AreEscapes(ts: seq<seq<byte>>, ps: seq<nat>) {
    |ts| == |ps| && forall i :: 0 <= i < |ts| ==> IsEscape(ts[i], ps[i])
  }

  function Concat(ts: seq<seq<byte>>): seq<byte> {
    if ts == [] then [] else ts[0] + Concat(ts[1..])
  }

  function Utf8All(ps: seq<nat>): seq<byte>
    requires forall i :: 0 <= i < |ps| ==> IsScalar(ps[i])
  {
    if ps == [] then [] else assert IsScalar(ps[0]); Utf8(ps[0]) + Utf8All(ps[1..])
  }

  // ---------- hexadecimal digits ----------

  lemma HexSpelled(b: byte, digit: nat)
    ensures Spells(b, digit) <==> IsHex(b) && HexValue(b) == digit
  {
  }

  // Four digits of any case give the unit they spell, and nothing else gives it but, for 0, what is
  // not all digits.
  lemma Hex4Spelled(s: seq<byte>, unit: nat)
    requires |s| == 4
    ensures IsUnit([BACKSLASH, LETTER_U] + s, unit) ==> Hex4(s) == unit
    ensures Hex4(s) == unit && unit > 0 ==> IsUnit([BACKSLASH, LETTER_U] + s, unit)
  {
    HexSpelled(s[0], unit / 4096);
    HexSpelled(s[1], unit / 256 % 16);
    HexSpelled(s[2], unit / 16 % 16);
    HexSpelled(s[3], unit % 16);
    if IsHex(s[0]) && IsHex(s[1]) && IsHex(s[2]) && IsHex(s[3]) {
      FourDigits(HexValue(s[0]), HexValue(s[1]), HexValue(s[2]), HexValue(s[3]), unit);
    }
    hide Spells, HexValue;
  }

  lemma FourDigits(a: nat, b: nat, c: nat, d: nat, n: nat)
    requires a < 16 && b < 16 && c < 16 && d < 16
    ensures ((a * 16 + b) * 16 + c) * 16 + d == n <==>
            n / 4096 == a && n / 256 % 16 == b && n / 16 % 16 == c && n % 16 == d
  {
    assert n / 256 == n / 16 / 16 && n / 4096 == n / 16 / 16 / 16;
  }

  // What is printed in hexadecimal is in lower case.
  lemma PrintedInLowerCase(d: int)
    requires 0 <= d < 16
    ensures HexDigit(d) == LOWER[d] && Spells(HexDigit(d), d)
  {
  }

  // ---------- a strict UTF-8 decoder ----------

  predicate IsTail(s: seq<byte>, i: nat) {
    i < |s| && 0x80 <= s[i] <= 0xBF
  }

  // The first character of s and its length, following the syntax of byte sequences in
  // section 4 of RFC 3629; length 0 for anything else.
  function FirstCharacter(s: seq<byte>): (r: (nat, nat))
    ensures r.1 <= |s|
  {
    if s == [] then (0, 0)
    else if s[0] < 0x80 then (s[0], 1)
    else if 0xC2 <= s[0] <= 0xDF && IsTail(s, 1) then ((s[0] as int - 0xC0) * 0x40 + s[1] - 0x80, 2)
    else if 0xE0 <= s[0] <= 0xEF && IsTail(s, 1) && IsTail(s, 2)
         && (s[0] == 0xE0 ==> s[1] >= 0xA0) && (s[0] == 0xED ==> s[1] <= 0x9F) then
      ((s[0] as int - 0xE0) * 0x1000 + (s[1] as int - 0x80) * 0x40 + s[2] - 0x80, 3)
    else if 0xF0 <= s[0] <= 0xF4 && IsTail(s, 1) && IsTail(s, 2) && IsTail(s, 3)
         && (s[0] == 0xF0 ==> s[1] >= 0x90) && (s[0] == 0xF4 ==> s[1] <= 0x8F) then
      ((s[0] as int - 0xF0) * 0x4_0000 + (s[1] as int - 0x80) * 0x1000 + (s[2] as int - 0x80) * 0x40 + s[3] - 0x80, 4)
    else (0, 0)
  }

  function DecodeUtf8(s: seq<byte>): Option<seq<nat>> {
    if s == [] then Some([]) else
      var (p, n) := FirstCharacter(s);
      if n == 0 then None
      else match DecodeUtf8(s[n..])
        case Some(ps) => Some([p] + ps)
        case None => None
  }

  lemma FirstOfUtf8(p: nat, rest: seq<byte>)
    requires IsScalar(p)
    ensures FirstCharacter(Utf8(p) + rest) == (p, |Utf8(p)|)
  {
    if p >= 0x1_0000 {
      FourBytes(p, rest);
    } else if p >= 0x800 {
      ThreeBytes(p, rest);
    } else if p >= 0x80 {
      TwoBytes(p, rest);
    }
  }

  lemma TwoBytes(p: nat, rest: seq<byte>)
    requires 0x80 <= p < 0x800
    ensures FirstCharacter(Utf8(p) + rest) == (p, 2)
  {
    var u := Utf8(p);
    assert (u + rest)[0] == u[0] && (u + rest)[1] == u[1];
  }

  lemma ThreeBytes(p: nat, rest: seq<byte>)
    requires 0x800 <= p < 0x1_0000 && IsScalar(p)
    ensures FirstCharacter(Utf8(p) + rest) == (p, 3)
  {
    var u := Utf8(p);
    assert (u + rest)[0] == u[0] && (u + rest)[1] == u[1] && (u + rest)[2] == u[2];
    assert p == (p / 0x1000) * 0x1000 + (p / 0x40 % 0x40) * 0x40 + p % 0x40;
  }

  lemma FourBytes(p: nat, rest: seq<byte>)
    requires 0x1_0000 <= p && IsScalar(p)
    ensures FirstCharacter(Utf8(p) + rest) == (p, 4)
  {
    var u := Utf8(p);
    Sextets(p);
    FourByteForm(u + rest, p / 0x4_0000, p / 0x1000 % 0x40, p / 0x40 % 0x40, p % 0x40);
  }

  lemma Sextets(p: nat)
    requires 0x1_0000 <= p <= 0x10_FFFF
    ensures var a, b, c, d := p / 0x4_0000, p / 0x1000 % 0x40, p / 0x40 % 0x40, p % 0x40;
            a * 0x4_0000 + b * 0x1000 + c * 0x40 + d == p && a <= 4 && (a == 0 ==> b >= 0x10) && (a == 4 ==> b < 0x10)
  {
    var q := p / 0x40;
    assert q / 0x40 == p / 0x1000 && q / 0x1000 == p / 0x4_0000;
    assert p == q * 0x40 + p % 0x40;
    assert q == (p / 0x1000) * 0x40 + q % 0x40;
    assert p / 0x1000 == (p / 0x4_0000) * 0x40 + p / 0x1000 % 0x40;
  }

  lemma FourByteForm(s: seq<byte>, a: nat, b: nat, c: nat, d: nat)
    requires a <= 4 && b < 0x40 && c < 0x40 && d < 0x40 && (a == 0 ==> b >= 0x10) && (a == 4 ==> b < 0x10)
    requires |s| >= 4 && s[0] == 0xF0 + a && s[1] == 0x80 + b && s[2] == 0x80 + c && s[3] == 0x80 + d
    ensures FirstCharacter(s) == (a * 0x4_0000 + b * 0x1000 + c * 0x40 + d, 4)
  {
  }

  lemma {:induction false} Utf8RoundTrip(ps: seq<nat>)
    requires forall i :: 0 <= i < |ps| ==> IsScalar(ps[i])
    ensures DecodeUtf8(Utf8All(ps)) == Some(ps)
  {
    if ps != [] {
      Utf8RoundTrip(ps[1..]);
      hide DecodeUtf8, Utf8;
      FirstDecodes(ps[0], Utf8All(ps[1..]));
      assert [ps[0]] + ps[1..] == ps;
    }
  }

  lemma FirstDecodes(p: nat, rest: seq<byte>)
    requires IsScalar(p) && DecodeUtf8(rest).Some?
    ensures DecodeUtf8(Utf8(p) + rest) == Some([p] + DecodeUtf8(rest).value)
  {
    hide FirstCharacter, Utf8;
    FirstOfUtf8(p, rest);
    assert (Utf8(p) + rest)[|Utf8(p)|..] == rest;
  }

  // ---------- what parse_string makes of escapes ----------

  lemma UnitAt(t: seq<byte>, unit: nat, c: seq<byte>, i: nat)
    requires IsUnit(t, unit) && At(c, i, t)
    ensures |t| == 6 && c[i] == BACKSLASH && c[i + 1] == LETTER_U && Hex4(c[i + 2..i + 6]) == unit
    ensures Closing(c, i) == Closing(c, i + 6)
  {
    forall k | 0 <= k < 6 ensures c[i + k] == t[k] {
      assert c[i..i + 6][k] == t[k];
    }
    assert c[i + 2..i + 6] == t[2..6];
    assert [BACKSLASH, LETTER_U] + t[2..6] == t;
    Hex4Spelled(t[2..6], unit);
    NoQuotes(t, unit);
    assert Closing(c, i) == Closing(c, i + 2) == Closing(c, i + 3) == Closing(c, i + 4);
    assert Closing(c, i + 4) == Closing(c, i + 5) == Closing(c, i + 6);
  }

  lemma NoQuotes(t: seq<byte>, unit: nat)
    requires IsUnit(t, unit)
    ensures forall k :: 2 <= k < 6 ==> t[k] != QUOTE && t[k] != BACKSLASH
  {
    HexSpelled(t[2], unit / 4096);
    HexSpelled(t[3], unit / 256 % 16);
    HexSpelled(t[4], unit / 16 % 16);
    HexSpelled(t[5], unit % 16);
    hide Spells;
  }

  lemma EscapeToken(t: seq<byte>, p: nat, c: seq<byte>, i: nat, end: nat)
    requires IsEscape(t, p) && At(c, i, t) && i + |t| <= end < |c|
    ensures Token(c, i, end) == (Utf8(p), |t|)
    ensures Closing(c, i) == Closing(c, i + |t|)
  {
    hide Hex4, Utf8, IsUnit, Closing;
    if p < 0x1_0000 {
      UnitAt(t, p, c, i);
    } else {
      var q := p - 0x1_0000;
      assert t[..6] + t[6..] == t;
      AtSplit(c, i, t[..6], t[6..]);
      UnitAt(t[..6], 0xD800 + q / 0x400, c, i);
      UnitAt(t[6..], 0xDC00 + q % 0x400, c, i + 6);
    }
  }

  // Both passes go from i to j, and the second one writes bytes on the way.
  ghost predicate Emits(c: seq<byte>, i: nat, j: nat, end: nat, bytes: seq<byte>)
    requires end < |c|
  {
    && Closing(c, i) == Closing(c, j)
    && var rest := Decode(c, j, end);
       Decode(c, i, end) == if rest.Decoded? then Decoded(bytes + rest.bytes) else rest
  }

  lemma EmitsNothing(c: seq<byte>, i: nat, end: nat)
    requires end < |c|
    ensures Emits(c, i, i, end, [])
  {
    var rest := Decode(c, i, end);
    assert rest.Decoded? ==> [] + rest.bytes == rest.bytes;
  }

  lemma EmitsBoth(c: seq<byte>, i: nat, j: nat, k: nat, end: nat, a: seq<byte>, b: seq<byte>)
    requires end < |c| && Emits(c, i, j, end, a) && Emits(c, j, k, end, b)
    ensures Emits(c, i, k, end, a + b)
  {
    var rest := Decode(c, k, end);
    if rest.Decoded? {
      Assoc(a, b, rest.bytes);
    }
  }

  lemma EscapeEmits(t: seq<byte>, p: nat, c: seq<byte>, i: nat, end: nat)
    requires IsEscape(t, p) && At(c, i, t) && i + |t| <= end < |c|
    ensures IsScalar(p) && |t| > 0 && Emits(c, i, i + |t|, end, Utf8(p))
  {
    hide Token, Utf8, Closing;
    EscapeToken(t, p, c, i, end);
  }

  lemma {:induction false} EscapesDecode(ts: seq<seq<byte>>, ps: seq<nat>, c: seq<byte>, i: nat, end: nat)
    requires AreEscapes(ts, ps) && At(c, i, Concat(ts)) && i + |Concat(ts)| <= end < |c|
    ensures forall k :: 0 <= k < |ps| ==> IsScalar(ps[k])
    ensures Emits(c, i, i + |Concat(ts)|, end, Utf8All(ps))
    decreases |ts|
  {
    hide Utf8, IsEscape, At, Emits;
    forall k | 0 <= k < |ps| ensures IsScalar(ps[k]) {
      ScalarOfEscape(ts[k], ps[k]);
    }
    if ts == [] {
      EmitsNothing(c, i, end);
    } else {
      var next := i + |ts[0]|;
      AtSplit(c, i, ts[0], Concat(ts[1..]));
      EscapeEmits(ts[0], ps[0], c, i, end);
      EscapesDecode(ts[1..], ps[1..], c, next, end);
      EmitsBoth(c, i, next, i + |Concat(ts)|, end, Utf8(ps[0]), Utf8All(ps[1..]));
    }
  }

  lemma ScalarOfEscape(t: seq<byte>, p: nat)
    requires IsEscape(t, p)
    ensures IsScalar(p) && |t| > 0
  {
  }

  // A literal of escapes alone becomes the UTF-8 forms of its scalar values, and these decode
  // back to them.
  lemma EscapedLiteral(ts: seq<seq<byte>>, ps: seq<nat>, c: seq<byte>, o: nat)
    requires AreEscapes(ts, ps) && At(c, o, [QUOTE] + Concat(ts) + [QUOTE])
    ensures var end := o + 1 + |Concat(ts)|;
            && Closing(c, o + 1) == Some(end) && c[end] == QUOTE
            && (forall k :: 0 <= k < |ps| ==> IsScalar(ps[k]))
            && Decode(c, o + 1, end) == Decoded(Utf8All(ps))
            && DecodeUtf8(Utf8All(ps)) == Some(ps)
            && ParseString(c, o) == Ok(UpToNul(Utf8All(ps)), end + 1)
  {
    hide Utf8All, DecodeUtf8, AreEscapes, IsUnit;
    var end := o + 1 + |Concat(ts)|;
    AtSplit(c, o, [QUOTE] + Concat(ts), [QUOTE]);
    AtSplit(c, o, [QUOTE], Concat(ts));
    assert c[o] == c[o..o + 1][0];
    assert c[end] == c[end..end + 1][0];
    EscapesDecode(ts, ps, c, o + 1, end);
    Utf8RoundTrip(ps);
    assert Utf8All(ps) + [] == Utf8All(ps);
  }

  // ---------- unpaired surrogates ----------

  ghost predicate IsLow(t: seq<byte>, unit: nat) {
    0xDC00 <= unit <= 0xDFFF && IsUnit(t, unit)
  }

  ghost predicate SpellsLow(t: seq<byte>) {
    exists unit :: IsLow(t, unit)
  }

  // The escape of a low surrogate stands at i, before end.
  ghost predicate LowFollows(c: seq<byte>, i: nat, end: nat)
    requires end <= |c|
  {
    i + 6 <= end && SpellsLow(c[i..i + 6])
  }

  // A high surrogate is accepted exactly in front of a low one; a low one never on its own.
  lemma SurrogateToken(t: seq<byte>, unit: nat, c: seq<byte>, i: nat, end: nat)
    requires IsUnit(t, unit) && At(c, i, t) && i + 6 <= end < |c| && 0xD800 <= unit <= 0xDFFF
    ensures Token(c, i, end).1 > 0 <==>
              unit <= 0xDBFF && LowFollows(c, i + 6, end)
  {
    hide Hex4, IsUnit, Closing;
    UnitAt(t, unit, c, i);
    if i + 12 <= end {
      LowUnit(c, i + 6);
    }
  }

  // Whether a low surrogate stands at i, as the parser looks for it.
  lemma LowUnit(c: seq<byte>, i: nat)
    requires i + 6 <= |c|
    ensures SpellsLow(c[i..i + 6]) <==>
            c[i] == BACKSLASH && c[i + 1] == LETTER_U && 0xDC00 <= Hex4(c[i + 2..i + 6]) <= 0xDFFF
  {
    var u := c[i..i + 6];
    assert u[2..6] == c[i + 2..i + 6];
    forall unit | IsLow(u, unit)
      ensures u[0] == BACKSLASH && u[1] == LETTER_U && Hex4(u[2..6]) == unit {
      assert [BACKSLASH, LETTER_U] + u[2..6] == u;
      Hex4Spelled(u[2..6], unit);
    }
    if u[0] == BACKSLASH && u[1] == LETTER_U {
      assert [BACKSLASH, LETTER_U] + u[2..6] == u;
      Hex4Spelled(u[2..6], Hex4(u[2..6]));
      if 0xDC00 <= Hex4(u[2..6]) <= 0xDFFF {
        assert IsLow(u, Hex4(u[2..6]));
      }
    }
  }

  // The steps of the second pass from i lead to p, whatever they read on the way.
  ghost predicate Reached(c: seq<byte>, i: nat, end: nat, p: nat)
    requires end < |c|
    decreases end + 1 - i
  {
    i == p || (i < end && Token(c, i, end).1 > 0 && Reached(c, i + Token(c, i, end).1, end, p))
  }

  lemma {:induction false} RefusedAt(c: seq<byte>, i: nat, end: nat, p: nat)
    requires p < end < |c| && Reached(c, i, end, p) && Token(c, p, end).1 == 0
    ensures Decode(c, i, end) == Malformed(p)
    decreases end + 1 - i
  {
    hide Token;
    if i != p {
      RefusedAt(c, i + Token(c, i, end).1, end, p);
    }
  }

  // Wherever the second pass meets an unpaired surrogate, it refuses the literal there.
  lemma UnpairedRefused(t: seq<byte>, unit: nat, c: seq<byte>, o: nat, end: nat, p: nat)
    requires Has(c, o, QUOTE) && Closing(c, o + 1) == Some(end) && Reached(c, o + 1, end, p)
    requires IsUnit(t, unit) && At(c, p, t) && p + 6 <= end && 0xD800 <= unit <= 0xDFFF
    requires unit >= 0xDC00 || !LowFollows(c, p + 6, end)
    ensures ParseString(c, o) == Err(p)
  {
    hide IsUnit, Token, Reached;
    SurrogateToken(t, unit, c, p, end);
    RefusedAt(c, o + 1, end, p);
  }

  // In particular behind any good escapes.
  lemma {:induction false} EscapesReached(ts: seq<seq<byte>>, ps: seq<nat>, c: seq<byte>, i: nat, end: nat)
    requires AreEscapes(ts, ps) && end < |c| && At(c, i, Concat(ts)) && i + |Concat(ts)| <= end
    ensures Reached(c, i, end, i + |Concat(ts)|)
    decreases |ts|
  {
    hide Token, IsEscape, At;
    if ts != [] {
      AtSplit(c, i, ts[0], Concat(ts[1..]));
      ScalarOfEscape(ts[0], ps[0]);
      EscapeToken(ts[0], ps[0], c, i, end);
      EscapesReached(ts[1..], ps[1..], c, i + |ts[0]|, end);
    }
  }
}
