// JSON string literals as parse_string reads them: one pass to find the closing quote, a second
// one to undo the escapes.
module StringLiteral {
  import opened Bytes
  import opened Json

  // ---------- first pass ----------

  // The offset of the quote that closes the literal whose body goes on at i.
  function Closing(c: seq<byte>, i: nat): (r: Option<nat>)
    ensures r.Some? ==> i <= r.value < |c| && c[r.value] == QUOTE
    decreases |c| - i
  {
    if i >= |c| then None
    else if c[i] == QUOTE then Some(i)
    else if c[i] == BACKSLASH then
      if i + 1 >= |c| then None else Closing(c, i + 2)
    else Closing(c, i + 1)
  }

  // ---------- escapes ----------

  predicate IsHex(b: byte) {
    ZERO <= b <= NINE || 'A' as int <= b <= 'F' as int || 'a' as int <= b <= 'f' as int
  }

  function HexValue(b: byte): (h: nat)
    requires IsHex(b)
    ensures h < 16
  {
    if b <= NINE then b - ZERO else if b <= 'F' as int then b - 'A' as int + 10 else b - 'a' as int + 10
  }

  // parse_hex4: a bad digit anywhere makes the whole number 0.
  function Hex4(s: seq<byte>): (h: nat)
    requires |s| == 4
    ensures h < 0x1_0000
  {
    if IsHex(s[0]) && IsHex(s[1]) && IsHex(s[2]) && IsHex(s[3]) then
      ((HexValue(s[0]) * 16 + HexValue(s[1])) * 16 + HexValue(s[2])) * 16 + HexValue(s[3])
    else 0
  }

  // The UTF-8 form of a code point, section 3 of RFC 3629.
  function Utf8(p: nat): (u: seq<byte>)
    requires p <= 0x10_FFFF
    ensures 1 <= |u| <= 4
  {
    if p < 0x80 then [p]
    else if p < 0x800 then [0xC0 + p / 0x40, 0x80 + p % 0x40]
    else if p < 0x1_0000 then [0xE0 + p / 0x1000, 0x80 + p / 0x40 % 0x40, 0x80 + p % 0x40]
    else [0xF0 + p / 0x4_0000, 0x80 + p / 0x1000 % 0x40, 0x80 + p / 0x40 % 0x40, 0x80 + p % 0x40]
  }

  // One \uXXXX escape or a pair of them, at i and before end: the code point and how many
  // characters it takes; 0 characters for one that is refused.
  function Utf16Escape(c: seq<byte>, i: nat, end: nat): (r: (nat, nat))
    requires end <= |c|
    ensures r.0 <= 0x10_FFFF
    ensures r.1 == 0 || r.1 == 6 || (r.1 == 12 && r.0 >= 0x1_0000)
    ensures r.1 != 12 ==> r.0 < 0x1_0000
    ensures i + r.1 <= end || r.1 == 0
  {
    if i + 6 > end then (0, 0) else
      var first := Hex4(c[i + 2..i + 6]);
      if 0xDC00 <= first <= 0xDFFF then (0, 0)
      else if 0xD800 <= first <= 0xDBFF then
        if i + 12 > end || c[i + 6] != BACKSLASH || c[i + 7] != LETTER_U then (0, 0) else
          var second := Hex4(c[i + 8..i + 12]);
          if second < 0xDC00 || second > 0xDFFF then (0, 0)
          else (0x1_0000 + (first - 0xD800) * 0x400 + (second - 0xDC00), 12)
      else (first, 6)
  }

  // The byte a two-character escape stands for.
  function SimpleEscape(b: byte): Option<byte> {
    if b == 'b' as int then Some(BACKSPACE)
    else if b == 'f' as int then Some(FORM_FEED)
    else if b == 'n' as int then Some(NEWLINE)
    else if b == 'r' as int then Some(CARRIAGE_RETURN)
    else if b == 't' as int then Some(TAB)
    else if b == QUOTE || b == BACKSLASH || b == SLASH then Some(b)
    else None
  }

  // ---------- second pass ----------

  datatype Decoding = Decoded(bytes: seq<byte>) | Malformed(at: nat)

  // What one step of the second pass reads at i: the bytes it writes and how far it moves on.
  // It moves 0 characters when the escape is refused.
  function Token(c: seq<byte>, i: nat, end: nat): (r: (seq<byte>, nat))
    requires i < end < |c|
    ensures r.1 > 0 ==> 1 <= |r.0|
    ensures i + r.1 <= end + 1
  {
    if c[i] != BACKSLASH then ([c[i]], 1)
    else if c[i + 1] == LETTER_U then
      var e := Utf16Escape(c, i, end);
      if e.1 == 0 then ([], 0) else (Utf8(e.0), e.1)
    else match SimpleEscape(c[i + 1])
      case Some(b) => ([b], 2)
      case None => ([], 0)
  }

  function Decode(c: seq<byte>, i: nat, end: nat): (d: Decoding)
    requires end < |c|
    decreases end + 1 - i
  {
    if i >= end then Decoded([]) else
      var t := Token(c, i, end);
      if t.1 == 0 then Malformed(i) else
        var rest := Decode(c, i + t.1, end);
        if rest.Decoded? then Decoded(t.0 + rest.bytes) else rest
  }
}
