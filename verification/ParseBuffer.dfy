// The reading of strings and numbers by the parser of cjson.c, in the parse buffer's input.
module ParseBuffer {
  import opened Bytes
  import opened Json
  import opened StringLiteral
  import opened StringBounds
  import opened NumberLiteral
  import G = JsonGrammar

  // The character loop of utf16_literal_to_utf8, which fills the bytes from the last one back.
  method StoreUtf8(output: array<byte>, at: nat, codepoint: nat) returns (length: nat)
    requires codepoint <= 0x10_FFFF && at + |Utf8(codepoint)| <= output.Length
    modifies output
    ensures length == |Utf8(codepoint)|
    ensures output[..at + length] == old(output[..at]) + Utf8(codepoint)
  {
    var mark := 0;
    if codepoint < 0x80 {
      length := 1;
    } else if codepoint < 0x800 {
      length := 2;
      mark := 0xC0;
    } else if codepoint < 0x1_0000 {
      length := 3;
      mark := 0xE0;
    } else {
      length := 4;
      mark := 0xF0;
    }
    var rest := codepoint;
    var position := length - 1;
    ghost var u := Utf8(codepoint);
    assert length == |u|;
    hide Utf8;
    while position > 0
      invariant 0 <= position < length
      invariant rest == Sextets(codepoint, length - 1 - position)
      invariant output[..at] == old(output[..at])
      invariant forall k :: position < k < length ==> output[at + k] == u[k]
    {
      ContinuationByte(codepoint, position);
      output[at + position] := 0x80 + rest % 0x40;
      rest := rest / 0x40;
      position := position - 1;
    }
    LeadingByte(codepoint);
    output[at] := mark + rest;
    assert output[at..at + length] == u;
    assert output[..at + length] == output[..at] + output[at..at + length];
  }

  // A code point with its last k groups of six bits shifted out.
  function Sextets(codepoint: nat, k: nat): nat {
    if k == 0 then codepoint else Sextets(codepoint, k - 1) / 0x40
  }

  lemma ContinuationByte(codepoint: nat, position: nat)
    requires codepoint <= 0x10_FFFF && 0 < position < |Utf8(codepoint)|
    ensures Utf8(codepoint)[position] == 0x80 + Sextets(codepoint, |Utf8(codepoint)| - 1 - position) % 0x40
  {
    var k := |Utf8(codepoint)| - 1 - position;
    assert k <= 2;
    assert Sextets(codepoint, 1) == codepoint / 0x40;
    assert Sextets(codepoint, 2) == codepoint / 0x40 / 0x40 == codepoint / 0x1000;
  }

  lemma LeadingByte(codepoint: nat)
    requires codepoint <= 0x10_FFFF
    ensures var n := |Utf8(codepoint)|;
            Utf8(codepoint)[0] == (if n == 1 then 0 else if n == 2 then 0xC0 else if n == 3 then 0xE0 else 0xF0)
                                  + Sextets(codepoint, n - 1)
  {
    assert Sextets(codepoint, 1) == codepoint / 0x40;
    assert Sextets(codepoint, 2) == codepoint / 0x40 / 0x40 == codepoint / 0x1000;
    assert Sextets(codepoint, 3) == codepoint / 0x40 / 0x40 / 0x40 == codepoint / 0x4_0000;
  }

  class ParseBuffer {
    const content: seq<byte>
    var offset: nat
    var depth: nat

    constructor (content: seq<byte>)
      ensures this.content == content && offset == 0 && depth == 0
    {
      this.content := content;
      offset := 0;
      depth := 0;
    }

    method SkipBlanks()
      modifies this`offset
      ensures offset == G.Skip(content, old(offset))
    {
      if offset >= |content| {
        return;
      }
      while offset < |content| && content[offset] <= 32
        invariant old(offset) <= offset <= |content|
        invariant G.BlankEnd(content, offset) == G.BlankEnd(content, old(offset))
      {
        offset := offset + 1;
      }
      if offset == |content| {
        offset := offset - 1;
      }
    }

    // The first pass of parse_string: where the literal ends and how big its output may get.
    // i is the offset behind the opening quote.
    method FindClosing(i: nat) returns (found: bool, end: nat, capacity: nat)
      requires 0 < i
      ensures found <==> Closing(content, i).Some?
      ensures found ==> Closing(content, i) == Some(end) && capacity == Units(content, i, end) + 2
    {
      end := i;
      var skipped := 0;
      while end < |content| && content[end] != QUOTE
        invariant i <= end
        invariant Closing(content, end) == Closing(content, i)
        invariant skipped <= end - i
        invariant Closing(content, end).Some? ==>
                    var last := Closing(content, end).value;
                    Units(content, i, last) == end - i - skipped + Units(content, end, last)
        decreases |content| - end
      {
        if content[end] == BACKSLASH {
          if end + 1 >= |content| {
            return false, end, 0;
          }
          skipped := skipped + 1;
          end := end + 1;
        }
        end := end + 1;
      }
      if end >= |content| || content[end] != QUOTE {
        return false, end, 0;
      }
      var allocationLength := end - (i - 1) - skipped;
      return true, end, allocationLength + 1;
    }

    // The second pass: the literal from i to end is decoded into output, which has just the
    // room the first pass asked for.
    method DecodeInto(i: nat, end: nat, output: array<byte>) returns (ok: bool, written: nat, at: nat)
      requires end < |content| && Closing(content, i) == Some(end)
      requires output.Length == Units(content, i, end) + 2
      modifies output
      ensures ok <==> Decode(content, i, end).Decoded?
      ensures ok ==> written < output.Length && output[..written] == Decode(content, i, end).bytes
      ensures !ok ==> at == Decode(content, i, end).at
    {
      hide Decode, Token, Units;
      DecodeStep(content, i, end);
      ghost var mid := false;
      ghost var text: seq<byte> := [];
      at := i;
      written := 0;
      while at < end
        invariant InStep(content, at, end, mid)
        invariant written + Allowance(content, at, end, mid) <= output.Length - 2
        invariant output[..written] == text
        invariant Decode(content, i, end) == Resumed(text, Decode(content, at, end))
        decreases end + 1 - at
      {
        ghost var t := Token(content, at, end);
        if t.1 > 0 {
          mid := TokenFits(content, at, end, mid);
          Resume(text, t.0, Decode(content, at + t.1, end));
        }
        DecodeStep(content, at, end);
        var length, n := DecodeToken(at, end, output, written);
        if length == 0 {
          return false, written, at;
        }
        text := text + t.0;
        at := at + length;
        written := written + n;
      }
      DecodeStep(content, at, end);
      ok := true;
    }

    static lemma DecodeStep(c: seq<byte>, i: nat, end: nat)
      requires end < |c|
      ensures var t := if i < end then Token(c, i, end) else ([], 0);
              Decode(c, i, end) == if i >= end then Decoded([])
                                   else if t.1 == 0 then Malformed(i)
                                   else Resumed(t.0, Decode(c, i + t.1, end))
    {
    }

    // The whole decoding, when text has been written and rest is what follows.
    static ghost function Resumed(text: seq<byte>, rest: Decoding): Decoding {
      if rest.Decoded? then Decoded(text + rest.bytes) else rest
    }

    static lemma Resume(text: seq<byte>, next: seq<byte>, rest: Decoding)
      ensures Resumed(text, Resumed(next, rest)) == Resumed(text + next, rest)
    {
      if rest.Decoded? {
        Assoc(text, next, rest.bytes);
      }
    }

    // One step of the second pass. A length of 0 means that the escape is refused.
    method DecodeToken(at: nat, end: nat, output: array<byte>, written: nat) returns (length: nat, n: nat)
      requires at < end < |content|
      requires Token(content, at, end).1 > 0 ==> written + |Token(content, at, end).0| <= output.Length
      modifies output
      ensures length == Token(content, at, end).1
      ensures length > 0 ==> n == |Token(content, at, end).0|
      ensures length > 0 ==> output[..written + n] == old(output[..written]) + Token(content, at, end).0
    {
      if content[at] != BACKSLASH {
        output[written] := content[at];
        return 1, 1;
      }
      if content[at + 1] == LETTER_U {
        var codepoint;
        codepoint, length := Utf16Literal(at, end);
        if length == 0 {
          return 0, 0;
        }
        n := StoreUtf8(output, written, codepoint);
        return;
      }
      match SimpleEscape(content[at + 1])
      case Some(b) =>
        output[written] := b;
        return 2, 1;
      case None =>
        return 0, 0;
    }

    // The decoding half of utf16_literal_to_utf8.
    method Utf16Literal(at: nat, end: nat) returns (codepoint: nat, length: nat)
      requires end < |content|
      ensures (codepoint, length) == Utf16Escape(content, at, end)
    {
      hide Hex4;
      if end < at + 6 {
        return 0, 0;
      }
      var first := ParseHex4(content[at + 2..at + 6]);
      if 0xDC00 <= first <= 0xDFFF {
        return 0, 0;
      }
      if 0xD800 <= first <= 0xDBFF {
        if end < at + 12 || content[at + 6] != BACKSLASH || content[at + 7] != LETTER_U {
          return 0, 0;
        }
        var second := ParseHex4(content[at + 8..at + 12]);
        if second < 0xDC00 || second > 0xDFFF {
          return 0, 0;
        }
        LowTenBits(first, second);
        return 0x1_0000 + (first % 0x400) * 0x400 + second % 0x400, 12;
      }
      return first, 6;
    }

    // The mask 0x3FF takes the surrogate's mark off.
    static lemma LowTenBits(first: nat, second: nat)
      requires 0xD800 <= first <= 0xDBFF && 0xDC00 <= second <= 0xDFFF
      ensures first % 0x400 == first - 0xD800 && second % 0x400 == second - 0xDC00
    {
    }

    static method ParseHex4(input: seq<byte>) returns (h: nat)
      requires |input| == 4
      ensures h == Hex4(input)
    {
      h := 0;
      var i := 0;
      while i < 4
        invariant 0 <= i <= 4
        invariant forall k :: 0 <= k < i ==> IsHex(input[k])
        invariant i == 0 ==> h == 0
        invariant i == 1 ==> h == HexValue(input[0]) * 16
        invariant i == 2 ==> h == (HexValue(input[0]) * 16 + HexValue(input[1])) * 16
        invariant i == 3 ==> h == ((HexValue(input[0]) * 16 + HexValue(input[1])) * 16 + HexValue(input[2])) * 16
        invariant i == 4 ==> h == Hex4(input)
      {
        if ZERO <= input[i] <= NINE {
          h := h + (input[i] - ZERO);
        } else if 'A' as int <= input[i] <= 'F' as int {
          h := h + 10 + (input[i] - 'A' as int);
        } else if 'a' as int <= input[i] <= 'f' as int {
          h := h + 10 + (input[i] - 'a' as int);
        } else {
          return 0;
        }
        if i < 3 {
          h := h * 16;
        }
        i := i + 1;
      }
    }

    method ParseString() returns (ok: bool, s: CString)
      modifies this`offset
      ensures var r := G.ParseString(content, old(offset));
              && (ok <==> r.Ok?)
              && (ok ==> s == r.value && offset == r.next)
              && (!ok ==> offset == r.at)
    {
      s := [];
      if offset >= |content| || content[offset] != QUOTE {
        offset := offset + 1;
        return false, s;
      }
      var found, end, capacity := FindClosing(offset + 1);
      if !found {
        offset := offset + 1;
        return false, s;
      }
      var output := new byte[capacity];
      var written, at;
      ok, written, at := DecodeInto(offset + 1, end, output);
      if !ok {
        offset := at;
        return;
      }
      ghost var bytes := output[..written];
      output[written] := 0;
      assert output[..written] == bytes;
      s := UpToNul(output[..written]);
      offset := end + 1;
    }

    method ParseNumber() returns (ok: bool, n: Int64)
      requires offset <= |content|
      modifies this`offset
      ensures var r := G.ParseNumber(content, old(offset));
              && (ok <==> r.Ok?)
              && (ok ==> n == r.value && offset == r.next)
              && (!ok ==> offset == r.at)
    {
      hide Strtod, ValueInt, NumberCharCount;
      var i := CountNumberChars();
      match Strtod(content[offset..offset + i])
      case None =>
        return false, 0;
      case Some(d) =>
        offset := offset + d.length;
        return true, ValueInt(d);
    }

    // The loop that copies at most 63 number characters.
    method CountNumberChars() returns (i: nat)
      requires offset <= |content|
      ensures i == NumberCharCount(content, offset, 63)
    {
      i := 0;
      while i < 63 && offset + i < |content| && IsNumberChar(content[offset + i])
        invariant 0 <= i <= 63 && offset + i <= |content|
        invariant NumberCharCount(content, offset, 63) == i + NumberCharCount(content, offset + i, 63 - i)
      {
        i := i + 1;
      }
    }
  }
}
