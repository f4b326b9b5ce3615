// Bytes, C strings and the small facts about sequences that the other modules share.
module Bytes {

  datatype Option<+T> = None | Some(value: T)

  type byte = x: int | 0 <= x < 256

  // A C string: the bytes before the terminating NUL, so none of them is NUL.
  ghost predicate NulFree(s: seq<byte>) {
    forall i :: 0 <= i < |s| ==> s[i] != 0
  }

  type CString = s: seq<byte> | NulFree(s)

  const QUOTE: byte := '"' as int
  const BACKSLASH: byte := '\\' as int
  const SLASH: byte := '/' as int
  const STAR: byte := '*' as int
  const SPACE: byte := ' ' as int
  const TAB: byte := '\t' as int
  const NEWLINE: byte := '\n' as int
  const CARRIAGE_RETURN: byte := '\r' as int
  const BACKSPACE: byte := 8
  const FORM_FEED: byte := 12
  const COMMA: byte := ',' as int
  const COLON: byte := ':' as int
  const OPEN_BRACKET: byte := '[' as int
  const CLOSE_BRACKET: byte := ']' as int
  const OPEN_BRACE: byte := '{' as int
  const CLOSE_BRACE: byte := '}' as int
  const MINUS: byte := '-' as int
  const PLUS: byte := '+' as int
  const DOT: byte := '.' as int
  const ZERO: byte := '0' as int
  const NINE: byte := '9' as int
  const LETTER_U: byte := 'u' as int

  // text stands in content from offset o on.
  predicate At(content: seq<byte>, o: nat, text: seq<byte>) {
    o + |text| <= |content| && content[o..o + |text|] == text
  }

  lemma AtSplit(content: seq<byte>, o: nat, a: seq<byte>, b: seq<byte>)
    ensures At(content, o, a + b) <==> At(content, o, a) && At(content, o + |a|, b)
  {
    if o + |a| + |b| <= |content| {
      assert content[o..o + |a + b|] == content[o..o + |a|] + content[o + |a|..o + |a| + |b|];
      if At(content, o, a + b) {
        assert content[o..o + |a|] == (a + b)[..|a|];
        assert content[o + |a|..o + |a| + |b|] == (a + b)[|a|..];
      }
    }
  }

  // The bytes of a buffer that C reads as a string: everything before the first NUL.
  function UpToNul(s: seq<byte>): (r: CString)
    ensures |r| <= |s| && r == s[..|r|]
    ensures |r| < |s| ==> s[|r|] == 0
  {
    if s == [] || s[0] == 0 then [] else
      var rest := UpToNul(s[1..]);
      [s[0]] + rest
  }

  lemma UpToNulOfCString(s: CString)
    ensures UpToNul(s) == s
  {
  }

  lemma Assoc(a: seq<byte>, b: seq<byte>, c: seq<byte>)
    ensures (a + b) + c == a + (b + c)
  {
  }

  lemma Pair(a: byte, b: byte, x: seq<byte>)
    ensures [a, b] + x == [a] + ([b] + x)
  {
  }
}
