// What cJSON_Minify leaves of any text, by the pieces that the text is made of.
module MinifyPieces {
  import opened Bytes
  import opened Minify

  // The last three have no end, so that nothing follows them.
  datatype Piece =
    | Blank(b: byte)
    | Slash
    | Line(text: seq<byte>)
    | Comment(text: seq<byte>)
    | Literal(text: seq<byte>)
    | Plain(b: byte)
    | OpenLine(text: seq<byte>)
    | OpenComment(text: seq<byte>)
    | OpenLiteral(text: seq<byte>)

  const STAR_SLASH: seq<byte> := [STAR, SLASH]

  function Spelling(p: Piece): (s: seq<byte>)
    ensures |s| >= 1
  {
    match p
    case Blank(b) => [b]
    case Slash => [SLASH]
    case Line(text) => [SLASH, SLASH] + (text + [NEWLINE])
    case Comment(text) => [SLASH, STAR] + (text + STAR_SLASH)
    case Literal(text) => [QUOTE] + (text + [QUOTE])
    case Plain(b) => [b]
    case OpenLine(text) => [SLASH, SLASH] + text
    case OpenComment(text) => [SLASH, STAR] + text
    case OpenLiteral(text) => [QUOTE] + text
  }

  function Spell(ps: seq<Piece>): seq<byte> {
    if ps == [] then [] else Spelling(ps[0]) + Spell(ps[1..])
  }

  predicate NoNewline(text: seq<byte>) {
    forall i :: 0 <= i < |text| ==> text[i] != NEWLINE
  }

  predicate EndAt(text: seq<byte>, i: nat) {
    i + 1 < |text| && text[i] == STAR && text[i + 1] == SLASH
  }

  predicate NoEnd(text: seq<byte>) {
    forall i: nat :: i < |text| ==> !EndAt(text, i)
  }

  // Every quote in the text is behind a backslash.
  predicate Escaped(text: seq<byte>) {
    forall i :: 0 <= i < |text| && text[i] == QUOTE ==> i > 0 && text[i - 1] == BACKSLASH
  }

  predicate IsOpen(p: Piece) {
    p.OpenLine? || p.OpenComment? || p.OpenLiteral?
  }

  predicate Proper(p: Piece) {
    match p
    case Blank(b) => IsBlank(b)
    case Slash => true
    case Line(text) => NoNewline(text)
    case Comment(text) => NoEnd(text + [STAR])
    case Literal(text) => Escaped(text) && !EndsInBackslash(text)
    case Plain(b) => !IsBlank(b) && b != SLASH && b != QUOTE
    case OpenLine(text) => NoNewline(text)
    case OpenComment(text) => NoEnd(text)
    case OpenLiteral(text) => Escaped(text)
  }

  // The pieces of a text: a slash by itself is not followed by one that would make it a comment.
  predicate Pieces(ps: seq<Piece>) {
    ps == [] || (&& Proper(ps[0]) && (IsOpen(ps[0]) ==> |ps| == 1)
                 && (ps[0].Slash? && |ps| > 1 ==> Spelling(ps[1])[0] != SLASH && Spelling(ps[1])[0] != STAR)
                 && Pieces(ps[1..]))
  }

  // What stays: strings, and the bytes outside of them.
  predicate IsToken(p: Piece) {
    p.Literal? || p.Plain? || p.OpenLiteral?
  }

  function Tokens(ps: seq<Piece>): seq<Piece> {
    if ps == [] then [] else (if IsToken(ps[0]) then [ps[0]] else []) + Tokens(ps[1..])
  }

  // ---------- one piece ----------

  lemma {:induction false} LineSkipped(text: seq<byte>, rest: seq<byte>)
    requires NoNewline(text)
    ensures AfterLine(text + ([NEWLINE] + rest)) == rest
    ensures AfterLine(text) == []
  {
    if text == [] {
      assert text + ([NEWLINE] + rest) == [NEWLINE] + rest;
    } else {
      assert (text + ([NEWLINE] + rest))[1..] == text[1..] + ([NEWLINE] + rest);
      LineSkipped(text[1..], rest);
    }
  }

  lemma NoEndTail(text: seq<byte>)
    requires NoEnd(text) && text != []
    ensures NoEnd(text[1..])
  {
    forall i: nat | i < |text| - 1 ensures !EndAt(text[1..], i) {
      assert !EndAt(text, i + 1);
    }
  }

  lemma {:induction false} CommentSkipped(text: seq<byte>, rest: seq<byte>)
    requires NoEnd(text + [STAR])
    ensures AfterComment(text + (STAR_SLASH + rest)) == rest
  {
    var s := text + (STAR_SLASH + rest);
    if text == [] {
      assert s == STAR_SLASH + rest;
    } else {
      assert !EndAt(text + [STAR], 0);
      assert s[1] == if |text| > 1 then text[1] else STAR;
      assert (text + [STAR])[1..] == text[1..] + [STAR];
      NoEndTail(text + [STAR]);
      assert s[1..] == text[1..] + (STAR_SLASH + rest);
      CommentSkipped(text[1..], rest);
    }
  }

  lemma {:induction false} OpenCommentSkipped(text: seq<byte>)
    requires NoEnd(text)
    ensures AfterComment(text) == []
  {
    if text != [] {
      assert !EndAt(text, 0);
      NoEndTail(text);
      OpenCommentSkipped(text[1..]);
    }
  }

  // From inside a string: what follows its text is reached, and the text is kept.
  lemma {:induction false} TextKept(text: seq<byte>, rest: seq<byte>)
    requires Escaped(text) && !EndsInBackslash(text)
    ensures InString(text + ([QUOTE] + rest)) == text + ([QUOTE] + Minified(rest))
    decreases |text|
  {
    hide Minified;
    var s := text + ([QUOTE] + rest);
    if text == [] {
      assert s == [QUOTE] + rest;
      assert s[1..] == rest;
    } else {
      assert text[0] != QUOTE;
      var k := if text[0] == BACKSLASH && text[1] == QUOTE then 2 else 1;
      assert s[k..] == text[k..] + ([QUOTE] + rest) && s[0] == text[0] && (|text| > 1 ==> s[1] == text[1]);
      TextKept(text[k..], rest);
      assert text == text[..k] + text[k..];
      assert text[..k] + (text[k..] + ([QUOTE] + Minified(rest))) == text + ([QUOTE] + Minified(rest));
    }
  }

  lemma {:induction false} OpenTextKept(text: seq<byte>)
    requires Escaped(text)
    ensures InString(text) == text
    decreases |text|
  {
    hide Minified;
    if text != [] {
      assert text[0] != QUOTE;
      var k := if text[0] == BACKSLASH && |text| > 1 && text[1] == QUOTE then 2 else 1;
      OpenTextKept(text[k..]);
      assert text == text[..k] + text[k..];
    }
  }

  lemma OnePiece(p: Piece, rest: seq<byte>)
    requires Proper(p) && (IsOpen(p) ==> rest == [])
    requires p.Slash? && rest != [] ==> rest[0] != SLASH && rest[0] != STAR
    ensures Minified(Spelling(p) + rest) == (if IsToken(p) then Spelling(p) else []) + Minified(rest)
  {
    if p.Line? || p.Comment? || p.OpenLine? || p.OpenComment? {
      CommentPiece(p, rest);
    } else if p.Literal? || p.OpenLiteral? {
      LiteralPiece(p, rest);
    } else {
      hide AfterLine, AfterComment, InString;
      assert (Spelling(p) + rest)[1..] == rest;
    }
  }

  lemma CommentPiece(p: Piece, rest: seq<byte>)
    requires Proper(p) && (IsOpen(p) ==> rest == []) && (p.Line? || p.Comment? || p.OpenLine? || p.OpenComment?)
    ensures Minified(Spelling(p) + rest) == [] + Minified(rest)
  {
    hide AfterLine, AfterComment, NoNewline, NoEnd, Minified, Spelling;
    var s := Spelling(p) + rest;
    Behind(p, rest);
    Starts(s);
    match p
    case Line(text) => LineSkipped(text, rest);
    case Comment(text) => CommentSkipped(text, rest);
    case OpenLine(text) => LineSkipped(text, rest);
    case OpenComment(text) => OpenCommentSkipped(text);
    assert [] + Minified(rest) == Minified(rest);
  }

  // What stands behind the mark that opens a comment.
  lemma Behind(p: Piece, rest: seq<byte>)
    requires p.Line? || p.Comment? || p.OpenLine? || p.OpenComment?
    ensures var s := Spelling(p) + rest;
            && |s| > 1 && s[0] == SLASH && s[1] == (if p.Line? || p.OpenLine? then SLASH else STAR)
            && (p.Line? ==> s[2..] == p.text + ([NEWLINE] + rest))
            && (p.Comment? ==> s[2..] == p.text + (STAR_SLASH + rest))
            && (IsOpen(p) && rest == [] ==> s[2..] == p.text)
  {
  }

  lemma Starts(s: seq<byte>)
    requires s != []
    ensures |s| > 1 && s[0] == s[1] == SLASH ==> Minified(s) == Minified(AfterLine(s[2..]))
    ensures |s| > 1 && s[0] == SLASH && s[1] == STAR ==> Minified(s) == Minified(AfterComment(s[2..]))
    ensures s[0] == QUOTE ==> Minified(s) == [QUOTE] + InString(s[1..])
  {
  }

  lemma LiteralPiece(p: Piece, rest: seq<byte>)
    requires Proper(p) && (IsOpen(p) ==> rest == []) && (p.Literal? || p.OpenLiteral?)
    ensures Minified(Spelling(p) + rest) == Spelling(p) + Minified(rest)
  {
    MinifiedNothing();
    hide InString, Escaped, EndsInBackslash, Minified, IsBlank;
    var s := Spelling(p) + rest;
    Starts(s);
    if p.Literal? {
      assert s[1..] == p.text + ([QUOTE] + rest);
      TextKept(p.text, rest);
      assert [QUOTE] + (p.text + ([QUOTE] + Minified(rest))) == Spelling(p) + Minified(rest);
    } else {
      assert s[1..] == p.text;
      OpenTextKept(p.text);
    }
  }

  // ---------- whole texts ----------

  // Blanks, comments and single slashes go, and nothing else does.
  lemma {:induction false} MinifiedPieces(ps: seq<Piece>)
    requires Pieces(ps)
    ensures Minified(Spell(ps)) == Spell(Tokens(ps))
  {
    hide Minified, Proper, Spelling;
    if ps == [] {
      MinifiedNothing();
    } else {
      var p, rest := ps[0], ps[1..];
      assert rest != [] ==> Spell(rest) != [] && Spell(rest)[0] == Spelling(rest[0])[0];
      OnePiece(p, Spell(rest));
      MinifiedPieces(rest);
      SpellToken(p, Tokens(rest));
    }
  }

  lemma MinifiedNothing()
    ensures Minified([]) == []
  {
  }

  lemma SpellToken(p: Piece, ps: seq<Piece>)
    ensures Spell([p] + ps) == Spelling(p) + Spell(ps)
    ensures Spell([] + ps) == Spell(ps)
  {
    assert ([p] + ps)[1..] == ps;
    assert [] + ps == ps;
  }

  // Two texts that differ in what lies between their tokens come to the same.
  lemma SameTokens(ps: seq<Piece>, qs: seq<Piece>)
    requires Pieces(ps) && Pieces(qs) && Tokens(ps) == Tokens(qs)
    ensures Minified(Spell(ps)) == Minified(Spell(qs))
  {
    MinifiedPieces(ps);
    MinifiedPieces(qs);
  }

  // Every text is made of pieces.
  lemma {:induction false} EveryText(s: seq<byte>) returns (ps: seq<Piece>)
    ensures Pieces(ps) && Spell(ps) == s
    decreases |s|
  {
    hide NoNewline, NoEnd, Escaped, EndsInBackslash;
    if s == [] {
      return [];
    }
    var p := FirstPiece(s);
    var rest := s[|Spelling(p)|..];
    var others := EveryText(rest);
    ps := [p] + others;
    assert ps[1..] == others;
    assert s == Spelling(p) + rest;
    assert others != [] ==> Spelling(others[0])[0] == rest[0];
  }

  predicate StartsWith(s: seq<byte>, p: Piece) {
    && |Spelling(p)| <= |s| && s[..|Spelling(p)|] == Spelling(p)
    && (IsOpen(p) ==> |s| == |Spelling(p)|)
    && (p.Slash? && |s| > 1 ==> s[1] != SLASH && s[1] != STAR)
  }

  lemma FirstPiece(s: seq<byte>) returns (p: Piece)
    requires s != []
    ensures Proper(p) && StartsWith(s, p)
  {
    var b := s[0];
    if IsBlank(b) {
      p := Blank(b);
    } else if b == QUOTE {
      p := FirstLiteral(s);
    } else if b != SLASH {
      p := Plain(b);
    } else if |s| > 1 && s[1] == SLASH {
      p := FirstLine(s);
    } else if |s| > 1 && s[1] == STAR {
      p := FirstComment(s);
    } else {
      p := Slash;
    }
  }

  lemma FirstLine(s: seq<byte>) returns (p: Piece)
    requires |s| > 1 && s[0] == s[1] == SLASH
    ensures Proper(p) && StartsWith(s, p)
  {
    var k := 2;
    while k < |s| && s[k] != NEWLINE
      invariant 2 <= k <= |s| && forall i :: 2 <= i < k ==> s[i] != NEWLINE
    {
      k := k + 1;
    }
    if k < |s| {
      p := Line(s[2..k]);
      assert s[..k + 1] == [SLASH, SLASH] + (s[2..k] + [NEWLINE]);
    } else {
      p := OpenLine(s[2..k]);
      assert s[..|s|] == [SLASH, SLASH] + s[2..k];
    }
  }

  lemma FirstComment(s: seq<byte>) returns (p: Piece)
    requires |s| > 1 && s[0] == SLASH && s[1] == STAR
    ensures Proper(p) && StartsWith(s, p)
  {
    var k := 2;
    while k < |s| && !EndAt(s, k)
      invariant 2 <= k <= |s| && forall i :: 2 <= i < k ==> !EndAt(s, i)
    {
      k := k + 1;
    }
    NoEndIn(s, k);
    if k < |s| {
      p := Comment(s[2..k]);
      assert s[2..k] + [STAR] == s[2..k + 1];
      assert s[..k + 2] == [SLASH, STAR] + (s[2..k] + STAR_SLASH);
    } else {
      p := OpenComment(s[2..]);
      assert s[..|s|] == [SLASH, STAR] + s[2..];
    }
  }

  lemma NoEndIn(s: seq<byte>, k: nat)
    requires 2 <= k <= |s| && forall i :: 2 <= i < k ==> !EndAt(s, i)
    ensures k < |s| ==> NoEnd(s[2..k + 1])
    ensures k == |s| ==> NoEnd(s[2..])
  {
    var text := s[2..if k < |s| then k + 1 else k];
    assert s[2..|s|] == s[2..];
    forall i: nat | i < |text| ensures !EndAt(text, i) {
      if i + 2 < k {
        assert !EndAt(s, i + 2);
      }
    }
  }

  lemma FirstLiteral(s: seq<byte>) returns (p: Piece)
    requires s != [] && s[0] == QUOTE
    ensures Proper(p) && StartsWith(s, p)
  {
    var k := 1;
    while k < |s| && !(s[k] == QUOTE && s[k - 1] != BACKSLASH)
      invariant 1 <= k <= |s| && forall i :: 1 <= i < k && s[i] == QUOTE ==> s[i - 1] == BACKSLASH
    {
      k := k + 1;
    }
    var text := s[1..k];
    assert Escaped(text) by {
      forall i | 0 <= i < |text| && text[i] == QUOTE ensures i > 0 && text[i - 1] == BACKSLASH {
        assert s[i + 1] == QUOTE;
      }
    }
    if k < |s| {
      p := Literal(text);
      assert s[..k + 1] == [QUOTE] + (text + [QUOTE]);
    } else {
      p := OpenLiteral(text);
      assert s[..|s|] == [QUOTE] + text;
    }
  }
}
