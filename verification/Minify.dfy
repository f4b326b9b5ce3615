// cJSON_Minify: blanks and comments are removed in place. What it does to printed JSON, and
// exactly when that is what it should do.
module Minify {
  import opened Bytes
  import opened Json
  import opened TextFacts
  import R = RoundTrip

  predicate IsBlank(b: byte) {
    b == SPACE || b == TAB || b == CARRIAGE_RETURN || b == NEWLINE
  }

  // ---------- what is left of a text ----------

  function AfterLine(s: seq<byte>): (r: seq<byte>)
    ensures |r| <= |s|
  {
    if s == [] then [] else if s[0] == NEWLINE then s[1..] else AfterLine(s[1..])
  }

  function AfterComment(s: seq<byte>): (r: seq<byte>)
    ensures |r| <= |s|
  {
    if s == [] then []
    else if s[0] == STAR && |s| > 1 && s[1] == SLASH then s[2..]
    else AfterComment(s[1..])
  }

  function Minified(s: seq<byte>): (r: seq<byte>)
    ensures |r| <= |s|
    decreases |s|
  {
    if s == [] then []
    else if IsBlank(s[0]) then Minified(s[1..])
    else if s[0] == SLASH then
      if |s| > 1 && s[1] == SLASH then Minified(AfterLine(s[2..]))
      else if |s| > 1 && s[1] == STAR then Minified(AfterComment(s[2..]))
      else Minified(s[1..])
    else if s[0] == QUOTE then [QUOTE] + InString(s[1..])
    else [s[0]] + Minified(s[1..])
  }

  // The same from inside a string on. Only \" counts as an escape here.
  function InString(s: seq<byte>): (r: seq<byte>)
    ensures |r| <= |s|
    decreases |s|
  {
    if s == [] then []
    else if s[0] == QUOTE then [QUOTE] + Minified(s[1..])
    else if s[0] == BACKSLASH && |s| > 1 && s[1] == QUOTE then [BACKSLASH, QUOTE] + InString(s[2..])
    else [s[0]] + InString(s[1..])
  }

  // ---------- the program ----------

  // json holds s and its NUL up to n, of which the first w bytes have been overwritten.
  ghost predicate Unread(json: array<byte>, s: seq<byte>, r: nat)
    reads json
  {
    |s| < json.Length && r <= |s| && json[r..|s|] == s[r..] && json[|s|] == 0
  }

  method SkipOnelineComment(json: array<byte>, ghost s: CString, start: nat) returns (r: nat)
    requires start + 2 <= |s| && Unread(json, s, start)
    ensures start + 2 <= r <= |s| && s[r..] == AfterLine(s[start + 2..])
  {
    r := start + 2;
    assert forall k :: start <= k < |s| ==> json[k] == json[start..|s|][k - start] == s[k];
    while json[r] != 0
      invariant start + 2 <= r <= |s|
      invariant AfterLine(s[r..]) == AfterLine(s[start + 2..])
      decreases |s| - r
    {
      assert s[r..][1..] == s[r + 1..];
      if json[r] == NEWLINE {
        r := r + 1;
        return;
      }
      r := r + 1;
    }
  }

  method SkipMultilineComment(json: array<byte>, ghost s: CString, start: nat) returns (r: nat)
    requires start + 2 <= |s| && Unread(json, s, start)
    ensures start + 2 <= r <= |s| && s[r..] == AfterComment(s[start + 2..])
  {
    r := start + 2;
    assert forall k :: start <= k < |s| ==> json[k] == json[start..|s|][k - start] == s[k];
    while json[r] != 0
      invariant start + 2 <= r <= |s|
      invariant AfterComment(s[r..]) == AfterComment(s[start + 2..])
      decreases |s| - r
    {
      assert s[r..][1..] == s[r + 1..];
      if json[r] == STAR && json[r + 1] == SLASH {
        r := r + 2;
        return;
      }
      r := r + 1;
    }
  }

  // The string that starts with the quote at r0 is copied to w0.
  method MinifyString(json: array<byte>, ghost s: CString, r0: nat, w0: nat) returns (r: nat, w: nat)
    requires w0 <= r0 < |s| && Unread(json, s, r0) && s[r0] == QUOTE
    modifies json
    ensures w <= r && r0 < r <= |s| && Unread(json, s, r)
    ensures json[..w] + Minified(s[r..]) == old(json[..w0]) + ([QUOTE] + InString(s[r0 + 1..]))
  {
    hide InString, Minified, Eaten;
    ghost var total := json[..w0] + ([QUOTE] + InString(s[r0 + 1..]));
    CopyQuote(json, s, r0, w0);
    r, w := r0 + 1, w0 + 1;
    while json[r] != 0
      invariant w <= r && r0 < r <= |s| && Unread(json, s, r)
      invariant json[..w] + InString(s[r..]) == total
      decreases |s| - r
    {
      Look(json, s, r);
      InStringAt(s, r);
      EatenQuote(s, r);
      var closed := json[r] == QUOTE;
      r, w := MinifyStringByte(json, s, r, w);
      if closed {
        return;
      }
    }
    InStringEnd();
    assert s[r..] == [];
  }

  method CopyQuote(json: array<byte>, ghost s: CString, r0: nat, w0: nat)
    requires w0 <= r0 < |s| && Unread(json, s, r0) && s[r0] == QUOTE
    modifies json
    ensures Unread(json, s, r0 + 1)
    ensures json[..w0 + 1] + InString(s[r0 + 1..]) == old(json[..w0]) + ([QUOTE] + InString(s[r0 + 1..]))
  {
    hide InString;
    ghost var before := json[..w0];
    Look(json, s, r0);
    json[w0] := json[r0];
    assert json[..w0 + 1] == before + [QUOTE];
    Assoc(before, [QUOTE], InString(s[r0 + 1..]));
  }

  lemma EatenQuote(s: seq<byte>, r: nat)
    requires r < |s|
    ensures s[r] == QUOTE ==> Eaten(s, r) == [QUOTE]
    ensures |Eaten(s, r)| >= 1
  {
  }

  // One round of the loop of minify_string.
  method MinifyStringByte(json: array<byte>, ghost s: CString, r0: nat, w0: nat) returns (r: nat, w: nat)
    requires w0 <= r0 < |s| && Unread(json, s, r0)
    modifies json
    ensures w <= r && r0 < r <= |s| && Unread(json, s, r)
    ensures forall tail :: json[..w] + tail == old(json[..w0]) + (Eaten(s, r0) + tail)
    ensures r == r0 + |Eaten(s, r0)|
  {
    Look(json, s, r0);
    r, w := r0, w0;
    ghost var before := json[..w];
    json[w] := json[r];
    if json[r] == QUOTE {
      json[w] := QUOTE;
    } else if json[r] == BACKSLASH && json[r + 1] == QUOTE {
      json[w + 1] := json[r + 1];
      r, w := r + 1, w + 1;
    }
    r, w := r + 1, w + 1;
    assert json[..w] == before + Eaten(s, r0);
    forall tail ensures json[..w] + tail == before + (Eaten(s, r0) + tail) {
      Assoc(before, Eaten(s, r0), tail);
    }
  }

  // The bytes of a string that one round copies.
  ghost function Eaten(s: seq<byte>, r: nat): seq<byte>
    requires r < |s|
  {
    if s[r] == BACKSLASH && r + 1 < |s| && s[r + 1] == QUOTE then [BACKSLASH, QUOTE] else [s[r]]
  }

  lemma InStringAt(s: seq<byte>, r: nat)
    requires r < |s|
    ensures InString(s[r..]) == Eaten(s, r) + if s[r] == QUOTE then Minified(s[r + 1..]) else InString(s[r + |Eaten(s, r)|..])
  {
    assert s[r..][1..] == s[r + 1..];
    if r + 1 < |s| {
      assert s[r..][2..] == s[r + 2..];
    }
  }

  lemma InStringEnd()
    ensures InString([]) == Minified([]) == []
  {
  }

  // What one look at the unread part tells.
  lemma Look(json: array<byte>, s: CString, r: nat)
    requires Unread(json, s, r)
    ensures json[r] == 0 <==> r == |s|
    ensures r < |s| ==> json[r] == s[r] && s[r..][0] == s[r] && s[r..][1..] == s[r + 1..] && Unread(json, s, r + 1)
    ensures r + 1 < |s| ==> json[r + 1] == s[r + 1] && s[r..][1] == s[r + 1] && s[r..][2..] == s[r + 2..]
    ensures r + 1 == |s| ==> json[r + 1] == 0
  {
    if r < |s| {
      assert json[r] == json[r..|s|][0];
      assert json[r + 1..|s|] == json[r..|s|][1..];
    }
    if r + 1 < |s| {
      assert json[r + 1] == json[r..|s|][1];
    }
  }

  method MinifyInPlace(json: array<byte>, ghost s: CString)
    requires Unread(json, s, 0)
    modifies json
    ensures |Minified(s)| <= |s|
    ensures At(json[..], 0, Minified(s) + [0])
  {
    hide Minified, InString, AfterLine, AfterComment;
    var r, w := 0, 0;
    assert s[0..] == s && json[..0] + Minified(s) == Minified(s);
    while json[r] != 0
      invariant 0 <= w <= r <= |s| && Unread(json, s, r)
      invariant json[..w] + Minified(s[r..]) == Minified(s)
      decreases |s| - r
    {
      Look(json, s, r);
      MinifiedAt(s, r);
      ghost var before, from := json[..w], r;
      if IsBlank(json[r]) {
        r := r + 1;
      } else if json[r] == SLASH {
        if json[r + 1] == SLASH {
          r := SkipOnelineComment(json, s, r);
        } else if json[r + 1] == STAR {
          r := SkipMultilineComment(json, s, r);
        } else {
          r := r + 1;
        }
        UnreadFrom(json, s, from, r);
      } else if json[r] == QUOTE {
        r, w := MinifyString(json, s, r, w);
      } else {
        json[w] := json[r];
        r, w := r + 1, w + 1;
        Assoc(before, [s[r - 1]], Minified(s[r..]));
      }
    }
    InStringEnd();
    Look(json, s, r);
    assert s[r..] == [];
    json[w] := 0;
    assert json[..][0..w + 1] == Minified(s) + [0];
  }

  lemma UnreadFrom(json: array<byte>, s: CString, q: nat, r: nat)
    requires q <= r <= |s| && Unread(json, s, q)
    ensures Unread(json, s, r)
  {
    assert json[r..|s|] == json[q..|s|][r - q..];
  }

  lemma MinifiedAt(s: seq<byte>, r: nat)
    requires r < |s|
    ensures Minified(s[r..]) ==
              if IsBlank(s[r]) then Minified(s[r + 1..])
              else if s[r] == SLASH then
                if r + 1 < |s| && s[r + 1] == SLASH then Minified(AfterLine(s[r + 2..]))
                else if r + 1 < |s| && s[r + 1] == STAR then Minified(AfterComment(s[r + 2..]))
                else Minified(s[r + 1..])
              else if s[r] == QUOTE then [QUOTE] + InString(s[r + 1..])
              else [s[r]] + Minified(s[r + 1..])
  {
    assert s[r..][1..] == s[r + 1..];
    if r + 1 < |s| {
      assert s[r..][2..] == s[r + 2..];
    }
  }

  // ---------- printed text ----------

  predicate EndsInBackslash(s: seq<byte>) {
    |s| > 0 && s[|s| - 1] == BACKSLASH
  }

  // No string and no key ends in a backslash.
  predicate Clean(v: Json)
    decreases v, 1
  {
    match v
    case JStr(s) => !EndsInBackslash(s)
    case JArr(items) => CleanItems(items)
    case JObj(members) => CleanMembers(members)
    case _ => true
  }

  predicate CleanItems(items: seq<Json>)
    decreases items, 0
  {
    items == [] || (Clean(items[0]) && CleanItems(items[1..]))
  }

  predicate CleanMembers(members: seq<Member>)
    decreases members, 0
  {
    members == [] || (!EndsInBackslash(members[0].key) && Clean(members[0].value) && CleanMembers(members[1..]))
  }

  // Some string ends in a backslash, but only one that nothing except closing brackets follows.
  predicate Tail(v: Json)
    decreases v, 1
  {
    match v
    case JStr(s) => EndsInBackslash(s)
    case JArr(items) => TailItems(items)
    case _ => false
  }

  predicate TailItems(items: seq<Json>)
    decreases items, 0
  {
    if items == [] then false
    else if |items| == 1 then Tail(items[0])
    else Clean(items[0]) && TailItems(items[1..])
  }

  // The two texts differ at some position of both.
  ghost predicate Diverge(a: seq<byte>, b: seq<byte>) {
    exists k :: 0 <= k < |a| && k < |b| && a[k] != b[k]
  }

  lemma DivergeAfter(p: seq<byte>, a: seq<byte>, b: seq<byte>)
    requires Diverge(a, b)
    ensures Diverge(p + a, p + b)
  {
    var k :| 0 <= k < |a| && k < |b| && a[k] != b[k];
    assert (p + a)[|p| + k] != (p + b)[|p| + k];
  }

  lemma DivergeBefore(a: seq<byte>, b: seq<byte>, q: seq<byte>)
    requires Diverge(a, b)
    ensures Diverge(a, b + q)
  {
    var k :| 0 <= k < |a| && k < |b| && a[k] != b[k];
    assert a[k] != (b + q)[k];
  }

  // What minifying text + rest gives, for a text that should become short: a clean one leaves
  // the scan outside of strings, a tail one inside of one.
  ghost predicate Becomes(text: seq<byte>, short: seq<byte>, clean: bool, tail: bool, rest: seq<byte>) {
    && (clean ==> Minified(text + rest) == short + Minified(rest))
    && (tail ==> Minified(text + rest) == short + InString(rest))
    && (!clean && !tail ==> Diverge(Minified(text + rest), short))
  }

  lemma {:induction false} StringBody(s: CString, rest: seq<byte>)
    ensures InString(EscapeAll(s) + ([QUOTE] + rest))
         == EscapeAll(s) + ([QUOTE] + (if EndsInBackslash(s) then InString(rest) else Minified(rest)))
  {
    hide InString, Minified, Escape;
    var after := [QUOTE] + (if EndsInBackslash(s) then InString(rest) else Minified(rest));
    if s == [] {
      assert [] + ([QUOTE] + rest) == [QUOTE] + rest;
      assert [] + after == after;
      CloseQuote(rest);
    } else {
      var e, inner := Escape(s[0]), EscapeAll(s[1..]);
      Assoc(e, inner, [QUOTE] + rest);
      Assoc(e, inner, after);
      if s[0] == BACKSLASH && |s| == 1 {
        LastBackslash(rest);
        assert inner == [] && [] + ([QUOTE] + rest) == [QUOTE] + rest;
      } else {
        StringBody(s[1..], rest);
        InnerStart(s[1..], rest);
        EscapeCopied(s[0], inner + ([QUOTE] + rest));
      }
    }
  }

  lemma CloseQuote(rest: seq<byte>)
    ensures InString([QUOTE] + rest) == [QUOTE] + Minified(rest)
  {
    assert ([QUOTE] + rest)[1..] == rest;
  }

  lemma LastBackslash(rest: seq<byte>)
    ensures Escape(BACKSLASH) == [BACKSLASH, BACKSLASH]
    ensures InString([BACKSLASH, BACKSLASH] + ([QUOTE] + rest)) == [BACKSLASH, BACKSLASH] + ([QUOTE] + InString(rest))
  {
    var x := [BACKSLASH, QUOTE] + rest;
    assert x[2..] == rest;
    assert [BACKSLASH, BACKSLASH] + ([QUOTE] + rest) == [BACKSLASH] + x;
    Slash(x);
    assert [BACKSLASH] + ([BACKSLASH, QUOTE] + InString(rest)) == [BACKSLASH, BACKSLASH] + ([QUOTE] + InString(rest));
  }

  lemma InnerStart(s: CString, rest: seq<byte>)
    ensures var x := EscapeAll(s) + ([QUOTE] + rest);
            |x| > 0 && (x[0] == QUOTE ==> s == [])
  {
  }

  lemma EscapeCopied(b: byte, x: seq<byte>)
    requires b != 0 && |x| > 0 && (b == BACKSLASH ==> x[0] != QUOTE)
    ensures InString(Escape(b) + x) == Escape(b) + InString(x)
  {
    hide InString, Escape;
    EscapeOfSpecial();
    if b == QUOTE {
      EscapedQuote(x);
    } else if b == BACKSLASH {
      EscapedBackslash(x);
    } else {
      EscapedOther(b, x);
    }
  }

  lemma EscapedBackslash(x: seq<byte>)
    requires |x| > 0 && x[0] != QUOTE
    ensures InString([BACKSLASH, BACKSLASH] + x) == [BACKSLASH, BACKSLASH] + InString(x)
  {
    hide InString;
    Pair(BACKSLASH, BACKSLASH, x);
    Pair(BACKSLASH, BACKSLASH, InString(x));
    Slash(x);
    SlashSlash(x);
  }

  lemma SlashSlash(x: seq<byte>)
    ensures InString([BACKSLASH] + ([BACKSLASH] + x)) == [BACKSLASH] + InString([BACKSLASH] + x)
  {
    Slash([BACKSLASH] + x);
  }

  lemma EscapedOther(b: byte, x: seq<byte>)
    requires b != QUOTE && b != BACKSLASH
    ensures InString(Escape(b) + x) == Escape(b) + InString(x)
  {
    hide InString, Escape;
    var t := EscapeShape(b);
    PlainAll(t, x);
    if Escape(b) != t {
      assert (t + x)[0] == t[0];
      Slash(t + x);
      Assoc([BACKSLASH], t, x);
      Assoc([BACKSLASH], t, InString(x));
    }
  }

  lemma EscapeOfSpecial()
    ensures Escape(QUOTE) == [BACKSLASH, QUOTE] && Escape(BACKSLASH) == [BACKSLASH, BACKSLASH]
  {
  }

  // Any other byte is printed as itself, or as a backslash and harmless letters.
  lemma EscapeShape(b: byte) returns (t: seq<byte>)
    requires b != QUOTE && b != BACKSLASH
    ensures |t| > 0 && (Escape(b) == t || Escape(b) == [BACKSLASH] + t)
    ensures forall i :: 0 <= i < |t| ==> t[i] != QUOTE && t[i] != BACKSLASH
  {
    t := if |Escape(b)| == 1 then Escape(b) else Escape(b)[1..];
  }

  lemma EscapedQuote(x: seq<byte>)
    ensures InString([BACKSLASH, QUOTE] + x) == [BACKSLASH, QUOTE] + InString(x)
  {
    assert ([BACKSLASH, QUOTE] + x)[2..] == x;
  }

  // A backslash that no quote follows is copied on its own.
  lemma Slash(y: seq<byte>)
    requires |y| > 0 && y[0] != QUOTE
    ensures InString([BACKSLASH] + y) == [BACKSLASH] + InString(y)
  {
    assert ([BACKSLASH] + y)[1..] == y;
  }

  lemma {:induction false} PlainAll(t: seq<byte>, x: seq<byte>)
    requires forall i :: 0 <= i < |t| ==> t[i] != QUOTE && t[i] != BACKSLASH
    ensures InString(t + x) == t + InString(x)
  {
    if t == [] {
      assert [] + x == x;
    } else {
      assert t + x == [t[0]] + (t[1..] + x);
      Plain(t[0], t[1..] + x);
      PlainAll(t[1..], x);
    }
  }

  lemma Plain(b: byte, x: seq<byte>)
    requires b != QUOTE && b != BACKSLASH
    ensures InString([b] + x) == [b] + InString(x)
  {
    assert ([b] + x)[1..] == x;
  }

  lemma StringBecomes(s: CString, rest: seq<byte>)
    ensures Becomes(StringText(s), StringText(s), !EndsInBackslash(s), EndsInBackslash(s), rest)
  {
    hide InString, Minified, EscapeAll, EndsInBackslash, Diverge;
    StringBody(s, rest);
    var after := if EndsInBackslash(s) then InString(rest) else Minified(rest);
    QuotedThen(EscapeAll(s), rest);
    QuotedThen(EscapeAll(s), after);
    OpenQuote(EscapeAll(s) + ([QUOTE] + rest));
  }

  lemma QuotedThen(inner: seq<byte>, x: seq<byte>)
    ensures [QUOTE] + inner + [QUOTE] + x == [QUOTE] + (inner + ([QUOTE] + x))
  {
  }

  lemma OpenQuote(x: seq<byte>)
    ensures Minified([QUOTE] + x) == [QUOTE] + InString(x)
  {
    assert ([QUOTE] + x)[1..] == x;
  }

  // Blanks and punctuation outside of strings.
  lemma Punctuation(b: byte, x: seq<byte>)
    requires b != QUOTE && b != SLASH
    ensures Minified([b] + x) == (if IsBlank(b) then Minified(x) else [b] + Minified(x))
  {
    assert ([b] + x)[1..] == x;
  }

  lemma {:induction false} PlainText(t: seq<byte>, rest: seq<byte>)
    requires forall i :: 0 <= i < |t| ==> t[i] != QUOTE && t[i] != SLASH && !IsBlank(t[i])
    ensures Minified(t + rest) == t + Minified(rest)
  {
    if t == [] {
      assert [] + rest == rest;
    } else {
      assert t + rest == [t[0]] + (t[1..] + rest);
      Punctuation(t[0], t[1..] + rest);
      PlainText(t[1..], rest);
    }
  }

  lemma {:induction false} BlankText(t: seq<byte>, rest: seq<byte>)
    requires forall i :: 0 <= i < |t| ==> IsBlank(t[i])
    ensures Minified(t + rest) == Minified(rest)
  {
    if t == [] {
      assert [] + rest == rest;
    } else {
      assert t + rest == [t[0]] + (t[1..] + rest);
      Punctuation(t[0], t[1..] + rest);
      BlankText(t[1..], rest);
    }
  }

  lemma NumberIsPlain(n: Int64)
    ensures forall i :: 0 <= i < |NumberText(n)| ==> NumberText(n)[i] == MINUS || ZERO <= NumberText(n)[i] <= NINE
  {
    var t := NumberText(n);
    if n < 0 {
      assert t[0] == MINUS && t[1..] == Digits(-(n as int));
    }
  }

  // Two texts that go on after the same start, one with a blank and the other without.
  lemma BlankDiverges(p: seq<byte>, b: byte, x: seq<byte>, y: seq<byte>)
    requires |y| > 0 && y[0] != b
    ensures Diverge(p + ([b] + x), p + y)
  {
    var a := [b] + x;
    assert a[0] != y[0];
    DivergeAfter(p, a, y);
  }

  lemma {:induction false} ValueBecomes(v: Json, d: nat, rest: seq<byte>)
    ensures Becomes(Text(v, true, d), Text(v, false, d), Clean(v), Tail(v), rest)
    decreases v, 2
  {
    hide Minified, InString, Becomes, Diverge;
    match v
    case JNull => WordBecomes(NULL_TEXT, rest);
    case JBool(b) => WordBecomes(if b then TRUE_TEXT else FALSE_TEXT, rest);
    case JNum(n) =>
      NumberIsPlain(n);
      WordBecomes(NumberText(n), rest);
    case JStr(s) => StringBecomes(s, rest);
    case JArr(items) => ArrayBecomes(items, d, rest);
    case JObj(members) => ObjectBecomes(members, d, rest);
  }

  lemma WordBecomes(t: seq<byte>, rest: seq<byte>)
    requires forall i :: 0 <= i < |t| ==> t[i] != QUOTE && t[i] != SLASH && !IsBlank(t[i])
    ensures Becomes(t, t, true, false, rest)
  {
    PlainText(t, rest);
  }

  lemma {:induction false} ArrayBecomes(items: seq<Json>, d: nat, rest: seq<byte>)
    ensures Becomes(Text(JArr(items), true, d), Text(JArr(items), false, d), CleanItems(items), TailItems(items), rest)
    decreases items, 1
  {
    hide Minified, InString, ItemsText, Diverge;
    var f, u := ItemsText(items, true, d + 1), ItemsText(items, false, d + 1);
    var closed := [CLOSE_BRACKET] + rest;
    assert Text(JArr(items), true, d) + rest == [OPEN_BRACKET] + (f + closed);
    Punctuation(OPEN_BRACKET, f + closed);
    Punctuation(CLOSE_BRACKET, rest);
    Plain(CLOSE_BRACKET, rest);
    ItemsBecome(items, d + 1, closed);
    assert Text(JArr(items), false, d) == [OPEN_BRACKET] + u + [CLOSE_BRACKET];
    if CleanItems(items) {
      assert [OPEN_BRACKET] + (u + ([CLOSE_BRACKET] + Minified(rest))) == Text(JArr(items), false, d) + Minified(rest);
      CleanIsNotTail(items);
    } else if TailItems(items) {
      assert [OPEN_BRACKET] + (u + ([CLOSE_BRACKET] + InString(rest))) == Text(JArr(items), false, d) + InString(rest);
    } else {
      DivergeAfter([OPEN_BRACKET], Minified(f + closed), u);
      DivergeBefore([OPEN_BRACKET] + Minified(f + closed), [OPEN_BRACKET] + u, [CLOSE_BRACKET]);
    }
  }

  lemma {:induction false} CleanIsNotTail(items: seq<Json>)
    requires CleanItems(items)
    ensures !TailItems(items)
    decreases items, 0
  {
    if items != [] {
      CleanValueIsNotTail(items[0]);
      CleanIsNotTail(items[1..]);
    }
  }

  lemma {:induction false} CleanValueIsNotTail(v: Json)
    requires Clean(v)
    ensures !Tail(v)
    decreases v, 1
  {
    if v.JArr? {
      CleanIsNotTail(v.items);
    }
  }

  lemma {:induction false} ItemsBecome(items: seq<Json>, d: nat, rest: seq<byte>)
    ensures Becomes(ItemsText(items, true, d), ItemsText(items, false, d), CleanItems(items), TailItems(items), rest)
    decreases items, 0
  {
    hide Minified, InString, Text, Becomes, Diverge;
    if items == [] {
      NothingBecomes(rest);
    } else if |items| == 1 {
      assert CleanItems(items[1..]);
      ValueBecomes(items[0], d, rest);
    } else {
      var f, u := Text(items[0], true, d), Text(items[0], false, d);
      var fs, us := ItemsText(items[1..], true, d), ItemsText(items[1..], false, d);
      R.ItemsStart(items[1..], false, d);
      ValueBecomes(items[0], d, [COMMA, SPACE] + (fs + rest));
      ItemsBecome(items[1..], d, rest);
      if CleanItems(items[1..]) {
        CleanIsNotTail(items[1..]);
      }
      if Clean(items[0]) {
        CleanValueIsNotTail(items[0]);
      }
      CommaBecomes(f, u, fs, us, Clean(items[0]), Tail(items[0]), CleanItems(items[1..]), TailItems(items[1..]), rest);
    }
  }

  lemma NothingBecomes(rest: seq<byte>)
    ensures Becomes([], [], true, false, rest)
  {
    assert [] + rest == rest;
    assert [] + Minified(rest) == Minified(rest);
  }

  // An element, the separator and the other elements.
  lemma CommaBecomes(f: seq<byte>, u: seq<byte>, fs: seq<byte>, us: seq<byte>,
                     clean: bool, tail: bool, cleans: bool, tails: bool, rest: seq<byte>)
    requires Becomes(f, u, clean, tail, [COMMA, SPACE] + (fs + rest)) && Becomes(fs, us, cleans, tails, rest)
    requires !(clean && tail) && !(cleans && tails) && |us| > 0 && us[0] > 32
    ensures Becomes(f + [COMMA, SPACE] + fs, u + [COMMA] + us, clean && cleans, clean && tails, rest)
  {
    hide Minified, InString, Diverge;
    var x := fs + rest;
    assert f + [COMMA, SPACE] + fs + rest == f + ([COMMA, SPACE] + x);
    assert [COMMA, SPACE] + x == [COMMA] + ([SPACE] + x);
    assert u + [COMMA] + us == u + ([COMMA] + us);
    if clean {
      Punctuation(COMMA, [SPACE] + x);
      Punctuation(SPACE, x);
      if cleans {
        assert u + ([COMMA] + (us + Minified(rest))) == u + [COMMA] + us + Minified(rest);
      } else if tails {
        assert u + ([COMMA] + (us + InString(rest))) == u + [COMMA] + us + InString(rest);
      } else {
        DivergeAfter([COMMA], Minified(x), us);
        DivergeAfter(u, [COMMA] + Minified(x), [COMMA] + us);
      }
    } else if tail {
      Plain(COMMA, [SPACE] + x);
      Plain(SPACE, x);
      assert u + ([COMMA] + ([SPACE] + InString(x))) == u + [COMMA] + ([SPACE] + InString(x));
      BlankDiverges(u + [COMMA], SPACE, InString(x), us);
    } else {
      DivergeBefore(Minified(f + ([COMMA, SPACE] + x)), u, [COMMA] + us);
    }
  }

  // Objects always print something blank behind a key and behind a value.
  lemma {:induction false} ObjectBecomes(members: seq<Member>, d: nat, rest: seq<byte>)
    ensures Becomes(Text(JObj(members), true, d), Text(JObj(members), false, d), CleanMembers(members), false, rest)
    decreases members, 1
  {
    hide Minified, InString, MembersText, Diverge;
    var f, u := MembersText(members, true, d + 1), MembersText(members, false, d + 1);
    var closing := Tabs(d) + ([CLOSE_BRACE] + rest);
    var x := f + closing;
    assert Text(JObj(members), true, d) + rest == [OPEN_BRACE] + ([NEWLINE] + x);
    Punctuation(OPEN_BRACE, [NEWLINE] + x);
    Punctuation(NEWLINE, x);
    BlankText(Tabs(d), [CLOSE_BRACE] + rest);
    Punctuation(CLOSE_BRACE, rest);
    MembersBecome(members, d + 1, closing);
    assert Text(JObj(members), false, d) == [OPEN_BRACE] + (u + [CLOSE_BRACE]) by {
      assert Indent(false, d) == [];
      assert Text(JObj(members), false, d) == [OPEN_BRACE] + u + [] + [CLOSE_BRACE];
    }
    if CleanMembers(members) {
      assert [OPEN_BRACE] + (u + ([CLOSE_BRACE] + Minified(rest))) == [OPEN_BRACE] + (u + [CLOSE_BRACE]) + Minified(rest);
    } else {
      DivergeAfter([OPEN_BRACE], Minified(x), u + [CLOSE_BRACE]);
    }
  }

  lemma {:induction false} MembersBecome(members: seq<Member>, d: nat, rest: seq<byte>)
    ensures var f, u := MembersText(members, true, d), MembersText(members, false, d);
            && (CleanMembers(members) ==> Minified(f + rest) == u + Minified(rest))
            && (!CleanMembers(members) ==> Diverge(Minified(f + rest), u + [CLOSE_BRACE]))
    decreases members, 0
  {
    hide Minified, InString, Text, StringText, Diverge;
    var f, u := MembersText(members, true, d), MembersText(members, false, d);
    if members == [] {
      assert [] + rest == rest && [] + Minified(rest) == Minified(rest);
    } else {
      var m, last := members[0], |members| == 1;
      var fs, us := MembersText(members[1..], true, d), MembersText(members[1..], false, d);
      var k, vf, vu := StringText(m.key), Text(m.value, true, d), Text(m.value, false, d);
      var comma: seq<byte> := if last then [] else [COMMA];
      var x := fs + rest;
      var afterValue := comma + ([NEWLINE] + x);
      var uTail := comma + (us + [CLOSE_BRACE]);
      MembersShape(members, d, rest, [CLOSE_BRACE]);
      BlankText(Tabs(d), k + ([COLON] + ([TAB] + (vf + afterValue))));
      StringBecomes(m.key, [COLON] + ([TAB] + (vf + afterValue)));
      ValueBecomes(m.value, d, afterValue);
      MembersBecome(members[1..], d, rest);
      MembersTail(members[1..], d);
      assert last ==> members[1..] == [];
      R.FirstByte(m.value, false, d);
      if Clean(m.value) {
        CleanValueIsNotTail(m.value);
      }
      MemberBecomes(k, vf, vu, comma, x, us + [CLOSE_BRACE], !EndsInBackslash(m.key), Clean(m.value), Tail(m.value));
      if CleanMembers(members) {
        MembersShape(members, d, rest, Minified(rest));
      }
    }
  }

  // The first member and the others, in both print modes.
  lemma MembersShape(members: seq<Member>, d: nat, rest: seq<byte>, tail: seq<byte>)
    requires members != []
    ensures var m, last := members[0], |members| == 1;
            var fs, us := MembersText(members[1..], true, d), MembersText(members[1..], false, d);
            var k, vf, vu := StringText(m.key), Text(m.value, true, d), Text(m.value, false, d);
            var comma: seq<byte> := if last then [] else [COMMA];
            && MembersText(members, true, d) + rest
                 == Tabs(d) + (k + ([COLON] + ([TAB] + (vf + (comma + ([NEWLINE] + (fs + rest)))))))
            && MembersText(members, false, d) + tail == k + ([COLON] + (vu + (comma + (us + tail))))
  {
    hide Text, StringText;
    var m, last := members[0], |members| == 1;
    var fs, us := MembersText(members[1..], true, d), MembersText(members[1..], false, d);
    var k, vf, vu := StringText(m.key), Text(m.value, true, d), Text(m.value, false, d);
    var comma: seq<byte> := if last then [] else [COMMA];
    Flatten(Tabs(d), k, [COLON, TAB], vf, comma + [NEWLINE], fs + rest);
    Assoc(MemberText(m, true, d, last), fs, rest);
    assert MemberText(m, true, d, last) == Tabs(d) + k + [COLON, TAB] + vf + (comma + [NEWLINE]);
    Assoc(comma, [NEWLINE], fs + rest);
    Assoc([COLON], [TAB], vf + (comma + ([NEWLINE] + (fs + rest))));
    assert [COLON] + [TAB] == [COLON, TAB];
    Flatten([], k, [COLON], vu, comma, us + tail);
    Assoc(MemberText(m, false, d, last), us, tail);
    assert comma + [] == comma;
    assert MemberText(m, false, d, last) == [] + k + [COLON] + vu + comma;
    assert [] + (k + ([COLON] + (vu + (comma + (us + tail))))) == k + ([COLON] + (vu + (comma + (us + tail))));
  }

  lemma Flatten(a: seq<byte>, b: seq<byte>, c: seq<byte>, d: seq<byte>, e: seq<byte>, x: seq<byte>)
    ensures a + b + c + d + e + x == a + (b + (c + (d + (e + x))))
  {
    Assoc(a + b + c + d, e, x);
    Assoc(a + b + c, d, e + x);
    Assoc(a + b, c, d + (e + x));
    Assoc(a, b, c + (d + (e + x)));
  }

  lemma MembersTail(members: seq<Member>, d: nat)
    ensures var t := MembersText(members, false, d) + [CLOSE_BRACE]; t[0] == CLOSE_BRACE || t[0] == QUOTE
  {
    if members != [] {
      R.StringStart(members[0].key);
      assert Indent(false, d) == [];
    }
  }

  // One key and its value, then x when printed with format and y without.
  lemma MemberBecomes(k: seq<byte>, vf: seq<byte>, vu: seq<byte>, comma: seq<byte>, x: seq<byte>, y: seq<byte>,
                      cleanKey: bool, clean: bool, tail: bool)
    requires comma == [] || comma == [COMMA]
    requires |vu| > 0 && vu[0] > 32 && |y| > 0 && (y[0] == CLOSE_BRACE || y[0] == QUOTE)
    requires Becomes(k, k, cleanKey, !cleanKey, [COLON] + ([TAB] + (vf + (comma + ([NEWLINE] + x)))))
    requires Becomes(vf, vu, clean, tail, comma + ([NEWLINE] + x)) && !(clean && tail)
    ensures var t := k + ([COLON] + ([TAB] + (vf + (comma + ([NEWLINE] + x)))));
            && (cleanKey && clean ==> Minified(t) == k + ([COLON] + (vu + (comma + Minified(x)))))
            && (cleanKey && clean && Diverge(Minified(x), y) ==> Diverge(Minified(t), k + ([COLON] + (vu + (comma + y)))))
            && (!cleanKey || !clean ==> Diverge(Minified(t), k + ([COLON] + (vu + (comma + y)))))
  {
    hide Minified, InString, Diverge;
    var end := comma + ([NEWLINE] + x);
    var body := [TAB] + (vf + end);
    if !cleanKey {
      Plain(COLON, body);
      Plain(TAB, vf + end);
      Assoc(k, [COLON], [TAB] + InString(vf + end));
      Assoc(k, [COLON], vu + (comma + y));
      BlankDiverges(k + [COLON], TAB, InString(vf + end), vu + (comma + y));
    } else {
      Punctuation(COLON, body);
      Punctuation(TAB, vf + end);
      if clean {
        EndBecomes(comma, x);
        if Diverge(Minified(x), y) {
          DivergeAfter(comma, Minified(x), y);
          DivergeAfter(vu, comma + Minified(x), comma + y);
          DivergeAfter([COLON], vu + (comma + Minified(x)), vu + (comma + y));
          DivergeAfter(k, [COLON] + (vu + (comma + Minified(x))), [COLON] + (vu + (comma + y)));
        }
      } else {
        if tail {
          EndInString(comma, x);
          Assoc(vu, comma, [NEWLINE] + InString(x));
          Assoc(vu, comma, y);
          BlankDiverges(vu + comma, NEWLINE, InString(x), y);
        } else {
          DivergeBefore(Minified(vf + end), vu, comma + y);
        }
        DivergeAfter([COLON], Minified(vf + end), vu + (comma + y));
        DivergeAfter(k, [COLON] + Minified(vf + end), [COLON] + (vu + (comma + y)));
      }
    }
  }

  lemma EndBecomes(comma: seq<byte>, x: seq<byte>)
    requires comma == [] || comma == [COMMA]
    ensures Minified(comma + ([NEWLINE] + x)) == comma + Minified(x)
  {
    Punctuation(NEWLINE, x);
    if comma == [] {
      assert [] + ([NEWLINE] + x) == [NEWLINE] + x;
      assert [] + Minified(x) == Minified(x);
    } else {
      Punctuation(COMMA, [NEWLINE] + x);
    }
  }

  lemma EndInString(comma: seq<byte>, x: seq<byte>)
    requires comma == [] || comma == [COMMA]
    ensures InString(comma + ([NEWLINE] + x)) == comma + ([NEWLINE] + InString(x))
  {
    Plain(NEWLINE, x);
    if comma == [] {
      assert [] + ([NEWLINE] + x) == [NEWLINE] + x;
      assert [] + ([NEWLINE] + InString(x)) == [NEWLINE] + InString(x);
    } else {
      Plain(COMMA, [NEWLINE] + x);
    }
  }

  // ---------- main results ----------

  // Minifying the formatted text gives the unformatted one exactly when no string or key ends
  // in a backslash, or only the one that closing brackets alone follow.
  lemma MinifiedPrint(v: Json)
    ensures Minified(Text(v, true, 0)) == Text(v, false, 0) <==> Clean(v) || Tail(v)
  {
    hide Minified, Text;
    ValueBecomes(v, 0, []);
    InStringEnd();
    var f, u := Text(v, true, 0), Text(v, false, 0);
    assert f + [] == f && u + [] == u;
  }

  lemma MinifyCanFail()
    ensures var v := JArr([JStr([BACKSLASH]), JNull]); Minified(Text(v, true, 0)) != Text(v, false, 0)
  {
    var v := JArr([JStr([BACKSLASH]), JNull]);
    assert v.items[0] == JStr([BACKSLASH]);
    assert !Clean(JStr([BACKSLASH]));
    assert !CleanItems(v.items) && !TailItems(v.items);
    MinifiedPrint(v);
  }

  // The whole program: print with format, minify in place, and read the result as a string.
  method MinifyPrinted(v: Json, json: array<byte>)
    requires At(json[..], 0, Text(v, true, 0) + [0]) && (Clean(v) || Tail(v))
    modifies json
    ensures At(json[..], 0, Text(v, false, 0) + [0])
  {
    hide Text, Minified, Clean, Tail;
    ghost var s := Text(v, true, 0);
    TextNulFree(v, true, 0);
    assert Unread(json, s, 0) by {
      assert json[..][0..|s| + 1] == s + [0];
      assert json[0..|s|] == (s + [0])[..|s|] && json[|s|] == (s + [0])[|s|];
    }
    MinifyInPlace(json, s);
    MinifiedPrint(v);
  }
}
