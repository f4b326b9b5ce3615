// The parser takes every JSON text of RFC 8259, and looser ones, for what they mean, up to its
// nesting limit and to numerals of 63 characters.
module RfcParsing {
  import opened Bytes
  import opened Json
  import opened StringLiteral
  import opened NumberLiteral
  import opened JsonGrammar
  import opened Rfc8259
  import opened RfcNumbers
  import U = Unicode
  import R = RoundTrip

  // ---------- strings ----------

  lemma CharEmits(x: Char, c: seq<byte>, i: nat, end: nat)
    requires IsChar(x, Loose) && At(c, i, SpellChar(x)) && i + |SpellChar(x)| <= end < |c|
    ensures U.Emits(c, i, i + |SpellChar(x)|, end, CharBytes(x))
  {
    hide U.IsEscape, U.Emits, Utf8, ShortFor, At;
    match x
    case Unescaped(b) => UnescapedEmits(b, c, i, end);
    case Short(letter) => ShortEmits(letter, c, i, end);
    case Escaped(spelling, p) =>
      if U.IsEscape(spelling, p) {
        U.EscapeEmits(spelling, p, c, i, end);
      } else {
        BadUnitEmits(spelling, c, i, end);
      }
  }

  lemma BadUnitEmits(t: seq<byte>, c: seq<byte>, i: nat, end: nat)
    requires IsBadUnit(t) && At(c, i, t) && i + 6 <= end < |c|
    ensures U.Emits(c, i, i + 6, end, Utf8(0))
  {
    forall k | 0 <= k < 6 ensures c[i + k] == t[k] {
      assert c[i..i + 6][k] == t[k];
    }
    BadHex4(t);
    assert c[i + 2..i + 6] == t[2..6];
    assert Token(c, i, end) == (Utf8(0), 6);
    hide Token, IsBadUnit, Hex4, Utf8;
    assert Closing(c, i) == Closing(c, i + 2) == Closing(c, i + 3) == Closing(c, i + 4);
    assert Closing(c, i + 4) == Closing(c, i + 5) == Closing(c, i + 6);
  }

  lemma BadHex4(t: seq<byte>)
    requires IsBadUnit(t)
    ensures Hex4(t[2..6]) == 0
  {
    var k :| 2 <= k < 6 && !IsDigit16(t[k]);
    if IsHex(t[k]) {
      U.HexSpelled(t[k], HexValue(t[k]));
    }
    assert t[k] == t[2..6][k - 2];
  }

  lemma UnescapedEmits(b: byte, c: seq<byte>, i: nat, end: nat)
    requires b != QUOTE && b != BACKSLASH && At(c, i, [b]) && i + 1 <= end < |c|
    ensures U.Emits(c, i, i + 1, end, [b])
  {
    R.AtOne(c, i, b);
    assert Token(c, i, end) == ([b], 1);
    hide Token;
  }

  lemma ShortEmits(letter: byte, c: seq<byte>, i: nat, end: nat)
    requires ShortFor(letter).Some? && At(c, i, [BACKSLASH, letter]) && i + 2 <= end < |c|
    ensures U.Emits(c, i, i + 2, end, [ShortFor(letter).value])
  {
    var t := c[i..i + 2];
    assert t == [BACKSLASH, letter] && c[i] == t[0] && c[i + 1] == t[1];
    assert Token(c, i, end) == ([ShortFor(letter).value], 2);
    hide Token, ShortFor;
  }

  lemma {:induction false} CharsEmit(xs: seq<Char>, c: seq<byte>, i: nat, end: nat)
    requires AreChars(xs, Loose) && At(c, i, SpellChars(xs)) && i + |SpellChars(xs)| <= end < |c|
    ensures U.Emits(c, i, i + |SpellChars(xs)|, end, StringBytes(xs))
    decreases |xs|
  {
    hide SpellChar, CharBytes, At, IsChar, U.Emits;
    if xs == [] {
      U.EmitsNothing(c, i, end);
    } else {
      var next := i + |SpellChar(xs[0])|;
      AtSplit(c, i, SpellChar(xs[0]), SpellChars(xs[1..]));
      CharEmits(xs[0], c, i, end);
      CharsEmit(xs[1..], c, next, end);
      U.EmitsBoth(c, i, next, i + |SpellChars(xs)|, end, CharBytes(xs[0]), StringBytes(xs[1..]));
    }
  }

  lemma StringAccepted(xs: seq<Char>, c: seq<byte>, o: nat)
    requires AreChars(xs, Loose) && At(c, o, Quoted(xs))
    ensures ParseString(c, o) == Ok(UpToNul(StringBytes(xs)), o + |Quoted(xs)|)
  {
    hide AreChars, SpellChars, StringBytes;
    var end := o + 1 + |SpellChars(xs)|;
    AtSplit(c, o, [QUOTE] + SpellChars(xs), [QUOTE]);
    AtSplit(c, o, [QUOTE], SpellChars(xs));
    R.AtOne(c, o, QUOTE);
    R.AtOne(c, end, QUOTE);
    CharsEmit(xs, c, o + 1, end);
    R.EndOfString(c, end);
    assert StringBytes(xs) + [] == StringBytes(xs);
  }

  // ---------- blanks, and what a value starts with ----------

  lemma BlanksAt(s: seq<byte>, c: seq<byte>, o: nat)
    requires AreBlanks(s, Loose) && At(c, o, s)
    ensures R.Blanks(c, o, o + |s|)
  {
    R.BlankText(c, o, s);
  }

  lemma FirstOf(t: Tree)
    requires Derives(t, Loose)
    ensures |Yield(t)| > 0 && Yield(t)[0] > 32 && Yield(t)[0] != CLOSE_BRACKET && Yield(t)[0] != CLOSE_BRACE
    ensures Yield(t)[0] != 0xEF
  {
    match t
    case Number(n) => NumeralStart(n);
    case _ =>
  }

  // What comes of parsing at a place: the value up to next if it is not nested too deeply.
  ghost predicate Comes<T(!new)>(r: Parsed<T>, fits: bool, v: T, next: nat) {
    if fits then r == Ok(v, next) else r.Err?
  }

  // A byte that may stand behind a value.
  predicate Follows(b: byte) {
    b <= 32 || b == COMMA || b == CLOSE_BRACKET || b == CLOSE_BRACE
  }

  lemma FollowStops(c: seq<byte>, e: nat)
    requires e < |c| && Follows(c[e])
    ensures R.Stops(c, e)
  {
  }

  // Behind blanks and one more byte of these.
  lemma BlanksFollow(s: seq<byte>, c: seq<byte>, e: nat)
    requires AreBlanks(s, Loose) && At(c, e, s) && e + |s| < |c| && Follows(c[e + |s|])
    ensures R.Stops(c, e)
  {
    BlanksAt(s, c, e);
    FollowStops(c, e);
  }

  // ---------- values ----------

  lemma {:induction false} ValueAccepted(t: Tree, c: seq<byte>, o: nat, depth: nat)
    requires Derives(t, Loose) && ShortNumerals(t, 63) && At(c, o, Yield(t))
    requires R.Stops(c, o + |Yield(t)|) && depth <= NESTING_LIMIT
    ensures Comes(ParseValue(c, o, depth), depth + Nesting(Meaning(t)) <= NESTING_LIMIT, Meaning(t), o + |Yield(t)|)
    decreases t, 2
  {
    hide ParseValue, ParseString, ParseNumber, ParseArray, ParseObject, SpellNumeral, Quoted, YieldElements, YieldPairs;
    hide R.Stops;
    hide At, AreChars, IsNumeral, AreBlanks, DerivesElements, DerivesPairs, ShortElements, ShortPairs, IntegerOf;
    hide UpToNul;
    hide StringBytes, MeaningElements, MeaningPairs, NestingOfItems, NestingOfMembers, NumberCharCount, Strtod;
    hide ValueInt;
    FirstOf(t);
    R.FirstByteAt(c, o, Yield(t));
    R.Dispatch(c, o, depth);
    match t
    case Null => R.WordParses(true, c, o, depth);
    case True => R.WordParses(true, c, o, depth);
    case False => R.WordParses(false, c, o, depth);
    case Number(n) =>
      NumeralStart(n);
      NumeralAccepted(n, c, o);
    case String(xs) =>
      QuotedFirst(xs);
      StringAccepted(xs, c, o);
    case Array(blank, es) => ArrayAccepted(blank, es, c, o, depth);
    case Object(blank, ps) => ObjectAccepted(blank, ps, c, o, depth);
  }

  lemma QuotedFirst(xs: seq<Char>)
    ensures |Quoted(xs)| > 0 && Quoted(xs)[0] == QUOTE
  {
  }

  lemma {:induction false} ArrayAccepted(blank: seq<byte>, es: seq<Element>, c: seq<byte>, o: nat, depth: nat)
    requires var t := Array(blank, es); Derives(t, Loose) && ShortNumerals(t, 63) && At(c, o, Yield(t))
    requires depth <= NESTING_LIMIT
    ensures Has(c, o, OPEN_BRACKET)
    ensures var t := Array(blank, es);
            Comes(ParseArray(c, o, depth), depth + Nesting(Meaning(t)) <= NESTING_LIMIT, Meaning(t), o + |Yield(t)|)
    decreases es, 1
  {
    hide ParseItems, ParseValue, YieldElements, AreBlanks, At, Skip, R.Blanks, MeaningElements;
    var inner := if es == [] then blank else YieldElements(es);
    AtSplit(c, o, [OPEN_BRACKET] + inner, [CLOSE_BRACKET]);
    AtSplit(c, o, [OPEN_BRACKET], inner);
    R.AtOne(c, o, OPEN_BRACKET);
    R.AtOne(c, o + 1 + |inner|, CLOSE_BRACKET);
    if es == [] {
      NothingMeans();
      BlanksAt(blank, c, o + 1);
      R.SkipTo(c, o + 1, o + 1 + |inner|);
    } else if depth < NESTING_LIMIT {
      ElementStarts(es, c, o + 1);
      R.SkipTo(c, o + 1, o + 1 + |es[0].before|);
      ElementsAccepted(es, c, o + 1, o + 1 + |es[0].before|, depth + 1);
    }
  }

  lemma NothingMeans()
    ensures MeaningElements([]) == [] && MeaningPairs([]) == []
    ensures NestingOfItems([]) == 0 && NestingOfMembers([]) == 0
  {
  }

  // The first value of some elements, and what is behind it.
  lemma ElementStarts(es: seq<Element>, c: seq<byte>, o: nat)
    requires es != [] && DerivesElements(es, Loose) && At(c, o, YieldElements(es))
    ensures var v := o + |es[0].before|;
            var next := v + |Yield(es[0].value)|;
            var q := next + |es[0].after|;
            && R.Blanks(c, o, v) && At(c, v, Yield(es[0].value)) && v < |c| && c[v] > 32 && c[v] != CLOSE_BRACKET
            && At(c, next, es[0].after) && R.Blanks(c, next, q)
            && (|es| == 1 ==> q == o + |YieldElements(es)|)
            && (|es| > 1 ==> Has(c, q, COMMA) && At(c, q + 1, YieldElements(es[1..]))
                             && o + |YieldElements(es)| == q + 1 + |YieldElements(es[1..])|)
  {
    hide Yield, At, AreBlanks, R.Blanks, Derives;
    var e := es[0];
    var rest := if |es| == 1 then [] else [COMMA] + YieldElements(es[1..]);
    AtSplit(c, o, e.before, Yield(e.value) + (e.after + rest));
    AtSplit(c, o + |e.before|, Yield(e.value), e.after + rest);
    AtSplit(c, o + |e.before| + |Yield(e.value)|, e.after, rest);
    BlanksAt(e.before, c, o);
    BlanksAt(e.after, c, o + |e.before| + |Yield(e.value)|);
    FirstOf(e.value);
    R.FirstByteAt(c, o + |e.before|, Yield(e.value));
    if |es| > 1 {
      var q := o + |e.before| + |Yield(e.value)| + |e.after|;
      AtSplit(c, q, [COMMA], YieldElements(es[1..]));
      R.AtOne(c, q, COMMA);
    }
  }

  // The elements from o on, of which the parser may have skipped the blanks in front already; the
  // closing bracket follows them.
  lemma {:induction false} ElementsAccepted(es: seq<Element>, c: seq<byte>, o: nat, a: nat, depth: nat)
    requires es != [] && DerivesElements(es, Loose) && ShortElements(es, 63) && At(c, o, YieldElements(es))
    requires o <= a <= o + |es[0].before| && Has(c, o + |YieldElements(es)|, CLOSE_BRACKET) && depth <= NESTING_LIMIT
    ensures Comes(ParseItems(c, a, depth), depth + NestingOfItems(MeaningElements(es)) <= NESTING_LIMIT,
                  MeaningElements(es), o + |YieldElements(es)| + 1)
    decreases es, 0
  {
    hide ParseValue, ParseItems, Yield, YieldElements, At, Skip, R.Blanks, AreBlanks, Derives, Meaning, Nesting;
    hide R.Stops;
    var v := o + |es[0].before|;
    var next := v + |Yield(es[0].value)|;
    var q := next + |es[0].after|;
    ElementStarts(es, c, o);
    BlanksFrom(c, o, a, v);
    R.SkipTo(c, a, v);
    BlanksFollow(es[0].after, c, next);
    ValueAccepted(es[0].value, c, v, depth);
    R.SkipTo(c, next, q);
    MeaningsAre(es);
    if |es| == 1 {
      NothingMeans();
      OneItem(c, a, depth);
    } else {
      ElementsAccepted(es[1..], c, q + 1, q + 1, depth);
      MoreItems(c, a, depth);
    }
  }

  lemma BlanksFrom(c: seq<byte>, o: nat, a: nat, v: nat)
    requires R.Blanks(c, o, v) && o <= a <= v
    ensures R.Blanks(c, a, v)
  {
  }

  lemma MeaningsAre(es: seq<Element>)
    requires es != []
    ensures MeaningElements(es) == [Meaning(es[0].value)] + MeaningElements(es[1..])
    ensures NestingOfItems(MeaningElements(es)) == Max(Nesting(Meaning(es[0].value)), NestingOfItems(MeaningElements(es[1..])))
  {
    hide Meaning, Nesting;
    var rest := MeaningElements(es[1..]);
    assert ([Meaning(es[0].value)] + rest)[1..] == rest;
  }

  lemma OneItem(c: seq<byte>, a: nat, depth: nat)
    requires var r := ParseValue(c, Skip(c, a), depth); r.Ok? ==> Has(c, Skip(c, r.next), CLOSE_BRACKET)
    ensures var r := ParseValue(c, Skip(c, a), depth);
            if r.Ok? then ParseItems(c, a, depth) == Ok([r.value] + [], Skip(c, r.next) + 1) else ParseItems(c, a, depth).Err?
  {
    hide ParseValue, Skip;
    var r := ParseValue(c, Skip(c, a), depth);
    assert r.Ok? ==> [r.value] + [] == [r.value];
  }

  lemma MoreItems(c: seq<byte>, a: nat, depth: nat)
    requires var r := ParseValue(c, Skip(c, a), depth); r.Ok? ==> Has(c, Skip(c, r.next), COMMA)
    ensures var r := ParseValue(c, Skip(c, a), depth);
            if r.Err? then ParseItems(c, a, depth).Err?
            else
              var rest := ParseItems(c, Skip(c, r.next) + 1, depth);
              if rest.Err? then ParseItems(c, a, depth).Err?
              else ParseItems(c, a, depth) == Ok([r.value] + rest.value, rest.next)
  {
    hide ParseValue, Skip;
  }

  lemma {:induction false} ObjectAccepted(blank: seq<byte>, ps: seq<Pair>, c: seq<byte>, o: nat, depth: nat)
    requires var t := Object(blank, ps); Derives(t, Loose) && ShortNumerals(t, 63) && At(c, o, Yield(t))
    requires depth <= NESTING_LIMIT
    ensures Has(c, o, OPEN_BRACE)
    ensures var t := Object(blank, ps);
            Comes(ParseObject(c, o, depth), depth + Nesting(Meaning(t)) <= NESTING_LIMIT, Meaning(t), o + |Yield(t)|)
    decreases ps, 1
  {
    hide ParseMembers, ParseValue, YieldPairs, AreBlanks, At, Skip, R.Blanks, MeaningPairs;
    var inner := if ps == [] then blank else YieldPairs(ps);
    AtSplit(c, o, [OPEN_BRACE] + inner, [CLOSE_BRACE]);
    AtSplit(c, o, [OPEN_BRACE], inner);
    R.AtOne(c, o, OPEN_BRACE);
    R.AtOne(c, o + 1 + |inner|, CLOSE_BRACE);
    if ps == [] {
      NothingMeans();
      BlanksAt(blank, c, o + 1);
      R.SkipTo(c, o + 1, o + 1 + |inner|);
    } else if depth < NESTING_LIMIT {
      PairStarts(ps, c, o + 1);
      KeyStarts(ps[0], c, o + 1);
      R.SkipTo(c, o + 1, o + 1 + |ps[0].before|);
      PairsAccepted(ps, c, o + 1, o + 1 + |ps[0].before|, depth + 1);
    }
  }

  // The first pair of some pairs, and what is behind it.
  lemma PairStarts(ps: seq<Pair>, c: seq<byte>, o: nat)
    requires ps != [] && DerivesPairs(ps, Loose) && At(c, o, YieldPairs(ps))
    ensures var v := o + |SpellKey(ps[0])|;
            var next := v + |Yield(ps[0].value)|;
            var q := next + |ps[0].after|;
            && At(c, o, SpellKey(ps[0])) && At(c, v, Yield(ps[0].value)) && v < |c| && c[v] > 32
            && At(c, next, ps[0].after) && R.Blanks(c, next, q)
            && (|ps| == 1 ==> q == o + |YieldPairs(ps)|)
            && (|ps| > 1 ==> Has(c, q, COMMA) && At(c, q + 1, YieldPairs(ps[1..]))
                             && o + |YieldPairs(ps)| == q + 1 + |YieldPairs(ps[1..])|)
  {
    hide Yield, At, AreBlanks, R.Blanks, Derives, SpellKey, IsKey;
    var p := ps[0];
    var rest := if |ps| == 1 then [] else [COMMA] + YieldPairs(ps[1..]);
    AtSplit(c, o, SpellKey(p), Yield(p.value) + (p.after + rest));
    AtSplit(c, o + |SpellKey(p)|, Yield(p.value), p.after + rest);
    AtSplit(c, o + |SpellKey(p)| + |Yield(p.value)|, p.after, rest);
    BlanksAt(p.after, c, o + |SpellKey(p)| + |Yield(p.value)|);
    FirstOf(p.value);
    R.FirstByteAt(c, o + |SpellKey(p)|, Yield(p.value));
    if |ps| > 1 {
      var q := o + |SpellKey(p)| + |Yield(p.value)| + |p.after|;
      AtSplit(c, q, [COMMA], YieldPairs(ps[1..]));
      R.AtOne(c, q, COMMA);
    }
  }

  // A key with its colon.
  lemma KeyStarts(p: Pair, c: seq<byte>, o: nat)
    requires IsKey(p, Loose) && At(c, o, SpellKey(p))
    ensures var k := o + |p.before|;
            var colon := k + |Quoted(p.key)| + |p.afterKey|;
            && R.Blanks(c, o, k) && At(c, k, Quoted(p.key)) && Has(c, k, QUOTE)
            && R.Blanks(c, k + |Quoted(p.key)|, colon) && Has(c, colon, COLON)
            && colon + 1 + |p.afterColon| == o + |SpellKey(p)| && R.Blanks(c, colon + 1, colon + 1 + |p.afterColon|)
  {
    hide Quoted, At, AreBlanks, R.Blanks, AreChars;
    var k := o + |p.before|;
    var e := k + |Quoted(p.key)|;
    AtSplit(c, o, p.before, Quoted(p.key) + (p.afterKey + ([COLON] + p.afterColon)));
    AtSplit(c, k, Quoted(p.key), p.afterKey + ([COLON] + p.afterColon));
    AtSplit(c, e, p.afterKey, [COLON] + p.afterColon);
    AtSplit(c, e + |p.afterKey|, [COLON], p.afterColon);
    BlanksAt(p.before, c, o);
    BlanksAt(p.afterKey, c, e);
    BlanksAt(p.afterColon, c, e + |p.afterKey| + 1);
    R.AtOne(c, e + |p.afterKey|, COLON);
    QuotedFirst(p.key);
    R.FirstByteAt(c, k, Quoted(p.key));
  }

  // One pair; what follows it is in after and behind.
  lemma {:induction false} PairAccepted(p: Pair, c: seq<byte>, o: nat, a: nat, depth: nat)
    requires IsKey(p, Loose) && Derives(p.value, Loose) && ShortNumerals(p.value, 63)
    requires At(c, o, SpellKey(p)) && o <= a <= o + |p.before|
    requires var v := o + |SpellKey(p)|; At(c, v, Yield(p.value)) && v < |c| && c[v] > 32
    requires R.Stops(c, o + |SpellKey(p)| + |Yield(p.value)|) && depth <= NESTING_LIMIT
    ensures Comes(ParseMember(c, a, depth), depth + Nesting(Meaning(p.value)) <= NESTING_LIMIT,
                  Member(UpToNul(StringBytes(p.key)), Meaning(p.value)), o + |SpellKey(p)| + |Yield(p.value)|)
    decreases p, 3
  {
    hide ParseValue, ParseString, Yield, At, Skip, R.Blanks, AreBlanks, AreChars, Derives, Meaning, Nesting, R.Stops;
    hide SpellKey, UpToNul;
    KeyStarts(p, c, o);
    var k, v := o + |p.before|, o + |SpellKey(p)|;
    var colon := k + |Quoted(p.key)| + |p.afterKey|;
    BlanksFrom(c, o, a, k);
    R.SkipTo(c, a, k);
    StringAccepted(p.key, c, k);
    R.SkipTo(c, k + |Quoted(p.key)|, colon);
    R.SkipTo(c, colon + 1, v);
    ValueAccepted(p.value, c, v, depth);
  }

  lemma {:induction false} PairsAccepted(ps: seq<Pair>, c: seq<byte>, o: nat, a: nat, depth: nat)
    requires ps != [] && DerivesPairs(ps, Loose) && ShortPairs(ps, 63) && At(c, o, YieldPairs(ps))
    requires o <= a <= o + |ps[0].before| && Has(c, o + |YieldPairs(ps)|, CLOSE_BRACE) && depth <= NESTING_LIMIT
    ensures Comes(ParseMembers(c, a, depth), depth + NestingOfMembers(MeaningPairs(ps)) <= NESTING_LIMIT,
                  MeaningPairs(ps), o + |YieldPairs(ps)| + 1)
    decreases ps, 0
  {
    hide ParseMember, ParseMembers, ParseValue, Yield, YieldPairs, At, Skip, R.Blanks, AreBlanks, Derives, Meaning;
    hide Nesting, R.Stops;
    hide MeaningPairs;
    hide SpellKey, IsKey, UpToNul, StringBytes, NestingOfMembers;
    var next := o + |SpellKey(ps[0])| + |Yield(ps[0].value)|;
    var q := next + |ps[0].after|;
    PairStarts(ps, c, o);
    BlanksFollow(ps[0].after, c, next);
    PairAccepted(ps[0], c, o, a, depth);
    R.SkipTo(c, next, q);
    PairMeaningsAre(ps);
    if |ps| == 1 {
      NothingMeans();
      OnePair(c, a, depth);
    } else {
      PairsAccepted(ps[1..], c, q + 1, q + 1, depth);
      MorePairs(c, a, depth);
    }
  }

  lemma PairMeaningsAre(ps: seq<Pair>)
    requires ps != []
    ensures MeaningPairs(ps) == [Member(UpToNul(StringBytes(ps[0].key)), Meaning(ps[0].value))] + MeaningPairs(ps[1..])
    ensures NestingOfMembers(MeaningPairs(ps)) == Max(Nesting(Meaning(ps[0].value)), NestingOfMembers(MeaningPairs(ps[1..])))
  {
    hide Meaning, Nesting, UpToNul, StringBytes;
    var rest := MeaningPairs(ps[1..]);
    assert ([Member(UpToNul(StringBytes(ps[0].key)), Meaning(ps[0].value))] + rest)[1..] == rest;
  }

  lemma OnePair(c: seq<byte>, a: nat, depth: nat)
    requires var r := ParseMember(c, a, depth); r.Ok? ==> Has(c, Skip(c, r.next), CLOSE_BRACE)
    ensures var r := ParseMember(c, a, depth);
            if r.Ok? then ParseMembers(c, a, depth) == Ok([r.value] + [], Skip(c, r.next) + 1) else ParseMembers(c, a, depth).Err?
  {
    hide ParseMember, Skip;
    var r := ParseMember(c, a, depth);
    assert r.Ok? ==> [r.value] + [] == [r.value];
  }

  lemma MorePairs(c: seq<byte>, a: nat, depth: nat)
    requires var r := ParseMember(c, a, depth); r.Ok? ==> Has(c, Skip(c, r.next), COMMA)
    ensures var r := ParseMember(c, a, depth);
            if r.Err? then ParseMembers(c, a, depth).Err?
            else
              var rest := ParseMembers(c, Skip(c, r.next) + 1, depth);
              if rest.Err? then ParseMembers(c, a, depth).Err?
              else ParseMembers(c, a, depth) == Ok([r.value] + rest.value, rest.next)
  {
    hide ParseMember, Skip;
  }

  // ---------- whole texts ----------

  // A byte order mark, if the input is longer than 4 bytes, and blanks may stand in front of the
  // value. Where a NUL is required, nothing but blanks may stand behind it, and the last byte of
  // the input must be a NUL.
  lemma TextAccepted(c: seq<byte>, marked: bool, before: seq<byte>, t: Tree, behind: seq<byte>, requireNul: bool)
    requires c == (if marked then BOM else []) + before + Yield(t) + behind && (marked ==> |c| > 4)
    requires AreBlanks(before, Loose) && Derives(t, Loose) && ShortNumerals(t, 63)
    requires behind != [] ==> !IsNumberChar(behind[0])
    ensures var next := |c| - |behind|;
            var ended := behind != [] && behind[|behind| - 1] == 0 && AreBlanks(behind, Loose);
            Comes(ParseText(c, requireNul), Nesting(Meaning(t)) <= NESTING_LIMIT && (requireNul ==> ended),
                  Meaning(t), if requireNul then |c| - 1 else next)
  {
    hide ParseValue, Yield, Derives, Meaning, Nesting, AreBlanks, Skip, IsNumberChar, R.Blanks, ParseText, At, Has;
    var mark := if marked then BOM else [];
    var o := |mark| + |before|;
    Lies(mark, before, Yield(t), behind);
    StartOf(c, marked, before, t);
    assert R.Stops(c, o + |Yield(t)|) by {
      assert behind != [] ==> c[o + |Yield(t)|] == behind[0];
    }
    ValueAccepted(t, c, o, 0);
    NulRequired(c, |c| - |behind|, behind);
    TextIs(c, o, requireNul);
  }

  lemma TextIs(c: seq<byte>, o: nat, requireNul: bool)
    requires Skip(c, if |c| > 4 && At(c, 0, BOM) then 3 else 0) == o
    ensures var r := ParseValue(c, o, 0);
            if r.Err? then ParseText(c, requireNul).Err?
            else if !requireNul then ParseText(c, requireNul) == r
            else if Has(c, Skip(c, r.next), 0) then ParseText(c, requireNul) == Ok(r.value, Skip(c, r.next))
            else ParseText(c, requireNul).Err?
  {
    hide ParseValue, Skip;
  }

  lemma Lies(mark: seq<byte>, before: seq<byte>, text: seq<byte>, behind: seq<byte>)
    ensures var c := mark + before + text + behind;
            && At(c, 0, mark) && At(c, |mark|, before) && At(c, |mark| + |before|, text)
            && c[|mark| + |before| + |text|..] == behind
  {
    Cut(mark, before, text, behind);
    assert (mark + before + text + behind)[..|mark|] == mark;
  }

  // The parser looks for the value where it is.
  lemma StartOf(c: seq<byte>, marked: bool, before: seq<byte>, t: Tree)
    requires marked ==> |c| > 4
    requires var mark := if marked then BOM else [];
             && At(c, 0, mark) && At(c, |mark|, before) && At(c, |mark| + |before|, Yield(t))
    requires AreBlanks(before, Loose) && Derives(t, Loose)
    ensures var start := if |c| > 4 && At(c, 0, BOM) then 3 else 0;
            Skip(c, start) == (if marked then 3 else 0) + |before|
  {
    hide Yield, Derives, Skip, R.Blanks, At, AreBlanks;
    var from := if marked then 3 else 0;
    FirstOf(t);
    R.FirstByteAt(c, from + |before|, Yield(t));
    BlanksAt(before, c, from);
    R.SkipTo(c, from, from + |before|);
    if !marked && At(c, 0, BOM) {
      R.FirstByteAt(c, 0, BOM);
      FirstOfAll(c, before, t);
    }
  }

  lemma FirstOfAll(c: seq<byte>, before: seq<byte>, t: Tree)
    requires AreBlanks(before, Loose) && Derives(t, Loose) && At(c, 0, before) && At(c, |before|, Yield(t))
    ensures c != [] && c[0] != 0xEF
  {
    hide Yield, Derives;
    FirstOf(t);
    R.FirstByteAt(c, |before|, Yield(t));
    if before != [] {
      R.FirstByteAt(c, 0, before);
    }
  }

  // Behind next, blanks and a NUL at the end.
  lemma NulRequired(c: seq<byte>, next: nat, behind: seq<byte>)
    requires next <= |c| && c[next..] == behind
    ensures Has(c, Skip(c, next), 0) <==> behind != [] && behind[|behind| - 1] == 0 && AreBlanks(behind, Loose)
    ensures behind != [] && AreBlanks(behind, Loose) ==> Skip(c, next) == |c| - 1
  {
    forall i | next <= i < |c| ensures c[i] == behind[i - next] {
    }
    if behind != [] {
      assert c[|c| - 1] == behind[|behind| - 1];
      var e := BlankEnd(c, next);
      if e < |c| {
        assert behind[e - next] > 32;
        assert !AreBlanks(behind, Loose);
      } else {
        assert AreBlanks(behind, Loose);
      }
    }
  }
}
