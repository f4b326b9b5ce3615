// Where the parser reports a fault in a text that starts well: the byte at which it gives up, however
// deep inside other values that is.
module RfcErrors {
  import opened Bytes
  import opened Json
  import opened StringLiteral
  import opened NumberLiteral
  import opened JsonGrammar
  import opened Rfc8259
  import N = RfcNumbers
  import P = RfcParsing
  import U = Unicode
  import R = RoundTrip

  // ---------- texts that start well ----------

  // Elements, or pairs, each with a comma behind it.
  function Commas(es: seq<Element>): seq<byte> {
    if es == [] then [] else es[0].before + (Yield(es[0].value) + (es[0].after + ([COMMA] + Commas(es[1..]))))
  }

  function PairCommas(ps: seq<Pair>): seq<byte> {
    if ps == [] then [] else SpellKey(ps[0]) + (Yield(ps[0].value) + (ps[0].after + ([COMMA] + PairCommas(ps[1..]))))
  }

  // A value that the parser takes at that depth.
  ghost predicate Good(t: Tree, depth: nat) {
    Derives(t, Loose) && ShortNumerals(t, 63) && depth + Nesting(Meaning(t)) <= NESTING_LIMIT
  }

  ghost predicate GoodElement(e: Element, depth: nat) {
    AreBlanks(e.before, Loose) && Good(e.value, depth) && AreBlanks(e.after, Loose)
  }

  ghost predicate GoodPair(p: Pair, depth: nat) {
    IsKey(p, Loose) && Good(p.value, depth) && AreBlanks(p.after, Loose)
  }

  ghost predicate GoodElements(es: seq<Element>, depth: nat) {
    forall i :: 0 <= i < |es| ==> GoodElement(es[i], depth)
  }

  ghost predicate GoodPairs(ps: seq<Pair>, depth: nat) {
    forall i :: 0 <= i < |ps| ==> GoodPair(ps[i], depth)
  }

  // An array or object that is open: what is complete of it, and what stands in front of the value
  // that comes next; the value and what is behind it do not matter.
  datatype Frame = InArray(elements: seq<Element>, before: seq<byte>) | InObject(pairs: seq<Pair>, key: Pair)

  function Opening(f: Frame): seq<byte> {
    match f
    case InArray(es, before) => [OPEN_BRACKET] + (Commas(es) + before)
    case InObject(ps, key) => [OPEN_BRACE] + (PairCommas(ps) + SpellKey(key))
  }

  ghost predicate GoodFrame(f: Frame, depth: nat) {
    match f
    case InArray(es, before) => GoodElements(es, depth + 1) && AreBlanks(before, Loose)
    case InObject(ps, key) => GoodPairs(ps, depth + 1) && IsKey(key, Loose)
  }

  // From the outermost one inwards.
  function Openings(fs: seq<Frame>): seq<byte> {
    if fs == [] then [] else Opening(fs[0]) + Openings(fs[1..])
  }

  ghost predicate GoodFrames(fs: seq<Frame>, depth: nat)
    decreases fs
  {
    fs == [] || (depth < NESTING_LIMIT && GoodFrame(fs[0], depth) && GoodFrames(fs[1..], depth + 1))
  }

  // An array in which nothing is complete yet.
  predicate IsEmpty(f: Frame) {
    f.InArray? && f.elements == []
  }

  // A byte that could start a value, or at least is no blank; and no bracket that closes an array
  // nothing stands in.
  predicate Starts(fs: seq<Frame>, b: byte) {
    b > 32 && (fs != [] && IsEmpty(fs[|fs| - 1]) ==> b != CLOSE_BRACKET)
  }

  // ---------- what is complete is passed over ----------

  lemma OneElement(e: Element, c: seq<byte>, o: nat, a: nat, depth: nat, rest: seq<byte>)
    requires GoodElement(e, depth) && o <= a <= o + |e.before|
    requires At(c, o, e.before + (Yield(e.value) + (e.after + rest)))
    requires var q := o + |e.before| + |Yield(e.value)| + |e.after|;
             q < |c| && c[q] > 32 && R.Stops(c, q - |e.after|)
    ensures var v, next := o + |e.before|, o + |e.before| + |Yield(e.value)|;
            && Skip(c, a) == v && ParseValue(c, v, depth) == Ok(Meaning(e.value), next)
            && Skip(c, next) == next + |e.after| && At(c, next + |e.after|, rest)
  {
    hide At, AreBlanks, Yield, Derives, Meaning, Nesting, ParseValue, Skip, R.Blanks, R.Stops;
    var v, next := o + |e.before|, o + |e.before| + |Yield(e.value)|;
    AtSplit(c, o, e.before, Yield(e.value) + (e.after + rest));
    AtSplit(c, v, Yield(e.value), e.after + rest);
    AtSplit(c, next, e.after, rest);
    P.FirstOf(e.value);
    R.FirstByteAt(c, v, Yield(e.value));
    P.BlanksAt(e.before, c, o);
    P.BlanksAt(e.after, c, next);
    P.BlanksFrom(c, o, a, v);
    R.SkipTo(c, a, v);
    R.SkipTo(c, next, next + |e.after|);
    P.ValueAccepted(e.value, c, v, depth);
  }

  // An element with its comma.
  lemma ElementPassed(e: Element, c: seq<byte>, o: nat, a: nat, depth: nat, rest: seq<byte>)
    requires GoodElement(e, depth) && o <= a <= o + |e.before|
    requires At(c, o, e.before + (Yield(e.value) + (e.after + ([COMMA] + rest))))
    ensures var o' := o + |e.before| + |Yield(e.value)| + |e.after| + 1;
            && At(c, o', rest)
            && (ParseItems(c, o', depth).Err? ==> ParseItems(c, a, depth) == Err(ParseItems(c, o', depth).at))
  {
    hide At, AreBlanks, Yield, Derives, Meaning, Nesting, ParseValue, Skip, R.Blanks, R.Stops, Good;
    var q := o + |e.before| + |Yield(e.value)| + |e.after|;
    var all := e.before + (Yield(e.value) + (e.after + ([COMMA] + rest)));
    AtSplit(c, o, e.before, Yield(e.value) + (e.after + ([COMMA] + rest)));
    AtSplit(c, o + |e.before|, Yield(e.value), e.after + ([COMMA] + rest));
    AtSplit(c, q - |e.after|, e.after, [COMMA] + rest);
    AtSplit(c, q, [COMMA], rest);
    R.AtOne(c, q, COMMA);
    P.BlanksFollow(e.after, c, q - |e.after|);
    OneElement(e, c, o, a, depth, [COMMA] + rest);
  }

  // What the parser makes of a place behind some elements, it makes of the elements.
  lemma {:induction false} ElementsPassed(es: seq<Element>, c: seq<byte>, o: nat, a: nat, depth: nat)
    requires GoodElements(es, depth) && At(c, o, Commas(es)) && o <= a && (es == [] ==> a == o)
    requires es != [] ==> a <= o + |es[0].before|
    ensures ParseItems(c, o + |Commas(es)|, depth).Err? ==>
              ParseItems(c, a, depth) == Err(ParseItems(c, o + |Commas(es)|, depth).at)
    decreases |es|
  {
    hide At, Yield, ParseItems, GoodElement;
    if es != [] {
      var o' := o + |es[0].before| + |Yield(es[0].value)| + |es[0].after| + 1;
      assert GoodElement(es[0], depth);
      ElementPassed(es[0], c, o, a, depth, Commas(es[1..]));
      ElementsPassed(es[1..], c, o', o', depth);
    }
  }

  // An array is refused where its elements are, unless it is empty.
  lemma ArrayRefused(es: seq<Element>, c: seq<byte>, o: nat, depth: nat)
    requires Has(c, o, OPEN_BRACKET) && At(c, o + 1, Commas(es)) && GoodElements(es, depth + 1) && depth < NESTING_LIMIT
    requires var o' := o + 1 + |Commas(es)|;
             && ParseItems(c, o', depth + 1).Err? && Skip(c, o') < |c| && c[Skip(c, o')] > 32
             && (es == [] ==> c[Skip(c, o')] != CLOSE_BRACKET)
    ensures ParseValue(c, o, depth) == Err(ParseItems(c, o + 1 + |Commas(es)|, depth + 1).at)
  {
    hide ParseValue, ParseItems, Yield, At, R.Blanks, AreBlanks, Derives;
    R.Dispatch(c, o, depth);
    var p := Skip(c, o + 1);
    if es == [] {
      SkipTwice(c, o + 1);
      ItemsFrom(c, o + 1, p, depth + 1);
    } else {
      FirstElement(es, c, o + 1, depth + 1);
      ElementsPassed(es, c, o + 1, p, depth + 1);
    }
  }

  lemma SkipTwice(c: seq<byte>, o: nat)
    requires Skip(c, o) < |c| && c[Skip(c, o)] > 32
    ensures Skip(c, Skip(c, o)) == Skip(c, o)
  {
  }

  lemma ItemsFrom(c: seq<byte>, o: nat, p: nat, depth: nat)
    requires Skip(c, o) == Skip(c, p)
    ensures ParseItems(c, o, depth) == ParseItems(c, p, depth)
  {
    hide ParseValue, Skip;
  }

  lemma FirstElement(es: seq<Element>, c: seq<byte>, o: nat, depth: nat)
    requires es != [] && GoodElements(es, depth) && At(c, o, Commas(es))
    ensures Skip(c, o) == o + |es[0].before| < |c| && c[Skip(c, o)] > 32 && c[Skip(c, o)] != CLOSE_BRACKET
  {
    hide At, Yield, AreBlanks, Skip, R.Blanks, Derives;
    var e := es[0];
    assert GoodElement(e, depth);
    AtSplit(c, o, e.before, Yield(e.value) + (e.after + ([COMMA] + Commas(es[1..]))));
    AtSplit(c, o + |e.before|, Yield(e.value), e.after + ([COMMA] + Commas(es[1..])));
    P.FirstOf(e.value);
    R.FirstByteAt(c, o + |e.before|, Yield(e.value));
    P.BlanksAt(e.before, c, o);
    R.SkipTo(c, o, o + |e.before|);
  }

  // A pair with its comma.
  lemma PairPassed(p: Pair, c: seq<byte>, o: nat, a: nat, depth: nat, rest: seq<byte>)
    requires GoodPair(p, depth) && o <= a <= o + |p.before| && depth <= NESTING_LIMIT
    requires At(c, o, SpellKey(p) + (Yield(p.value) + (p.after + ([COMMA] + rest))))
    ensures var o' := o + |SpellKey(p)| + |Yield(p.value)| + |p.after| + 1;
            && At(c, o', rest)
            && (ParseMembers(c, o', depth).Err? ==> ParseMembers(c, a, depth) == Err(ParseMembers(c, o', depth).at))
  {
    hide At, AreBlanks, Yield, Derives, Meaning, Nesting, ParseMember, ParseMembers, Skip, R.Blanks, R.Stops, SpellKey;
    hide IsKey;
    hide UpToNul, StringBytes, ShortNumerals;
    var v := o + |SpellKey(p)|;
    var q := v + |Yield(p.value)| + |p.after|;
    AtSplit(c, o, SpellKey(p), Yield(p.value) + (p.after + ([COMMA] + rest)));
    AtSplit(c, v, Yield(p.value), p.after + ([COMMA] + rest));
    AtSplit(c, q - |p.after|, p.after, [COMMA] + rest);
    AtSplit(c, q, [COMMA], rest);
    R.AtOne(c, q, COMMA);
    P.BlanksFollow(p.after, c, q - |p.after|);
    P.BlanksAt(p.after, c, q - |p.after|);
    R.SkipTo(c, q - |p.after|, q);
    P.FirstOf(p.value);
    R.FirstByteAt(c, v, Yield(p.value));
    P.PairAccepted(p, c, o, a, depth);
    MembersGoOn(c, a, depth);
  }

  lemma MembersGoOn(c: seq<byte>, a: nat, depth: nat)
    requires var r := ParseMember(c, a, depth); r.Ok? && Has(c, Skip(c, r.next), COMMA)
    ensures var rest := ParseMembers(c, Skip(c, ParseMember(c, a, depth).next) + 1, depth);
            rest.Err? ==> ParseMembers(c, a, depth) == Err(rest.at)
  {
    hide ParseMember, Skip;
  }

  lemma {:induction false} PairsPassed(ps: seq<Pair>, c: seq<byte>, o: nat, a: nat, depth: nat)
    requires GoodPairs(ps, depth) && At(c, o, PairCommas(ps)) && o <= a && (ps == [] ==> a == o) && depth <= NESTING_LIMIT
    requires ps != [] ==> a <= o + |ps[0].before|
    ensures ParseMembers(c, o + |PairCommas(ps)|, depth).Err? ==>
              ParseMembers(c, a, depth) == Err(ParseMembers(c, o + |PairCommas(ps)|, depth).at)
    decreases |ps|
  {
    hide At, Yield, ParseMembers, GoodPair, SpellKey;
    if ps != [] {
      var o' := o + |SpellKey(ps[0])| + |Yield(ps[0].value)| + |ps[0].after| + 1;
      assert GoodPair(ps[0], depth);
      PairPassed(ps[0], c, o, a, depth, PairCommas(ps[1..]));
      PairsPassed(ps[1..], c, o', o', depth);
    }
  }

  lemma ObjectRefused(ps: seq<Pair>, c: seq<byte>, o: nat, depth: nat)
    requires Has(c, o, OPEN_BRACE) && At(c, o + 1, PairCommas(ps)) && GoodPairs(ps, depth + 1) && depth < NESTING_LIMIT
    requires var o' := o + 1 + |PairCommas(ps)|;
             && ParseMembers(c, o', depth + 1).Err? && Skip(c, o') < |c| && c[Skip(c, o')] > 32
             && (ps == [] ==> c[Skip(c, o')] != CLOSE_BRACE)
    ensures ParseValue(c, o, depth) == Err(ParseMembers(c, o + 1 + |PairCommas(ps)|, depth + 1).at)
  {
    hide ParseValue, ParseMembers, ParseObject, ParseString, Yield, At, R.Blanks, AreBlanks, Derives, Skip, PairCommas;
    R.Dispatch(c, o, depth);
    var p := Skip(c, o + 1);
    if ps == [] {
      NoPairs();
      SkipTwice(c, o + 1);
      MembersFrom(c, o + 1, p, depth + 1);
    } else {
      FirstKey(ps, c, o + 1, depth + 1);
      PairsPassed(ps, c, o + 1, p, depth + 1);
    }
    MembersRefused(c, o, depth);
  }

  lemma NoPairs()
    ensures PairCommas([]) == []
  {
  }

  lemma MembersRefused(c: seq<byte>, o: nat, depth: nat)
    requires Has(c, o, OPEN_BRACE) && depth < NESTING_LIMIT
    requires var p := Skip(c, o + 1); p < |c| && c[p] != CLOSE_BRACE && ParseMembers(c, p, depth + 1).Err?
    ensures ParseObject(c, o, depth) == Err(ParseMembers(c, Skip(c, o + 1), depth + 1).at)
  {
    hide ParseMembers, Skip;
  }

  lemma MembersFrom(c: seq<byte>, o: nat, p: nat, depth: nat)
    requires Skip(c, o) == Skip(c, p)
    ensures ParseMembers(c, o, depth) == ParseMembers(c, p, depth)
  {
    hide ParseValue, ParseString, Skip;
  }

  lemma FirstKey(ps: seq<Pair>, c: seq<byte>, o: nat, depth: nat)
    requires ps != [] && GoodPairs(ps, depth) && At(c, o, PairCommas(ps))
    ensures Skip(c, o) == o + |ps[0].before| < |c| && c[Skip(c, o)] == QUOTE
  {
    hide At, Yield, AreBlanks, Skip, R.Blanks, Derives, SpellKey, IsKey;
    var p := ps[0];
    assert GoodPair(p, depth);
    AtSplit(c, o, SpellKey(p), Yield(p.value) + (p.after + ([COMMA] + PairCommas(ps[1..]))));
    P.KeyStarts(p, c, o);
    R.SkipTo(c, o, o + |p.before|);
  }

  // ---------- a fault deep inside ----------

  lemma FrameRefused(f: Frame, c: seq<byte>, o: nat, depth: nat)
    requires GoodFrame(f, depth) && depth < NESTING_LIMIT && At(c, o, Opening(f))
    requires var v := o + |Opening(f)|;
             v < |c| && c[v] > 32 && ParseValue(c, v, depth + 1).Err? && (IsEmpty(f) ==> c[v] != CLOSE_BRACKET)
    ensures o < |c| && c[o] > 32 && c[o] != CLOSE_BRACKET
    ensures ParseValue(c, o, depth) == Err(ParseValue(c, o + |Opening(f)|, depth + 1).at)
  {
    hide At, Commas, PairCommas, SpellKey, IsKey, AreBlanks, GoodElements, GoodPairs, ParseValue, ParseItems;
    hide ParseMembers, R.Blanks, Skip;
    match f
    case InArray(es, before) =>
      AtSplit(c, o, [OPEN_BRACKET], Commas(es) + before);
      AtSplit(c, o + 1, Commas(es), before);
      R.AtOne(c, o, OPEN_BRACKET);
      var o' := o + 1 + |Commas(es)|;
      P.BlanksAt(before, c, o');
      R.SkipTo(c, o', o' + |before|);
      ItemRefused(c, o', depth + 1);
      ArrayRefused(es, c, o, depth);
    case InObject(ps, key) =>
      AtSplit(c, o, [OPEN_BRACE], PairCommas(ps) + SpellKey(key));
      AtSplit(c, o + 1, PairCommas(ps), SpellKey(key));
      R.AtOne(c, o, OPEN_BRACE);
      var o' := o + 1 + |PairCommas(ps)|;
      ValueRefused(key, c, o', depth + 1);
      ObjectRefused(ps, c, o, depth);
  }

  lemma ItemRefused(c: seq<byte>, o: nat, depth: nat)
    requires ParseValue(c, Skip(c, o), depth).Err?
    ensures ParseItems(c, o, depth) == Err(ParseValue(c, Skip(c, o), depth).at)
  {
    hide ParseValue, Skip;
  }

  lemma ValueRefused(key: Pair, c: seq<byte>, o: nat, depth: nat)
    requires IsKey(key, Loose) && At(c, o, SpellKey(key))
    requires var v := o + |SpellKey(key)|; v < |c| && c[v] > 32 && ParseValue(c, v, depth).Err?
    ensures Skip(c, o) < |c| && c[Skip(c, o)] == QUOTE
    ensures ParseMembers(c, o, depth) == Err(ParseValue(c, o + |SpellKey(key)|, depth).at)
  {
    hide At, AreBlanks, AreChars, Quoted, ParseValue, ParseString, R.Blanks, Skip, SpellKey, StringBytes, UpToNul;
    P.KeyStarts(key, c, o);
    var k, v := o + |key.before|, o + |SpellKey(key)|;
    var colon := k + |Quoted(key.key)| + |key.afterKey|;
    R.SkipTo(c, o, k);
    P.StringAccepted(key.key, c, k);
    R.SkipTo(c, k + |Quoted(key.key)|, colon);
    R.SkipTo(c, colon + 1, v);
  }

  // What is wrong with a value is reported as it is wherever the value stands.
  lemma {:induction false} FaultInside(fs: seq<Frame>, c: seq<byte>, o: nat, depth: nat)
    requires GoodFrames(fs, depth) && At(c, o, Openings(fs))
    requires var v := o + |Openings(fs)|; v < |c| && Starts(fs, c[v]) && ParseValue(c, v, depth + |fs|).Err?
    ensures ParseValue(c, o, depth) == Err(ParseValue(c, o + |Openings(fs)|, depth + |fs|).at)
    ensures o < |c| && c[o] > 32 && (fs != [] ==> c[o] != CLOSE_BRACKET)
    decreases |fs|
  {
    hide At, Opening, GoodFrame, ParseValue;
    if fs != [] {
      var f := fs[0];
      AtSplit(c, o, Opening(f), Openings(fs[1..]));
      if |fs| > 1 {
        assert fs[1..][|fs| - 2] == fs[|fs| - 1];
      }
      FaultInside(fs[1..], c, o + |Opening(f)|, depth + 1);
      FrameRefused(f, c, o, depth);
    }
  }

  // ---------- the faults ----------

  // Nothing that starts a value: at that byte. An array or object too deep: at its bracket. A minus
  // sign without a number: at the sign. A string that is not closed: behind its quote.
  lemma NoValue(c: seq<byte>, o: nat, depth: nat)
    requires o < |c| && !At(c, o, NULL_TEXT) && !At(c, o, TRUE_TEXT) && !At(c, o, FALSE_TEXT)
    ensures c[o] != QUOTE && c[o] != MINUS && !IsDigit(c[o]) && c[o] != OPEN_BRACKET && c[o] != OPEN_BRACE ==>
              ParseValue(c, o, depth) == Err(o)
    ensures (c[o] == OPEN_BRACKET || c[o] == OPEN_BRACE) && depth >= NESTING_LIMIT ==> ParseValue(c, o, depth) == Err(o)
    ensures c[o] == MINUS && (o + 1 == |c| || (!IsDigit(c[o + 1]) && c[o + 1] != DOT)) ==> ParseValue(c, o, depth) == Err(o)
    ensures c[o] == QUOTE && Closing(c, o + 1) == None ==> ParseValue(c, o, depth) == Err(o + 1)
  {
    hide At, ParseItems, ParseMembers, Decode, Strtod;
    if c[o] == MINUS && (o + 1 == |c| || (!IsDigit(c[o + 1]) && c[o + 1] != DOT)) {
      MinusAlone(c, o);
    }
  }

  lemma MinusAlone(c: seq<byte>, o: nat)
    requires o < |c| && c[o] == MINUS && (o + 1 == |c| || (!IsDigit(c[o + 1]) && c[o + 1] != DOT))
    ensures ParseNumber(c, o) == Err(o)
  {
    var s := c[o..o + NumberCharCount(c, o, 63)];
    assert |s| >= 1 && s[0] == MINUS;
    assert |s| > 1 ==> s[1] == c[o + 1];
    assert DigitRun(s, 1) == 1;
    assert s[1..1] + s[1..1] == [];
  }

  // A bad escape: at its backslash.
  lemma BadEscape(c: seq<byte>, o: nat, end: nat, p: nat, depth: nat)
    requires Has(c, o, QUOTE) && Closing(c, o + 1) == Some(end) && p < end
    requires U.Reached(c, o + 1, end, p) && Token(c, p, end).1 == 0
    ensures ParseValue(c, o, depth) == Err(p)
  {
    hide Token, U.Reached, ParseValue, Closing, Decode;
    R.Dispatch(c, o, depth);
    U.RefusedAt(c, o + 1, end, p);
  }

  // In an array a byte behind an element that is no comma and no bracket: at that byte.
  lemma NoComma(es: seq<Element>, e: Element, c: seq<byte>, o: nat, depth: nat)
    requires GoodElements(es, depth + 1) && GoodElement(e, depth + 1) && depth < NESTING_LIMIT
    requires At(c, o, [OPEN_BRACKET] + (Commas(es) + (e.before + (Yield(e.value) + (e.after + [])))))
    requires var q := o + 1 + |Commas(es)| + |e.before| + |Yield(e.value)| + |e.after|;
             q < |c| && c[q] > 32 && c[q] != COMMA && c[q] != CLOSE_BRACKET && !IsNumberChar(c[q])
    ensures ParseValue(c, o, depth) == Err(o + 1 + |Commas(es)| + |e.before| + |Yield(e.value)| + |e.after|)
  {
    hide At, AreBlanks, Yield, Commas, GoodElements, Good, ParseValue, ParseItems, Skip, R.Blanks, R.Stops;
    hide IsNumberChar;
    var last := e.before + (Yield(e.value) + (e.after + []));
    AtSplit(c, o, [OPEN_BRACKET], Commas(es) + last);
    AtSplit(c, o + 1, Commas(es), last);
    R.AtOne(c, o, OPEN_BRACKET);
    var o' := o + 1 + |Commas(es)|;
    LastElement(e, c, o', depth + 1);
    ArrayRefused(es, c, o, depth);
  }

  lemma LastElement(e: Element, c: seq<byte>, o: nat, depth: nat)
    requires GoodElement(e, depth) && At(c, o, e.before + (Yield(e.value) + (e.after + [])))
    requires var q := o + |e.before| + |Yield(e.value)| + |e.after|;
             q < |c| && c[q] > 32 && c[q] != COMMA && c[q] != CLOSE_BRACKET && !IsNumberChar(c[q])
    ensures ParseItems(c, o, depth) == Err(o + |e.before| + |Yield(e.value)| + |e.after|)
    ensures Skip(c, o) < |c| && c[Skip(c, o)] > 32 && c[Skip(c, o)] != CLOSE_BRACKET
  {
    hide At, AreBlanks, Yield, Derives, Meaning, Nesting, ParseValue, Skip, R.Blanks, IsNumberChar;
    var next := o + |e.before| + |Yield(e.value)|;
    AtSplit(c, o, e.before, Yield(e.value) + (e.after + []));
    AtSplit(c, o + |e.before|, Yield(e.value), e.after + []);
    AtSplit(c, next, e.after, []);
    P.FirstOf(e.value);
    R.FirstByteAt(c, o + |e.before|, Yield(e.value));
    StopsBehind(e.after, c, next);
    OneElement(e, c, o, o, depth, []);
  }

  lemma StopsBehind(s: seq<byte>, c: seq<byte>, e: nat)
    requires AreBlanks(s, Loose) && At(c, e, s) && (e + |s| < |c| ==> !IsNumberChar(c[e + |s|]))
    ensures R.Stops(c, e)
  {
    P.BlanksAt(s, c, e);
  }

  // In an object a byte that is no quote where a key is to be: one behind that byte. Behind the key,
  // one that is no colon: at that byte.
  lemma NoKey(ps: seq<Pair>, before: seq<byte>, c: seq<byte>, o: nat, depth: nat)
    requires GoodPairs(ps, depth + 1) && AreBlanks(before, Loose) && depth < NESTING_LIMIT
    requires At(c, o, [OPEN_BRACE] + (PairCommas(ps) + before))
    requires var k := o + 1 + |PairCommas(ps)| + |before|;
             k < |c| && c[k] > 32 && c[k] != QUOTE && (ps == [] ==> c[k] != CLOSE_BRACE)
    ensures ParseValue(c, o, depth) == Err(o + 1 + |PairCommas(ps)| + |before| + 1)
  {
    hide At, AreBlanks, PairCommas, GoodPairs, ParseValue, Skip, R.Blanks;
    AtSplit(c, o, [OPEN_BRACE], PairCommas(ps) + before);
    AtSplit(c, o + 1, PairCommas(ps), before);
    R.AtOne(c, o, OPEN_BRACE);
    var o' := o + 1 + |PairCommas(ps)|;
    P.BlanksAt(before, c, o');
    R.SkipTo(c, o', o' + |before|);
    ObjectRefused(ps, c, o, depth);
  }

  lemma NoColon(ps: seq<Pair>, before: seq<byte>, key: seq<Char>, after: seq<byte>, c: seq<byte>, o: nat, depth: nat)
    requires GoodPairs(ps, depth + 1) && AreBlanks(before, Loose) && AreChars(key, Loose) && AreBlanks(after, Loose)
    requires depth < NESTING_LIMIT && At(c, o, [OPEN_BRACE] + (PairCommas(ps) + (before + (Quoted(key) + after))))
    requires var q := o + 1 + |PairCommas(ps)| + |before| + |Quoted(key)| + |after|; q < |c| && c[q] > 32 && c[q] != COLON
    ensures ParseValue(c, o, depth) == Err(o + 1 + |PairCommas(ps)| + |before| + |Quoted(key)| + |after|)
  {
    hide At, AreBlanks, AreChars, PairCommas, GoodPairs, ParseValue, ParseString, Quoted, Skip, R.Blanks, StringBytes;
    hide UpToNul;
    AtSplit(c, o, [OPEN_BRACE], PairCommas(ps) + (before + (Quoted(key) + after)));
    AtSplit(c, o + 1, PairCommas(ps), before + (Quoted(key) + after));
    R.AtOne(c, o, OPEN_BRACE);
    var o' := o + 1 + |PairCommas(ps)|;
    var k := o' + |before|;
    AtSplit(c, o', before, Quoted(key) + after);
    AtSplit(c, k, Quoted(key), after);
    P.BlanksAt(before, c, o');
    P.BlanksAt(after, c, k + |Quoted(key)|);
    P.QuotedFirst(key);
    R.FirstByteAt(c, k, Quoted(key));
    R.SkipTo(c, o', k);
    P.StringAccepted(key, c, k);
    R.SkipTo(c, k + |Quoted(key)|, k + |Quoted(key)| + |after|);
    ObjectRefused(ps, c, o, depth);
  }

  // ---------- what is reported ----------

  // The fault of a whole text is reported where it is, but not behind the last byte.
  lemma Reported(fs: seq<Frame>, c: seq<byte>, marked: bool, before: seq<byte>, requireNul: bool)
    requires GoodFrames(fs, 0) && AreBlanks(before, Loose) && (marked ==> |c| > 4)
    requires At(c, 0, (if marked then BOM else []) + (before + Openings(fs)))
    requires !marked ==> !At(c, 0, BOM)
    requires var v := (if marked then 3 else 0) + |before| + |Openings(fs)|;
             v < |c| && Starts(fs, c[v]) && ParseValue(c, v, |fs|).Err?
    ensures var at := ParseValue(c, (if marked then 3 else 0) + |before| + |Openings(fs)|, |fs|).at;
            ParseText(c, requireNul) == Err(if at < |c| then at else |c| - 1)
  {
    hide At, AreBlanks, Openings, GoodFrames, ParseValue, Skip, R.Blanks;
    var mark := if marked then BOM else [];
    AtSplit(c, 0, mark, before + Openings(fs));
    AtSplit(c, |mark|, before, Openings(fs));
    P.BlanksAt(before, c, |mark|);
    FaultInside(fs, c, |mark| + |before|, 0);
    R.SkipTo(c, |mark|, |mark| + |before|);
  }

  // Bytes behind the value where the NUL is required: at the first one that is no blank, or else at
  // the last one.
  lemma NoEnd(c: seq<byte>, next: nat, v: Json, behind: seq<byte>)
    requires ParseText(c, false) == Ok(v, next) && next < |c| && behind == c[next..]
    ensures ParseText(c, true) == Ok(v, |c| - 1) || (ParseText(c, true).Err? && Unblank(c, next, ParseText(c, true).at))
  {
    hide ParseValue;
  }

  ghost predicate Unblank(c: seq<byte>, next: nat, at: nat) {
    && next <= at < |c| && (forall i :: next <= i < at ==> c[i] <= 32)
    && (c[at] > 32 || (at + 1 == |c| && c[at] != 0))
  }
}
