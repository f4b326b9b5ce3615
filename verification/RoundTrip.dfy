// Parsing what was printed gives the value back.
module RoundTrip {
  import opened Bytes
  import opened Json
  import opened TextFacts
  import opened StringLiteral
  import opened NumberLiteral
  import opened JsonGrammar

  // ---------- blanks ----------

  ghost predicate Blanks(c: seq<byte>, a: nat, b: nat) {
    a <= b <= |c| && forall i :: a <= i < b ==> c[i] <= 32
  }

  lemma {:induction false} BlankEndAt(c: seq<byte>, a: nat, b: nat)
    requires Blanks(c, a, b) && b < |c| && c[b] > 32
    ensures BlankEnd(c, a) == b
    decreases b - a
  {
    if a < b {
      BlankEndAt(c, a + 1, b);
    }
  }

  lemma SkipTo(c: seq<byte>, a: nat, b: nat)
    requires Blanks(c, a, b) && b < |c| && c[b] > 32
    ensures Skip(c, a) == b
  {
    BlankEndAt(c, a, b);
  }

  // ---------- strings ----------

  lemma EscapeByte(b: byte, c: seq<byte>, i: nat, end: nat)
    requires b != 0 && At(c, i, Escape(b)) && i + |Escape(b)| <= end < |c|
    ensures Token(c, i, end) == ([b], |Escape(b)|)
    ensures Closing(c, i) == Closing(c, i + |Escape(b)|)
  {
    var e := Escape(b);
    forall k | 0 <= k < |e| ensures c[i + k] == e[k] {
      assert c[i..i + |e|][k] == e[k];
    }
    if |e| == 6 {
      var h := c[i + 2..i + 6];
      assert h == e[2..6];
      HexDigits(b / 16);
      HexDigits(b % 16);
      assert Hex4(h) == b;
      assert Closing(c, i) == Closing(c, i + 2) == Closing(c, i + 3) == Closing(c, i + 4);
      assert Closing(c, i + 4) == Closing(c, i + 5) == Closing(c, i + 6);
    }
  }

  lemma HexDigits(d: int)
    requires 0 <= d < 16
    ensures IsHex(HexDigit(d)) && HexValue(HexDigit(d)) == d
  {
  }

  lemma {:induction false} EscapedString(s: CString, c: seq<byte>, i: nat)
    requires At(c, i, EscapeAll(s)) && Has(c, i + |EscapeAll(s)|, QUOTE)
    ensures Closing(c, i) == Some(i + |EscapeAll(s)|)
    ensures Decode(c, i, i + |EscapeAll(s)|) == Decoded(s)
    decreases |s|
  {
    hide Token, Escape, Closing, Decode, At;
    if s == [] {
      EndOfString(c, i);
    } else {
      var end := i + |EscapeAll(s)|;
      AtSplit(c, i, Escape(s[0]), EscapeAll(s[1..]));
      EscapeByte(s[0], c, i, end);
      EscapedString(s[1..], c, i + |Escape(s[0])|);
      DecodeOne(c, i, end);
      assert [s[0]] + s[1..] == s;
    }
  }

  lemma EndOfString(c: seq<byte>, i: nat)
    requires Has(c, i, QUOTE)
    ensures Closing(c, i) == Some(i) && Decode(c, i, i) == Decoded([])
  {
  }

  lemma DecodeOne(c: seq<byte>, i: nat, end: nat)
    requires i < end < |c| && Token(c, i, end).1 > 0 && Decode(c, i + Token(c, i, end).1, end).Decoded?
    ensures Decode(c, i, end) == Decoded(Token(c, i, end).0 + Decode(c, i + Token(c, i, end).1, end).bytes)
  {
  }

  lemma StringParses(s: CString, c: seq<byte>, o: nat)
    requires At(c, o, StringText(s))
    ensures ParseString(c, o) == Ok(s, o + |StringText(s)|)
  {
    hide Token, Escape;
    AtSplit(c, o, [QUOTE] + EscapeAll(s), [QUOTE]);
    AtSplit(c, o, [QUOTE], EscapeAll(s));
    AtOne(c, o, QUOTE);
    AtOne(c, o + 1 + |EscapeAll(s)|, QUOTE);
    EscapedString(s, c, o + 1);
    UpToNulOfCString(s);
  }

  lemma AtOne(c: seq<byte>, o: nat, b: byte)
    ensures At(c, o, [b]) <==> Has(c, o, b)
  {
    if o < |c| {
      assert c[o..o + 1] == [c[o]];
    }
  }

  // ---------- numbers ----------

  // A number ends where no number character follows it.
  ghost predicate Stops(c: seq<byte>, e: nat) {
    e < |c| ==> !IsNumberChar(c[e])
  }

  lemma {:induction false} DigitsRoundTrip(n: nat)
    ensures DigitsValue(Digits(n)) == n
  {
    if n < 10 {
      assert Digits(n)[..0] == [];
    } else {
      var d := Digits(n / 10);
      assert Digits(n)[..|d|] == d;
      DigitsRoundTrip(n / 10);
    }
  }

  lemma {:induction false} CountAll(c: seq<byte>, o: nat, e: nat, most: nat)
    requires o <= e <= |c| && e - o <= most && Stops(c, e)
    requires forall i :: o <= i < e ==> IsNumberChar(c[i])
    ensures NumberCharCount(c, o, most) == e - o
    decreases e - o
  {
    if o < e {
      CountAll(c, o + 1, e, most - 1);
    }
  }

  lemma {:induction false} RunToEnd(s: seq<byte>, i: nat)
    requires i <= |s| && forall k :: i <= k < |s| ==> IsDigit(s[k])
    ensures DigitRun(s, i) == |s|
    decreases |s| - i
  {
    if i < |s| {
      RunToEnd(s, i + 1);
    }
  }

  lemma NumberConverts(n: Int64)
    ensures var m: nat := if n < 0 then -(n as int) else n;
            Strtod(NumberText(n)) == Some(Decimal(n < 0, m, 0, |NumberText(n)|))
  {
    var s := NumberText(n);
    var m: nat := if n < 0 then -(n as int) else n;
    var start := if n < 0 then 1 else 0;
    assert s[start..] == Digits(m);
    assert IsDigit(s[start]) by {
      assert s[start] == Digits(m)[0];
    }
    forall k | start <= k < |s| ensures IsDigit(s[k]) {
      assert s[k] == Digits(m)[k - start];
    }
    RunToEnd(s, start);
    DigitsRoundTrip(m);
    assert s[start..|s|] + s[|s|..|s|] == Digits(m);
  }

  lemma NumberParses(n: Int64, c: seq<byte>, o: nat)
    requires At(c, o, NumberText(n)) && Stops(c, o + |NumberText(n)|)
    ensures ParseNumber(c, o) == Ok(n, o + |NumberText(n)|)
  {
    hide Strtod, NumberText, NumberCharCount, ValueInt, At, Stops;
    NumberRun(n, c, o);
    NumberValue(n);
  }

  lemma NumberValue(n: Int64)
    ensures var d := Strtod(NumberText(n)); d.Some? && d.value.length == |NumberText(n)| && ValueInt(d.value) == n
  {
    hide Strtod, NumberText;
    NumberConverts(n);
  }

  // The characters collected for the number are those of its text.
  lemma NumberRun(n: Int64, c: seq<byte>, o: nat)
    requires At(c, o, NumberText(n)) && Stops(c, o + |NumberText(n)|)
    ensures o + |NumberText(n)| <= |c| && NumberCharCount(c, o, 63) == |NumberText(n)|
    ensures c[o..o + |NumberText(n)|] == NumberText(n)
  {
    hide Digits, NumberCharCount, Stops;
    var s := NumberText(n);
    var e := o + |s|;
    NumberTextBound(n);
    forall i | o <= i < e ensures IsNumberChar(c[i]) {
      assert c[i] == c[o..e][i - o];
    }
    CountAll(c, o, e, 63);
  }

  // ---------- values ----------

  lemma FirstByte(v: Json, format: bool, depth: nat)
    ensures var t := Text(v, format, depth);
            |t| > 0 && t[0] > 32 && t[0] != CLOSE_BRACKET
  {
    match v
    case JNum(n) => NumberTextBound(n);
    case _ =>
  }

  // The value at o is none of the ones that are recognised before its own kind.
  lemma FirstByteAt(c: seq<byte>, o: nat, t: seq<byte>)
    requires At(c, o, t) && |t| > 0
    ensures o < |c| && c[o] == t[0]
  {
    assert c[o..o + |t|][0] == t[0];
  }

  lemma Dispatch(c: seq<byte>, o: nat, depth: nat)
    requires o < |c|
    ensures c[o] == QUOTE ==>
              ParseValue(c, o, depth) == match ParseString(c, o) { case Ok(s, next) => Ok(JStr(s), next) case Err(at) => Err(at) }
    ensures c[o] == MINUS || IsDigit(c[o]) ==>
              ParseValue(c, o, depth) == match ParseNumber(c, o) { case Ok(n, next) => Ok(JNum(n), next) case Err(at) => Err(at) }
    ensures c[o] == OPEN_BRACKET ==> ParseValue(c, o, depth) == ParseArray(c, o, depth)
    ensures c[o] == OPEN_BRACE ==> ParseValue(c, o, depth) == ParseObject(c, o, depth)
  {
    hide ParseString, ParseNumber, ParseArray, ParseObject;
    if At(c, o, NULL_TEXT) { FirstByteAt(c, o, NULL_TEXT); }
    if At(c, o, TRUE_TEXT) { FirstByteAt(c, o, TRUE_TEXT); }
    if At(c, o, FALSE_TEXT) { FirstByteAt(c, o, FALSE_TEXT); }
  }

  lemma WordParses(b: bool, c: seq<byte>, o: nat, depth: nat)
    ensures At(c, o, NULL_TEXT) ==> ParseValue(c, o, depth) == Ok(JNull, o + 4)
    ensures At(c, o, if b then TRUE_TEXT else FALSE_TEXT) ==>
              ParseValue(c, o, depth) == Ok(JBool(b), o + (if b then 4 else 5))
  {
    hide ParseString, ParseNumber, ParseArray, ParseObject;
    if At(c, o, NULL_TEXT) { FirstByteAt(c, o, NULL_TEXT); }
    if At(c, o, TRUE_TEXT) { FirstByteAt(c, o, TRUE_TEXT); }
    if At(c, o, FALSE_TEXT) { FirstByteAt(c, o, FALSE_TEXT); }
  }

  lemma {:induction false} ValueParses(v: Json, format: bool, d: nat, c: seq<byte>, o: nat, depth: nat)
    requires At(c, o, Text(v, format, d)) && Stops(c, o + |Text(v, format, d)|)
    requires depth + Nesting(v) <= NESTING_LIMIT
    ensures ParseValue(c, o, depth) == Ok(v, o + |Text(v, format, d)|)
    decreases v, 2
  {
    hide ParseValue, ParseString, ParseNumber, StringText, NumberText, ItemsText, MembersText, ParseArray, ParseObject;
    FirstByte(v, format, d);
    FirstByteAt(c, o, Text(v, format, d));
    Dispatch(c, o, depth);
    match v
    case JNull => WordParses(true, c, o, depth);
    case JBool(b) => WordParses(b, c, o, depth);
    case JNum(n) =>
      NumberStart(n);
      NumberParses(n, c, o);
    case JStr(s) =>
      StringStart(s);
      StringParses(s, c, o);
    case JArr(items) => ArrayParses(items, format, d, c, o, depth);
    case JObj(members) => ObjectParses(members, format, d, c, o, depth);
  }

  lemma StringStart(s: seq<byte>)
    ensures |StringText(s)| > 0 && StringText(s)[0] == QUOTE
  {
  }

  lemma NumberStart(n: Int64)
    ensures |NumberText(n)| > 0 && (NumberText(n)[0] == MINUS || IsDigit(NumberText(n)[0]))
  {
  }

  lemma {:induction false} ArrayParses(items: seq<Json>, format: bool, d: nat, c: seq<byte>, o: nat, depth: nat)
    requires At(c, o, Text(JArr(items), format, d))
    requires depth + Nesting(JArr(items)) <= NESTING_LIMIT
    ensures Has(c, o, OPEN_BRACKET)
    ensures ParseArray(c, o, depth) == Ok(JArr(items), o + |Text(JArr(items), format, d)|)
    decreases items, 1
  {
    hide ParseItems, ParseValue, ItemsText;
    var inner := ItemsText(items, format, d + 1);
    AtSplit(c, o, [OPEN_BRACKET] + inner, [CLOSE_BRACKET]);
    AtSplit(c, o, [OPEN_BRACKET], inner);
    AtOne(c, o, OPEN_BRACKET);
    AtOne(c, o + 1 + |inner|, CLOSE_BRACKET);
    if items == [] {
      NoItems(format, d + 1);
    } else {
      ItemsStart(items, format, d + 1);
      FirstByteAt(c, o + 1, inner);
      ItemsParse(items, format, d + 1, c, o + 1, o + 1, depth + 1);
    }
    SkipTo(c, o + 1, o + 1);
  }

  lemma NoItems(format: bool, d: nat)
    ensures ItemsText([], format, d) == [] && MembersText([], format, d) == []
  {
  }

  lemma ItemsStart(items: seq<Json>, format: bool, d: nat)
    requires items != []
    ensures var t := ItemsText(items, format, d);
            |t| > 0 && t[0] > 32 && t[0] != CLOSE_BRACKET
  {
    FirstByte(items[0], format, d);
  }

  // The elements stand at o, behind blanks that start at a, and the closing bracket follows them.
  lemma {:induction false} ItemsParse(items: seq<Json>, format: bool, d: nat, c: seq<byte>, a: nat, o: nat, depth: nat)
    requires items != [] && At(c, o, ItemsText(items, format, d)) && Blanks(c, a, o)
    requires Has(c, o + |ItemsText(items, format, d)|, CLOSE_BRACKET)
    requires depth + NestingOfItems(items) <= NESTING_LIMIT
    ensures ParseItems(c, a, depth) == Ok(items, o + |ItemsText(items, format, d)| + 1)
    decreases items, 0
  {
    hide ParseValue, Text, At, Skip, Blanks;
    var t := Text(items[0], format, d);
    var next := o + |t|;
    FirstByte(items[0], format, d);
    if |items| == 1 {
      assert items == [items[0]];
      FirstByteAt(c, o, t);
      SkipTo(c, a, o);
      ValueParses(items[0], format, d, c, o, depth);
      SkipTo(c, next, next);
    } else {
      var comma := ItemSeparator(format);
      AtSplit(c, o, t + comma, ItemsText(items[1..], format, d));
      AtSplit(c, o, t, comma);
      FirstByteAt(c, o, t);
      CommaAt(c, next, format);
      SkipTo(c, a, o);
      ValueParses(items[0], format, d, c, o, depth);
      SkipTo(c, next, next);
      ItemsParse(items[1..], format, d, c, next + 1, next + |comma|, depth);
      assert [items[0]] + items[1..] == items;
    }
  }

  lemma CommaAt(c: seq<byte>, o: nat, format: bool)
    requires At(c, o, ItemSeparator(format))
    ensures Has(c, o, COMMA) && Blanks(c, o + 1, o + |ItemSeparator(format)|)
  {
    assert c[o..o + |ItemSeparator(format)|][0] == COMMA;
    if format {
      assert c[o..o + 2][1] == SPACE;
    }
  }

  lemma {:induction false} ObjectParses(members: seq<Member>, format: bool, d: nat, c: seq<byte>, o: nat, depth: nat)
    requires At(c, o, Text(JObj(members), format, d))
    requires depth + Nesting(JObj(members)) <= NESTING_LIMIT
    ensures Has(c, o, OPEN_BRACE)
    ensures ParseObject(c, o, depth) == Ok(JObj(members), o + |Text(JObj(members), format, d)|)
    decreases members, 3
  {
    hide ParseMembers, ParseValue, MembersText, At, Skip, Indent;
    var inner := MembersText(members, format, d + 1);
    ObjectPieces(inner, format, d, c, o);
    var first := o + |ObjectOpening(format)|;
    var z := first + |inner| + |Indent(format, d)|;
    if members == [] {
      NoItems(format, d + 1);
      Blanks3(c, o + 1, first, z);
      SkipTo(c, o + 1, z);
    } else {
      var key := first + |Indent(format, d + 1)|;
      MembersStart(members, format, d + 1, c, first);
      Blanks3(c, o + 1, first, key);
      SkipTo(c, o + 1, key);
      MembersParse(members, format, d + 1, c, key, first, z, depth + 1);
    }
  }

  lemma ObjectPieces(inner: seq<byte>, format: bool, d: nat, c: seq<byte>, o: nat)
    requires At(c, o, ObjectOpening(format) + inner + Indent(format, d) + [CLOSE_BRACE])
    ensures var first := o + |ObjectOpening(format)|;
            var end := first + |inner|;
            && Has(c, o, OPEN_BRACE) && Blanks(c, o + 1, first)
            && At(c, first, inner)
            && Blanks(c, end, end + |Indent(format, d)|) && Has(c, end + |Indent(format, d)|, CLOSE_BRACE)
  {
    var opening, indent := ObjectOpening(format), Indent(format, d);
    var end := o + |opening| + |inner|;
    AtSplit(c, o, opening + inner + indent, [CLOSE_BRACE]);
    AtSplit(c, o, opening + inner, indent);
    AtSplit(c, o, opening, inner);
    AtSplit(c, o, [OPEN_BRACE], opening[1..]);
    assert [OPEN_BRACE] + opening[1..] == opening;
    AtOne(c, o, OPEN_BRACE);
    AtOne(c, end + |indent|, CLOSE_BRACE);
    BlankText(c, end, indent);
    BlankText(c, o + 1, opening[1..]);
  }

  // A text of tabs and newlines only is blank.
  lemma BlankText(c: seq<byte>, o: nat, t: seq<byte>)
    requires forall i :: 0 <= i < |t| ==> t[i] <= 32
    requires o <= |c|
    ensures At(c, o, t) ==> Blanks(c, o, o + |t|)
  {
    if At(c, o, t) {
      forall i | o <= i < o + |t| ensures c[i] <= 32 {
        assert c[i] == c[o..o + |t|][i - o];
      }
    }
  }

  lemma Blanks3(c: seq<byte>, a: nat, b: nat, e: nat)
    requires Blanks(c, a, b) && Blanks(c, b, e)
    ensures Blanks(c, a, e)
  {
  }

  lemma MembersStart(members: seq<Member>, format: bool, d: nat, c: seq<byte>, o: nat)
    requires members != [] && At(c, o, MembersText(members, format, d))
    ensures Blanks(c, o, o + |Indent(format, d)|) && Has(c, o + |Indent(format, d)|, QUOTE)
  {
    hide Text, StringText, MemberText, At;
    var m := members[0];
    var last := |members| == 1;
    AtSplit(c, o, MemberText(m, format, d, last), MembersText(members[1..], format, d));
    MemberPieces(m, format, d, last, c, o);
    StringStart(m.key);
    FirstByteAt(c, o + |Indent(format, d)|, StringText(m.key));
    BlankText(c, o, Indent(format, d));
  }

  lemma MemberPieces(m: Member, format: bool, d: nat, last: bool, c: seq<byte>, o: nat)
    requires At(c, o, MemberText(m, format, d, last))
    ensures var key := o + |Indent(format, d)|;
            var colon := key + |StringText(m.key)|;
            var value := colon + |KeySeparator(format)|;
            var end := value + |Text(m.value, format, d)|;
            && At(c, o, Indent(format, d))
            && At(c, key, StringText(m.key))
            && At(c, colon, KeySeparator(format))
            && At(c, value, Text(m.value, format, d))
            && At(c, end, MemberEnding(format, last))
            && end + |MemberEnding(format, last)| == o + |MemberText(m, format, d, last)|
  {
    hide Text, StringText;
    var a, b, k, t, e := Indent(format, d), StringText(m.key), KeySeparator(format), Text(m.value, format, d), MemberEnding(format, last);
    AtSplit(c, o, a + b + k + t, e);
    AtSplit(c, o, a + b + k, t);
    AtSplit(c, o, a + b, k);
    AtSplit(c, o, a, b);
  }

  lemma ColonAt(c: seq<byte>, o: nat, format: bool)
    requires At(c, o, KeySeparator(format))
    ensures Has(c, o, COLON) && Blanks(c, o + 1, o + |KeySeparator(format)|)
  {
    assert c[o..o + |KeySeparator(format)|][0] == COLON;
    if format {
      assert c[o..o + 2][1] == TAB;
    }
  }

  // Behind a value that is not the last one comes a comma, behind the last one blanks at most.
  lemma EndingAt(c: seq<byte>, o: nat, format: bool, last: bool)
    requires At(c, o, MemberEnding(format, last))
    ensures !last ==> Has(c, o, COMMA) && Blanks(c, o + 1, o + |MemberEnding(format, last)|)
    ensures last ==> Blanks(c, o, o + |MemberEnding(format, last)|)
  {
    var e := MemberEnding(format, last);
    forall i | 0 <= i < |e| ensures c[o + i] == e[i] {
      assert c[o..o + |e|][i] == e[i];
    }
  }

  lemma {:induction false} MemberParses(m: Member, format: bool, d: nat, last: bool, c: seq<byte>, a: nat, o: nat, depth: nat)
    requires At(c, o, MemberText(m, format, d, last)) && Blanks(c, a, o + |Indent(format, d)|)
    requires Stops(c, o + |MemberText(m, format, d, last)| - |MemberEnding(format, last)|)
    requires depth + Nesting(m.value) <= NESTING_LIMIT
    ensures ParseMember(c, a, depth) == Ok(m, o + |MemberText(m, format, d, last)| - |MemberEnding(format, last)|)
    decreases m, 0
  {
    hide Text, StringText, ParseValue, ParseString, At, Skip;
    MemberPieces(m, format, d, last, c, o);
    var key := o + |Indent(format, d)|;
    var colon := key + |StringText(m.key)|;
    var value := colon + |KeySeparator(format)|;
    StringStart(m.key);
    FirstByteAt(c, key, StringText(m.key));
    SkipTo(c, a, key);
    StringParses(m.key, c, key);
    ColonAt(c, colon, format);
    SkipTo(c, colon, colon);
    FirstByte(m.value, format, d);
    FirstByteAt(c, value, Text(m.value, format, d));
    SkipTo(c, colon + 1, value);
    ValueParses(m.value, format, d, c, value, depth);
  }

  lemma LastMember(c: seq<byte>, a: nat, depth: nat)
    requires var r := ParseMember(c, a, depth); r.Ok? && Has(c, Skip(c, r.next), CLOSE_BRACE)
    ensures var r := ParseMember(c, a, depth); ParseMembers(c, a, depth) == Ok([r.value], Skip(c, r.next) + 1)
  {
  }

  lemma MoreMembers(c: seq<byte>, a: nat, depth: nat)
    requires var r := ParseMember(c, a, depth);
             r.Ok? && Has(c, Skip(c, r.next), COMMA) && ParseMembers(c, Skip(c, r.next) + 1, depth).Ok?
    ensures var r := ParseMember(c, a, depth);
            var rest := ParseMembers(c, Skip(c, r.next) + 1, depth);
            ParseMembers(c, a, depth) == Ok([r.value] + rest.value, rest.next)
  {
  }

  // The members stand at o, the quote of the first key behind blanks that start at a, and the
  // closing brace at z.
  lemma {:induction false} MembersParse(members: seq<Member>, format: bool, d: nat, c: seq<byte>, a: nat, o: nat, z: nat, depth: nat)
    requires members != [] && At(c, o, MembersText(members, format, d))
    requires Blanks(c, a, o + |Indent(format, d)|)
    requires Blanks(c, o + |MembersText(members, format, d)|, z) && Has(c, z, CLOSE_BRACE)
    requires depth + NestingOfMembers(members) <= NESTING_LIMIT
    ensures ParseMembers(c, a, depth) == Ok(members, z + 1)
    decreases members, 0
  {
    hide ParseMember, ParseMembers, MemberText, Text, At, Skip, StringText, Blanks;
    var m, last := members[0], |members| == 1;
    var piece := MemberText(m, format, d, last);
    var next := o + |piece|;
    AtSplit(c, o, piece, MembersText(members[1..], format, d));
    MemberPieces(m, format, d, last, c, o);
    var end := next - |MemberEnding(format, last)|;
    EndingAt(c, end, format, last);
    if last {
      assert members == [m];
      NoItems(format, d);
      Blanks3(c, end, next, z);
      MemberParses(m, format, d, last, c, a, o, depth);
      SkipTo(c, end, z);
      LastMember(c, a, depth);
    } else {
      MemberParses(m, format, d, last, c, a, o, depth);
      SkipTo(c, end, end);
      MembersStart(members[1..], format, d, c, next);
      Blanks3(c, end + 1, next, next + |Indent(format, d)|);
      MembersParse(members[1..], format, d, c, end + 1, next, z, depth);
      MoreMembers(c, a, depth);
      assert [m] + members[1..] == members;
    }
  }

  // ---------- nesting ----------

  // The parser only ever returns values that fit under its nesting limit.
  lemma {:induction false} ParsedNesting(c: seq<byte>, o: nat, depth: nat)
    requires depth <= NESTING_LIMIT
    ensures ParseValue(c, o, depth).Ok? ==> depth + Nesting(ParseValue(c, o, depth).value) <= NESTING_LIMIT
    decreases Left(c, o), 0
  {
    hide ParseString, ParseNumber, ParseItems, ParseMembers;
    if Has(c, o, OPEN_BRACKET) && depth < NESTING_LIMIT {
      ItemsNesting(c, Skip(c, o + 1), depth + 1);
      NestingOfNothing();
    } else if Has(c, o, OPEN_BRACE) && depth < NESTING_LIMIT {
      MembersNesting(c, Skip(c, o + 1), depth + 1);
      NestingOfNothing();
    }
  }

  lemma NestingOfNothing()
    ensures NestingOfItems([]) == 0 && NestingOfMembers([]) == 0
  {
  }

  lemma {:induction false} ItemsNesting(c: seq<byte>, o: nat, depth: nat)
    requires depth <= NESTING_LIMIT
    ensures ParseItems(c, o, depth).Ok? ==> depth + NestingOfItems(ParseItems(c, o, depth).value) <= NESTING_LIMIT
    decreases Left(c, o), 1
  {
    hide ParseValue;
    ParsedNesting(c, Skip(c, o), depth);
    var r := ParseValue(c, Skip(c, o), depth);
    if r.Ok? {
      var q := Skip(c, r.next);
      if Has(c, q, COMMA) {
        ItemsNesting(c, q + 1, depth);
        var rest := ParseItems(c, q + 1, depth);
        if rest.Ok? {
          assert ([r.value] + rest.value)[1..] == rest.value;
        }
      } else {
        assert [r.value][1..] == [];
      }
    }
  }

  lemma {:induction false} MembersNesting(c: seq<byte>, o: nat, depth: nat)
    requires depth <= NESTING_LIMIT
    ensures ParseMembers(c, o, depth).Ok? ==> depth + NestingOfMembers(ParseMembers(c, o, depth).value) <= NESTING_LIMIT
    decreases Left(c, o), 1
  {
    hide ParseValue, ParseString;
    var r := ParseMember(c, o, depth);
    if r.Ok? {
      MemberNesting(c, o, depth);
      hide ParseMember;
      var q := Skip(c, r.next);
      if Has(c, q, COMMA) {
        MembersNesting(c, q + 1, depth);
        var rest := ParseMembers(c, q + 1, depth);
        if rest.Ok? {
          assert ([r.value] + rest.value)[1..] == rest.value;
        }
      } else {
        assert [r.value][1..] == [];
      }
    }
  }

  lemma {:induction false} MemberNesting(c: seq<byte>, o: nat, depth: nat)
    requires depth <= NESTING_LIMIT && ParseMember(c, o, depth).Ok?
    ensures depth + Nesting(ParseMember(c, o, depth).value.value) <= NESTING_LIMIT
    decreases Left(c, o), 0
  {
    hide ParseValue, ParseString;
    var key := ParseString(c, Skip(c, o));
    ParsedNesting(c, Skip(c, Skip(c, key.next) + 1), depth);
  }

  // ---------- main results ----------

  // Either print mode, read back as cJSON_Parse reads it (with its NUL, and whether or not the
  // NUL is asked for): the value comes back exactly when it is not nested too deeply.
  lemma RoundTrips(v: Json, format: bool, requireNul: bool)
    requires ExactNumbers(v)
    ensures ParseText(Text(v, format, 0) + [0], requireNul) == Ok(v, |Text(v, format, 0)|) <==> Nesting(v) <= NESTING_LIMIT
  {
    hide ParseValue, Text, Nesting;
    var t := Text(v, format, 0);
    var c := t + [0];
    FirstByte(v, format, 0);
    assert At(c, 0, t) && c[|t|] == 0;
    assert !At(c, 0, BOM) by {
      FirstByteNotBom(v, format);
      if At(c, 0, BOM) {
        FirstByteAt(c, 0, BOM);
      }
    }
    SkipTo(c, 0, 0);
    assert Skip(c, |t|) == |t| by {
      assert BlankEnd(c, |t| + 1) == |c|;
      assert BlankEnd(c, |t|) == |c|;
    }
    if Nesting(v) <= NESTING_LIMIT {
      ValueParses(v, format, 0, c, 0, 0);
    }
    ParsedNesting(c, 0, 0);
  }

  lemma FirstByteNotBom(v: Json, format: bool)
    ensures Text(v, format, 0)[0] != 0xEF
  {
    match v
    case JNum(n) => NumberStart(n);
    case JStr(s) => StringStart(s);
    case _ =>
  }
}
