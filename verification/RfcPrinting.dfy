// What the printer writes is JSON as RFC 8259 defines it, laid out as each print mode is to lay it
// out, and it means the value.
module RfcPrinting {
  import opened Bytes
  import opened Json
  import opened Unicode
  import opened Rfc8259
  import StringLiteral

  // ---------- the layout ----------

  // The decimal digits of a number.
  function Decimal(n: nat): (ds: seq<Digit>)
    ensures |ds| >= 1 && (ds == [0] || ds[0] != 0)
    ensures Spelled(ds) == n
  {
    if n < 10 then [n] else
      var ds := Decimal(n / 10);
      assert (ds + [n % 10])[..|ds|] == ds;
      ds + [n % 10]
  }

  function LaidNumber(n: Int64): Numeral {
    Numeral(n < 0, Decimal(if n < 0 then -(n as int) else n), None, None)
  }

  // A character as it is wherever the grammar allows it, else by the short escape if it has one,
  // else by its code in lower case.
  function LaidChar(b: byte): Char {
    if b == QUOTE || b == BACKSLASH then Short(b)
    else if b == 8 then Short('b' as int)
    else if b == 9 then Short('t' as int)
    else if b == 10 then Short('n' as int)
    else if b == 12 then Short('f' as int)
    else if b == 13 then Short('r' as int)
    else if b < 0x20 then Escaped([BACKSLASH, LETTER_U, ZERO, ZERO, LOWER[b / 16], LOWER[b % 16]], b)
    else Unescaped(b)
  }

  function LaidChars(s: seq<byte>): seq<Char> {
    if s == [] then [] else [LaidChar(s[0])] + LaidChars(s[1..])
  }

  function Break(format: bool): seq<byte> {
    if format then [NEWLINE] else []
  }

  // A new line with so many tabs, in formatted text.
  function NewLine(format: bool, tabs: nat): seq<byte> {
    Break(format) + if format then seq(tabs, _ => TAB) else []
  }

  // Unformatted text has no blanks. In formatted text each pair is on a line of its own, with a tab
  // behind the colon, and an element behind a comma has a space in front.
  function Laid(v: Json, format: bool, depth: nat): Tree
    decreases v, 1
  {
    match v
    case JNull => Null
    case JBool(b) => if b then True else False
    case JNum(n) => Number(LaidNumber(n))
    case JStr(s) => String(LaidChars(s))
    case JArr(items) => Array([], LaidItems(items, format, depth + 1, []))
    case JObj(members) => Object(NewLine(format, depth), LaidMembers(members, format, depth + 1))
  }

  function LaidItems(items: seq<Json>, format: bool, depth: nat, before: seq<byte>): (es: seq<Element>)
    ensures |es| == |items|
    decreases items, 0
  {
    if items == [] then []
    else [Element(before, Laid(items[0], format, depth), [])]
         + LaidItems(items[1..], format, depth, if format then [SPACE] else [])
  }

  function LaidMembers(members: seq<Member>, format: bool, depth: nat): (ps: seq<Pair>)
    requires depth >= 1
    ensures |ps| == |members|
    decreases members, 0
  {
    if members == [] then []
    else
      var m := members[0];
      [Pair(NewLine(format, depth), LaidChars(m.key), [], if format then [TAB] else [], Laid(m.value, format, depth),
            if |members| == 1 then NewLine(format, depth - 1) else [])]
      + LaidMembers(members[1..], format, depth)
  }

  // ---------- numbers and strings ----------

  lemma {:induction false} DigitsLaid(n: nat)
    ensures Row(Decimal(n)) == Digits(n)
  {
    hide Row;
    if n >= 10 {
      DigitsLaid(n / 10);
      RowOfMore(Decimal(n / 10), n % 10);
    } else {
      RowOfMore([], n);
    }
  }

  lemma RowOfMore(ds: seq<Digit>, d: Digit)
    ensures Row(ds + [d]) == Row(ds) + [ZERO + d]
    ensures ds == [] ==> Row(ds + [d]) == [ZERO + d]
  {
  }

  lemma NumberLaid(n: Int64)
    ensures IsNumeral(LaidNumber(n), Rfc)
    ensures SpellNumeral(LaidNumber(n)) == NumberText(n)
    ensures IntegerOf(LaidNumber(n)) == n
  {
    NumberSpelled(n);
    Whole(LaidNumber(n));
    hide Magnitude, SpellNumeral, NumberText;
  }

  lemma NumberSpelled(n: Int64)
    ensures SpellNumeral(LaidNumber(n)) == NumberText(n)
  {
    DigitsLaid(if n < 0 then -(n as int) else n);
    hide Decimal, Digits, Row;
    Plain(if n < 0 then [MINUS] else [], Row(LaidNumber(n).whole));
  }

  lemma Plain(sign: seq<byte>, digits: seq<byte>)
    ensures sign + digits + [] + [] == sign + digits
    ensures sign == [] ==> sign + digits == digits
  {
  }

  lemma Whole(x: Numeral)
    requires x.fraction.None? && x.exponent.None?
    ensures Magnitude(x).Floor == Spelled(x.whole)
  {
    hide Spelled;
    assert x.whole + FractionDigits(x) == x.whole;
    assert Magnitude(x) == Spelled(x.whole) as real * 1.0;
  }

  lemma CharLaid(b: byte)
    ensures IsChar(LaidChar(b), Rfc) && SpellChar(LaidChar(b)) == Escape(b)
    ensures CharBytes(LaidChar(b)) == [b]
  {
    if LaidChar(b).Escaped? {
      PrintedInLowerCase(b / 16);
      PrintedInLowerCase(b % 16);
      assert b / 4096 == 0 && b / 256 % 16 == 0;
    }
  }

  lemma {:induction false} CharsLaid(s: seq<byte>)
    ensures AreChars(LaidChars(s), Rfc) && SpellChars(LaidChars(s)) == EscapeAll(s)
    ensures StringBytes(LaidChars(s)) == s
  {
    hide LaidChar, Escape, IsChar, SpellChar, CharBytes;
    if s != [] {
      CharLaid(s[0]);
      CharsLaid(s[1..]);
      var xs := LaidChars(s);
      assert xs[0] == LaidChar(s[0]) && xs[1..] == LaidChars(s[1..]);
      assert [s[0]] + s[1..] == s;
    }
  }

  // ---------- values ----------

  lemma LineIsBlank(format: bool, tabs: nat)
    ensures AreBlanks(NewLine(format, tabs), Rfc)
    ensures NewLine(format, tabs) == Break(format) + Indent(format, tabs)
  {
  }

  // Every printed text is derived by the grammar of the RFC, and means the value that was printed.
  lemma {:induction false} PrintedIsRfc(v: Json, format: bool, depth: nat)
    ensures Derives(Laid(v, format, depth), Rfc)
    ensures Yield(Laid(v, format, depth)) == Text(v, format, depth)
    ensures Meaning(Laid(v, format, depth)) == v
    decreases v, 1
  {
    hide NewLine, LaidChars, LaidNumber, IsNumeral, SpellNumeral, AreChars, SpellChars, StringBytes, AreBlanks, Indent;
    hide LaidItems, LaidMembers, ItemsText, MembersText, YieldElements, YieldPairs, UpToNul, IntegerOf;
    match v
    case JNum(n) => NumberLaid(n);
    case JStr(s) =>
      CharsLaid(s);
      UpToNulOfCString(s);
    case JArr(items) =>
      NoBlanks();
      ItemsLaid(items, format, depth + 1, []);
      ArrayLaid(items, format, depth);
    case JObj(members) =>
      MembersLaid(members, format, depth + 1);
      LineIsBlank(format, depth);
      ObjectLaid(members, format, depth);
    case _ =>
  }

  lemma NoBlanks()
    ensures AreBlanks([], Rfc) && AreBlanks([SPACE], Rfc) && AreBlanks([TAB], Rfc)
  {
  }

  lemma ArrayLaid(items: seq<Json>, format: bool, depth: nat)
    requires items != [] ==> YieldElements(LaidItems(items, format, depth + 1, [])) == [] + ItemsText(items, format, depth + 1)
    ensures Yield(Laid(JArr(items), format, depth)) == Text(JArr(items), format, depth)
  {
    hide YieldElements, LaidItems, ItemsText;
    NoItems(format, depth + 1);
    var inner := ItemsText(items, format, depth + 1);
    assert [] + inner == inner;
  }

  lemma NoItems(format: bool, depth: nat)
    ensures ItemsText([], format, depth) == []
  {
  }

  lemma {:induction false} ItemsLaid(items: seq<Json>, format: bool, depth: nat, before: seq<byte>)
    requires AreBlanks(before, Rfc)
    ensures var es := LaidItems(items, format, depth, before);
            && DerivesElements(es, Rfc) && MeaningElements(es) == items
            && (items != [] ==> YieldElements(es) == before + ItemsText(items, format, depth))
    decreases items, 0
  {
    hide Laid, Text, AreBlanks;
    if items != [] {
      var then' := if format then [SPACE] else [];
      var es, rest := LaidItems(items, format, depth, before), LaidItems(items[1..], format, depth, then');
      NoBlanks();
      PrintedIsRfc(items[0], format, depth);
      ItemsLaid(items[1..], format, depth, then');
      assert es[1..] == rest && es[0] == Element(before, Laid(items[0], format, depth), []);
      assert [items[0]] + items[1..] == items;
      ItemsYield(items, format, depth, before, es);
    }
  }

  lemma ItemsYield(items: seq<Json>, format: bool, depth: nat, before: seq<byte>, es: seq<Element>)
    requires items != [] && |es| == |items| && es[0].before == before && es[0].after == []
    requires Yield(es[0].value) == Text(items[0], format, depth)
    requires |items| > 1 ==>
               YieldElements(es[1..]) == (if format then [SPACE] else []) + ItemsText(items[1..], format, depth)
    ensures YieldElements(es) == before + ItemsText(items, format, depth)
  {
    hide Yield, Text, ItemSeparator;
    var t := Text(items[0], format, depth);
    if |items| > 1 {
      Commas(format);
      ItemJoined(before, t, if format then [SPACE] else [], ItemsText(items[1..], format, depth));
    } else {
      assert t + ([] + []) == t;
    }
  }

  lemma Commas(format: bool)
    ensures ItemSeparator(format) == [COMMA] + if format then [SPACE] else []
  {
  }

  lemma ItemJoined(before: seq<byte>, t: seq<byte>, space: seq<byte>, rest: seq<byte>)
    ensures before + (t + ([] + ([COMMA] + (space + rest)))) == before + (t + ([COMMA] + space) + rest)
  {
  }

  lemma ObjectLaid(members: seq<Member>, format: bool, depth: nat)
    requires members != [] ==>
               YieldPairs(LaidMembers(members, format, depth + 1))
               == Break(format) + (MembersText(members, format, depth + 1) + Indent(format, depth))
    ensures Yield(Laid(JObj(members), format, depth)) == Text(JObj(members), format, depth)
  {
    hide YieldPairs, LaidMembers, MembersText;
    LineIsBlank(format, depth);
    NoMembers(format, depth + 1);
    hide NewLine, Indent;
    Braces(Break(format), MembersText(members, format, depth + 1), Indent(format, depth));
  }

  lemma NoMembers(format: bool, depth: nat)
    ensures MembersText([], format, depth) == []
  {
  }

  lemma Braces(line: seq<byte>, inner: seq<byte>, indent: seq<byte>)
    ensures [OPEN_BRACE] + line + inner + indent + [CLOSE_BRACE] == [OPEN_BRACE] + (line + (inner + indent)) + [CLOSE_BRACE]
    ensures inner == [] ==> line + indent == line + (inner + indent)
  {
  }

  lemma {:induction false} MembersLaid(members: seq<Member>, format: bool, depth: nat)
    requires depth >= 1
    ensures var ps := LaidMembers(members, format, depth);
            && DerivesPairs(ps, Rfc) && MeaningPairs(ps) == members
            && (members != [] ==>
                  YieldPairs(ps) == Break(format) + (MembersText(members, format, depth) + Indent(format, depth - 1)))
    decreases members, 0
  {
    hide Laid, Text, AreBlanks, NewLine, LaidChars, AreChars, StringBytes, Indent, SpellKey, IsKey, Break, MembersText;
    hide YieldPairs;
    hide KeySeparator, StringText, Yield, Meaning, Derives, UpToNul;
    if members != [] {
      var m := members[0];
      var ps, rest := LaidMembers(members, format, depth), LaidMembers(members[1..], format, depth);
      NoBlanks();
      LineIsBlank(format, depth - 1);
      KeyLaid(ps[0], m.key, format, depth);
      PrintedIsRfc(m.value, format, depth);
      MembersLaid(members[1..], format, depth);
      assert ps[1..] == rest;
      assert [m] + members[1..] == members;
      MembersYield(members, format, depth, ps);
    }
  }

  lemma KeyLaid(p: Pair, key: CString, format: bool, depth: nat)
    requires p.before == NewLine(format, depth) && p.key == LaidChars(key) && p.afterKey == []
    requires p.afterColon == if format then [TAB] else []
    ensures IsKey(p, Rfc) && UpToNul(StringBytes(p.key)) == key
    ensures SpellKey(p) == NewLine(format, depth) + (StringText(key) + KeySeparator(format))
  {
    hide NewLine, AreBlanks, AreChars, StringBytes, SpellChars, LaidChars;
    NoBlanks();
    LineIsBlank(format, depth);
    CharsLaid(key);
    UpToNulOfCString(key);
  }

  lemma MembersYield(members: seq<Member>, format: bool, depth: nat, ps: seq<Pair>)
    requires depth >= 1 && members != [] && |ps| == |members|
    requires SpellKey(ps[0]) == NewLine(format, depth) + (StringText(members[0].key) + KeySeparator(format))
    requires Yield(ps[0].value) == Text(members[0].value, format, depth)
    requires ps[0].after == if |members| == 1 then NewLine(format, depth - 1) else []
    requires |members| > 1 ==>
               YieldPairs(ps[1..]) == Break(format) + (MembersText(members[1..], format, depth) + Indent(format, depth - 1))
    ensures YieldPairs(ps) == Break(format) + (MembersText(members, format, depth) + Indent(format, depth - 1))
  {
    LineIsBlank(format, depth);
    LineIsBlank(format, depth - 1);
    hide Yield, Text, NewLine, Indent, SpellKey, StringText, KeySeparator, Break;
    var m := members[0];
    var indent, key, sep, value := Indent(format, depth), StringText(m.key), KeySeparator(format), Text(m.value, format, depth);
    var line, close := Break(format), Indent(format, depth - 1);
    MemberEnds(format);
    if |members| == 1 {
      LastJoined(line, indent, key, sep, value, close);
    } else {
      Joined(line, indent, key, sep, value, MembersText(members[1..], format, depth), close);
    }
  }

  lemma MemberEnds(format: bool)
    ensures MemberEnding(format, true) == [] + Break(format) && MemberEnding(format, false) == [COMMA] + Break(format)
  {
  }

  lemma LastJoined(line: seq<byte>, indent: seq<byte>, key: seq<byte>, sep: seq<byte>, value: seq<byte>, close: seq<byte>)
    ensures ((line + indent) + (key + sep)) + (value + ((line + close) + []))
         == line + ((indent + key + sep + value + ([] + line) + []) + close)
  {
  }

  lemma Joined(line: seq<byte>, indent: seq<byte>, key: seq<byte>, sep: seq<byte>, value: seq<byte>, rest: seq<byte>,
               close: seq<byte>)
    ensures ((line + indent) + (key + sep)) + (value + ([] + ([COMMA] + (line + (rest + close)))))
         == line + ((indent + key + sep + value + ([COMMA] + line) + rest) + close)
  {
  }
}
