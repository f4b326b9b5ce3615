// What the proofs about printing need to know of the printed text.
module TextFacts {
  import opened Bytes
  import opened Json

  lemma {:induction false} EscapeNulFree(s: CString)
    ensures NulFree(EscapeAll(s))
  {
    if s != [] {
      EscapeNulFree(s[1..]);
    }
  }

  lemma EscapeStep(s: seq<byte>, i: nat)
    requires i < |s|
    ensures EscapeAll(s[i..]) == Escape(s[i]) + EscapeAll(s[i + 1..])
  {
    assert s[i..][1..] == s[i + 1..];
  }

  lemma QuotedAfter(start: seq<byte>, inner: seq<byte>)
    ensures start + [QUOTE] + inner + [QUOTE, 0] == start + ([QUOTE] + inner + [QUOTE]) + [0]
  {
  }

  lemma {:induction false} EscapeLonger(s: seq<byte>)
    ensures |EscapeAll(s)| >= |s|
  {
    if s != [] {
      EscapeLonger(s[1..]);
    }
  }

  // When nothing needs escaping the text is the string itself.
  lemma {:induction false} EscapeNothing(s: seq<byte>)
    requires |EscapeAll(s)| == |s|
    ensures EscapeAll(s) == s
  {
    if s != [] {
      EscapeLonger(s[1..]);
      EscapeNothing(s[1..]);
      assert Escape(s[0]) == [s[0]];
    }
  }

  lemma StringNulFree(s: CString)
    ensures NulFree(StringText(s))
  {
    EscapeNulFree(s);
  }

  lemma {:induction false} TextNulFree(v: Json, format: bool, depth: nat)
    ensures NulFree(Text(v, format, depth))
    decreases v, 1
  {
    match v
    case JStr(s) => EscapeNulFree(s);
    case JArr(items) => ItemsNulFree(items, format, depth + 1);
    case JObj(members) => MembersNulFree(members, format, depth + 1);
    case _ =>
  }

  lemma {:induction false} ItemsNulFree(items: seq<Json>, format: bool, depth: nat)
    ensures NulFree(ItemsText(items, format, depth))
    decreases items, 0
  {
    if items != [] {
      TextNulFree(items[0], format, depth);
      ItemsNulFree(items[1..], format, depth);
    }
  }

  lemma {:induction false} MemberNulFree(m: Member, format: bool, depth: nat, last: bool)
    ensures NulFree(MemberText(m, format, depth, last))
    decreases m, 0
  {
    EscapeNulFree(m.key);
    TextNulFree(m.value, format, depth);
  }

  lemma {:induction false} MembersNulFree(members: seq<Member>, format: bool, depth: nat)
    ensures NulFree(MembersText(members, format, depth))
    decreases members, 0
  {
    if members != [] {
      MemberNulFree(members[0], format, depth, |members| == 1);
      MembersNulFree(members[1..], format, depth);
    }
  }

  lemma {:induction false} DigitsBound(n: nat, k: nat)
    requires k >= 1 && n < Pow10(k)
    ensures |Digits(n)| <= k
  {
    if n >= 10 {
      DigitsBound(n / 10, k - 1);
    }
  }

  function Pow10(k: nat): (p: nat)
    ensures p >= 1
  {
    if k == 0 then 1 else 10 * Pow10(k - 1)
  }

  lemma NumberTextBound(n: Int64)
    ensures 1 <= |NumberText(n)| <= 20
  {
    assert Pow10(19) == 1_0000_0000_0000_0000_000 by {
      assert Pow10(4) == 1_0000;
      assert Pow10(8) == 1_0000_0000;
      assert Pow10(12) == 1_0000_0000_0000;
      assert Pow10(16) == 1_0000_0000_0000_0000;
    }
    var magnitude: nat := if n < 0 then -(n as int) else n;
    DigitsBound(magnitude, 19);
  }

  // What the items from i on add to the text of an array: one item, then the rest.
  function ItemPiece(items: seq<Json>, i: nat, format: bool, depth: nat): seq<byte>
    requires i < |items|
  {
    Text(items[i], format, depth) + if i + 1 < |items| then ItemSeparator(format) else []
  }

  lemma ItemsStep(items: seq<Json>, i: nat, format: bool, depth: nat)
    requires i < |items|
    ensures ItemsText(items[i..], format, depth)
         == ItemPiece(items, i, format, depth) + ItemsText(items[i + 1..], format, depth)
  {
    assert items[i..][1..] == items[i + 1..];
    if i + 1 == |items| {
      assert ItemsText(items[i + 1..], format, depth) == [];
    }
  }

  lemma MembersStep(members: seq<Member>, i: nat, format: bool, depth: nat)
    requires i < |members|
    ensures MembersText(members[i..], format, depth)
         == MemberText(members[i], format, depth, i + 1 == |members|) + MembersText(members[i + 1..], format, depth)
  {
    assert members[i..][1..] == members[i + 1..];
  }

  lemma ArrayTextShape(items: seq<Json>, format: bool, depth: nat, start: seq<byte>)
    ensures start + Text(JArr(items), format, depth)
         == start + [OPEN_BRACKET] + ItemsText(items, format, depth + 1) + [CLOSE_BRACKET]
  {
  }

  lemma ObjectTextShape(members: seq<Member>, format: bool, depth: nat, start: seq<byte>)
    ensures start + Text(JObj(members), format, depth)
         == start + ObjectOpening(format) + MembersText(members, format, depth + 1)
            + (Indent(format, depth) + [CLOSE_BRACE])
  {
  }

  // The part of a member before its value.
  function KeyText(key: CString, format: bool, depth: nat): seq<byte> {
    Indent(format, depth) + StringText(key) + KeySeparator(format)
  }

  lemma MemberTextShape(m: Member, format: bool, depth: nat, last: bool, start: seq<byte>)
    ensures start + MemberText(m, format, depth, last)
         == start + KeyText(m.key, format, depth) + Text(m.value, format, depth) + MemberEnding(format, last)
  {
  }

  lemma KeyTextShape(key: CString, format: bool, depth: nat, start: seq<byte>)
    ensures start + KeyText(key, format, depth)
         == start + Indent(format, depth) + StringText(key) + KeySeparator(format)
  {
  }
}
