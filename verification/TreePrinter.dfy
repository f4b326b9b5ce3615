// The printer of cjson.c: it walks a tree of items and writes its text through a PrintBuffer,
// proved against the pure text of Json.Text.
module TreePrinter {
  import opened Bytes
  import opened Json
  import opened TextFacts
  import opened Items
  import opened Trees
  import opened PrintBuffer

  // A value, with offset moved past it.
  method PrintWhole(item: Item, p: PrintBuffer) returns (ok: bool)
    requires Tree(item) && p.Valid()
    modifies p`buffer, p`offset, p`depth, p.buffer
    ensures p.Valid() && p.Limit() == old(p.Limit())
    ensures p.buffer == old(p.buffer) || (fresh(p.buffer) && !p.noalloc)
    ensures ok <==> old(p.offset) + |Text(item.model, p.format, old(p.depth))| + 2 <= p.Limit()
    ensures ok ==> p.depth == old(p.depth) && p.Content() == old(p.Content()) + Text(item.model, p.format, p.depth)
    decreases item.nodes, 5
  {
    hide Tree, Text;
    ok := PrintValue(item, p);
    if ok {
      TextNulFree(item.model, p.format, p.depth);
      p.FinishPrinted(old(p.Content()), Text(item.model, p.format, p.depth));
    }
  }

  method PrintValue(item: Item, p: PrintBuffer) returns (ok: bool)
    requires Tree(item) && p.Valid()
    modifies p`buffer, p`offset, p`depth, p.buffer
    ensures p.Valid() && p.Limit() == old(p.Limit())
    ensures p.buffer == old(p.buffer) || (fresh(p.buffer) && !p.noalloc)
    ensures ok <==> old(p.offset) + |Text(item.model, p.format, old(p.depth))| + 2 <= p.Limit()
    ensures ok ==> p.depth == old(p.depth) && p.Printed(old(p.Content()), Text(item.model, p.format, p.depth))
    decreases item.nodes, 4
  {
    hide Tree, ItemsText, MembersText, StringText, NumberText;
    KidAt(item, 0);
    match item.kind
    case Null => ok := p.PrintWord(NULL_TEXT);
    case False => ok := p.PrintWord(FALSE_TEXT);
    case True => ok := p.PrintWord(TRUE_TEXT);
    case Number => ok := p.PrintNumber(item.valueint);
    case String => ok := p.PrintStringPtr(item.valuestring);
    case Array => ok := PrintArray(item, p);
    case Object => ok := PrintObject(item, p);
    case Invalid => return false;
  }

  // ---------- arrays ----------

  method PrintArray(item: Item, p: PrintBuffer) returns (ok: bool)
    requires Tree(item) && item.kind == Array && item.model.JArr? && p.Valid()
    modifies p`buffer, p`offset, p`depth, p.buffer
    ensures p.Valid() && p.Limit() == old(p.Limit())
    ensures p.buffer == old(p.buffer) || (fresh(p.buffer) && !p.noalloc)
    ensures ok <==> old(p.offset) + |Text(item.model, p.format, old(p.depth))| + 2 <= p.Limit()
    ensures ok ==> p.depth == old(p.depth) && p.Printed(old(p.Content()), Text(item.model, p.format, p.depth))
    decreases item.nodes, 3
  {
    hide Tree, Stands, ItemsText;
    ghost var start := p.Content();
    ArrayTextShape(item.model.items, p.format, p.depth, start);
    ok := p.Put([OPEN_BRACKET], 1, false);
    if !ok {
      return;
    }
    p.depth := p.depth + 1;
    ok := PrintItems(item, p);
    if !ok {
      return;
    }
    ok := p.Close([CLOSE_BRACKET], start, Text(item.model, p.format, p.depth - 1));
  }

  // The loop over the elements of an array.
  method PrintItems(item: Item, p: PrintBuffer) returns (ok: bool)
    requires Tree(item) && item.kind == Array && item.model.JArr? && p.Valid()
    modifies p`buffer, p`offset, p`depth, p.buffer
    ensures p.Valid() && p.Limit() == old(p.Limit())
    ensures p.buffer == old(p.buffer) || (fresh(p.buffer) && !p.noalloc)
    ensures !ok ==> old(p.offset) + |ItemsText(item.model.items, p.format, old(p.depth))| + 2 > p.Limit()
    ensures ok ==> p.depth == old(p.depth) && p.Content() == old(p.Content()) + ItemsText(item.model.items, p.format, p.depth)
    decreases item.nodes, 2
  {
    hide Tree, Text, ItemsText, Stands;
    ghost var start, d, items := p.Content(), p.depth, item.model.items;
    ghost var written: seq<byte> := [];
    ghost var i := 0;
    var element := item.child;
    KidAt(item, 0);
    ElementAt(item, 0);
    ItemsEnds(items, p.format, d);
    while element != null
      invariant i <= |items| && Tree(item) && item.model == JArr(items) && |item.kids| == |items|
      invariant element == if i < |items| then item.kids[i] else null
      invariant p.Valid() && p.Limit() == old(p.Limit()) && p.depth == d
      invariant p.buffer == old(p.buffer) || (fresh(p.buffer) && !p.noalloc)
      invariant ItemsText(items, p.format, d) == written + ItemsText(items[i..], p.format, d)
      invariant p.Content() == start + written
      decreases |items| - i
    {
      ghost var piece := ItemPiece(items, i, p.format, d);
      ItemsStep(items, i, p.format, d);
      Assoc(written, piece, ItemsText(items[i + 1..], p.format, d));
      Assoc(start, written, piece);
      KidAt(item, i);
      ElementAt(item, i);
      ok := PrintItem(element, p);
      if !ok {
        return;
      }
      written := written + piece;
      i := i + 1;
      element := element.next;
    }
    assert items[i..] == [];
    assert written + [] == written;
    ok := true;
  }

  // The value of the child at position i of an array.
  lemma ElementAt(item: Item, i: nat)
    requires Tree(item) && item.kind == Array && item.model.JArr?
    ensures |item.kids| == |item.model.items|
    ensures i < |item.kids| ==> item.kids[i].model == item.model.items[i]
  {
  }

  lemma ItemsEnds(items: seq<Json>, format: bool, depth: nat)
    ensures items[0..] == items && ItemsText([], format, depth) == []
  {
  }

  method PrintItem(item: Item, p: PrintBuffer) returns (ok: bool)
    requires Tree(item) && p.Valid()
    modifies p`buffer, p`offset, p`depth, p.buffer
    ensures p.Valid() && p.Limit() == old(p.Limit())
    ensures p.buffer == old(p.buffer) || (fresh(p.buffer) && !p.noalloc)
    ensures var piece := Text(item.model, p.format, old(p.depth)) + (if item.next == null then [] else ItemSeparator(p.format));
            && (!ok ==> old(p.offset) + |piece| + 2 > p.Limit())
            && (ok ==> p.depth == old(p.depth) && p.Content() == old(p.Content()) + piece)
    decreases item.nodes, 6
  {
    hide Tree, Text;
    ok := PrintWhole(item, p);
    if ok && item.next != null {
      Assoc(old(p.Content()), Text(item.model, p.format, p.depth), ItemSeparator(p.format));
      var separator := ItemSeparator(p.format);
      ok := p.Put(separator, |separator| + 1, true);
    }
  }

  // ---------- objects ----------

  method PrintObject(item: Item, p: PrintBuffer) returns (ok: bool)
    requires Tree(item) && item.kind == Object && item.model.JObj? && p.Valid()
    modifies p`buffer, p`offset, p`depth, p.buffer
    ensures p.Valid() && p.Limit() == old(p.Limit())
    ensures p.buffer == old(p.buffer) || (fresh(p.buffer) && !p.noalloc)
    ensures ok <==> old(p.offset) + |Text(item.model, p.format, old(p.depth))| + 2 <= p.Limit()
    ensures ok ==> p.depth == old(p.depth) && p.Printed(old(p.Content()), Text(item.model, p.format, p.depth))
    decreases item.nodes, 3
  {
    hide Tree, Stands, MembersText;
    ghost var start, text := p.Content(), Text(item.model, p.format, p.depth);
    ObjectTextShape(item.model.members, p.format, p.depth, start);
    var opening := ObjectOpening(p.format);
    var closing := Indent(p.format, p.depth) + [CLOSE_BRACE];
    assert |text| == |opening| + |MembersText(item.model.members, p.format, p.depth + 1)| + |closing|;
    hide Text;
    ok := p.Put(opening, |opening| + 1, false);
    if !ok {
      return;
    }
    p.depth := p.depth + 1;
    ok := PrintMembers(item, p);
    if !ok {
      return;
    }
    ok := p.Close(closing, start, text);
  }

  // The loop over the members of an object.
  method PrintMembers(item: Item, p: PrintBuffer) returns (ok: bool)
    requires Tree(item) && item.kind == Object && item.model.JObj? && p.Valid()
    modifies p`buffer, p`offset, p`depth, p.buffer
    ensures p.Valid() && p.Limit() == old(p.Limit())
    ensures p.buffer == old(p.buffer) || (fresh(p.buffer) && !p.noalloc)
    ensures !ok ==> old(p.offset) + |MembersText(item.model.members, p.format, old(p.depth))| + 2 > p.Limit()
    ensures ok ==> p.depth == old(p.depth) && p.Content() == old(p.Content()) + MembersText(item.model.members, p.format, p.depth)
    decreases item.nodes, 2
  {
    hide Tree, Text, MembersText, MemberText, Stands;
    ghost var start, d, members := p.Content(), p.depth, item.model.members;
    ghost var written: seq<byte> := [];
    ghost var i := 0;
    var current := item.child;
    KidAt(item, 0);
    MemberAt(item, 0);
    MembersEnds(members, p.format, d);
    while current != null
      invariant i <= |members| && Tree(item) && item.model == JObj(members) && |item.kids| == |members|
      invariant current == if i < |members| then item.kids[i] else null
      invariant p.Valid() && p.Limit() == old(p.Limit()) && p.depth == d
      invariant p.buffer == old(p.buffer) || (fresh(p.buffer) && !p.noalloc)
      invariant MembersText(members, p.format, d) == written + MembersText(members[i..], p.format, d)
      invariant p.Content() == start + written
      decreases |members| - i
    {
      ghost var piece := MemberText(members[i], p.format, d, i + 1 == |members|);
      MembersStep(members, i, p.format, d);
      Assoc(written, piece, MembersText(members[i + 1..], p.format, d));
      Assoc(start, written, piece);
      KidAt(item, i);
      MemberAt(item, i);
      ok := PrintMember(current, p);
      if !ok {
        return;
      }
      written := written + piece;
      i := i + 1;
      current := current.next;
    }
    assert members[i..] == [];
    assert written + [] == written;
    ok := true;
  }

  lemma MemberAt(item: Item, i: nat)
    requires Tree(item) && item.kind == Object && item.model.JObj?
    ensures |item.kids| == |item.model.members|
    ensures i < |item.kids| ==>
              item.kids[i].name.Some? && item.model.members[i] == Member(item.kids[i].name.value, item.kids[i].model)
  {
  }

  lemma MembersEnds(members: seq<Member>, format: bool, depth: nat)
    ensures members[0..] == members && MembersText([], format, depth) == []
  {
  }

  method PrintMember(item: Item, p: PrintBuffer) returns (ok: bool)
    requires Tree(item) && item.name.Some? && p.Valid()
    modifies p`buffer, p`offset, p`depth, p.buffer
    ensures p.Valid() && p.Limit() == old(p.Limit())
    ensures p.buffer == old(p.buffer) || (fresh(p.buffer) && !p.noalloc)
    ensures var text := MemberText(Member(item.name.value, item.model), p.format, old(p.depth), item.next == null);
            && (!ok ==> old(p.offset) + |text| + 2 > p.Limit())
            && (ok ==> p.depth == old(p.depth) && p.Content() == old(p.Content()) + text)
    decreases item.nodes, 6
  {
    hide Tree, Text;
    MemberTextShape(Member(item.name.value, item.model), p.format, p.depth, item.next == null, p.Content());
    ok := p.PrintKey(item.name);
    if !ok {
      return;
    }
    ok := PrintWhole(item, p);
    if !ok {
      return;
    }
    var ending := MemberEnding(p.format, item.next == null);
    ok := p.Put(ending, |ending| + 1, true);
  }

  // ---------- the printing functions ----------

  // cJSON_PrintPreallocated: prints into the caller's buffer, which never grows.
  method PrintPreallocated(item: Item, buffer: array<byte>, format: bool) returns (ok: bool)
    requires Tree(item) && buffer.Length <= SIZE_MAX
    modifies buffer
    ensures ok <==> |Text(item.model, format, 0)| + 2 <= buffer.Length
    ensures ok ==> At(buffer[..], 0, Text(item.model, format, 0) + [0])
  {
    hide Tree, Text;
    var p := new PrintBuffer(buffer, true, format, true);
    ok := PrintValue(item, p);
    if ok {
      p.PrintedText(Text(item.model, format, 0));
    }
  }

  // cJSON_PrintBuffered, for any first guess of the size and either way of growing.
  method PrintBuffered(item: Item, prebuffer: nat, format: bool, hasRealloc: bool) returns (ok: bool, printed: array<byte>)
    requires Tree(item) && prebuffer <= SIZE_MAX && (prebuffer > 0 || hasRealloc)
    ensures ok <==> |Text(item.model, format, 0)| + 2 <= SIZE_MAX
    ensures ok ==> At(printed[..], 0, Text(item.model, format, 0) + [0])
  {
    hide Tree, Text;
    var buffer := new byte[prebuffer];
    var p := new PrintBuffer(buffer, false, format, hasRealloc);
    ok := PrintValue(item, p);
    printed := p.buffer;
    if ok {
      p.PrintedText(Text(item.model, format, 0));
    }
  }

  // cJSON_Print and cJSON_PrintUnformatted: the result is exactly the text and its NUL.
  method Print(item: Item, format: bool, hasRealloc: bool) returns (ok: bool, printed: array<byte>)
    requires Tree(item)
    ensures ok <==> |Text(item.model, format, 0)| + 2 <= SIZE_MAX
    ensures ok ==> printed[..] == Text(item.model, format, 0) + [0]
  {
    hide Tree, Text;
    var buffer := new byte[256];
    var p := new PrintBuffer(buffer, false, format, hasRealloc);
    ok := PrintWhole(item, p);
    printed := p.buffer;
    if ok {
      printed := new byte[p.offset + 1];
      forall i | 0 <= i < p.offset {
        printed[i] := p.buffer[i];
      }
      printed[p.offset] := 0;
      assert p.Content() == Text(item.model, format, 0);
    }
  }
}
