// The parser of cjson.c: it moves through the input and builds a tree of items, proved against
// JsonGrammar.
module TreeParser {
  import opened Bytes
  import opened Json
  import opened Items
  import opened Trees
  import opened ParseBuffer
  import G = JsonGrammar

  // An item with nothing below it yet.
  ghost predicate Blank(item: Item)
    reads item`child, item`kids, item`nodes
  {
    item.child == null && item.kids == [] && item.nodes == {item}
  }

  // The item is the root of a tree that stands for v.
  ghost predicate Built(item: Item, v: Json)
    reads item`child, item`kind, item`valueint, item`valuestring, item`kids, item`nodes, item`model, item.nodes - {item}
  {
    item in item.nodes && Tree(item) && item.model == v
  }

  lemma LeafBuilt(item: Item)
    requires Blank(item) && Stands(item)
    ensures Built(item, item.model)
  {
  }

  method ParseString(item: Item, b: ParseBuffer) returns (ok: bool)
    requires Blank(item)
    modifies b`offset, item`kind, item`valuestring, item`model
    ensures var r := G.ParseString(b.content, old(b.offset));
            && (ok <==> r.Ok?)
            && (ok ==> b.offset == r.next && item.valuestring == Some(r.value) && Built(item, JStr(r.value)))
            && (!ok ==> b.offset == r.at)
  {
    hide G.ParseString;
    hide Tree;
    var s;
    ok, s := b.ParseString();
    if ok {
      item.kind := String;
      item.valuestring := Some(s);
      item.model := JStr(s);
      LeafBuilt(item);
    }
  }

  method ParseNumber(item: Item, b: ParseBuffer) returns (ok: bool)
    requires Blank(item) && b.offset <= |b.content|
    modifies b`offset, item`kind, item`valueint, item`model
    ensures var r := G.ParseNumber(b.content, old(b.offset));
            && (ok <==> r.Ok?)
            && (ok ==> b.offset == r.next && Built(item, JNum(r.value)))
            && (!ok ==> b.offset == r.at)
  {
    hide G.ParseNumber;
    hide Tree;
    var n;
    ok, n := b.ParseNumber();
    if ok {
      item.valueint := n;
      item.kind := Number;
      item.model := JNum(n);
      LeafBuilt(item);
    }
  }

  // null, false or true, if one of them is next.
  method ParseWord(item: Item, b: ParseBuffer) returns (found: bool)
    requires Blank(item)
    modifies b`offset, item`kind, item`valueint, item`model
    ensures found <==>
              || At(b.content, old(b.offset), NULL_TEXT)
              || At(b.content, old(b.offset), FALSE_TEXT)
              || At(b.content, old(b.offset), TRUE_TEXT)
    ensures found ==> G.ParseValue(b.content, old(b.offset), b.depth) == G.Ok(item.model, b.offset) && Built(item, item.model)
    ensures !found ==> b.offset == old(b.offset)
  {
    hide Tree;
    hide G.ParseString, G.ParseNumber, G.ParseArray, G.ParseObject;
    found := true;
    if At(b.content, b.offset, NULL_TEXT) {
      item.kind, item.model := Null, JNull;
      b.offset := b.offset + 4;
    } else if At(b.content, b.offset, FALSE_TEXT) {
      item.kind, item.model := False, JBool(false);
      b.offset := b.offset + 5;
    } else if At(b.content, b.offset, TRUE_TEXT) {
      item.kind, item.model := True, JBool(true);
      item.valueint := 1;
      b.offset := b.offset + 4;
    } else {
      return false;
    }
    LeafBuilt(item);
  }

  method ParseValue(item: Item, b: ParseBuffer) returns (ok: bool)
    requires Blank(item)
    modifies b`offset, b`depth
    modifies item`kind, item`valueint, item`valuestring, item`child, item`kids, item`nodes, item`model
    ensures var r := G.ParseValue(b.content, old(b.offset), old(b.depth));
            && (ok <==> r.Ok?)
            && (ok ==> b.offset == r.next && b.depth == old(b.depth) && Built(item, r.value))
            && (!ok ==> b.offset == r.at)
    ensures fresh(item.nodes - {item})
    decreases G.Left(b.content, b.offset), 0
  {
    hide Tree, Built;
    hide G.ParseString, G.ParseNumber, G.ParseArray, G.ParseObject;
    var found := ParseWord(item, b);
    if found {
      ok := true;
    } else if b.offset < |b.content| && b.content[b.offset] == QUOTE {
      ok := ParseString(item, b);
    } else if b.offset < |b.content| && (b.content[b.offset] == MINUS || ZERO <= b.content[b.offset] <= NINE) {
      ok := ParseNumber(item, b);
    } else if b.offset < |b.content| && b.content[b.offset] == OPEN_BRACKET {
      ok := ParseArray(item, b);
    } else if b.offset < |b.content| && b.content[b.offset] == OPEN_BRACE {
      ok := ParseObject(item, b);
    } else {
      ok := false;
    }
  }

  // ---------- arrays ----------

  // The items of the chain stand for the values.
  ghost predicate Values(s: seq<Item>, values: seq<Json>)
    reads s`model
  {
    |s| == |values| && forall i :: 0 <= i < |s| ==> s[i].model == values[i]
  }

  ghost predicate IsHead(head: Item?, s: seq<Item>) {
    head == if s == [] then null else s[0]
  }

  lemma NoValues()
    ensures Grove([], {}) && Chained([]) && Values([], []) && Members([], [])
  {
  }

  lemma OneMoreValue(s: seq<Item>, values: seq<Json>, item: Item)
    requires Values(s, values)
    ensures Values(s + [item], values + [item.model])
  {
  }

  method ParseArray(item: Item, b: ParseBuffer) returns (ok: bool)
    requires Blank(item) && G.Has(b.content, b.offset, OPEN_BRACKET)
    modifies b`offset, b`depth
    modifies item`kind, item`child, item`kids, item`nodes, item`model
    ensures var r := G.ParseArray(b.content, old(b.offset), old(b.depth));
            && (ok <==> r.Ok?)
            && (ok ==> b.offset == r.next && b.depth == old(b.depth) && Built(item, r.value))
            && (!ok ==> b.offset == r.at)
    ensures fresh(item.nodes - {item})
    decreases G.Left(b.content, b.offset) - 1, 4
  {
    hide Tree, Built, Grove, Chained, Values, G.ParseItems;
    if b.depth >= NESTING_LIMIT {
      return false;
    }
    b.depth := b.depth + 1;
    b.offset := b.offset + 1;
    b.SkipBlanks();
    var head: Item?, current: Item? := null, null;
    ghost var s: seq<Item>, all: set<Item>, values: seq<Json> := [], {}, [];
    NoValues();
    if b.offset < |b.content| && b.content[b.offset] == CLOSE_BRACKET {
    } else {
      if b.offset >= |b.content| {
        b.offset := b.offset - 1;
        return false;
      }
      b.offset := b.offset - 1;
      ok, head, current, s, all, values := ParseItems(b);
      if !ok {
        return;
      }
    }
    b.depth := b.depth - 1;
    AllIn(s, all);
    assert head != null ==> head in s;
    FinishArray(item, head, s, all, current, values);
    b.offset := b.offset + 1;
    ok := true;
  }

  // The chain becomes the children of an array.
  method FinishArray(item: Item, head: Item?, ghost s: seq<Item>, ghost all: set<Item>, current: Item?, ghost values: seq<Json>)
    requires Blank(item) && item !in all && IsHead(head, s) && IsLast(current, s)
    requires Grove(s, all) && Chained(s) && Values(s, values)
    modifies item`kind, item`child, item`kids, item`nodes, item`model, Only(head)`prev
    ensures Built(item, JArr(values)) && item.nodes == {item} + all
  {
    hide Tree, Grove, Chained;
    AllIn(s, all);
    item.kind := Array;
    item.child := head;
    CloseChain(item, s, all, current, JArr(values));
  }

  // One round of the loop over the elements: a new item, the blanks, a value, the blanks, from
  // the bracket or comma at offset to the next comma or bracket.
  method NextItem(b: ParseBuffer, head: Item?, current: Item?, ghost s: seq<Item>, ghost all: set<Item>)
    returns (ok: bool, head': Item?, item: Item, more: bool)
    requires b.offset < |b.content|
    requires Grove(s, all) && Chained(s) && IsHead(head, s) && IsLast(current, s)
    modifies b`offset, b`depth, Only(current)`next
    ensures var r := G.ParseValue(b.content, G.Skip(b.content, old(b.offset) + 1), old(b.depth));
            && (ok <==> r.Ok?)
            && (ok ==> item.model == r.value && b.offset == G.Skip(b.content, r.next) && b.depth == old(b.depth))
            && (ok ==> more == G.Has(b.content, b.offset, COMMA))
            && (!ok ==> b.offset == r.at)
    ensures fresh(item) && IsHead(head', s + [item])
    ensures ok ==> fresh(item.nodes) && Grove(s + [item], all + item.nodes) && Chained(s + [item])
    decreases G.Left(b.content, b.offset + 1), 1
  {
    hide G.ParseValue, Grove, Chained, Tree;
    item, head' := AppendNew(head, current, s, all);
    b.offset := b.offset + 1;
    b.SkipBlanks();
    ok := ParseValue(item, b);
    more := false;
    if ok {
      GroveGrows(s, all, item);
      b.SkipBlanks();
      more := b.offset < |b.content| && b.content[b.offset] == COMMA;
    }
  }

  // A new item, behind the current one or as the first.
  method AppendNew(head: Item?, current: Item?, ghost s: seq<Item>, ghost all: set<Item>) returns (item: Item, head': Item?)
    requires Grove(s, all) && Chained(s) && IsHead(head, s) && IsLast(current, s)
    modifies Only(current)`next
    ensures fresh(item) && item !in all && Blank(item) && IsHead(head', s + [item])
    ensures Grove(s, all) && Chained(s + [item])
  {
    hide Grove, Chained;
    item := new Item();
    LinkNew(s, all, current, item);
    head' := if head == null then item else head;
  }

  // The list so far, followed by what the rest of the input gives.
  ghost function After<T>(list: seq<T>, rest: G.Parsed<seq<T>>): G.Parsed<seq<T>> {
    match rest
    case Ok(more, next) => G.Ok(list + more, next)
    case Err(at) => G.Err(at)
  }

  lemma AfterNothing<T>(rest: G.Parsed<seq<T>>)
    ensures After([], rest) == rest
  {
    if rest.Ok? {
      assert [] + rest.value == rest.value;
    }
  }

  lemma Append<T>(list: seq<T>, x: T, rest: G.Parsed<seq<T>>)
    ensures After(list, After([x], rest)) == After(list + [x], rest)
    ensures forall next {:trigger G.Ok([x], next)} :: After(list, G.Ok([x], next)) == G.Ok(list + [x], next)
  {
    if rest.Ok? {
      assert list + ([x] + rest.value) == list + [x] + rest.value;
    }
  }

  // One round, in terms of the rest of the list.
  lemma ParseItemsStep(c: seq<byte>, o: nat, depth: nat)
    ensures var r := G.ParseValue(c, G.Skip(c, o), depth);
            G.ParseItems(c, o, depth) ==
              if r.Err? then G.Err(r.at)
              else if G.Has(c, G.Skip(c, r.next), COMMA) then After([r.value], G.ParseItems(c, G.Skip(c, r.next) + 1, depth))
              else if G.Has(c, G.Skip(c, r.next), CLOSE_BRACKET) then G.Ok([r.value], G.Skip(c, r.next) + 1)
              else G.Err(G.Skip(c, r.next))
  {
  }

  method ParseItems(b: ParseBuffer)
    returns (ok: bool, head: Item?, current: Item?, ghost s: seq<Item>, ghost all: set<Item>, ghost values: seq<Json>)
    requires b.offset < |b.content|
    modifies b`offset, b`depth
    ensures var r := G.ParseItems(b.content, old(b.offset) + 1, old(b.depth));
            && (ok <==> r.Ok?)
            && (ok ==> values == r.value && b.offset + 1 == r.next && b.depth == old(b.depth))
            && (!ok ==> b.offset == r.at)
    ensures fresh(all) && Grove(s, all) && Chained(s) && IsHead(head, s) && IsLast(current, s) && Values(s, values)
    decreases G.Left(b.content, b.offset + 1), 2
  {
    hide G.ParseValue, G.ParseItems, G.Skip, Grove, Chained, Values, Tree;
    ghost var start := b.offset;
    ghost var whole := G.ParseItems(b.content, b.offset + 1, b.depth);
    head, current, s, all, values := null, null, [], {}, [];
    NoValues();
    AfterNothing(whole);
    var more := true;
    while more
      invariant start <= b.offset && b.depth == old(b.depth)
      invariant fresh(all) && Grove(s, all) && Chained(s) && IsHead(head, s) && IsLast(current, s) && Values(s, values)
      invariant more ==> b.offset < |b.content|
      invariant more ==> whole == After(values, G.ParseItems(b.content, b.offset + 1, b.depth))
      invariant !more ==> whole == if G.Has(b.content, b.offset, CLOSE_BRACKET) then G.Ok(values, b.offset + 1) else G.Err(b.offset)
      decreases more, |b.content| - b.offset
    {
      ParseItemsStep(b.content, b.offset + 1, b.depth);
      LastIsIn(s, all, current);
      var item;
      ok, head, item, more := NextItem(b, head, current, s, all);
      if !ok {
        head, current, s, all, values := null, null, [], {}, [];
        NoValues();
        return;
      }
      OneMoreValue(s, values, item);
      Append(values, item.model, G.ParseItems(b.content, b.offset + 1, b.depth));
      current, s, all, values := item, s + [item], all + item.nodes, values + [item.model];
    }
    ok := b.offset < |b.content| && b.content[b.offset] == CLOSE_BRACKET;
  }

  ghost predicate Members(s: seq<Item>, members: seq<Member>)
    reads s`model, s`name
  {
    |s| == |members| && forall i :: 0 <= i < |s| ==> s[i].name.Some? && members[i] == Member(s[i].name.value, s[i].model)
  }

  // ---------- objects ----------

  lemma OneMoreMember(s: seq<Item>, members: seq<Member>, item: Item)
    requires Members(s, members) && item.name.Some?
    ensures Members(s + [item], members + [Member(item.name.value, item.model)])
  {
  }

  method ParseObject(item: Item, b: ParseBuffer) returns (ok: bool)
    requires Blank(item) && G.Has(b.content, b.offset, OPEN_BRACE)
    modifies b`offset, b`depth
    modifies item`kind, item`child, item`kids, item`nodes, item`model
    ensures var r := G.ParseObject(b.content, old(b.offset), old(b.depth));
            && (ok <==> r.Ok?)
            && (ok ==> b.offset == r.next && b.depth == old(b.depth) && Built(item, r.value))
            && (!ok ==> b.offset == r.at)
    ensures fresh(item.nodes - {item})
    decreases G.Left(b.content, b.offset) - 1, 4
  {
    hide Tree, Built, Grove, Chained, Members, G.ParseMembers;
    if b.depth >= NESTING_LIMIT {
      return false;
    }
    b.depth := b.depth + 1;
    b.offset := b.offset + 1;
    b.SkipBlanks();
    var head: Item?, current: Item? := null, null;
    ghost var s: seq<Item>, all: set<Item>, members: seq<Member> := [], {}, [];
    NoValues();
    if b.offset < |b.content| && b.content[b.offset] == CLOSE_BRACE {
    } else {
      if b.offset >= |b.content| {
        b.offset := b.offset - 1;
        return false;
      }
      b.offset := b.offset - 1;
      ok, head, current, s, all, members := ParseMembers(b);
      if !ok {
        return;
      }
    }
    b.depth := b.depth - 1;
    AllIn(s, all);
    assert head != null ==> head in s;
    FinishObject(item, head, s, all, current, members);
    b.offset := b.offset + 1;
    ok := true;
  }

  // The chain becomes the children of an object.
  method FinishObject(item: Item, head: Item?, ghost s: seq<Item>, ghost all: set<Item>, current: Item?, ghost members: seq<Member>)
    requires Blank(item) && item !in all && IsHead(head, s) && IsLast(current, s)
    requires Grove(s, all) && Chained(s) && Members(s, members)
    modifies item`kind, item`child, item`kids, item`nodes, item`model, Only(head)`prev
    ensures Built(item, JObj(members)) && item.nodes == {item} + all
  {
    hide Tree, Grove, Chained;
    AllIn(s, all);
    item.kind := Object;
    item.child := head;
    CloseChain(item, s, all, current, JObj(members));
  }

  // One round of the loop over the members: a new item with its name, a colon and a value.
  method NextMember(b: ParseBuffer, head: Item?, current: Item?, ghost s: seq<Item>, ghost all: set<Item>)
    returns (ok: bool, head': Item?, item: Item, more: bool)
    requires b.offset < |b.content|
    requires Grove(s, all) && Chained(s) && IsHead(head, s) && IsLast(current, s)
    modifies b`offset, b`depth, Only(current)`next
    ensures var r := G.ParseMember(b.content, old(b.offset) + 1, old(b.depth));
            && (ok <==> r.Ok?)
            && (ok ==> item.name.Some? && Member(item.name.value, item.model) == r.value)
            && (ok ==> b.offset == G.Skip(b.content, r.next) && b.depth == old(b.depth))
            && (ok ==> more == G.Has(b.content, b.offset, COMMA))
            && (!ok ==> b.offset == r.at)
    ensures fresh(item) && IsHead(head', s + [item])
    ensures ok ==> fresh(item.nodes) && Grove(s + [item], all + item.nodes) && Chained(s + [item])
    decreases G.Left(b.content, b.offset + 1), 2
  {
    hide G.ParseMember, Grove, Chained, Tree;
    item, head' := AppendNew(head, current, s, all);
    b.offset := b.offset + 1;
    ok := ParseMember(item, b);
    more := false;
    if ok {
      GroveGrows(s, all, item);
      b.SkipBlanks();
      more := b.offset < |b.content| && b.content[b.offset] == COMMA;
    }
  }

  // One key, its colon and its value; offset starts in front of the key. The key is read as the
  // item's string and becomes its name.
  method ParseMember(item: Item, b: ParseBuffer) returns (ok: bool)
    requires Blank(item)
    modifies b`offset, b`depth
    modifies item`kind, item`valueint, item`valuestring, item`name, item`child, item`kids, item`nodes, item`model
    ensures var r := G.ParseMember(b.content, old(b.offset), old(b.depth));
            && (ok <==> r.Ok?)
            && (ok ==> b.offset == r.next && b.depth == old(b.depth) && Tree(item))
            && (ok ==> item.name.Some? && Member(item.name.value, item.model) == r.value)
            && (!ok ==> b.offset == r.at)
    ensures fresh(item.nodes - {item})
    decreases G.Left(b.content, b.offset), 1
  {
    hide G.ParseValue, G.ParseString, Tree;
    b.SkipBlanks();
    ok := ParseString(item, b);
    if !ok {
      return;
    }
    b.SkipBlanks();
    item.name := item.valuestring;
    item.valuestring := None;
    if b.offset >= |b.content| || b.content[b.offset] != COLON {
      return false;
    }
    b.offset := b.offset + 1;
    b.SkipBlanks();
    ok := ParseValue(item, b);
  }

  // One round, in terms of the rest of the list.
  lemma ParseMembersStep(c: seq<byte>, o: nat, depth: nat)
    ensures var r := G.ParseMember(c, o, depth);
            G.ParseMembers(c, o, depth) ==
              if r.Err? then G.Err(r.at)
              else if G.Has(c, G.Skip(c, r.next), COMMA) then After([r.value], G.ParseMembers(c, G.Skip(c, r.next) + 1, depth))
              else if G.Has(c, G.Skip(c, r.next), CLOSE_BRACE) then G.Ok([r.value], G.Skip(c, r.next) + 1)
              else G.Err(G.Skip(c, r.next))
  {
  }

  method ParseMembers(b: ParseBuffer)
    returns (ok: bool, head: Item?, current: Item?, ghost s: seq<Item>, ghost all: set<Item>, ghost members: seq<Member>)
    requires b.offset < |b.content|
    modifies b`offset, b`depth
    ensures var r := G.ParseMembers(b.content, old(b.offset) + 1, old(b.depth));
            && (ok <==> r.Ok?)
            && (ok ==> members == r.value && b.offset + 1 == r.next && b.depth == old(b.depth))
            && (!ok ==> b.offset == r.at)
    ensures fresh(all) && Grove(s, all) && Chained(s) && IsHead(head, s) && IsLast(current, s) && Members(s, members)
    decreases G.Left(b.content, b.offset + 1), 3
  {
    hide G.ParseMember, G.ParseMembers, G.Skip, Grove, Chained, Members, Tree;
    ghost var start := b.offset;
    ghost var whole := G.ParseMembers(b.content, b.offset + 1, b.depth);
    head, current, s, all, members := null, null, [], {}, [];
    NoValues();
    AfterNothing(whole);
    var more := true;
    while more
      invariant start <= b.offset && b.depth == old(b.depth)
      invariant fresh(all) && Grove(s, all) && Chained(s) && IsHead(head, s) && IsLast(current, s) && Members(s, members)
      invariant more ==> b.offset < |b.content|
      invariant more ==> whole == After(members, G.ParseMembers(b.content, b.offset + 1, b.depth))
      invariant !more ==> whole == if G.Has(b.content, b.offset, CLOSE_BRACE) then G.Ok(members, b.offset + 1) else G.Err(b.offset)
      decreases more, |b.content| - b.offset
    {
      ParseMembersStep(b.content, b.offset + 1, b.depth);
      LastIsIn(s, all, current);
      var item;
      ok, head, item, more := NextMember(b, head, current, s, all);
      if !ok {
        head, current, s, all, members := null, null, [], {}, [];
        NoValues();
        return;
      }
      OneMoreMember(s, members, item);
      ghost var m := Member(item.name.value, item.model);
      Append(members, m, G.ParseMembers(b.content, b.offset + 1, b.depth));
      current, s, all, members := item, s + [item], all + item.nodes, members + [m];
    }
    ok := b.offset < |b.content| && b.content[b.offset] == CLOSE_BRACE;
  }

  // cJSON_ParseWithLengthOpts: the tree, or where an error is reported, and where the value ends.
  method ParseWithLengthOpts(text: seq<byte>, requireNul: bool) returns (item: Item?, parseEnd: nat)
    ensures var r := G.ParseText(text, requireNul);
            && (item != null <==> r.Ok?)
            && (item != null ==> Tree(item) && item.model == r.value && fresh(item.nodes) && parseEnd == r.next)
            && (item == null ==> parseEnd == r.at)
  {
    hide Tree, G.ParseValue;
    var b := new ParseBuffer(text);
    var root := new Item();
    if |text| > 4 && At(text, 0, G.BOM) {
      b.offset := b.offset + 3;
    }
    b.SkipBlanks();
    var ok := ParseValue(root, b);
    if ok && requireNul {
      b.SkipBlanks();
      ok := b.offset < |text| && text[b.offset] == 0;
    }
    if ok {
      return root, b.offset;
    }
    return null, G.ErrorPosition(text, b.offset);
  }
}
