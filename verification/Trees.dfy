// Whole trees of items, and cJSON_Duplicate.
module Trees {
  import opened Bytes
  import opened Json
  import opened Items

  // n is the root of a well-formed tree that stands for n.model. Nothing here depends on the
  // links of n to its own siblings.
  ghost predicate Tree(n: Item)
    reads n`child, n`kind, n`valueint, n`valuestring, n`kids, n`nodes, n`model, n.nodes - {n}
    decreases n.nodes
  {
    && n in n.nodes
    && (forall k :: k in n.kids ==> k in n.nodes && k.nodes <= n.nodes - {n})
    && (forall k :: k in n.kids ==> Tree(k))
    && ListOk(n)
    && (forall i, j :: 0 <= i < j < |n.kids| ==> n.kids[i].nodes !! n.kids[j].nodes)
    && Stands(n)
  }

  // The value n stands for, given those of its children.
  ghost predicate Stands(n: Item)
    reads n`kind, n`valueint, n`valuestring, n`kids, n`model, n.kids
  {
    match n.kind
    case Null => n.model == JNull && n.kids == []
    case False => n.model == JBool(false) && n.kids == []
    case True => n.model == JBool(true) && n.kids == []
    case Number => n.model == JNum(n.valueint) && n.kids == []
    case String => n.valuestring.Some? && n.model == JStr(n.valuestring.value) && n.kids == []
    case Array =>
      && n.model.JArr? && |n.model.items| == |n.kids|
      && forall i :: 0 <= i < |n.kids| ==> n.model.items[i] == n.kids[i].model
    case Object =>
      && n.model.JObj? && |n.model.members| == |n.kids|
      && forall i :: 0 <= i < |n.kids| ==>
           n.kids[i].name.Some? && n.model.members[i] == Member(n.kids[i].name.value, n.kids[i].model)
    case Invalid => false
  }

  // A fresh copy of the scalar fields of an item.
  method CopyFields(item: Item) returns (copy: Item)
    ensures fresh(copy) && copy.next == copy.prev == copy.child == null
    ensures SameFields(copy, item)
    ensures copy.kids == [] && copy.nodes == {copy}
  {
    copy := new Item();
    copy.kind := item.kind;
    copy.valueint := item.valueint;
    if item.valuestring.Some? {
      copy.valuestring := item.valuestring;
    }
    if item.name.Some? {
      copy.name := item.name;
    }
  }

  // s holds trees that share no node; all of their nodes are in all.
  ghost predicate Grove(s: seq<Item>, all: set<Item>)
    reads s, all
  {
    && (forall k :: k in s ==> k in k.nodes && k.nodes <= all)
    && (forall k :: k in s ==> Tree(k))
    && (forall i, j :: 0 <= i < j < |s| ==> s[i].nodes !! s[j].nodes)
  }

  // The items are linked one behind the other; the prev of the first is still open.
  ghost predicate Chained(s: seq<Item>)
    reads s`next, s`prev
  {
    && (forall i {:trigger s[i].next} :: 0 <= i < |s| ==> s[i].next == if i + 1 < |s| then s[i + 1] else null)
    && (forall i {:trigger s[i].prev} :: 0 < i < |s| ==> s[i].prev == s[i - 1])
  }

  ghost predicate IsLast(last: Item?, s: seq<Item>) {
    last == if s == [] then null else s[|s| - 1]
  }

  lemma RootsDiffer(s: seq<Item>, all: set<Item>)
    requires Grove(s, all)
    ensures Distinct(s)
    ensures forall k, r :: k in s && r in s && k != r ==> r !in k.nodes
  {
  }

  lemma GroveGrows(s: seq<Item>, all: set<Item>, item: Item)
    requires Grove(s, all) && Tree(item) && item.nodes !! all
    ensures Grove(s + [item], all + item.nodes)
  {
  }

  // One more tree of new nodes at the end of the chain.
  method ExtendChain(ghost s: seq<Item>, ghost all: set<Item>, last: Item?, item: Item)
    requires Grove(s, all) && Chained(s) && IsLast(last, s)
    requires Tree(item) && item.next == null && item.nodes !! all
    modifies Only(last)`next, item`prev
    ensures Grove(s + [item], all + item.nodes) && Chained(s + [item])
  {
    hide Chained;
    LastIsIn(s, all, last);
    TreeRoot(item);
    LinkNew(s, all, last, item);
    assert Tree(item);
    GroveGrows(s, all, item);
  }

  lemma AllIn(s: seq<Item>, all: set<Item>)
    requires Grove(s, all)
    ensures forall k :: k in s ==> k in all
  {
  }

  lemma LastIsIn(s: seq<Item>, all: set<Item>, last: Item?)
    requires Grove(s, all) && IsLast(last, s)
    ensures last != null ==> last in s && last in all
  {
  }

  // A new item at the end of the chain.
  method LinkNew(ghost s: seq<Item>, ghost all: set<Item>, last: Item?, item: Item)
    requires Grove(s, all) && Chained(s) && IsLast(last, s) && item.next == null && item !in all
    modifies Only(last)`next, item`prev
    ensures Grove(s, all) && Chained(s + [item])
  {
    hide Tree;
    RootsDiffer(s, all);
    AllIn(s, all);
    assert forall i :: 0 <= i < |s| - 1 ==> s[i] != last;
    if last != null {
      last.next := item;
      item.prev := last;
    }
    assert Grove(s, all);
    hide Grove;
    ChainGrows(s, item);
  }

  lemma ChainGrows(s: seq<Item>, item: Item)
    requires forall i {:trigger s[i].next} :: 0 <= i < |s| ==> s[i].next == if i + 1 < |s| then s[i + 1] else item
    requires forall i {:trigger s[i].prev} :: 0 < i < |s| ==> s[i].prev == s[i - 1]
    requires item.next == null && (s != [] ==> item.prev == s[|s| - 1])
    ensures Chained(s + [item])
  {
  }

  // The chain becomes the children of copy.
  method CloseChain(copy: Item, ghost s: seq<Item>, ghost all: set<Item>, last: Item?, ghost model: Json)
    requires Grove(s, all) && Chained(s) && IsLast(last, s) && copy !in all
    requires copy.child == if s == [] then null else s[0]
    modifies copy`kids, copy`nodes, copy`model, Only(copy.child)`prev
    ensures copy.kids == s && copy.nodes == {copy} + all && copy.model == model
    ensures Stands(copy) ==> Tree(copy)
  {
    hide Stands;
    CloseLinks(copy, s, all, last);
    copy.kids := s;
    copy.model := model;
    copy.nodes := {copy} + all;
    assert Grove(s, all);
  }

  // The prev of the first item of the chain becomes the last one.
  method CloseLinks(copy: Item, ghost s: seq<Item>, ghost all: set<Item>, last: Item?)
    requires Grove(s, all) && Chained(s) && IsLast(last, s)
    requires copy.child == if s == [] then null else s[0]
    modifies Only(copy.child)`prev
    ensures Grove(s, all) && Linked(s) && Distinct(s)
  {
    hide Tree;
    RootsDiffer(s, all);
    if copy.child != null {
      copy.child.prev := last;
    }
  }

  // cJSON_Duplicate with recursion: a tree of new nodes that stands for the same value.
  method Duplicate(item: Item) returns (copy: Item)
    requires Tree(item)
    ensures fresh(copy.nodes) && Tree(copy)
    ensures copy.model == item.model && copy.name == item.name
    ensures copy.next == copy.prev == null
    decreases item.nodes, 1
  {
    hide Tree, Grove, Chained, ListOk, Stands, SameValues, SameFields;
    copy := CopyFields(item);
    KidAt(item, 0);
    ghost var s, all;
    var last;
    last, s, all := CopyChildren(copy, item);
    KidAt(item, 0);
    assert copy.child != null ==> copy.child in s && copy.child in all;
    FinishCopy(copy, item, s, all, last);
    SameName(copy, item);
  }

  // The loop over the children of item.
  method CopyChildren(copy: Item, item: Item) returns (last: Item?, ghost s: seq<Item>, ghost all: set<Item>)
    requires Tree(item) && copy !in item.nodes && copy.child == null
    modifies copy`child
    ensures fresh(all) && copy !in all && Grove(s, all) && Chained(s) && IsLast(last, s)
    ensures copy.child == if s == [] then null else s[0]
    ensures |s| == |item.kids| && SameValues(s, item.kids) && forall k :: k in s ==> k in all
    decreases item.nodes, 0
  {
    hide Tree, Grove, Chained, SameValues, Stands;
    var child := item.child;
    last, s, all := null, [], {};
    NoGrove();
    KidAt(item, 0);
    while child != null
      invariant |s| <= |item.kids| && child == if |s| < |item.kids| then item.kids[|s|] else null
      invariant Tree(item) && fresh(all) && copy !in all && Grove(s, all) && Chained(s) && IsLast(last, s)
      invariant copy.child == if s == [] then null else s[0]
      invariant SameValues(s, item.kids) && forall k :: k in s ==> k in all
      decreases |item.kids| - |s|
    {
      KidAt(item, |s|);
      assert last != null ==> last in s && last in all;
      var newChild := CopyChild(copy, child, last, s, all);
      OneMore(s, newChild, item.kids);
      last, s, all := newChild, s + [newChild], all + newChild.nodes;
      child := child.next;
      KidAt(item, |s|);
    }
  }

  lemma SameName(copy: Item, item: Item)
    requires SameFields(copy, item)
    ensures copy.name == item.name
  {
  }

  method FinishCopy(copy: Item, ghost item: Item, ghost s: seq<Item>, ghost all: set<Item>, last: Item?)
    requires Stands(item) && SameFields(copy, item) && |s| == |item.kids| && SameValues(s, item.kids)
    requires Grove(s, all) && Chained(s) && IsLast(last, s) && copy !in all
    requires copy.child == if s == [] then null else s[0]
    requires copy !in s && copy != item
    requires (copy.child != null ==> copy.child !in item.kids && copy.child != item) && copy !in item.kids
    modifies copy`kids, copy`nodes, copy`model, Only(copy.child)`prev
    ensures Tree(copy) && copy.model == item.model && copy.nodes == {copy} + all
  {
    hide Tree, Grove, Chained, ListOk, Stands, SameValues;
    CloseChain(copy, s, all, last, item.model);
    StandsForSame(copy, item);
  }

  // One round of the loop: child is copied and the copy linked behind last, or as the first.
  method CopyChild(copy: Item, child: Item, last: Item?, ghost s: seq<Item>, ghost all: set<Item>) returns (newChild: Item)
    requires Tree(child) && Grove(s, all) && Chained(s) && IsLast(last, s) && copy !in all
    modifies copy`child, Only(last)`next
    ensures fresh(newChild.nodes) && newChild in newChild.nodes
    ensures Grove(s + [newChild], all + newChild.nodes) && Chained(s + [newChild])
    ensures newChild.model == child.model && newChild.name == child.name
    ensures copy.child == if last == null then newChild else old(copy.child)
    decreases child.nodes, 2
  {
    hide Tree, Grove, Chained;
    newChild := Duplicate(child);
    TreeRoot(newChild);
    ExtendChain(s, all, last, newChild);
    if last == null {
      copy.child := newChild;
    }
  }

  lemma NoGrove()
    ensures Grove([], {}) && Chained([]) && forall t :: SameValues([], t)
  {
  }

  lemma TreeRoot(n: Item)
    requires Tree(n)
    ensures n in n.nodes
  {
  }

  // The child at position i, and where the walk along the children goes from it.
  lemma KidAt(item: Item, i: nat)
    requires Tree(item)
    ensures item.child == if item.kids == [] then null else item.kids[0]
    ensures Stands(item)
    ensures i < |item.kids| ==>
              && Tree(item.kids[i]) && item.kids[i].nodes < item.nodes
              && item.kids[i].next == if i + 1 < |item.kids| then item.kids[i + 1] else null
  {
  }

  // s holds copies of the first items of t.
  ghost predicate SameValues(s: seq<Item>, t: seq<Item>)
    reads s`model, s`name, t`model, t`name
  {
    |s| <= |t| && forall i :: 0 <= i < |s| ==> s[i].model == t[i].model && s[i].name == t[i].name
  }

  lemma OneMore(s: seq<Item>, x: Item, t: seq<Item>)
    requires SameValues(s, t) && |s| < |t| && x.model == t[|s|].model && x.name == t[|s|].name
    ensures SameValues(s + [x], t)
  {
  }

  lemma StandsForSame(copy: Item, item: Item)
    requires SameFields(copy, item) && |copy.kids| == |item.kids| && SameValues(copy.kids, item.kids)
    requires copy.model == item.model && Stands(item)
    ensures Stands(copy)
  {
  }

  ghost predicate SameFields(a: Item, b: Item)
    reads {a, b}`kind, {a, b}`valueint, {a, b}`valuestring, {a, b}`name
  {
    a.kind == b.kind && a.valueint == b.valueint && a.valuestring == b.valuestring && a.name == b.name
  }
}
