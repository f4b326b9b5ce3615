// Building trees with the list operations of cJSON: what they make of the value a tree stands for.
module Building {
  import opened Bytes
  import opened Json
  import opened Items
  import opened Trees
  import C = Compare

  // cJSON_AddItemToArray, on whole trees.
  method AddToArray(list: Item, item: Item) returns (ok: bool)
    requires Tree(list) && list.kind == Array && list.model.JArr?
    requires Tree(item) && item.next == null && list.nodes !! item.nodes
    modifies list`child, list`kids, list`nodes, list`model, KidSet(list)`next, KidSet(list)`prev, item`next, item`prev
    ensures ok && Tree(list) && list.kids == old(list.kids) + [item] && list.nodes == old(list.nodes) + item.nodes
    ensures list.model == JArr(old(list.model.items) + [item.model])
  {
    hide Tree;
    KidAt(list, 0);
    Apart(list, item);
    ok := Attach(list, item, JArr(list.model.items + [item.model]));
  }

  // cJSON_AddItemToObject, on whole trees: the item gets a copy of the key as its name.
  method AddToObject(obj: Item, key: CString, item: Item) returns (ok: bool)
    requires Tree(obj) && obj.kind == Object && obj.model.JObj?
    requires Tree(item) && item.next == null && obj.nodes !! item.nodes
    modifies obj`child, obj`kids, obj`nodes, obj`model, KidSet(obj)`next, KidSet(obj)`prev
    modifies item`next, item`prev, item`name
    ensures ok && Tree(obj) && obj.kids == old(obj.kids) + [item] && obj.nodes == old(obj.nodes) + item.nodes
    ensures obj.model == JObj(old(obj.model.members) + [Member(key, item.model)])
  {
    hide Tree;
    KidAt(obj, 0);
    Apart(obj, item);
    item.name := Some(key);
    ok := Attach(obj, item, JObj(obj.model.members + [Member(key, item.model)]));
  }

  // The new last child, whatever the kind of the list.
  method Attach(list: Item, item: Item, ghost model: Json) returns (ok: bool)
    requires Tree(list) && Tree(item) && item.next == null && list.nodes !! item.nodes
    modifies list`child, list`kids, list`nodes, list`model, KidSet(list)`next, KidSet(list)`prev, item`next, item`prev
    ensures ok && list.kids == old(list.kids) + [item] && list.nodes == old(list.nodes) + item.nodes && list.model == model
    ensures Stands(list) ==> Tree(list)
  {
    hide Stands, Linked;
    KidsGrove(list);
    TreeRoot(item);
    ghost var all := list.nodes - {list};
    GroveGrows(list.kids, all, item);
    ok := Link(list, item, all + item.nodes);
    list.nodes := list.nodes + item.nodes;
    list.model := model;
    assert Grove(list.kids, all + item.nodes);
    hide Tree;
    RootOfGrove(list, all + item.nodes);
  }

  method Link(list: Item, item: Item, ghost all: set<Item>) returns (ok: bool)
    requires ListOk(list) && Grove(list.kids + [item], all) && list !in all && item.next == null && item !in list.kids
    modifies list`child, list`kids, KidSet(list)`next, KidSet(list)`prev, item`next, item`prev
    ensures ok && ListOk(list) && list.kids == old(list.kids) + [item]
    ensures Grove(list.kids, all)
  {
    hide Tree, Linked;
    RootsDiffer(list.kids + [item], all);
    assert item in list.kids + [item];
    AllIn(list.kids + [item], all);
    assert forall k :: k in list.kids ==> k in list.kids + [item];
    ok := AddItemToArray(list, item);
  }

  lemma Apart(list: Item, item: Item)
    requires Tree(list) && Tree(item) && list.nodes !! item.nodes
    ensures list != item && item !in list.kids && item !in list.nodes && list !in item.nodes
  {
  }

  lemma KidsGrove(list: Item)
    requires Tree(list)
    ensures Grove(list.kids, list.nodes - {list}) && ListOk(list) && list in list.nodes
  {
  }

  lemma RootOfGrove(list: Item, all: set<Item>)
    requires Grove(list.kids, all) && ListOk(list) && list !in all && list.nodes == {list} + all
    ensures Stands(list) ==> Tree(list)
  {
  }

  // cJSON_Duplicate: the copy compares equal to its source, which is as it was, when that has no
  // repeated keys and no large numbers.
  method DuplicateComparesEqual(item: Item, caseSensitive: bool) returns (copy: Item)
    requires Tree(item)
    ensures fresh(copy.nodes) && Tree(copy) && Tree(item)
    ensures C.Regular(item.model, caseSensitive) ==>
              C.Compare(copy.model, item.model, caseSensitive) && C.Compare(item.model, copy.model, caseSensitive)
  {
    hide Tree;
    copy := Duplicate(item);
    if C.Regular(item.model, caseSensitive) {
      C.CompareIsEquivalence(item.model, item.model, item.model, caseSensitive);
    }
  }
}
