// The sibling lists of cJSON items: heap nodes linked by next and prev, where the prev of the
// first one is the last one. Each operation is proved to be the matching operation on a sequence.
module Items {
  import opened Bytes
  import opened Json

  datatype Kind = Invalid | False | True | Null | Number | String | Array | Object

  // The cJSON structure. The ghost fields say what hangs below an item: its children in order,
  // every node of its tree, and the value the tree stands for.
  class Item {
    var next: Item?
    var prev: Item?
    var child: Item?
    var kind: Kind
    var valueint: Int64
    var valuestring: Option<CString>
    var name: Option<CString>
    ghost var kids: seq<Item>
    ghost var nodes: set<Item>
    ghost var model: Json

    // cJSON_New_Item: everything zero.
    constructor ()
      ensures next == prev == child == null && kind == Invalid && valueint == 0
      ensures valuestring == None && name == None
      ensures kids == [] && nodes == {this} && ListOk(this)
    {
      next, prev, child := null, null, null;
      kind, valueint := Invalid, 0;
      valuestring, name := None, None;
      kids, nodes, model := [], {this}, JNull;
    }
  }

  ghost predicate Distinct(s: seq<Item>) {
    forall i, j :: 0 <= i < j < |s| ==> s[i] != s[j]
  }

  // s is linked as a sibling list: next to the following item, prev to the one before, and
  // prev of the first to the last.
  ghost predicate Linked(s: seq<Item>)
    reads s
  {
    && (forall i {:trigger s[i].next} :: 0 <= i < |s| ==> s[i].next == if i + 1 < |s| then s[i + 1] else null)
    && (forall i {:trigger s[i].prev} :: 0 <= i < |s| ==> s[i].prev == if i > 0 then s[i - 1] else s[|s| - 1])
  }

  ghost predicate ListOk(list: Item)
    reads list`child, list`kids, list.kids
  {
    && Distinct(list.kids) && list !in list.kids
    && Linked(list.kids)
    && list.child == if list.kids == [] then null else list.kids[0]
  }

  ghost function KidSet(list: Item?): set<Item>
    reads list
  {
    if list == null then {} else set k | k in list.kids
  }

  ghost function Kids(list: Item?): seq<Item>
    reads list
  {
    if list == null then [] else list.kids
  }

  ghost function Only(item: Item?): set<Item> {
    if item == null then {} else {item}
  }

  // An item that may be put into the list: not in it already, and with no successor, as new
  // items and detached ones are.
  ghost predicate Detached(list: Item?, item: Item?)
    reads list, item
  {
    item != null ==> item.next == null && (list != null ==> item !in list.kids)
  }

  method SuffixObject(prev: Item, item: Item)
    modifies prev`next, item`prev
    ensures prev.next == item && item.prev == prev
  {
    prev.next := item;
    item.prev := prev;
  }

  // add_item_to_array: appends.
  method AddItemToArray(list: Item?, item: Item?) returns (ok: bool)
    requires list != null ==> ListOk(list)
    requires Detached(list, item)
    modifies Only(list)`child, Only(list)`kids, KidSet(list)`next, KidSet(list)`prev, Only(item)`next, Only(item)`prev
    ensures ok <==> list != null && item != null && list != item
    ensures list != null ==> ListOk(list)
    ensures Kids(list) == old(Kids(list)) + if ok then [item] else []
  {
    if item == null || list == null || list == item {
      return false;
    }
    var child := list.child;
    if child == null {
      list.child := item;
      item.prev := item;
      item.next := null;
    } else {
      if child.prev != null {
        SuffixObject(child.prev, item);
        list.child.prev := item;
      }
    }
    list.kids := list.kids + [item];
    return true;
  }

  method GetArrayItem(list: Item?, index: nat) returns (item: Item?)
    requires list != null ==> ListOk(list)
    ensures index < |Kids(list)| ==> item == list.kids[index]
    ensures index >= |Kids(list)| ==> item == null
  {
    if list == null {
      return null;
    }
    item := list.child;
    var left := index;
    while item != null && left > 0
      invariant 0 <= left <= index
      invariant item != null ==> index - left < |list.kids| && item == list.kids[index - left]
      invariant item == null ==> index - left >= |list.kids|
    {
      left := left - 1;
      item := item.next;
    }
  }

  // cJSON_DetachItemViaPointer, for an item of the list.
  method DetachItemViaPointer(parent: Item?, item: Item?, ghost k: nat) returns (detached: Item?)
    requires parent != null ==> ListOk(parent)
    requires parent != null && item != null ==> k < |parent.kids| && parent.kids[k] == item
    modifies Only(parent)`child, Only(parent)`kids, KidSet(parent)`next, KidSet(parent)`prev
    ensures parent == null || item == null ==> detached == null && Kids(parent) == old(Kids(parent))
    ensures parent != null ==> ListOk(parent)
    ensures parent != null && item != null ==>
              && detached == item && item.next == item.prev == null
              && parent.kids == old(parent.kids)[..k] + old(parent.kids)[k + 1..]
  {
    if parent == null || item == null {
      return null;
    }
    ghost var s := parent.kids;
    if item != parent.child {
      item.prev.next := item.next;
    }
    if item.next != null {
      item.next.prev := item.prev;
    }
    if item == parent.child {
      parent.child := item.next;
    } else if item.next == null {
      parent.child.prev := item.prev;
    }
    item.prev := null;
    item.next := null;
    parent.kids := s[..k] + s[k + 1..];
    return item;
  }

  method DetachItemFromArray(list: Item?, which: int) returns (detached: Item?)
    requires list != null ==> ListOk(list)
    modifies Only(list)`child, Only(list)`kids, KidSet(list)`next, KidSet(list)`prev
    ensures list != null ==> ListOk(list)
    ensures if 0 <= which < |old(Kids(list))|
            then detached == old(Kids(list))[which] && detached.next == detached.prev == null
                 && Kids(list) == old(Kids(list))[..which] + old(Kids(list))[which + 1..]
            else detached == null && Kids(list) == old(Kids(list))
  {
    if which < 0 {
      return null;
    }
    var item := GetArrayItem(list, which);
    detached := DetachItemViaPointer(list, item, which);
  }

  // cJSON_InsertItemInArray: in front of the item at which, or at the end when there is none.
  method InsertItemInArray(list: Item?, which: int, item: Item?) returns (ok: bool)
    requires list != null ==> ListOk(list)
    requires Detached(list, item)
    requires 0 <= which < |Kids(list)| ==> item != null && item != list
    modifies Only(list)`child, Only(list)`kids, KidSet(list)`next, KidSet(list)`prev, Only(item)`next, Only(item)`prev
    ensures ok <==> which >= 0 && list != null && item != null && list != item
    ensures list != null ==> ListOk(list)
    ensures ok ==> var at := if which < |old(Kids(list))| then which else |old(Kids(list))|;
                   Kids(list) == old(Kids(list))[..at] + [item] + old(Kids(list))[at..]
    ensures !ok ==> Kids(list) == old(Kids(list))
  {
    if which < 0 {
      return false;
    }
    var after := GetArrayItem(list, which);
    if after == null {
      ok := AddItemToArray(list, item);
      return;
    }
    InsertBefore(list, after, item, which);
    return true;
  }

  // A new element at k: what stands where, and that it all differs.
  lemma InsertedDistinct(s: seq<Item>, k: nat, item: Item)
    requires Distinct(s) && k <= |s| && item !in s
    ensures var u := s[..k] + [item] + s[k..];
            && Distinct(u) && |u| == |s| + 1 && u[k] == item
            && (forall i :: 0 <= i < k ==> u[i] == s[i])
            && (forall i :: k < i < |u| ==> u[i] == s[i - 1])
  {
  }

  method InsertBefore(list: Item, after: Item, item: Item, ghost k: nat)
    requires ListOk(list) && k < |list.kids| && list.kids[k] == after
    requires item !in list.kids && item != list
    modifies list`child, list`kids, KidSet(list)`next, KidSet(list)`prev, item`next, item`prev
    ensures ListOk(list) && list.kids == old(list.kids)[..k] + [item] + old(list.kids)[k..]
  {
    ghost var s := list.kids;
    item.next := after;
    item.prev := after.prev;
    after.prev := item;
    if after == list.child {
      list.child := item;
    } else {
      item.prev.next := item;
    }
    InsertedDistinct(s, k, item);
    list.kids := s[..k] + [item] + s[k..];
  }

  // cJSON_ReplaceItemViaPointer, for an item of the list. Freeing the old item is left out.
  method ReplaceItemViaPointer(parent: Item?, item: Item?, replacement: Item?, ghost k: nat) returns (ok: bool)
    requires parent != null && replacement != null && item != null ==>
               ListOk(parent) && k < |parent.kids| && parent.kids[k] == item
               && (replacement == item || (replacement !in parent.kids && replacement != parent))
    modifies Only(parent)`child, Only(parent)`kids, KidSet(parent)`next, KidSet(parent)`prev
    modifies Only(replacement)`next, Only(replacement)`prev
    ensures ok <==> parent != null && replacement != null && item != null
    ensures !ok ==> Kids(parent) == old(Kids(parent))
    ensures ok ==> ListOk(parent) && parent.kids == old(parent.kids)[k := replacement]
    ensures ok && replacement != item ==> item.next == item.prev == null
  {
    if parent == null || replacement == null || item == null {
      return false;
    }
    if replacement == item {
      return true;
    }
    ghost var s := parent.kids;
    replacement.next := item.next;
    replacement.prev := item.prev;
    if replacement.next != null {
      replacement.next.prev := replacement;
    }
    if parent.child == item {
      if parent.child.prev == parent.child {
        replacement.prev := replacement;
      }
      parent.child := replacement;
    } else {
      if replacement.prev != null {
        replacement.prev.next := replacement;
      }
      if replacement.next == null {
        parent.child.prev := replacement;
      }
    }
    item.next := null;
    item.prev := null;
    parent.kids := s[k := replacement];
    return true;
  }
}
