// cJSON_Compare, and what it decides: equality of values whose objects are unordered maps.
module Compare {
  import opened Bytes
  import opened Json

  // ---------- the program ----------

  function Lower(b: byte): byte {
    if 'A' as int <= b <= 'Z' as int then b + 32 else b
  }

  function LowerAll(s: seq<byte>): (r: seq<byte>)
    ensures |r| == |s|
  {
    seq(|s|, i requires 0 <= i < |s| => Lower(s[i]))
  }

  // Keys are compared as they are, or with their letters in lower case.
  function Fold(key: seq<byte>, caseSensitive: bool): seq<byte> {
    if caseSensitive then key else LowerAll(key)
  }

  // get_object_item: the value of the first member with that key.
  function Lookup(members: seq<Member>, key: CString, caseSensitive: bool): (r: Option<Json>)
    ensures r.Some? ==> Size(r.value) < MembersSize(members)
  {
    if members == [] then None
    else if Fold(members[0].key, caseSensitive) == Fold(key, caseSensitive) then Some(members[0].value)
    else Lookup(members[1..], key, caseSensitive)
  }

  // compare_double on integers: the difference against the larger magnitude times DBL_EPSILON.
  predicate CompareNumbers(a: int, b: int) {
    Magnitude(a - b) * 0x10_0000_0000_0000 <= Max(Magnitude(a), Magnitude(b))
  }

  function Magnitude(n: int): nat {
    if n < 0 then -n else n
  }

  function Size(v: Json): (n: nat)
    ensures n > 0
    decreases v, 1
  {
    match v
    case JArr(items) => 1 + ItemsSize(items)
    case JObj(members) => 1 + MembersSize(members)
    case _ => 1
  }

  function ItemsSize(items: seq<Json>): nat
    decreases items, 0
  {
    if items == [] then 0 else Size(items[0]) + ItemsSize(items[1..])
  }

  function MembersSize(members: seq<Member>): nat
    decreases members, 0
  {
    if members == [] then 0 else 1 + Size(members[0].value) + MembersSize(members[1..])
  }

  predicate Compare(a: Json, b: Json, caseSensitive: bool)
    decreases Size(a) + Size(b), 0
  {
    match (a, b)
    case (JNull, JNull) => true
    case (JBool(x), JBool(y)) => x == y
    case (JNum(x), JNum(y)) => CompareNumbers(x, y)
    case (JStr(x), JStr(y)) => x == y
    case (JArr(x), JArr(y)) => CompareItems(x, y, caseSensitive)
    case (JObj(x), JObj(y)) => AllFound(x, y, caseSensitive) && AllFound(y, x, caseSensitive)
    case _ => false
  }

  predicate CompareItems(a: seq<Json>, b: seq<Json>, caseSensitive: bool)
    decreases ItemsSize(a) + ItemsSize(b), 1
  {
    if a == [] || b == [] then a == b
    else Compare(a[0], b[0], caseSensitive) && CompareItems(a[1..], b[1..], caseSensitive)
  }

  // Every member of a has one in b with the same key and an equal value.
  predicate AllFound(a: seq<Member>, b: seq<Member>, caseSensitive: bool)
    decreases MembersSize(a) + MembersSize(b), 1
  {
    a == [] ||
    (match Lookup(b, a[0].key, caseSensitive)
     case None => false
     case Some(v) => Compare(a[0].value, v, caseSensitive) && AllFound(a[1..], b, caseSensitive))
  }

  // ---------- what is compared ----------

  // A value with its objects read as maps.
  datatype Plain =
    | PNull
    | PBool(b: bool)
    | PNum(n: int)
    | PStr(s: seq<byte>)
    | PArr(items: seq<Plain>)
    | PObj(members: map<seq<byte>, Plain>)

  function Meaning(v: Json, caseSensitive: bool): Plain
    decreases v, 1
  {
    match v
    case JNull => PNull
    case JBool(b) => PBool(b)
    case JNum(n) => PNum(n)
    case JStr(s) => PStr(s)
    case JArr(items) => PArr(ItemsMeaning(items, caseSensitive))
    case JObj(members) => PObj(MembersMeaning(members, caseSensitive))
  }

  function ItemsMeaning(items: seq<Json>, caseSensitive: bool): (r: seq<Plain>)
    ensures |r| == |items|
    decreases items, 0
  {
    if items == [] then [] else [Meaning(items[0], caseSensitive)] + ItemsMeaning(items[1..], caseSensitive)
  }

  function MembersMeaning(members: seq<Member>, caseSensitive: bool): map<seq<byte>, Plain>
    decreases members, 0
  {
    if members == [] then map[]
    else MembersMeaning(members[1..], caseSensitive)[Fold(members[0].key, caseSensitive) := Meaning(members[0].value, caseSensitive)]
  }

  // No object has the same key twice, and every number is below 2^52 in magnitude.
  predicate Regular(v: Json, caseSensitive: bool)
    decreases v, 1
  {
    match v
    case JNum(n) => Magnitude(n) < 0x10_0000_0000_0000
    case JArr(items) => RegularItems(items, caseSensitive)
    case JObj(members) => RegularMembers(members, caseSensitive)
    case _ => true
  }

  predicate RegularItems(items: seq<Json>, caseSensitive: bool)
    decreases items, 0
  {
    items == [] || (Regular(items[0], caseSensitive) && RegularItems(items[1..], caseSensitive))
  }

  predicate RegularMembers(members: seq<Member>, caseSensitive: bool)
    decreases members, 0
  {
    members == [] ||
    (Regular(members[0].value, caseSensitive) && RegularMembers(members[1..], caseSensitive)
     && Lookup(members[1..], members[0].key, caseSensitive) == None)
  }

  // ---------- proofs ----------

  lemma {:induction false} LookupMeaning(members: seq<Member>, key: CString, cs: bool)
    ensures var m := MembersMeaning(members, cs);
            match Lookup(members, key, cs) {
              case Some(v) => Fold(key, cs) in m && m[Fold(key, cs)] == Meaning(v, cs)
              case None => Fold(key, cs) !in m
            }
    decreases |members|
  {
    if members != [] {
      LookupMeaning(members[1..], key, cs);
    }
  }

  lemma {:induction false} LookupRegular(members: seq<Member>, key: CString, cs: bool)
    requires RegularMembers(members, cs)
    ensures Lookup(members, key, cs).Some? ==> Regular(Lookup(members, key, cs).value, cs)
    decreases |members|
  {
    if members != [] {
      LookupRegular(members[1..], key, cs);
    }
  }

  lemma SmallNumbers(a: int, b: int)
    requires Magnitude(a) < 0x10_0000_0000_0000 && Magnitude(b) < 0x10_0000_0000_0000
    ensures CompareNumbers(a, b) <==> a == b
  {
  }

  ghost predicate Within(a: map<seq<byte>, Plain>, b: map<seq<byte>, Plain>) {
    forall k :: k in a ==> k in b && b[k] == a[k]
  }

  lemma {:induction false} CompareMeaning(a: Json, b: Json, cs: bool)
    requires Regular(a, cs) && Regular(b, cs)
    ensures Compare(a, b, cs) <==> Meaning(a, cs) == Meaning(b, cs)
    decreases Size(a) + Size(b), 0
  {
    match (a, b)
    case (JNum(x), JNum(y)) => SmallNumbers(x, y);
    case (JArr(x), JArr(y)) => ItemsCompare(x, y, cs);
    case (JObj(x), JObj(y)) =>
      FoundMeaning(x, y, cs);
      FoundMeaning(y, x, cs);
      BothWithin(MembersMeaning(x, cs), MembersMeaning(y, cs));
    case _ =>
  }

  lemma BothWithin(a: map<seq<byte>, Plain>, b: map<seq<byte>, Plain>)
    ensures a == b <==> Within(a, b) && Within(b, a)
  {
    if Within(a, b) && Within(b, a) {
      assert a.Keys == b.Keys;
    }
  }

  lemma {:induction false} ItemsCompare(a: seq<Json>, b: seq<Json>, cs: bool)
    requires RegularItems(a, cs) && RegularItems(b, cs)
    ensures CompareItems(a, b, cs) <==> ItemsMeaning(a, cs) == ItemsMeaning(b, cs)
    decreases ItemsSize(a) + ItemsSize(b), 1
  {
    if a != [] && b != [] {
      CompareMeaning(a[0], b[0], cs);
      ItemsCompare(a[1..], b[1..], cs);
      var x, y := ItemsMeaning(a, cs), ItemsMeaning(b, cs);
      assert x[0] == Meaning(a[0], cs) && x[1..] == ItemsMeaning(a[1..], cs);
      assert y[0] == Meaning(b[0], cs) && y[1..] == ItemsMeaning(b[1..], cs);
      assert x == [x[0]] + x[1..] && y == [y[0]] + y[1..];
    }
  }

  lemma {:induction false} FoundMeaning(a: seq<Member>, b: seq<Member>, cs: bool)
    requires RegularMembers(a, cs) && RegularMembers(b, cs)
    ensures AllFound(a, b, cs) <==> Within(MembersMeaning(a, cs), MembersMeaning(b, cs))
    decreases MembersSize(a) + MembersSize(b), 1
  {
    if a != [] {
      var key := a[0].key;
      var m, n := MembersMeaning(a[1..], cs), MembersMeaning(b, cs);
      LookupMeaning(b, key, cs);
      LookupMeaning(a[1..], key, cs);
      LookupRegular(b, key, cs);
      FoundMeaning(a[1..], b, cs);
      var found := Lookup(b, key, cs);
      if found.Some? {
        CompareMeaning(a[0].value, found.value, cs);
      }
      WithinUpdate(m, n, Fold(key, cs), Meaning(a[0].value, cs));
    }
  }

  lemma WithinUpdate(m: map<seq<byte>, Plain>, n: map<seq<byte>, Plain>, k: seq<byte>, v: Plain)
    requires k !in m
    ensures Within(m[k := v], n) <==> k in n && n[k] == v && Within(m, n)
  {
    var m' := m[k := v];
    if Within(m', n) {
      assert k in m';
      forall x | x in m ensures x in n && n[x] == m[x] {
        assert x in m';
      }
    }
  }

  // On regular values the comparison is an equivalence.
  lemma CompareIsEquivalence(a: Json, b: Json, c: Json, cs: bool)
    requires Regular(a, cs) && Regular(b, cs) && Regular(c, cs)
    ensures Compare(a, a, cs)
    ensures Compare(a, b, cs) <==> Compare(b, a, cs)
    ensures Compare(a, b, cs) && Compare(b, c, cs) ==> Compare(a, c, cs)
  {
    hide Compare, Meaning;
    CompareMeaning(a, a, cs);
    CompareMeaning(a, b, cs);
    CompareMeaning(b, a, cs);
    CompareMeaning(b, c, cs);
    CompareMeaning(a, c, cs);
  }

  // Neither condition can go: at 2^52 two neighbours compare equal, and an object with a
  // repeated key does not even compare equal to a copy of itself.
  lemma IrregularValues()
    ensures Compare(JNum(0x10_0000_0000_0000), JNum(0x10_0000_0000_0001), true)
    ensures var twice := JObj([Member([], JNull), Member([], JBool(true))]); !Compare(twice, twice, true)
  {
    var ms := [Member([], JNull), Member([], JBool(true))];
    assert Lookup(ms, [], true) == Some(JNull);
    assert !AllFound(ms[1..], ms, true);
    assert !AllFound(ms, ms, true);
  }

  // ---------- letters and numbers ----------

  // The letter at place i of the alphabet, in both cases.
  predicate IsLetter(upper: byte, lower: byte, i: nat) {
    i < 26 && upper == 'A' as int + i && lower == 'a' as int + i
  }

  // Two bytes are the same but for the case of a letter exactly when they are equal or are the two
  // forms of one of the 26 letters.
  lemma LowerMeans(a: byte, b: byte)
    ensures Lower(a) == Lower(b) <==> a == b || exists i :: IsLetter(a, b, i) || IsLetter(b, a, i)
  {
    if Lower(a) == Lower(b) && a != b {
      assert IsLetter(if a < b then a else b, Lower(a), Lower(a) - 'a' as int);
    }
  }

  const TWO_52: int := 0x10_0000_0000_0000

  // Different integers below 2^52 are told apart; from there on neighbours are not.
  lemma ToldApart(a: int, b: int)
    ensures -TWO_52 < a < TWO_52 && -TWO_52 < b < TWO_52 ==> (CompareNumbers(a, b) <==> a == b)
    ensures a >= TWO_52 ==> CompareNumbers(a, a + 1)
    ensures CompareNumbers(a, b) <==> CompareNumbers(b, a)
    ensures CompareNumbers(a, b) <==> CompareNumbers(-a, -b)
  {
  }
}
