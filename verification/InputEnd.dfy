// Where the parser of cjson.c looks at the byte behind its input. parse_object calls parse_string
// without a look at the offset, and parse_string looks at the byte at the offset at once; every
// other look is guarded.
module InputEnd {
  import opened Bytes
  import opened Json
  import opened StringLiteral
  import opened NumberLiteral
  import opened JsonGrammar

  // parse_string gives up one byte behind the input exactly when it has been called at the end
  // of the input, where it looks at a byte that is not there.
  lemma StringBehind(c: seq<byte>, o: nat)
    requires o <= |c|
    ensures ParseString(c, o) == Err(|c| + 1) <==> o == |c|
    ensures ParseString(c, o).Err? ==> ParseString(c, o).at <= |c| + 1
  {
    if Has(c, o, QUOTE) && Closing(c, o + 1).Some? {
      DecodeStops(c, o + 1, Closing(c, o + 1).value);
    }
  }

  lemma {:induction false} DecodeStops(c: seq<byte>, i: nat, end: nat)
    requires end < |c|
    ensures Decode(c, i, end).Malformed? ==> Decode(c, i, end).at <= end
    decreases end + 1 - i
  {
    hide Token;
    if i < end && Token(c, i, end).1 > 0 {
      DecodeStops(c, i + Token(c, i, end).1, end);
    }
  }

  // The key of a member is read behind the input exactly when the comma in front of the member
  // is the last byte.
  lemma KeyBehind(c: seq<byte>, q: nat)
    requires Has(c, q, COMMA)
    ensures Skip(c, q + 1) == |c| <==> q == |c| - 1
    ensures Skip(c, q + 1) <= |c|
  {
  }

  // Whether the parser gives up at the look behind the input.
  predicate LooksBehind<T(==)>(c: seq<byte>, r: Parsed<T>) {
    r == Err(|c| + 1)
  }

  predicate Inside<T>(c: seq<byte>, r: Parsed<T>) {
    r.Err? ==> r.at <= |c| + 1
  }

  // Whether the parse of each part calls parse_string at the end of the input: in a member whose
  // key is to start there, or in some value on the way.
  predicate CallsInValue(c: seq<byte>, o: nat, depth: nat)
    decreases Left(c, o), 1
  {
    if At(c, o, NULL_TEXT) || At(c, o, FALSE_TEXT) || At(c, o, TRUE_TEXT) || depth >= NESTING_LIMIT then false
    else if Has(c, o, OPEN_BRACKET) then
      var p := Skip(c, o + 1);
      p < |c| && c[p] != CLOSE_BRACKET && CallsInItems(c, p, depth + 1)
    else if Has(c, o, OPEN_BRACE) then
      var p := Skip(c, o + 1);
      p < |c| && c[p] != CLOSE_BRACE && CallsInMembers(c, p, depth + 1)
    else false
  }

  predicate CallsInItems(c: seq<byte>, o: nat, depth: nat)
    decreases Left(c, o), 2
  {
    CallsInValue(c, Skip(c, o), depth) ||
    (var r := ParseValue(c, Skip(c, o), depth);
     r.Ok? && Has(c, Skip(c, r.next), COMMA) && CallsInItems(c, Skip(c, r.next) + 1, depth))
  }

  predicate CallsInMembers(c: seq<byte>, o: nat, depth: nat)
    decreases Left(c, o), 3
  {
    CallsInMember(c, o, depth) ||
    (var r := ParseMember(c, o, depth);
     r.Ok? && Has(c, Skip(c, r.next), COMMA) && CallsInMembers(c, Skip(c, r.next) + 1, depth))
  }

  predicate CallsInMember(c: seq<byte>, o: nat, depth: nat)
    decreases Left(c, o), 2
  {
    Skip(c, o) == |c| ||
    (var r := ParseString(c, Skip(c, o));
     r.Ok? && Has(c, Skip(c, r.next), COLON) && CallsInValue(c, Skip(c, Skip(c, r.next) + 1), depth))
  }

  predicate LastIsComma(c: seq<byte>) {
    |c| > 0 && c[|c| - 1] == COMMA
  }

  lemma {:induction false} ValueLooks(c: seq<byte>, o: nat, depth: nat)
    requires o <= |c|
    ensures var r := ParseValue(c, o, depth); Inside(c, r) && (LooksBehind(c, r) <==> CallsInValue(c, o, depth))
    ensures CallsInValue(c, o, depth) ==> LastIsComma(c)
    decreases Left(c, o), 2
  {
    hide ParseString, ParseNumber, ParseItems, ParseMembers;
    if Has(c, o, QUOTE) {
      StringBehind(c, o);
    } else if Has(c, o, OPEN_BRACKET) && depth < NESTING_LIMIT {
      ItemsLook(c, Skip(c, o + 1), depth + 1);
    } else if Has(c, o, OPEN_BRACE) && depth < NESTING_LIMIT && Skip(c, o + 1) < |c| {
      MembersLook(c, Skip(c, o + 1), depth + 1);
    }
    if o < |c| && (c[o] == MINUS || ZERO <= c[o] <= NINE) {
      NumberLooks(c, o);
    }
  }

  lemma NumberLooks(c: seq<byte>, o: nat)
    requires o < |c|
    ensures ParseNumber(c, o).Err? ==> ParseNumber(c, o).at == o
  {
  }

  lemma {:induction false} ItemsLook(c: seq<byte>, o: nat, depth: nat)
    requires o <= |c|
    ensures var r := ParseItems(c, o, depth); Inside(c, r) && (LooksBehind(c, r) <==> CallsInItems(c, o, depth))
    ensures CallsInItems(c, o, depth) ==> LastIsComma(c)
    decreases Left(c, o), 3
  {
    hide ParseValue, ParseItems, CallsInItems, CallsInValue, LastIsComma;
    var r := ParseValue(c, Skip(c, o), depth);
    ItemsStep(c, o, depth);
    ValueLooks(c, Skip(c, o), depth);
    if r.Ok? && Has(c, Skip(c, r.next), COMMA) {
      ItemsLook(c, Skip(c, r.next) + 1, depth);
    }
    hide Skip;
  }

  // How the outcome for the elements comes from that for the first and for the others.
  lemma ItemsStep(c: seq<byte>, o: nat, depth: nat)
    ensures var r, all := ParseValue(c, Skip(c, o), depth), ParseItems(c, o, depth);
            if r.Err? then all == Err(r.at)
            else if !Has(c, Skip(c, r.next), COMMA) then all.Err? ==> all.at == Skip(c, r.next)
            else var others := ParseItems(c, Skip(c, r.next) + 1, depth); if others.Err? then all == Err(others.at) else all.Ok?
    ensures var r := ParseValue(c, Skip(c, o), depth);
            CallsInItems(c, o, depth) <==>
            CallsInValue(c, Skip(c, o), depth)
            || (r.Ok? && Has(c, Skip(c, r.next), COMMA) && CallsInItems(c, Skip(c, r.next) + 1, depth))
  {
    hide ParseValue, CallsInValue;
  }

  lemma {:induction false} MembersLook(c: seq<byte>, o: nat, depth: nat)
    requires o < |c| || (o == |c| && LastIsComma(c))
    ensures var r := ParseMembers(c, o, depth); Inside(c, r) && (LooksBehind(c, r) <==> CallsInMembers(c, o, depth))
    ensures CallsInMembers(c, o, depth) ==> LastIsComma(c)
    decreases Left(c, o), 4
  {
    hide ParseMember;
    MemberLooks(c, o, depth);
    var r := ParseMember(c, o, depth);
    if r.Ok? && Has(c, Skip(c, r.next), COMMA) {
      MembersLook(c, Skip(c, r.next) + 1, depth);
    }
  }

  lemma {:induction false} MemberLooks(c: seq<byte>, o: nat, depth: nat)
    requires o < |c| || (o == |c| && LastIsComma(c))
    ensures var r := ParseMember(c, o, depth); Inside(c, r) && (LooksBehind(c, r) <==> CallsInMember(c, o, depth))
    ensures CallsInMember(c, o, depth) ==> LastIsComma(c)
    decreases Left(c, o), 3
  {
    hide ParseString, ParseValue;
    StringBehind(c, Skip(c, o));
    var r := ParseString(c, Skip(c, o));
    if r.Ok? && Has(c, Skip(c, r.next), COLON) {
      ValueLooks(c, Skip(c, Skip(c, r.next) + 1), depth);
    }
  }

  // The parser looks at the byte behind the input exactly when it reports an error one byte
  // behind that, and only when the last byte is a comma. So it never does when the input ends in
  // its NUL, as with cJSON_Parse, or in a blank.
  lemma LooksExactly(c: seq<byte>, o: nat)
    requires o <= |c|
    ensures LooksBehind(c, ParseValue(c, o, 0)) <==> CallsInValue(c, o, 0)
    ensures CallsInValue(c, o, 0) ==> LastIsComma(c)
  {
    ValueLooks(c, o, 0);
  }

  // An input on which it does: an object with one member and a comma.
  lemma ObjectWithComma()
    ensures var c := [OPEN_BRACE, QUOTE, QUOTE, COLON] + NULL_TEXT + [COMMA]; CallsInValue(c, 0, 0)
  {
    var c := [OPEN_BRACE, QUOTE, QUOTE, COLON] + NULL_TEXT + [COMMA];
    assert c[4..8] == NULL_TEXT;
    assert c[0] == OPEN_BRACE && c[1] == QUOTE && c[2] == QUOTE && c[3] == COLON && c[4] == 110 && c[8] == COMMA;
    Here(c, 1);
    Here(c, 3);
    Here(c, 4);
    Here(c, 8);
    assert Closing(c, 2) == Some(2);
    assert ParseString(c, 1) == Ok([], 3);
    assert ParseValue(c, 4, 1) == Ok(JNull, 8);
    assert ParseMember(c, 1, 1) == Ok(Member([], JNull), 8);
    assert CallsInMember(c, 9, 1);
    assert CallsInMembers(c, 9, 1);
    assert CallsInMembers(c, 1, 1);
  }

  // An input that ends in a comma on which it does not: an array with one element and a comma.
  lemma ArrayWithComma()
    ensures var c := [OPEN_BRACKET] + NULL_TEXT + [COMMA]; LastIsComma(c) && !CallsInValue(c, 0, 0)
  {
    var c := [OPEN_BRACKET] + NULL_TEXT + [COMMA];
    assert c[1..5] == NULL_TEXT;
    assert c[0] == OPEN_BRACKET && c[1] == 110 && c[5] == COMMA;
    Here(c, 1);
    Here(c, 5);
    assert ParseValue(c, 1, 1) == Ok(JNull, 5);
    assert !CallsInValue(c, 1, 1) && !CallsInValue(c, 6, 1);
    assert ParseValue(c, 6, 1).Err?;
    assert !CallsInItems(c, 6, 1);
    assert !CallsInItems(c, 1, 1);
  }

  lemma Here(c: seq<byte>, o: nat)
    requires o < |c| && c[o] > 32
    ensures Skip(c, o) == o
  {
  }
}
