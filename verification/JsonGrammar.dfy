// What cjson.c's parser accepts and what it makes of it, as pure functions of the input and
// the offset. An error carries the offset at which the parser gives up.
module JsonGrammar {
  import opened Bytes
  import opened Json
  import opened StringLiteral
  import opened NumberLiteral

  datatype Parsed<+T> = Ok(value: T, next: nat) | Err(at: nat)

  function BlankEnd(c: seq<byte>, o: nat): (e: nat)
    requires o <= |c|
    ensures o <= e <= |c|
    ensures forall i :: o <= i < e ==> c[i] <= 32
    ensures e < |c| ==> c[e] > 32
    decreases |c| - o
  {
    if o < |c| && c[o] <= 32 then BlankEnd(c, o + 1) else o
  }

  // buffer_skip_whitespace: never moves off the end of the input by itself.
  function Skip(c: seq<byte>, o: nat): (e: nat)
    ensures e >= o
    ensures o < |c| ==> e < |c|
  {
    if o >= |c| then o
    else if BlankEnd(c, o) == |c| then |c| - 1
    else BlankEnd(c, o)
  }

  predicate Has(c: seq<byte>, o: nat, b: byte) {
    o < |c| && c[o] == b
  }

  function Left(c: seq<byte>, o: nat): nat {
    if o < |c| then |c| - o else 0
  }

  function ParseString(c: seq<byte>, o: nat): (r: Parsed<CString>)
    ensures r.Ok? ==> o < r.next <= |c|
  {
    if !Has(c, o, QUOTE) then Err(o + 1)
    else match Closing(c, o + 1)
      case None => Err(o + 1)
      case Some(end) =>
        var d := Decode(c, o + 1, end);
        if d.Decoded? then Ok(UpToNul(d.bytes), end + 1) else Err(d.at)
  }

  function ParseNumber(c: seq<byte>, o: nat): (r: Parsed<Int64>)
    ensures r.Ok? ==> o < r.next <= |c|
  {
    if o > |c| then Err(o) else
      var s := c[o..o + NumberCharCount(c, o, 63)];
      match Strtod(s)
      case None => Err(o)
      case Some(d) => Ok(ValueInt(d), o + d.length)
  }

  function ParseValue(c: seq<byte>, o: nat, depth: nat): (r: Parsed<Json>)
    ensures r.Ok? ==> o < r.next <= |c|
    decreases Left(c, o), 0
  {
    if At(c, o, NULL_TEXT) then Ok(JNull, o + 4)
    else if At(c, o, FALSE_TEXT) then Ok(JBool(false), o + 5)
    else if At(c, o, TRUE_TEXT) then Ok(JBool(true), o + 4)
    else if Has(c, o, QUOTE) then
      match ParseString(c, o)
      case Ok(s, next) => Ok(JStr(s), next)
      case Err(at) => Err(at)
    else if o < |c| && (c[o] == MINUS || ZERO <= c[o] <= NINE) then
      match ParseNumber(c, o)
      case Ok(n, next) => Ok(JNum(n), next)
      case Err(at) => Err(at)
    else if Has(c, o, OPEN_BRACKET) then ParseArray(c, o, depth)
    else if Has(c, o, OPEN_BRACE) then ParseObject(c, o, depth)
    else Err(o)
  }

  function ParseArray(c: seq<byte>, o: nat, depth: nat): (r: Parsed<Json>)
    requires Has(c, o, OPEN_BRACKET)
    ensures r.Ok? ==> o < r.next <= |c|
    decreases Left(c, o) - 1, 3
  {
    if depth >= NESTING_LIMIT then Err(o) else
      var p := Skip(c, o + 1);
      if Has(c, p, CLOSE_BRACKET) then Ok(JArr([]), p + 1)
      else if p >= |c| then Err(p - 1)
      else match ParseItems(c, p, depth + 1)
        case Ok(items, next) => Ok(JArr(items), next)
        case Err(at) => Err(at)
  }

  // From just before the blanks in front of an element to behind the closing bracket.
  function ParseItems(c: seq<byte>, o: nat, depth: nat): (r: Parsed<seq<Json>>)
    ensures r.Ok? ==> o < r.next <= |c|
    decreases Left(c, o), 1
  {
    match ParseValue(c, Skip(c, o), depth)
    case Err(at) => Err(at)
    case Ok(v, next) =>
      var q := Skip(c, next);
      if Has(c, q, COMMA) then
        match ParseItems(c, q + 1, depth)
        case Ok(items, end) => Ok([v] + items, end)
        case Err(at) => Err(at)
      else if Has(c, q, CLOSE_BRACKET) then Ok([v], q + 1)
      else Err(q)
  }

  function ParseObject(c: seq<byte>, o: nat, depth: nat): (r: Parsed<Json>)
    requires Has(c, o, OPEN_BRACE)
    ensures r.Ok? ==> o < r.next <= |c|
    decreases Left(c, o) - 1, 3
  {
    if depth >= NESTING_LIMIT then Err(o) else
      var p := Skip(c, o + 1);
      if Has(c, p, CLOSE_BRACE) then Ok(JObj([]), p + 1)
      else if p >= |c| then Err(p - 1)
      else match ParseMembers(c, p, depth + 1)
        case Ok(members, next) => Ok(JObj(members), next)
        case Err(at) => Err(at)
  }

  function ParseMembers(c: seq<byte>, o: nat, depth: nat): (r: Parsed<seq<Member>>)
    ensures r.Ok? ==> o < r.next <= |c|
    decreases Left(c, o), 2
  {
    match ParseMember(c, o, depth)
    case Err(at) => Err(at)
    case Ok(m, next) =>
      var q := Skip(c, next);
      if Has(c, q, COMMA) then
        match ParseMembers(c, q + 1, depth)
        case Ok(members, end) => Ok([m] + members, end)
        case Err(at) => Err(at)
      else if Has(c, q, CLOSE_BRACE) then Ok([m], q + 1)
      else Err(q)
  }

  function ParseMember(c: seq<byte>, o: nat, depth: nat): (r: Parsed<Member>)
    ensures r.Ok? ==> o < r.next <= |c|
    decreases Left(c, o), 1
  {
    match ParseString(c, Skip(c, o))
    case Err(at) => Err(at)
    case Ok(key, next) =>
      var q := Skip(c, next);
      if !Has(c, q, COLON) then Err(q)
      else match ParseValue(c, Skip(c, q + 1), depth)
        case Ok(v, end) => Ok(Member(key, v), end)
        case Err(at) => Err(at)
  }

  const BOM: seq<byte> := [0xEF, 0xBB, 0xBF]

  // Where an error is reported: inside the input when there is any.
  function ErrorPosition(c: seq<byte>, at: nat): nat {
    if at < |c| then at else if |c| > 0 then |c| - 1 else 0
  }

  // cJSON_ParseWithLengthOpts on the whole input.
  function ParseText(c: seq<byte>, requireNul: bool): (r: Parsed<Json>) {
    var start := if |c| > 4 && At(c, 0, BOM) then 3 else 0;
    match ParseValue(c, Skip(c, start), 0)
    case Err(at) => Err(ErrorPosition(c, at))
    case Ok(v, next) =>
      if !requireNul then Ok(v, next)
      else if Has(c, Skip(c, next), 0) then Ok(v, Skip(c, next))
      else Err(ErrorPosition(c, Skip(c, next)))
  }
}
