// The abstract JSON value held by a cJSON tree, and the text both print modes give it.
module Json {
  import opened Bytes
  import Doubles

  type Int64 = Doubles.Int64

  datatype Json =
    | JNull
    | JBool(b: bool)
    | JNum(n: Int64)
    | JStr(s: CString)
    | JArr(items: seq<Json>)
    | JObj(members: seq<Member>)

  datatype Member = Member(key: CString, value: Json)

  const NESTING_LIMIT: nat := 1000

  // How many arrays and objects enclose the most deeply nested value, itself included.
  function Nesting(v: Json): nat
    decreases v, 1
  {
    match v
    case JArr(items) => 1 + NestingOfItems(items)
    case JObj(members) => 1 + NestingOfMembers(members)
    case _ => 0
  }

  function NestingOfItems(items: seq<Json>): (n: nat)
    decreases items, 0
  {
    if items == [] then 0 else Max(Nesting(items[0]), NestingOfItems(items[1..]))
  }

  function NestingOfMembers(members: seq<Member>): (n: nat)
    decreases members, 0
  {
    if members == [] then 0 else Max(Nesting(members[0].value), NestingOfMembers(members[1..]))
  }

  function Max(a: nat, b: nat): nat { if a < b then b else a }

  // Every number is one that some double gives: a double itself, or the largest integer.
  predicate ExactNumbers(v: Json)
    decreases v, 1
  {
    match v
    case JNum(n) => Doubles.Carried(n) == n
    case JArr(items) => forall i :: 0 <= i < |items| ==> ExactNumbers(items[i])
    case JObj(members) => forall i :: 0 <= i < |members| ==> ExactNumbers(members[i].value)
    case _ => true
  }

  // ---------- text ----------

  const NULL_TEXT: seq<byte> := [110, 117, 108, 108]
  const TRUE_TEXT: seq<byte> := [116, 114, 117, 101]
  const FALSE_TEXT: seq<byte> := [102, 97, 108, 115, 101]

  function HexDigit(d: int): byte
    requires 0 <= d < 16
  {
    if d < 10 then ZERO + d else 'a' as int + (d - 10)
  }

  // One byte of a string value as it is written between the quotes.
  function Escape(c: byte): (e: seq<byte>)
    ensures 1 <= |e| <= 6
  {
    if c == QUOTE then [BACKSLASH, QUOTE]
    else if c == BACKSLASH then [BACKSLASH, BACKSLASH]
    else if c == BACKSPACE then [BACKSLASH, 'b' as int]
    else if c == FORM_FEED then [BACKSLASH, 'f' as int]
    else if c == NEWLINE then [BACKSLASH, 'n' as int]
    else if c == CARRIAGE_RETURN then [BACKSLASH, 'r' as int]
    else if c == TAB then [BACKSLASH, 't' as int]
    else if c < 32 then [BACKSLASH, LETTER_U, ZERO, ZERO, HexDigit(c / 16), HexDigit(c % 16)]
    else [c]
  }

  function EscapeAll(s: seq<byte>): seq<byte> {
    if s == [] then [] else Escape(s[0]) + EscapeAll(s[1..])
  }

  function StringText(s: seq<byte>): seq<byte> {
    [QUOTE] + EscapeAll(s) + [QUOTE]
  }

  function Digits(n: nat): (d: seq<byte>)
    ensures |d| >= 1
    ensures forall i :: 0 <= i < |d| ==> ZERO <= d[i] <= NINE
  {
    if n < 10 then [ZERO + n] else Digits(n / 10) + [ZERO + n % 10]
  }

  function NumberText(n: int): seq<byte> {
    if n < 0 then [MINUS] + Digits(-n) else Digits(n)
  }

  function Tabs(n: nat): (t: seq<byte>)
    ensures |t| == n
  {
    seq(n, _ => TAB)
  }

  function ItemSeparator(format: bool): seq<byte> {
    if format then [COMMA, SPACE] else [COMMA]
  }

  function ObjectOpening(format: bool): seq<byte> {
    if format then [OPEN_BRACE, NEWLINE] else [OPEN_BRACE]
  }

  function KeySeparator(format: bool): seq<byte> {
    if format then [COLON, TAB] else [COLON]
  }

  function Indent(format: bool, depth: nat): seq<byte> {
    if format then Tabs(depth) else []
  }

  function MemberEnding(format: bool, last: bool): seq<byte> {
    (if last then [] else [COMMA]) + (if format then [NEWLINE] else [])
  }

  // The text of a value printed at the given depth. Only objects use the depth for
  // indentation, but arrays count for it as well.
  function Text(v: Json, format: bool, depth: nat): seq<byte>
    decreases v, 1
  {
    match v
    case JNull => NULL_TEXT
    case JBool(b) => if b then TRUE_TEXT else FALSE_TEXT
    case JNum(n) => NumberText(n)
    case JStr(s) => StringText(s)
    case JArr(items) => [OPEN_BRACKET] + ItemsText(items, format, depth + 1) + [CLOSE_BRACKET]
    case JObj(members) =>
      ObjectOpening(format) + MembersText(members, format, depth + 1) + Indent(format, depth) + [CLOSE_BRACE]
  }

  function ItemsText(items: seq<Json>, format: bool, depth: nat): seq<byte>
    decreases items, 0
  {
    if items == [] then []
    else if |items| == 1 then Text(items[0], format, depth)
    else Text(items[0], format, depth) + ItemSeparator(format) + ItemsText(items[1..], format, depth)
  }

  function MemberText(m: Member, format: bool, depth: nat, last: bool): seq<byte>
    decreases m, 0
  {
    Indent(format, depth) + StringText(m.key) + KeySeparator(format)
    + Text(m.value, format, depth) + MemberEnding(format, last)
  }

  function MembersText(members: seq<Member>, format: bool, depth: nat): seq<byte>
    decreases members, 0
  {
    if members == [] then []
    else
      MemberText(members[0], format, depth, |members| == 1) + MembersText(members[1..], format, depth)
  }
}
