// The JSON bodies of the control protocol: the parameters of a test and the results.
module ControlBodies {
  import opened Bytes
  import opened Json
  import opened Doubles
  import opened Compare
  import opened Streams
  import opened TextFacts
  import F = JsonFrame

  // ---------- keys ----------

  const OMIT: CString := ['o' as int, 'm' as int, 'i' as int, 't' as int]
  const MSS: CString := ['M' as int, 'S' as int, 'S' as int]
  const NODELAY: CString := ['n' as int, 'o' as int, 'd' as int, 'e' as int, 'l' as int, 'a' as int, 'y' as int]
  const PARALLEL: CString := ['p' as int, 'a' as int, 'r' as int, 'a' as int, 'l' as int, 'l' as int, 'e' as int, 'l' as int]
  const REVERSE: CString := ['r' as int, 'e' as int, 'v' as int, 'e' as int, 'r' as int, 's' as int, 'e' as int]
  const BIDIRECTIONAL: CString :=
    ['b' as int, 'i' as int, 'd' as int, 'i' as int, 'r' as int, 'e' as int, 'c' as int,
     't' as int, 'i' as int, 'o' as int, 'n' as int, 'a' as int, 'l' as int]
  const WINDOW: CString := ['w' as int, 'i' as int, 'n' as int, 'd' as int, 'o' as int, 'w' as int]
  const TOS: CString := ['T' as int, 'O' as int, 'S' as int]
  const STREAMS: CString := ['s' as int, 't' as int, 'r' as int, 'e' as int, 'a' as int, 'm' as int, 's' as int]
  const ID: CString := ['i' as int, 'd' as int]
  const BYTES: CString := ['b' as int, 'y' as int, 't' as int, 'e' as int, 's' as int]

  datatype Key = Omit | Mss | NoDelay | Parallel | Reverse | BothWays | Window | Tos

  function Name(k: Key): CString {
    match k
    case Omit => OMIT
    case Mss => MSS
    case NoDelay => NODELAY
    case Parallel => PARALLEL
    case Reverse => REVERSE
    case BothWays => BIDIRECTIONAL
    case Window => WINDOW
    case Tos => TOS
  }

  // Keys are the same whatever the case of their letters.
  predicate SameKey(a: seq<byte>, b: seq<byte>) {
    LowerAll(a) == LowerAll(b)
  }

  lemma NamesDiffer(a: Key, b: Key)
    ensures SameKey(Name(a), Name(b)) <==> a == b
  {
    if a != b && |Name(a)| == |Name(b)| {
      assert Lower(Name(a)[0]) != Lower(Name(b)[0]);
      assert LowerAll(Name(a))[0] != LowerAll(Name(b))[0];
    }
  }

  // ---------- parameters ----------

  type Whole = n: int | 0 <= n < 0x8000_0000

  // The members of the parameters that the session depends on, and all others (title, extra data
  // and so on), which are under other keys and neither arrays nor objects.
  type Others = ms: seq<Member> | forall m :: m in ms ==> Simple(m.value) && forall k :: !SameKey(m.key, Name(k)) witness []

  predicate Simple(v: Json) {
    !v.JArr? && !v.JObj?
  }

  datatype Parameters = Parameters(omit: Int64, mss: Int64, noDelay: bool, parallel: Int64, reverse: bool,
                                   bidirectional: bool, window: Int64, tos: Int64)

  // What a server starts from.
  const DEFAULTS: Parameters := Parameters(0, 0, false, 1, false, false, 0, 0)

  function Opt(present: bool, k: Key, v: Json): seq<Member> {
    if present then [Member(Name(k), v)] else []
  }

  // send_parameters
  function ParametersBody(p: Parameters, others: Others): Json {
    JObj(Opt(true, Omit, JNum(p.omit)) + Opt(p.mss != 0, Mss, JNum(p.mss)) + Opt(p.noDelay, NoDelay, JBool(true))
         + Opt(true, Parallel, JNum(p.parallel)) + Opt(p.reverse, Reverse, JBool(true))
         + Opt(p.bidirectional, BothWays, JBool(true)) + Opt(p.window != 0, Window, JNum(p.window))
         + Opt(p.tos != 0, Tos, JNum(p.tos)) + others)
  }

  // iperf_cJSON_GetObjectItemType for a number and for a truth value.
  function Number(ms: seq<Member>, key: CString, default: Int64): Int64 {
    match Lookup(ms, key, false)
    case Some(JNum(n)) => n
    case _ => default
  }

  function Flag(ms: seq<Member>, key: CString): bool {
    match Lookup(ms, key, false)
    case Some(JBool(_)) => true
    case _ => false
  }

  // get_parameters
  function ReadParameters(v: Json, d: Parameters): Parameters {
    var ms := if v.JObj? then v.members else [];
    Parameters(Number(ms, OMIT, d.omit), Number(ms, MSS, d.mss), d.noDelay || Flag(ms, NODELAY),
               Number(ms, PARALLEL, d.parallel), d.reverse || Flag(ms, REVERSE),
               d.bidirectional || Flag(ms, BIDIRECTIONAL), Number(ms, WINDOW, d.window), Number(ms, TOS, d.tos))
  }

  lemma {:induction false} LookupBoth(a: seq<Member>, b: seq<Member>, key: CString)
    ensures Lookup(a + b, key, false) == if Lookup(a, key, false).Some? then Lookup(a, key, false) else Lookup(b, key, false)
  {
    if a == [] {
      assert a + b == b;
    } else {
      assert (a + b)[1..] == a[1..] + b;
      LookupBoth(a[1..], b, key);
    }
  }

  lemma LookupOpt(present: bool, k: Key, v: Json, key: Key)
    ensures Lookup(Opt(present, k, v), Name(key), false) == if present && k == key then Some(v) else None
  {
    NamesDiffer(k, key);
    hide Name, LowerAll;
    if present {
      assert Opt(present, k, v)[1..] == [];
    }
  }

  lemma {:induction false} LookupOthers(others: Others, from: nat, key: Key)
    requires from <= |others|
    ensures Lookup(others[from..], Name(key), false) == None
    decreases |others| - from
  {
    hide Name, LowerAll;
    if from < |others| {
      assert others[from] in others;
      assert !SameKey(others[from].key, Name(key));
      assert others[from..][1..] == others[from + 1..];
      LookupOthers(others, from + 1, key);
    }
  }

  // Under each key the server finds what the client put there.
  lemma Found(p: Parameters, others: Others, key: Key)
    ensures Lookup(ParametersBody(p, others).members, Name(key), false) ==
              match key
              case Omit => Some(JNum(p.omit))
              case Mss => if p.mss != 0 then Some(JNum(p.mss)) else None
              case NoDelay => if p.noDelay then Some(JBool(true)) else None
              case Parallel => Some(JNum(p.parallel))
              case Reverse => if p.reverse then Some(JBool(true)) else None
              case BothWays => if p.bidirectional then Some(JBool(true)) else None
              case Window => if p.window != 0 then Some(JNum(p.window)) else None
              case Tos => if p.tos != 0 then Some(JNum(p.tos)) else None
  {
    hide Lookup, Name, Opt;
    var o, m, n, l := Opt(true, Omit, JNum(p.omit)), Opt(p.mss != 0, Mss, JNum(p.mss)), Opt(p.noDelay, NoDelay, JBool(true)),
                      Opt(true, Parallel, JNum(p.parallel));
    var r, b, w, t := Opt(p.reverse, Reverse, JBool(true)), Opt(p.bidirectional, BothWays, JBool(true)),
                      Opt(p.window != 0, Window, JNum(p.window)), Opt(p.tos != 0, Tos, JNum(p.tos));
    LookupOpt(true, Omit, JNum(p.omit), key);
    LookupOpt(p.mss != 0, Mss, JNum(p.mss), key);
    LookupOpt(p.noDelay, NoDelay, JBool(true), key);
    LookupOpt(true, Parallel, JNum(p.parallel), key);
    LookupOpt(p.reverse, Reverse, JBool(true), key);
    LookupOpt(p.bidirectional, BothWays, JBool(true), key);
    LookupOpt(p.window != 0, Window, JNum(p.window), key);
    LookupOpt(p.tos != 0, Tos, JNum(p.tos), key);
    assert others[0..] == others;
    LookupOthers(others, 0, key);
    LookupBoth(o, m, Name(key));
    LookupBoth(o + m, n, Name(key));
    LookupBoth(o + m + n, l, Name(key));
    LookupBoth(o + m + n + l, r, Name(key));
    LookupBoth(o + m + n + l + r, b, Name(key));
    LookupBoth(o + m + n + l + r + b, w, Name(key));
    LookupBoth(o + m + n + l + r + b + w, t, Name(key));
    LookupBoth(o + m + n + l + r + b + w + t, others, Name(key));
  }

  // A server that has something else before it reads takes over what the client has sent, and keeps
  // the rest.
  lemma ParametersTaken(p: Parameters, others: Others, d: Parameters)
    ensures var r := ReadParameters(ParametersBody(p, others), d);
            && r.omit == p.omit && r.parallel == p.parallel
            && r.mss == (if p.mss != 0 then p.mss else d.mss) && r.window == (if p.window != 0 then p.window else d.window)
            && r.tos == (if p.tos != 0 then p.tos else d.tos) && r.noDelay == (p.noDelay || d.noDelay)
            && r.reverse == (p.reverse || d.reverse) && r.bidirectional == (p.bidirectional || d.bidirectional)
  {
    Found(p, others, Omit);
    Found(p, others, Mss);
    Found(p, others, NoDelay);
    Found(p, others, Parallel);
    Found(p, others, Reverse);
    Found(p, others, BothWays);
    Found(p, others, Window);
    Found(p, others, Tos);
    assert ParametersBody(p, others).JObj?;
    hide ParametersBody, Lookup;
  }

  // A server with the defaults has the client's parameters once it has read them.
  lemma ParametersArrive(p: Parameters, others: Others)
    ensures ReadParameters(ParametersBody(p, others), DEFAULTS) == p
  {
    ParametersTaken(p, others, DEFAULTS);
    hide ReadParameters, ParametersBody;
  }

  // ---------- results ----------

  // send_results, as far as the counts of the streams go.
  function ReportBody(r: Report): Json {
    JObj([Member(ID, JNum(Carried(r.id))), Member(BYTES, JNum(r.bytes))])
  }

  function ReportBodies(rs: seq<Report>): (items: seq<Json>)
    ensures |items| == |rs|
  {
    if rs == [] then [] else [ReportBody(rs[0])] + ReportBodies(rs[1..])
  }

  function ResultsBody(rs: seq<Report>): Json {
    JObj([Member(STREAMS, JArr(ReportBodies(rs)))])
  }

  // get_results; None when something is missing.
  function ReadReport(v: Json): Option<Report> {
    if !v.JObj? then None
    else match (Lookup(v.members, ID, false), Lookup(v.members, BYTES, false))
      case (Some(JNum(id)), Some(JNum(bytes))) => Some(Report(id, bytes))
      case _ => None
  }

  function ReadReports(items: seq<Json>): Option<seq<Report>> {
    if items == [] then Some([])
    else match (ReadReport(items[0]), ReadReports(items[1..]))
      case (Some(r), Some(rs)) => Some([r] + rs)
      case _ => None
  }

  function ReadResults(v: Json): Option<seq<Report>> {
    if !v.JObj? then None
    else match Lookup(v.members, STREAMS, false)
      case Some(JArr(items)) => ReadReports(items)
      case _ => None
  }

  // Under each key of the results stands what belongs there.
  lemma ResultsFound(rs: seq<Report>, i: nat)
    requires i < |rs|
    ensures Lookup(ResultsBody(rs).members, STREAMS, false) == Some(JArr(ReportBodies(rs)))
    ensures |ReportBodies(rs)| == |rs| && ReportBodies(rs)[i].JObj?
    ensures Lookup(ReportBodies(rs)[i].members, ID, false) == Some(JNum(Carried(rs[i].id)))
    ensures Lookup(ReportBodies(rs)[i].members, BYTES, false) == Some(JNum(rs[i].bytes))
  {
    hide Carried;
    if i > 0 {
      ResultsFound(rs[1..], i - 1);
    } else {
      ReportFound(rs[0]);
    }
  }

  lemma ReportFound(r: Report)
    ensures var ms := ReportBody(r).members;
            Lookup(ms, ID, false) == Some(JNum(Carried(r.id))) && Lookup(ms, BYTES, false) == Some(JNum(r.bytes))
  {
    hide Carried;
    assert |LowerAll(ID)| != |LowerAll(BYTES)|;
    assert Fold(ID, false) != Fold(BYTES, false);
    var ms := ReportBody(r).members;
    assert ms[1..] == [Member(BYTES, JNum(r.bytes))];
    assert Lookup(ms[1..], BYTES, false) == Some(JNum(r.bytes));
  }

  lemma ReportArrives(r: Report)
    requires 0 <= r.id <= TWO_53
    ensures ReadReport(ReportBody(r)) == Some(r)
  {
    UpTo53Bits(r.id);
    ReportFound(r);
    hide Carried;
  }

  lemma {:induction false} ReportsArrive(rs: seq<Report>)
    requires forall i :: 0 <= i < |rs| ==> 0 <= rs[i].id <= TWO_53
    ensures ReadReports(ReportBodies(rs)) == Some(rs)
  {
    if rs != [] {
      hide ReadReport, ReportBody;
      ReportArrives(rs[0]);
      ReportsArrive(rs[1..]);
      assert ([ReportBody(rs[0])] + ReportBodies(rs[1..]))[1..] == ReportBodies(rs[1..]);
      assert [rs[0]] + rs[1..] == rs;
    }
  }

  // The peer reads the reports that were sent.
  lemma ResultsArrive(rs: seq<Report>)
    requires forall i :: 0 <= i < |rs| ==> 0 <= rs[i].id <= TWO_53
    ensures ReadResults(ResultsBody(rs)) == Some(rs)
  {
    ReportsArrive(rs);
    hide ReadReports, ReportBodies, LowerAll;
  }

  // ---------- on the connection ----------

  // What JSON_read gives for a body, with the given limit; 0 is no limit.
  function Receive(v: Json, maxSize: nat): Option<Json> {
    if maxSize != 0 && |Text(v, false, 0)| > maxSize then None else Some(v)
  }

  // That is what the bytes on the connection say.
  lemma ReceiveReads(v: Json, rest: seq<byte>, maxSize: nat)
    requires ExactNumbers(v) && Nesting(v) <= NESTING_LIMIT && |Text(v, false, 0)| < F.UINT32
    ensures F.Read(F.Written(v) + rest, maxSize) ==
            if Receive(v, maxSize).None? || |Text(v, false, 0)| > F.INT_MAX then F.Refused else F.Body(v, rest)
  {
    F.ReadWritten(v, rest, maxSize);
    if (maxSize != 0 && |Text(v, false, 0)| > maxSize) || |Text(v, false, 0)| > F.INT_MAX {
      F.TooLong(v, rest, maxSize);
    }
    hide ExactNumbers, Nesting, F.Read, F.Written, Text;
  }

  // Results are such bodies, up to a number of streams that keeps them under 4 GiB.
  lemma {:induction false} ResultsAreExact(rs: seq<Report>)
    requires forall i :: 0 <= i < |rs| ==> 0 <= rs[i].id <= TWO_53 && Carried(rs[i].bytes) == rs[i].bytes
    ensures ExactNumbers(ResultsBody(rs)) && Nesting(ResultsBody(rs)) <= 3
  {
    ItemsAreExact(rs);
    NestingOfOne(Member(STREAMS, JArr(ReportBodies(rs))));
  }

  lemma {:induction false} ItemsAreExact(rs: seq<Report>)
    requires forall i :: 0 <= i < |rs| ==> 0 <= rs[i].id <= TWO_53 && Carried(rs[i].bytes) == rs[i].bytes
    ensures forall i :: 0 <= i < |rs| ==> ExactNumbers(ReportBodies(rs)[i])
    ensures NestingOfItems(ReportBodies(rs)) <= 1
  {
    if rs != [] {
      UpTo53Bits(rs[0].id);
      ReportNesting(rs[0]);
      ItemsAreExact(rs[1..]);
      assert ReportBodies(rs)[1..] == ReportBodies(rs[1..]);
      forall i | 0 <= i < |rs| ensures ExactNumbers(ReportBodies(rs)[i]) {
        if i > 0 {
          assert ReportBodies(rs)[i] == ReportBodies(rs[1..])[i - 1];
        }
      }
    }
  }

  lemma ReportNesting(r: Report)
    ensures Nesting(ReportBody(r)) == 1
  {
    var ms := ReportBody(r).members;
    assert ms[1..] == [ms[1]];
    NestingOfOne(ms[1]);
    assert Nesting(ms[0].value) == Nesting(ms[1].value) == 0;
    assert NestingOfMembers(ms) == 0;
  }

  lemma NestingOfOne(m: Member)
    ensures NestingOfMembers([m]) == Nesting(m.value)
  {
    assert [m][1..] == [];
  }

  // Parameters are such bodies, too, when a double holds each of their numbers.
  lemma ParametersAreExact(p: Parameters, others: Others)
    requires Carried(p.omit) == p.omit && Carried(p.mss) == p.mss && Carried(p.parallel) == p.parallel
    requires Carried(p.window) == p.window && Carried(p.tos) == p.tos
    requires forall m :: m in others ==> ExactNumbers(m.value)
    ensures ExactNumbers(ParametersBody(p, others)) && Nesting(ParametersBody(p, others)) <= 1
  {
    hide Carried, Name, NestingOfMembers;
    AllSimple(p, others);
    SimpleNesting(ParametersBody(p, others).members);
    hide ParametersBody;
  }

  lemma AllSimple(p: Parameters, others: Others)
    requires Carried(p.omit) == p.omit && Carried(p.mss) == p.mss && Carried(p.parallel) == p.parallel
    requires Carried(p.window) == p.window && Carried(p.tos) == p.tos
    requires forall m :: m in others ==> ExactNumbers(m.value)
    ensures ParametersBody(p, others).JObj?
    ensures forall m :: m in ParametersBody(p, others).members ==> Simple(m.value) && ExactNumbers(m.value)
  {
    hide Carried, Name;
  }

  lemma {:induction false} SimpleNesting(ms: seq<Member>)
    requires forall m :: m in ms ==> Simple(m.value)
    ensures NestingOfMembers(ms) == 0
  {
    if ms != [] {
      SimpleNesting(ms[1..]);
    }
  }

  // ---------- the size of the parameters ----------

  // At least the size of the text of the members.
  function Size(ms: seq<Member>): nat {
    if ms == [] then 0 else 6 * |ms[0].key| + 4 + |Text(ms[0].value, false, 1)| + Size(ms[1..])
  }

  lemma {:induction false} SizeBoth(a: seq<Member>, b: seq<Member>)
    ensures Size(a + b) == Size(a) + Size(b)
  {
    if a == [] {
      assert a + b == b;
    } else {
      assert (a + b)[1..] == a[1..] + b;
      SizeBoth(a[1..], b);
    }
  }

  lemma {:induction false} EscapeAtMost(s: seq<byte>)
    ensures |EscapeAll(s)| <= 6 * |s|
  {
    if s != [] {
      EscapeAtMost(s[1..]);
    }
  }

  lemma {:induction false} TextAtMost(ms: seq<Member>)
    ensures |MembersText(ms, false, 1)| <= Size(ms)
  {
    if ms != [] {
      EscapeAtMost(ms[0].key);
      TextAtMost(ms[1..]);
      hide EscapeAll;
    }
  }

  lemma SizeOpt(present: bool, k: Key, v: Json)
    requires v.JNum? || v.JBool?
    ensures Size(Opt(present, k, v)) <= 102
  {
    if v.JNum? {
      NumberTextBound(v.n);
    }
    assert |Name(k)| <= 13;
    hide Name, NumberText;
    assert [Member(Name(k), v)][1..] == [];
  }

  lemma SizeOfFour(a: seq<Member>, b: seq<Member>, c: seq<Member>, d: seq<Member>)
    ensures Size(a + b + c + d) == Size(a) + Size(b) + Size(c) + Size(d)
  {
    hide Size;
    SizeBoth(a, b);
    SizeBoth(a + b, c);
    SizeBoth(a + b + c, d);
  }

  // The members the session depends on leave room for others.
  lemma ShortOthersFit(p: Parameters, others: Others)
    requires Size(others) <= 7000
    ensures |Text(ParametersBody(p, others), false, 0)| <= 8192
  {
    hide ParametersBody, Size, MembersText, Text;
    BodySize(p, others);
    ObjectSize(ParametersBody(p, others).members);
    TextAtMost(ParametersBody(p, others).members);
  }

  lemma ObjectSize(ms: seq<Member>)
    ensures |Text(JObj(ms), false, 0)| == |MembersText(ms, false, 1)| + 2
  {
    hide MembersText;
  }

  lemma BodySize(p: Parameters, others: Others)
    ensures ParametersBody(p, others).JObj? && Size(ParametersBody(p, others).members) <= 8 * 102 + Size(others)
  {
    hide Opt, Size, Name;
    var o, m, n, l := Opt(true, Omit, JNum(p.omit)), Opt(p.mss != 0, Mss, JNum(p.mss)), Opt(p.noDelay, NoDelay, JBool(true)),
                      Opt(true, Parallel, JNum(p.parallel));
    var r, b, w, t := Opt(p.reverse, Reverse, JBool(true)), Opt(p.bidirectional, BothWays, JBool(true)),
                      Opt(p.window != 0, Window, JNum(p.window)), Opt(p.tos != 0, Tos, JNum(p.tos));
    SizeOpt(true, Omit, JNum(p.omit));
    SizeOpt(p.mss != 0, Mss, JNum(p.mss));
    SizeOpt(p.noDelay, NoDelay, JBool(true));
    SizeOpt(true, Parallel, JNum(p.parallel));
    SizeOpt(p.reverse, Reverse, JBool(true));
    SizeOpt(p.bidirectional, BothWays, JBool(true));
    SizeOpt(p.window != 0, Window, JNum(p.window));
    SizeOpt(p.tos != 0, Tos, JNum(p.tos));
    SizeOfFour(o, m, n, l);
    SizeOfFour(o + m + n + l, r, b, w);
    SizeBoth(o + m + n + l + r + b + w, t);
    SizeBoth(o + m + n + l + r + b + w + t, others);
  }

  // A string of that many bytes, say as extra data, does not leave them within the limit.
  lemma LongOthersDoNotFit(p: Parameters, others: Others, i: nat)
    requires i < |others| && others[i].value.JStr? && |others[i].value.s| > 8190
    ensures |Text(ParametersBody(p, others), false, 0)| > 8192
  {
    hide Opt;
    var ms := ParametersBody(p, others).members;
    var k := |ms| - |others| + i;
    assert ms[k] == others[i];
    EscapeLonger(others[i].value.s);
    LongMember(ms, k);
    hide MembersText;
  }

  lemma {:induction false} LongMember(ms: seq<Member>, i: nat)
    requires i < |ms|
    ensures |MembersText(ms, false, 1)| >= |Text(ms[i].value, false, 1)|
  {
    if i > 0 {
      LongMember(ms[1..], i - 1);
    }
  }

  // ---------- the size of the results ----------

  lemma NumberMember(key: CString, n: Int64, last: bool)
    ensures |MemberText(Member(key, JNum(n)), false, 3, last)| <= 6 * |key| + 24
  {
    EscapeAtMost(key);
    NumberTextBound(n);
    hide EscapeAll, NumberText;
  }

  lemma TwoMembers(a: Member, b: Member)
    ensures |Text(JObj([a, b]), false, 2)| == |MemberText(a, false, 3, false)| + |MemberText(b, false, 3, true)| + 2
  {
    hide MemberText;
    assert [a, b][1..] == [b] && [b][1..] == [];
    assert MembersText([b], false, 3) == MemberText(b, false, 3, true) + MembersText([], false, 3);
    assert MembersText([a, b], false, 3) == MemberText(a, false, 3, false) + MembersText([b], false, 3);
  }

  // A report takes less than 100 bytes.
  lemma ReportSize(r: Report)
    ensures |Text(ReportBody(r), false, 2)| <= 99
  {
    hide MemberText, Text, Carried;
    NumberMember(ID, Carried(r.id), false);
    NumberMember(BYTES, r.bytes, true);
    TwoMembers(Member(ID, JNum(Carried(r.id))), Member(BYTES, JNum(r.bytes)));
  }

  lemma {:induction false} ReportsSize(rs: seq<Report>)
    ensures |ItemsText(ReportBodies(rs), false, 2)| <= 100 * |rs|
  {
    if rs != [] {
      ReportSize(rs[0]);
      ReportsSize(rs[1..]);
      hide Text, ReportBody;
      assert ReportBodies(rs)[1..] == ReportBodies(rs[1..]);
    }
  }

  lemma ResultsSize(rs: seq<Report>)
    ensures |Text(ResultsBody(rs), false, 0)| <= 100 * |rs| + 50
  {
    var m := Member(STREAMS, JArr(ReportBodies(rs)));
    assert [m][1..] == [];
    ReportsSize(rs);
    EscapeAtMost(STREAMS);
    hide EscapeAll, ItemsText, ReportBodies;
    assert |MemberText(m, false, 1, true)| <= 100 * |rs| + 48;
    assert |MembersText([m], false, 1)| <= 100 * |rs| + 48;
  }
}
