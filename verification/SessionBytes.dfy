// The control connection as bytes: a cookie of fixed length, states of one byte, and bodies behind
// their length. Each side takes the next thing off by what it expects. The session of whole
// messages is what the session of bytes does.
module SessionBytes {
  import opened Bytes
  import opened Doubles
  import opened Json
  import opened Streams
  import opened ControlBodies
  import opened Session
  import opened SessionSafety
  import F = JsonFrame

  const COOKIE_SIZE: nat := 37
  const MAX_STREAMS: nat := 128

  type CookieText = s: seq<byte> | |s| == COOKIE_SIZE witness seq(COOKIE_SIZE, _ => 0)

  // ---------- writing ----------

  // A state is a signed char.
  function StateByte(state: int): byte {
    state % 256
  }

  function StateOf(b: byte): int {
    if b < 128 then b else b - 256
  }

  // States that are not negative go as they are, the others as 256 more; and both come back.
  lemma StateBytes(state: int)
    requires -128 <= state < 128
    ensures StateByte(state) == if state >= 0 then state else 256 + state
    ensures StateOf(StateByte(state)) == state
  {
  }

  function Wire(cookie: CookieText, m: Message): (bytes: seq<byte>)
    ensures bytes != []
  {
    match m
    case Cookie => cookie
    case Code(state) => [StateByte(state)]
    case Body(v) => FrameStarts(v); F.Written(v)
  }

  lemma FrameStarts(v: Json)
    ensures F.Written(v) != []
  {
  }

  function WireAll(cookie: CookieText, ms: seq<Message>): seq<byte> {
    if ms == [] then [] else Wire(cookie, ms[0]) + WireAll(cookie, ms[1..])
  }

  lemma {:induction false} WireBoth(cookie: CookieText, a: seq<Message>, b: seq<Message>)
    ensures WireAll(cookie, a + b) == WireAll(cookie, a) + WireAll(cookie, b)
  {
    hide Wire;
    if a == [] {
      assert a + b == b;
    } else {
      assert (a + b)[1..] == a[1..] + b;
      WireBoth(cookie, a[1..], b);
    }
  }

  // ---------- reading ----------

  datatype Expected = TheCookie | AState | ABody(limit: nat)

  // What no reader expects; it stands for a read that fails.
  const NOTHING_READ: Message := Code(0)

  // The message a reader gets, and the bytes behind it.
  function Take(x: Expected, bytes: seq<byte>): (Message, seq<byte>) {
    match x
    case TheCookie => if |bytes| < COOKIE_SIZE then (NOTHING_READ, []) else (Cookie, bytes[COOKIE_SIZE..])
    case AState => if bytes == [] then (NOTHING_READ, []) else (Code(StateOf(bytes[0])), bytes[1..])
    case ABody(limit) =>
      match F.Read(bytes, limit)
      case Body(v, rest) => (Message.Body(v), rest)
      case Refused => (NOTHING_READ, [])
  }

  function ClientExpects(c: Client): Expected {
    if c.pc.AwaitingResults? then ABody(0) else AState
  }

  function ServerExpects(s: Server): Expected {
    match s.pc
    case AwaitCookie => TheCookie
    case AwaitParameters => ABody(MAX_PARAMS_JSON_STRING)
    case AwaitResults => ABody(0)
    case _ => AState
  }

  // ---------- the session ----------

  // The channels of ends are empty but for what an event has just written.
  datatype ByteWorld = ByteWorld(ends: World, toServer: seq<byte>, toClient: seq<byte>)

  function Quiet(w: World): World {
    w.(toServer := [], toClient := [])
  }

  // What has been written goes on its way.
  function Flushed(cookie: CookieText, b: ByteWorld, w: World): ByteWorld {
    ByteWorld(Quiet(w), b.toServer + WireAll(cookie, w.toServer), b.toClient + WireAll(cookie, w.toClient))
  }

  function ByteNext(cfg: Config, cookie: CookieText, b: ByteWorld, e: Event): Option<ByteWorld> {
    match e
    case ClientReads =>
      if b.toClient == [] then None else
        var (m, rest) := Take(ClientExpects(b.ends.client), b.toClient);
        (match ClientTakes(cfg, b.ends, m)
         case Some(w) => Some(Flushed(cookie, b.(toClient := rest), w))
         case None => None)
    case ServerReads =>
      if b.toServer == [] then None else
        var (m, rest) := Take(ServerExpects(b.ends.server), b.toServer);
        (match ServerTakes(b.ends, m)
         case Some(w) => Some(Flushed(cookie, b.(toServer := rest), w))
         case None => None)
    case _ =>
      match Next(cfg, b.ends, e)
      case Some(w) => Some(Flushed(cookie, b, w))
      case None => None
  }

  function ByteRun(cfg: Config, cookie: CookieText, es: seq<Event>): Option<ByteWorld> {
    if es == [] then Some(ByteWorld(Init(), [], []))
    else match ByteRun(cfg, cookie, es[..|es| - 1])
      case None => None
      case Some(b) => ByteNext(cfg, cookie, b, es[|es| - 1])
  }

  // ---------- one message ----------

  // The message is what the reader expects, and gets through.
  ghost predicate Meets(x: Expected, m: Message) {
    match x
    case TheCookie => m.Cookie?
    case AState => m.Code? && -128 <= m.state < 128
    case ABody(limit) => m.Body? && Arrives(m.v) && Receive(m.v, limit).Some?
  }

  ghost predicate Arrives(v: Json) {
    ExactNumbers(v) && Nesting(v) <= NESTING_LIMIT && |Text(v, false, 0)| <= F.INT_MAX
  }

  lemma Taken(cookie: CookieText, x: Expected, m: Message, rest: seq<byte>)
    requires Meets(x, m)
    ensures Take(x, Wire(cookie, m) + rest) == (m, rest)
  {
    hide F.Read, F.Written, Text, ExactNumbers, Nesting;
    match x
    case TheCookie => assert (cookie + rest)[COOKIE_SIZE..] == rest;
    case AState => assert ([StateByte(m.state)] + rest)[1..] == rest;
    case ABody(limit) => ReceiveReads(m.v, rest, limit);
  }

  // Parameters that are too long are not read.
  lemma NotTaken(cookie: CookieText, v: Json, rest: seq<byte>, limit: nat)
    requires 0 < limit < |Text(v, false, 0)| < F.UINT32
    ensures Take(ABody(limit), Wire(cookie, Message.Body(v)) + rest).0 == NOTHING_READ
  {
    hide F.Read, F.Written, Text;
    F.TooLong(v, rest, limit);
  }

  // ---------- handlers only append ----------

  // The channels of w in front of what has been written into those of w'.
  function Behind(w: World, w': World): World {
    w'.(toServer := w.toServer + w'.toServer, toClient := w.toClient + w'.toClient)
  }

  lemma ClientAppends(cfg: Config, w: World, m: Message)
    ensures ClientTakes(cfg, w, m).Some? <==> ClientTakes(cfg, Quiet(w), m).Some?
    ensures ClientTakes(cfg, w, m).Some? ==> ClientTakes(cfg, w, m).value == Behind(w, ClientTakes(cfg, Quiet(w), m).value)
  {
    hide Request, ResultsBody, ReportAll, Merging;
  }

  lemma ServerAppends(w: World, m: Message)
    ensures ServerTakes(w, m).Some? <==> ServerTakes(Quiet(w), m).Some?
    ensures ServerTakes(w, m).Some? ==> ServerTakes(w, m).value == Behind(w, ServerTakes(Quiet(w), m).value)
  {
    hide ResultsBody, ReportAll, Merging, Receive, ReadParameters, Relistens, Tally;
  }

  lemma OthersAppend(cfg: Config, w: World, e: Event)
    requires e != ClientReads && e != ServerReads
    ensures Next(cfg, w, e).Some? <==> Next(cfg, Quiet(w), e).Some?
    ensures Next(cfg, w, e).Some? ==> Next(cfg, w, e).value == Behind(w, Next(cfg, Quiet(w), e).value)
  {
    hide ClientTakes, ServerTakes, Relistens, Tally, Plan, AddStream, EndOmit, Streams.Count;
  }

  // ---------- what is sent gets through ----------

  // The client's options: as many streams as they allow, parameters that the length in front of
  // them can tell, and numbers that a JSON number can have.
  ghost predicate Sendable(cfg: Config) {
    && cfg.count <= MAX_STREAMS && |Text(Request(cfg), false, 0)| < F.UINT32
    && forall m :: m in cfg.others ==> ExactNumbers(m.value)
  }

  // The counts that the server has reported have been through a JSON number.
  ghost predicate ReportedExactly(s: Server) {
    forall i :: 0 <= i < |s.reports| ==> Carried(s.reports[i].bytes) == s.reports[i].bytes
  }

  lemma ReportsAreExact(streams: seq<Stream>)
    ensures var rs := ReportAll(streams); forall i :: 0 <= i < |rs| ==> Carried(rs[i].bytes) == rs[i].bytes
  {
    hide Carried;
    var rs := ReportAll(streams);
    forall i | 0 <= i < |rs| ensures Carried(rs[i].bytes) == rs[i].bytes {
      CarriedOnce(OwnCount(streams[i]));
    }
  }

  lemma ReportedKept(cfg: Config, w: World, e: Event)
    requires ReportedExactly(w.server) && Next(cfg, w, e).Some?
    ensures ReportedExactly(Next(cfg, w, e).value.server)
  {
    hide Request, ResultsBody, Receive, ReadParameters, Relistens, Tally, Plan, AddStream, EndOmit, Count, Carried;
    hide ReportAll;
    if e == ServerReads && w.server.pc.AwaitResults? {
      match Merging(w.server.streams, w.toServer[0])
      case Some(streams) => ReportsAreExact(streams);
      case None =>
    }
    hide Merging;
  }

  lemma ResultsArriveAll(cfg: Config, rs: seq<Report>, streams: seq<Stream>, opposite: bool)
    requires Sendable(cfg) && Planned(cfg, streams, opposite) && SameIds(rs, streams)
    requires forall i :: 0 <= i < |rs| ==> Carried(rs[i].bytes) == rs[i].bytes
    ensures Arrives(ResultsBody(rs))
  {
    hide Carried, ResultsBody, Text, ExactNumbers, Nesting, Request;
    assert |streams| <= 2 * MAX_STREAMS;
    forall i | 0 <= i < |rs| ensures 0 <= rs[i].id <= TWO_53 {
      assert rs[i].id == StreamId(i);
    }
    ResultsAreExact(rs);
    ResultsSize(rs);
  }

  lemma RequestArrives(cfg: Config)
    requires Sendable(cfg) && Fits(cfg)
    ensures Arrives(Request(cfg)) && Receive(Request(cfg), MAX_PARAMS_JSON_STRING).Some?
  {
    var p := Wanted(cfg);
    UpTo53Bits(p.omit);
    UpTo53Bits(p.mss);
    UpTo53Bits(p.parallel);
    UpTo53Bits(p.window);
    UpTo53Bits(p.tos);
    ParametersAreExact(p, cfg.others);
    RequestFits(cfg);
    hide ParametersBody, Text, ExactNumbers, Nesting, Carried;
  }

  lemma ClientMeets(cfg: Config, w: World)
    requires Inv(cfg, w) && ReportedExactly(w.server) && Sendable(cfg) && w.toClient != []
    requires w.client.pc.ClientLoop? || w.client.pc.AwaitingResults?
    ensures Meets(ClientExpects(w.client), w.toClient[0])
  {
    hide Sendable, ReportedExactly, Arrives, Receive, ResultsBody, Request, Fits, Inv;
    if w.client.pc.ClientLoop? {
      ClientDue(cfg, w);
    } else {
      ReportsDue(cfg, w);
      hide Planned, SameIds;
      ReportedOnes(w.server);
      ResultsArriveAll(cfg, w.server.reports, w.server.streams, true);
      NoLimit(ResultsBody(w.server.reports));
    }
  }

  lemma ReportedOnes(s: Server)
    requires ReportedExactly(s)
    ensures forall i :: 0 <= i < |s.reports| ==> Carried(s.reports[i].bytes) == s.reports[i].bytes
  {
    hide Carried;
  }

  lemma NoLimit(v: Json)
    ensures Receive(v, 0) == Some(v)
  {
  }

  lemma ReportsDue(cfg: Config, w: World)
    requires Inv(cfg, w) && w.toClient != [] && w.client.pc.AwaitingResults?
    ensures w.toClient[0] == Message.Body(ResultsBody(w.server.reports))
    ensures Planned(cfg, w.server.streams, true) && SameIds(w.server.reports, w.server.streams)
  {
    hide Request, Fits, ResultsBody, ReportAll, Plan, Planned, OwnCounts;
    hide Informed, Cleared, Tally, SameIds, ServerOk, ListenerOk, OmitOk;
    ClientHead(cfg, w);
  }

  lemma ServerMeets(cfg: Config, w: World)
    requires Inv(cfg, w) && Sendable(cfg) && w.toServer != []
    requires ServerTakes(w, w.toServer[0]).Some? && !Breaks(cfg, w, ServerReads)
    ensures Meets(ServerExpects(w.server), w.toServer[0])
  {
    hide Sendable, Arrives, Receive, ResultsBody, Request;
    hide Fits, Inv, ServerMessage, ServerCookie, ServerParameters, ServerResults;
    match w.server.pc
    case AwaitCookie => CookieDue(cfg, w);
    case ServerLoop => ServerDue(cfg, w);
    case AwaitParameters =>
      ParametersDue(cfg, w);
      RequestArrives(cfg);
    case AwaitResults =>
      OwnReportsDue(cfg, w);
      hide Planned, SameIds;
      ReportsAreExact(w.client.streams);
      hide ReportAll;
      ResultsArriveAll(cfg, ReportAll(w.client.streams), w.client.streams, false);
      NoLimit(ResultsBody(ReportAll(w.client.streams)));
  }

  lemma CookieDue(cfg: Config, w: World)
    requires Inv(cfg, w) && w.toServer != [] && w.server.pc.AwaitCookie?
    ensures w.toServer[0] == Cookie
  {
    hide Request, Fits, ResultsBody, ReportAll, StreamsOk, ListenerOk, OmitOk, CountsOk;
    ServerHead(cfg, w);
  }

  lemma OwnReportsDue(cfg: Config, w: World)
    requires Inv(cfg, w) && w.toServer != [] && w.server.pc.AwaitResults?
    ensures w.toServer[0] == Message.Body(ResultsBody(ReportAll(w.client.streams)))
    ensures Planned(cfg, w.client.streams, false) && SameIds(ReportAll(w.client.streams), w.client.streams)
  {
    hide Request, Fits, ResultsBody, ReportAll, Plan, Planned, SameIds, ServerOk, ListenerOk, OmitOk, CountsOk;
    ServerHead(cfg, w);
    ReportIds(w.client.streams);
  }

  // ---------- the refinement ----------

  // The world of messages as one of bytes.
  function Encoded(cookie: CookieText, w: World): ByteWorld {
    ByteWorld(Quiet(w), WireAll(cookie, w.toServer), WireAll(cookie, w.toClient))
  }

  lemma FlushedBehind(cookie: CookieText, w: World, w': World)
    ensures Flushed(cookie, Encoded(cookie, w), w') == Encoded(cookie, Behind(w, w'))
  {
    hide WireAll;
    WireBoth(cookie, w.toServer, w'.toServer);
    WireBoth(cookie, w.toClient, w'.toClient);
  }

  lemma FlushedEnds(cookie: CookieText, b: ByteWorld, w: World)
    ensures Flushed(cookie, b, w).ends == Quiet(w)
  {
  }

  lemma HeadOnWire(cookie: CookieText, ms: seq<Message>)
    requires ms != []
    ensures WireAll(cookie, ms) == Wire(cookie, ms[0]) + WireAll(cookie, ms[1..]) != []
  {
    hide Wire;
  }

  lemma ClientReadsBytes(cfg: Config, cookie: CookieText, w: World)
    requires Inv(cfg, w) && ReportedExactly(w.server) && Sendable(cfg)
    ensures ByteNext(cfg, cookie, Encoded(cookie, w), ClientReads) ==
            match Next(cfg, w, ClientReads)
            case Some(w') => Some(Encoded(cookie, w'))
            case None => None
  {
    hide Inv, ReportedExactly, Sendable, Meets, Wire, WireAll, Take, Flushed, ClientTakes;
    if w.toClient == [] {
      NothingOnWire(cookie);
    } else {
      var m, rest := w.toClient[0], w.(toClient := w.toClient[1..]);
      HeadOnWire(cookie, w.toClient);
      ClientAppends(cfg, rest, m);
      assert Quiet(rest) == Quiet(w);
      assert Encoded(cookie, w).(toClient := WireAll(cookie, rest.toClient)) == Encoded(cookie, rest);
      if ClientTakes(cfg, rest, m).Some? {
        ClientReading(cfg, rest, m);
        ClientMeets(cfg, w);
        Taken(cookie, ClientExpects(w.client), m, WireAll(cookie, rest.toClient));
        FlushedBehind(cookie, rest, ClientTakes(cfg, Quiet(rest), m).value);
      } else {
        NotReading(cfg, rest, m, Take(ClientExpects(w.client), WireAll(cookie, w.toClient)).0);
      }
    }
  }

  lemma NothingOnWire(cookie: CookieText)
    ensures WireAll(cookie, []) == []
  {
  }

  lemma ClientReading(cfg: Config, w: World, m: Message)
    requires ClientTakes(cfg, w, m).Some?
    ensures w.client.pc.ClientLoop? || w.client.pc.AwaitingResults?
  {
  }

  lemma NotReading(cfg: Config, w: World, m: Message, m': Message)
    requires ClientTakes(cfg, w, m).None?
    ensures ClientTakes(cfg, Quiet(w), m').None?
  {
  }

  lemma ServerReadsBytes(cfg: Config, cookie: CookieText, w: World)
    requires Inv(cfg, w) && ReportedExactly(w.server) && Sendable(cfg)
    ensures var b := ByteNext(cfg, cookie, Encoded(cookie, w), ServerReads);
            match Next(cfg, w, ServerReads)
            case None => b.None?
            case Some(w') =>
              if Breaks(cfg, w, ServerReads) then b.Some? && b.value.ends.server.pc == ServerFailed
              else b == Some(Encoded(cookie, w'))
  {
    hide Inv, ReportedExactly, Sendable, Meets, Wire, WireAll, Take, Flushed, ServerTakes, Fits;
    if w.toServer == [] {
      NothingOnWire(cookie);
    } else {
      var m, rest := w.toServer[0], w.(toServer := w.toServer[1..]);
      HeadOnWire(cookie, w.toServer);
      ServerAppends(rest, m);
      assert Quiet(rest) == Quiet(w);
      assert Encoded(cookie, w).(toServer := WireAll(cookie, rest.toServer)) == Encoded(cookie, rest);
      if ServerTakes(rest, m).None? {
        NotServing(rest, m, Take(ServerExpects(w.server), WireAll(cookie, w.toServer)).0);
      } else if Breaks(cfg, w, ServerReads) {
        TooLongOnWire(cfg, cookie, w);
        var (m', behind) := Take(ServerExpects(w.server), WireAll(cookie, w.toServer));
        FlushedEnds(cookie, Encoded(cookie, w).(toServer := behind), ServerTakes(Quiet(w), m').value);
      } else {
        Serving(w, rest, m);
        ServerMeets(cfg, w);
        Taken(cookie, ServerExpects(w.server), m, WireAll(cookie, rest.toServer));
        FlushedBehind(cookie, rest, ServerTakes(Quiet(rest), m).value);
      }
    }
  }

  lemma NotServing(w: World, m: Message, m': Message)
    requires ServerTakes(w, m).None?
    ensures ServerTakes(Quiet(w), m').None?
  {
  }

  lemma Serving(w: World, rest: World, m: Message)
    requires ServerTakes(rest, m).Some? && rest.server == w.server
    ensures ServerTakes(w, m).Some?
  {
  }

  lemma TooLongOnWire(cfg: Config, cookie: CookieText, w: World)
    requires Inv(cfg, w) && Sendable(cfg) && w.toServer != [] && Breaks(cfg, w, ServerReads)
    ensures var r := ServerTakes(Quiet(w), Take(ServerExpects(w.server), WireAll(cookie, w.toServer)).0);
            r.Some? && r.value.server.pc == ServerFailed
  {
    hide Inv, Request, Wire, WireAll, Take, Text;
    ParametersDue(cfg, w);
    HeadOnWire(cookie, w.toServer);
    NotTaken(cookie, Request(cfg), WireAll(cookie, w.toServer[1..]), MAX_PARAMS_JSON_STRING);
  }

  lemma OthersBytes(cfg: Config, cookie: CookieText, w: World, e: Event)
    requires e != ClientReads && e != ServerReads
    ensures ByteNext(cfg, cookie, Encoded(cookie, w), e) ==
            match Next(cfg, w, e)
            case Some(w') => Some(Encoded(cookie, w'))
            case None => None
  {
    OthersAppend(cfg, w, e);
    hide WireAll, Next;
    if Next(cfg, w, e).Some? {
      FlushedBehind(cookie, w, Next(cfg, Quiet(w), e).value);
    }
  }

  // One event of the session of messages is one of the session of bytes, and the other way round.
  lemma NextRefines(cfg: Config, cookie: CookieText, w: World, e: Event)
    requires Inv(cfg, w) && ReportedExactly(w.server) && Sendable(cfg)
    ensures var b := ByteNext(cfg, cookie, Encoded(cookie, w), e);
            match Next(cfg, w, e)
            case None => b.None?
            case Some(w') =>
              if w'.server.pc == ServerFailed then b.Some? && b.value.ends.server.pc == ServerFailed
              else b == Some(Encoded(cookie, w'))
  {
    hide Inv, ReportedExactly, Sendable, Next, ByteNext;
    if Next(cfg, w, e).Some? {
      NextInv(cfg, w, e);
      hide Breaks;
      if !Breaks(cfg, w, e) {
        Meaning(cfg, Next(cfg, w, e).value);
      }
    }
    if e == ClientReads {
      ClientReadsBytes(cfg, cookie, w);
    } else if e == ServerReads {
      ServerReadsBytes(cfg, cookie, w);
    } else {
      OthersBytes(cfg, cookie, w, e);
    }
    hide Encoded;
  }

  lemma BytesStayFailed(cfg: Config, cookie: CookieText, b: ByteWorld, e: Event)
    requires b.ends.server.pc == ServerFailed && ByteNext(cfg, cookie, b, e).Some?
    ensures ByteNext(cfg, cookie, b, e).value.ends.server.pc == ServerFailed
  {
    hide Take, WireAll;
    if e == ClientReads {
      ClientLeavesServer(cfg, b.ends, Take(ClientExpects(b.ends.client), b.toClient).0);
    } else if e != ServerReads {
      StaysFailed(cfg, b.ends, e);
    }
    hide ClientTakes, Next;
  }

  lemma ClientLeavesServer(cfg: Config, w: World, m: Message)
    requires ClientTakes(cfg, w, m).Some?
    ensures ClientTakes(cfg, w, m).value.server == w.server
  {
    hide Request, ResultsBody, ReportAll, Merging;
  }

  // Over any run that leaves the server alive, the bytes on the connection are those of the
  // messages, and there are no other such runs.
  lemma {:induction false} RunRefines(cfg: Config, cookie: CookieText, es: seq<Event>)
    requires Sendable(cfg)
    ensures var r, b := Run(cfg, es), ByteRun(cfg, cookie, es);
            && (r.Some? && r.value.server.pc != ServerFailed <==> b.Some? && b.value.ends.server.pc != ServerFailed)
            && (r.Some? && r.value.server.pc != ServerFailed ==>
                  b == Some(Encoded(cookie, r.value)) && ReportedExactly(r.value.server))
  {
    hide Next, ByteNext, Sendable, ReportedExactly, Inv, Intact, Encoded;
    if es == [] {
      Start(cookie);
    } else {
      var before, e := es[..|es| - 1], es[|es| - 1];
      RunRefines(cfg, cookie, before);
      var r, b := Run(cfg, before), ByteRun(cfg, cookie, before);
      if r.Some? && r.value.server.pc != ServerFailed {
        RunInv(cfg, before);
        NextRefines(cfg, cookie, r.value, e);
        if Next(cfg, r.value, e).Some? {
          ReportedKept(cfg, r.value, e);
          SameServer(cookie, Next(cfg, r.value, e).value);
        }
      } else {
        if b.Some? && ByteNext(cfg, cookie, b.value, e).Some? {
          BytesStayFailed(cfg, cookie, b.value, e);
        }
        if r.Some? && Next(cfg, r.value, e).Some? {
          StaysFailed(cfg, r.value, e);
        }
      }
    }
  }

  lemma SameServer(cookie: CookieText, w: World)
    ensures Encoded(cookie, w).ends.server == w.server
  {
  }

  lemma Start(cookie: CookieText)
    ensures Encoded(cookie, Init()) == ByteWorld(Init(), [], [])
    ensures ReportedExactly(Init().server) && Init().server.pc != ServerFailed
  {
  }
}
