// Every reachable state of the control protocol, whatever the order of events.
module SessionSafety {
  import opened Bytes
  import opened Doubles
  import opened Json
  import opened Streams
  import opened ControlBodies
  import opened Session

  // ---------- where the two sides are ----------

  // How far the client has come; -1 for a state it must not be in.
  function ClientStage(c: Client): int {
    match c.pc
    case NotConnected => if c.state == 0 then 0 else -1
    case ClientLoop =>
      if c.state == 0 then 1
      else if c.state == PARAM_EXCHANGE then 2
      else if c.state == CREATE_STREAMS then 4
      else if c.state == TEST_START then 5
      else if c.state == TEST_RUNNING then 6
      else if c.state == TEST_END then 7
      else if c.state == EXCHANGE_RESULTS then 9
      else -1
    case CreatingStreams => if c.state == CREATE_STREAMS then 3 else -1
    case AwaitingResults => if c.state == EXCHANGE_RESULTS then 8 else -1
    case ClientDone => if c.state == IPERF_DONE then 10 else -1
    case ClientFailed => -1
  }

  function ServerStage(s: Server): int {
    match s.pc
    case ServerLoop =>
      if s.state == IPERF_START then 0
      else if s.state == CREATE_STREAMS then 3
      else if s.state == TEST_RUNNING then 4
      else if s.state == DISPLAY_RESULTS then 6
      else -1
    case AwaitCookie => if s.state == IPERF_START then 1 else -1
    case AwaitParameters => if s.state == PARAM_EXCHANGE then 2 else -1
    case AwaitResults => if s.state == EXCHANGE_RESULTS then 5 else -1
    case ServerDone => if s.state == IPERF_DONE then 7 else -1
    case ServerFailed => -1
  }

  // Everything the client writes in a session, in order, and how much of it is written and read
  // at each stage.
  function ClientScript(cfg: Config, streams: seq<Stream>): (r: seq<Message>)
    ensures |r| == 5
  {
    [Cookie, Body(Request(cfg)), Code(TEST_END), Body(ResultsBody(ReportAll(streams))), Code(IPERF_DONE)]
  }

  function ClientWritten(stage: int): (n: nat)
    ensures n <= 5
  {
    if stage <= 0 then 0 else if stage == 1 then 1 else if stage <= 6 then 2
    else if stage == 7 then 3 else if stage <= 9 then 4 else 5
  }

  function ServerRead(stage: int): (n: nat)
    ensures n <= 5
  {
    if stage <= 1 then 0 else if stage == 2 then 1 else if stage <= 4 then 2
    else if stage == 5 then 3 else if stage == 6 then 4 else 5
  }

  // The same for the server.
  function ServerScript(reports: seq<Report>): (r: seq<Message>)
    ensures |r| == 7
  {
    [Code(PARAM_EXCHANGE), Code(CREATE_STREAMS), Code(TEST_START), Code(TEST_RUNNING), Code(EXCHANGE_RESULTS),
     Body(ResultsBody(reports)), Code(DISPLAY_RESULTS)]
  }

  function ServerWritten(stage: int): (n: nat)
    ensures n <= 7
  {
    if stage <= 1 then 0 else if stage == 2 then 1 else if stage == 3 then 2
    else if stage == 4 then 4 else if stage == 5 then 5 else 7
  }

  function ClientRead(stage: int): (n: nat)
    ensures n <= 7
  {
    if stage <= 1 then 0 else if stage == 2 then 1 else if stage <= 4 then 2 else if stage == 5 then 3
    else if stage <= 7 then 4 else if stage == 8 then 5 else if stage == 9 then 6 else 7
  }

  // ---------- the invariant ----------

  // The channels hold exactly what has been written and not yet read.
  ghost predicate ChannelsOk(cfg: Config, w: World) {
    var cc, ss := ClientStage(w.client), ServerStage(w.server);
    && cc >= 0 && ss >= 0 && (ss >= 1 ==> cc >= 1)
    && ClientRead(cc) <= ServerWritten(ss) && ServerRead(ss) <= ClientWritten(cc)
    && w.toClient == ServerScript(w.server.reports)[ClientRead(cc)..ServerWritten(ss)]
    && w.toServer == ClientScript(cfg, w.client.streams)[ServerRead(ss)..ClientWritten(cc)]
    && w.client.endsSent == (if cc >= 7 then 1 else 0)
    && (ss >= 3 ==> Fits(cfg))
  }

  ghost predicate ServerOk(cfg: Config, w: World) {
    var s, ss := w.server, ServerStage(w.server);
    && (s.connected <==> ss >= 1)
    && (ss < 3 ==> s.flags == Flags(true, false, false, Receiver) && s.receiving == s.sending == |s.streams| == 0
                   && s.params == DEFAULTS)
    && (ss >= 3 ==> s.flags.mode == Opposite(cfg.mode) && s.params == Wanted(cfg))
    && s.receiving + s.sending == |s.streams|
    && (ss >= 3 ==> s.receiving <= StreamsToReceive(s) && s.sending <= StreamsToSend(s))
    && (s.sending > 0 ==> s.receiving == StreamsToReceive(s))
    && (ss >= 4 ==> AllAccepted(s))
  }

  // The streams of one end: numbered, with the sender flags of the plan or their opposites.
  ghost predicate Planned(cfg: Config, streams: seq<Stream>, opposite: bool) {
    && Numbered(streams) && |streams| <= |Plan(cfg.mode, cfg.count)|
    && forall i :: 0 <= i < |streams| ==> streams[i].sender == (Plan(cfg.mode, cfg.count)[i] != opposite)
  }

  ghost predicate StreamsOk(cfg: Config, w: World) {
    var cc := ClientStage(w.client);
    && Planned(cfg, w.client.streams, false) && Planned(cfg, w.server.streams, true)
    && (cc < 3 ==> w.client.streams == []) && (cc > 3 ==> |w.client.streams| == |Plan(cfg.mode, cfg.count)|)
  }

  ghost predicate ListenerOk(cfg: Config, w: World) {
    var cc, ss := ClientStage(w.client), ServerStage(w.server);
    && (cc == 0 ==> w.listener == [])
    && (cc >= 1 && ss == 0 ==> w.listener != [] && w.listener[0] == Control && Tally(w.listener, Control) == 1)
    && (ss >= 1 ==> Tally(w.listener, Control) == 0)
    && Tally(w.listener, DataStream) + |w.server.streams| == |w.client.streams|
    && w.denied + w.dropped + Tally(w.listener, Stranger) == w.strangers
    && (ss < 3 || !Relistens(Wanted(cfg)) ==> w.dropped == 0)
  }

  // Omit timers run while the test does, and the server's goes on until it is due.
  ghost predicate OmitOk(cfg: Config, w: World) {
    var cc, ss := ClientStage(w.client), ServerStage(w.server);
    && (w.client.omitting ==> cfg.omit != 0 && 5 <= cc <= 6)
    && (w.server.omitting ==> cfg.omit != 0 && ss >= 4)
    && (w.server.late ==> cfg.omit != 0 && ss >= 6 && !w.server.omitting)
  }

  // What each end knows about the bytes of its streams. The reports the server has sent tell of
  // its streams as they are, unless its omit period has ended since and cleared them.
  ghost predicate CountsOk(w: World) {
    var cc, ss, late := ClientStage(w.client), ServerStage(w.server), w.server.late;
    && (cc <= 8 ==> OwnCounts(w.client.streams))
    && (ss <= 5 ==> OwnCounts(w.server.streams))
    && (ss >= 6 ==> Reports(w.server.reports, w.server.streams, late))
    && (ss >= 6 && !late ==> Informed(w.server.streams, w.client.streams))
    && (ss >= 6 && late ==> Cleared(w.server.streams))
    && (cc >= 9 && !late ==> Informed(w.client.streams, w.server.streams))
  }

  ghost predicate Reports(rs: seq<Report>, streams: seq<Stream>, late: bool) {
    SameIds(rs, streams) && (!late ==> forall i :: 0 <= i < |rs| ==> rs[i] == ReportOne(streams[i]))
  }

  ghost predicate Cleared(streams: seq<Stream>) {
    forall i :: 0 <= i < |streams| ==> Sent(streams[i]) == streams[i].received == 0
  }

  // a has b's counts for the direction in which b does the counting, as its report carries them.
  ghost predicate Informed(a: seq<Stream>, b: seq<Stream>) {
    |a| == |b| && forall i :: 0 <= i < |a| ==>
      if a[i].sender then a[i].received == Carried(b[i].received) else Sent(a[i]) == Carried(Sent(b[i]))
  }

  ghost predicate Inv(cfg: Config, w: World) {
    ChannelsOk(cfg, w) && ServerOk(cfg, w) && StreamsOk(cfg, w) && ListenerOk(cfg, w) && OmitOk(cfg, w) && CountsOk(w)
  }

  // The two events that end a session early: a stranger's connection is accepted while streams
  // are being created, in a session with a type of service; the server reads parameters that are
  // over its limit.
  predicate Breaks(cfg: Config, w: World, e: Event) {
    || (&& e == ServerAccepts && w.server.pc == ServerLoop && w.server.state == CREATE_STREAMS
        && w.listener != [] && w.listener[0] == Stranger && w.server.params.tos != 0)
    || (e == ServerReads && w.server.pc == AwaitParameters && !Fits(cfg))
  }

  // ---------- one event ----------

  lemma InitChannels(cfg: Config)
    ensures ChannelsOk(cfg, Init()) && OmitOk(cfg, Init())
  {
    hide Request, Fits, ClientScript, ServerScript;
  }

  lemma InitEnds(cfg: Config)
    ensures ServerOk(cfg, Init()) && StreamsOk(cfg, Init()) && ListenerOk(cfg, Init()) && CountsOk(Init())
  {
    hide Request, Fits, Plan, Wanted, Relistens, Opposite, ReportOne;
  }

  lemma InitInv(cfg: Config)
    ensures Inv(cfg, Init())
  {
    hide ChannelsOk, ServerOk, StreamsOk, ListenerOk, OmitOk, CountsOk, Init;
    InitChannels(cfg);
    InitEnds(cfg);
  }

  lemma TallyTail(l: seq<Connection>)
    requires l != []
    ensures forall c :: Tally(l, c) == Tally(l[1..], c) + if l[0] == c then 1 else 0
  {
    assert l == [l[0]] + l[1..];
  }

  lemma TallyAppend(l: seq<Connection>, x: Connection)
    ensures forall c :: Tally(l + [x], c) == Tally(l, c) + if x == c then 1 else 0
  {
  }

  lemma ConnectInv(cfg: Config, w: World)
    requires Inv(cfg, w) && w.client.pc.NotConnected?
    ensures Inv(cfg, Connect(w))
  {
    hide Request, Fits, ResultsBody, ReportAll, Plan, Planned, OwnCounts, Informed, Reports, Cleared, Wanted, Relistens;
    TallyAppend(w.listener, Control);
  }

  lemma StrangerInv(cfg: Config, w: World)
    requires Inv(cfg, w) && !w.client.pc.NotConnected?
    ensures Inv(cfg, Next(cfg, w, StrangerConnects).value)
  {
    hide Request, Fits, ResultsBody, ReportAll, Plan, Planned, OwnCounts, Informed, Reports, Cleared, Tally, Wanted;
    hide Relistens;
    TallyAppend(w.listener, Stranger);
  }

  lemma CreateInv(cfg: Config, w: World)
    requires Inv(cfg, w) && w.client.pc.CreatingStreams?
    ensures Inv(cfg, CreateStream(cfg, w))
  {
    hide Request, Fits, ResultsBody, ReportAll, Plan, Planned, OwnCounts, Informed, Reports, Cleared, Tally, Wanted;
    hide Relistens;
    TallyAppend(w.listener, DataStream);
    PlannedSize(cfg, w.client.streams, false);
    var n := |w.client.streams|;
    if n < |Plan(cfg.mode, cfg.count)| {
      AddPlanned(cfg, w.client.streams, false, Plan(cfg.mode, cfg.count)[n]);
    }
  }

  lemma FinishInv(cfg: Config, w: World)
    requires Inv(cfg, w) && w.client.pc.ClientLoop? && w.client.state == TEST_RUNNING && !w.client.omitting
    ensures Inv(cfg, FinishTest(w))
  {
    hide Request, Fits, ResultsBody, ReportAll, Plan, Planned, OwnCounts, Informed, Reports, Cleared, Tally, Wanted;
    hide Relistens;
  }

  lemma StartInv(cfg: Config, w: World)
    requires Inv(cfg, w) && w.server.pc.ServerLoop? && w.server.state == CREATE_STREAMS && AllAccepted(w.server)
    ensures Inv(cfg, StartTest(w))
  {
    hide Request, Fits, ResultsBody, ReportAll, Planned, OwnCounts, Informed, Reports, Cleared;
    PlannedSize(cfg, w.client.streams, false);
  }

  lemma AcceptInv(cfg: Config, w: World)
    requires Inv(cfg, w) && w.listener != [] && w.server.pc.ServerLoop? && w.server.state != CREATE_STREAMS
    ensures Inv(cfg, Accept(w.(listener := w.listener[1..]), w.listener[0]))
  {
    hide ChannelsOk, ServerOk, StreamsOk, ListenerOk, OmitOk, CountsOk;
    AcceptListener(cfg, w);
    if w.server.connected {
      OnlyListener(cfg, w, w.listener[1..], w.denied + 1);
    } else {
      OnlyListener(cfg, w, w.listener[1..], w.denied);
      AcceptClient(cfg, w.(listener := w.listener[1..]));
    }
  }

  // The queue and the denied strangers matter to that part of the invariant alone.
  lemma OnlyListener(cfg: Config, w: World, listener: seq<Connection>, denied: nat)
    ensures var w' := w.(listener := listener, denied := denied);
            && (ChannelsOk(cfg, w) ==> ChannelsOk(cfg, w')) && (ServerOk(cfg, w) ==> ServerOk(cfg, w'))
            && (StreamsOk(cfg, w) ==> StreamsOk(cfg, w')) && (OmitOk(cfg, w) ==> OmitOk(cfg, w')) && (CountsOk(w) ==> CountsOk(w'))
  {
    hide Request, Fits, ResultsBody, ReportAll, Plan, Planned, OwnCounts, Informed, Reports, Cleared, Wanted;
    hide ClientScript, ServerScript, ClientStage, ServerStage, Opposite, StreamsToReceive, StreamsToSend, AllAccepted;
  }

  lemma AcceptClient(cfg: Config, w: World)
    requires ChannelsOk(cfg, w) && ServerOk(cfg, w) && StreamsOk(cfg, w) && OmitOk(cfg, w) && CountsOk(w)
    requires w.server.pc.ServerLoop? && !w.server.connected && ClientStage(w.client) >= 1
    ensures var w' := w.(server := w.server.(connected := true, pc := AwaitCookie));
            ChannelsOk(cfg, w') && ServerOk(cfg, w') && StreamsOk(cfg, w') && OmitOk(cfg, w') && CountsOk(w')
  {
    hide Request, Fits, ResultsBody, ReportAll, Plan, Planned, OwnCounts, Informed, Reports, Cleared, Wanted;
    hide ClientScript, ServerScript, ClientStage, Opposite, StreamsToReceive, StreamsToSend, AllAccepted;
  }

  lemma AcceptListener(cfg: Config, w: World)
    requires Inv(cfg, w) && w.listener != [] && w.server.pc.ServerLoop? && w.server.state != CREATE_STREAMS
    ensures ListenerOk(cfg, Accept(w.(listener := w.listener[1..]), w.listener[0]))
    ensures !w.server.connected ==> w.listener[0] == Control && ClientStage(w.client) >= 1
  {
    hide ChannelsOk, StreamsOk, OmitOk, CountsOk, Tally, Wanted, Relistens, Opposite, StreamsToReceive, StreamsToSend;
    hide AllAccepted;
    TallyTail(w.listener);
    NoStreamWaits(cfg, w);
    Before(cfg, w);
  }

  lemma Before(cfg: Config, w: World)
    requires ChannelsOk(cfg, w)
    ensures ClientStage(w.client) >= 0 && ServerStage(w.server) >= 0
    ensures ServerStage(w.server) >= 1 ==> ClientStage(w.client) >= 1
  {
    hide ClientScript, ServerScript, Fits;
  }

  lemma NoStreamWaits(cfg: Config, w: World)
    requires Inv(cfg, w)
    ensures ServerStage(w.server) >= 4 ==> Tally(w.listener, DataStream) == 0
    ensures ClientStage(w.client) <= 2 ==> Tally(w.listener, DataStream) == 0
  {
    hide Request, Fits, ResultsBody, ReportAll, OwnCounts, Informed, Reports, Cleared, Tally;
  }

  // The sender flag the server picks is the opposite of the client's for the same stream.
  lemma NextFlag(cfg: Config, w: World)
    requires ServerOk(cfg, w) && ServerStage(w.server) == 3 && |w.server.streams| < |Plan(cfg.mode, cfg.count)|
    ensures var s, plan := w.server, Plan(cfg.mode, cfg.count);
            && !AllAccepted(s)
            && plan[|s.streams|] == (s.receiving != StreamsToReceive(s))
  {
  }

  lemma AddPlanned(cfg: Config, streams: seq<Stream>, opposite: bool, sender: bool)
    requires Planned(cfg, streams, opposite) && |streams| < |Plan(cfg.mode, cfg.count)|
    requires sender == (Plan(cfg.mode, cfg.count)[|streams|] != opposite)
    ensures Planned(cfg, AddStream(streams, sender), opposite)
    ensures OwnCounts(streams) ==> OwnCounts(AddStream(streams, sender))
  {
  }

  lemma AcceptStreamInv(cfg: Config, w: World)
    requires Inv(cfg, w) && w.listener != [] && w.server.pc.ServerLoop? && w.server.state == CREATE_STREAMS
    requires !Breaks(cfg, w, ServerAccepts) && !AllAccepted(w.server)
    ensures Inv(cfg, AcceptStream(w.(listener := w.listener[1..]), w.listener[0]))
  {
    hide Request, Fits, ResultsBody, ReportAll, Plan, Planned, OwnCounts, Informed, Reports, Cleared, Tally;
    TallyTail(w.listener);
    assert w.listener[0] != Control;
    if w.listener[0] == DataStream {
      PlannedSize(cfg, w.client.streams, false);
      NextFlag(cfg, w);
      AddPlanned(cfg, w.server.streams, true, w.server.receiving == StreamsToReceive(w.server));
    }
  }

  lemma PlannedSize(cfg: Config, streams: seq<Stream>, opposite: bool)
    requires Planned(cfg, streams, opposite)
    ensures |streams| <= |Plan(cfg.mode, cfg.count)|
  {
  }

  // ---------- messages ----------

  // The channel to the client starts with the message that is due at its stage.
  lemma ClientHead(cfg: Config, w: World)
    requires ChannelsOk(cfg, w) && w.toClient != []
    ensures var cc, ss := ClientStage(w.client), ServerStage(w.server);
            && ClientRead(cc) < ServerWritten(ss)
            && w.toClient[0] == ServerScript(w.server.reports)[ClientRead(cc)]
            && w.toClient[1..] == ServerScript(w.server.reports)[ClientRead(cc) + 1..ServerWritten(ss)]
  {
    hide ServerScript, ClientScript, Fits;
  }

  lemma ServerHead(cfg: Config, w: World)
    requires ChannelsOk(cfg, w) && w.toServer != []
    ensures var cc, ss := ClientStage(w.client), ServerStage(w.server);
            && ServerRead(ss) < ClientWritten(cc)
            && w.toServer[0] == ClientScript(cfg, w.client.streams)[ServerRead(ss)]
            && w.toServer[1..] == ClientScript(cfg, w.client.streams)[ServerRead(ss) + 1..ClientWritten(cc)]
  {
    hide ServerScript, ClientScript, Fits;
  }

  // What the client finds in the channel when it reads a state.
  lemma ClientDue(cfg: Config, w: World)
    requires Inv(cfg, w) && w.toClient != [] && w.client.pc.ClientLoop?
    ensures var cc, m := ClientStage(w.client), w.toClient[0];
            || (cc == 1 && m == Code(PARAM_EXCHANGE))
            || (cc == 2 && m == Code(CREATE_STREAMS))
            || (cc == 4 && m == Code(TEST_START))
            || (cc == 5 && m == Code(TEST_RUNNING))
            || (cc == 7 && m == Code(EXCHANGE_RESULTS))
            || (cc == 9 && m == Code(DISPLAY_RESULTS))
    ensures ClientStage(w.client) <= 2 ==> !w.client.omitting
  {
    hide Fits, ReportAll, ResultsBody, Request, ClientScript, ServerOk, StreamsOk, ListenerOk, CountsOk;
    ClientHead(cfg, w);
  }

  lemma ServerDue(cfg: Config, w: World)
    requires Inv(cfg, w) && w.toServer != [] && (w.server.pc.AwaitCookie? || w.server.pc.ServerLoop?) && w.server.connected
    ensures var ss, m := ServerStage(w.server), w.toServer[0];
            (ss == 1 && m == Cookie) || (ss == 4 && m == Code(TEST_END)) || (ss == 6 && m == Code(IPERF_DONE))
  {
    hide Fits, ReportAll, ResultsBody, Request, ServerScript, StreamsOk, ListenerOk, CountsOk;
    ServerHead(cfg, w);
  }

  lemma ClientMessageInv(cfg: Config, w: World)
    requires Inv(cfg, w) && w.toClient != [] && w.client.pc.ClientLoop?
    ensures Inv(cfg, ClientMessage(cfg, w.(toClient := w.toClient[1..]), w.toClient[0]))
  {
    hide Request, Fits, ResultsBody, ReportAll, Plan, Planned, OwnCounts, Informed, Reports, Cleared, Tally, Wanted;
    hide Relistens;
    ClientHead(cfg, w);
    ClientDue(cfg, w);
  }

  lemma ServerMessageInv(cfg: Config, w: World)
    requires Inv(cfg, w) && w.toServer != [] && w.server.pc.ServerLoop? && w.server.connected
    ensures Inv(cfg, ServerMessage(w.(toServer := w.toServer[1..]), w.toServer[0]))
  {
    hide Request, Fits, ResultsBody, ReportAll, Plan, Planned, OwnCounts, Informed, Reports, Cleared, Tally, Wanted;
    hide Relistens;
    ServerHead(cfg, w);
    ServerDue(cfg, w);
  }

  lemma ServerCookieInv(cfg: Config, w: World)
    requires Inv(cfg, w) && w.toServer != [] && w.server.pc.AwaitCookie?
    ensures Inv(cfg, ServerCookie(w.(toServer := w.toServer[1..]), w.toServer[0]))
  {
    hide Request, Fits, ResultsBody, ReportAll, Plan, Planned, OwnCounts, Informed, Reports, Cleared, Tally, Wanted;
    hide Relistens;
    ServerHead(cfg, w);
  }

  lemma ServerParametersInv(cfg: Config, w: World)
    requires Inv(cfg, w) && w.toServer != [] && w.server.pc.AwaitParameters? && Fits(cfg)
    ensures Inv(cfg, ServerParameters(w.(toServer := w.toServer[1..]), w.toServer[0]))
  {
    hide Request, Fits, ServerParameters, ReadParameters, ResultsBody, ReportAll, Plan, Planned, OwnCounts;
    hide Informed, Reports, Cleared, Tally, Relistens, ChannelsOk;
    ParametersRead(cfg, w);
    NoStreamWaits(cfg, w);
    NoneWaits();
  }

  // The server after it has read the parameters.
  lemma ParametersRead(cfg: Config, w: World)
    requires Inv(cfg, w) && w.toServer != [] && w.server.pc.AwaitParameters? && Fits(cfg)
    ensures ServerStage(w.server) == 2 && ClientStage(w.client) == 2
    ensures var w' := ServerParameters(w.(toServer := w.toServer[1..]), w.toServer[0]);
            && ChannelsOk(cfg, w') && w'.server.flags.mode == Opposite(cfg.mode)
            && w' == w.(toServer := w'.toServer, toClient := w'.toClient,
                        server := w.server.(pc := ServerLoop, state := CREATE_STREAMS,
                                            flags := w'.server.flags, params := Wanted(cfg)),
                        listener := if Relistens(Wanted(cfg)) then [] else w.listener,
                        dropped := if Relistens(Wanted(cfg)) then w.dropped + Tally(w.listener, Stranger) else w.dropped)
  {
    hide Request, Fits, Receive, ReadParameters, ResultsBody, ReportAll;
    hide StreamsOk, OmitOk, ListenerOk, CountsOk, Tally, Relistens;
    ParametersDue(cfg, w);
    ParametersArrive(Wanted(cfg), cfg.others);
    RequestFits(cfg);
    StreamsAsked(cfg, ServerParameters(w.(toServer := w.toServer[1..]), w.toServer[0]));
    hide ServerOk, ChannelsOk;
  }

  lemma StreamsAsked(cfg: Config, w: World)
    requires ClientStage(w.client) == 2 && ServerStage(w.server) == 3 && w.client.endsSent == 0 && Fits(cfg)
    requires w.toServer == [] && w.toClient == [Code(CREATE_STREAMS)]
    ensures ChannelsOk(cfg, w)
  {
    hide Request, Fits, ResultsBody, ReportAll;
    assert ServerScript(w.server.reports)[1..2] == [Code(CREATE_STREAMS)];
  }

  lemma ParametersDue(cfg: Config, w: World)
    requires Inv(cfg, w) && w.toServer != [] && w.server.pc.AwaitParameters?
    ensures w.toServer[0] == Body(Request(cfg)) && ServerStage(w.server) == 2 && ClientStage(w.client) == 2
    ensures w.toServer[1..] == [] && w.toClient == [] && w.client.endsSent == 0
    ensures w.server.flags == Flags(true, false, false, Receiver) && w.server.params == DEFAULTS
  {
    hide Request, Fits, ResultsBody, ReportAll, StreamsOk, OmitOk, ListenerOk, CountsOk;
    ServerHead(cfg, w);
  }

  lemma NoneWaits()
    ensures forall c :: Tally([], c) == 0
  {
  }

  lemma RequestFits(cfg: Config)
    ensures Fits(cfg) <==> Receive(Request(cfg), MAX_PARAMS_JSON_STRING).Some?
    ensures Request(cfg) == ParametersBody(Wanted(cfg), cfg.others)
  {
  }

  // A peer's results are merged as the reports they were made from.
  lemma MergingReports(cfg: Config, streams: seq<Stream>, reports: seq<Report>, peers: seq<Stream>, opposite: bool)
    requires Planned(cfg, peers, opposite) && SameIds(reports, peers)
    ensures Merging(streams, Body(ResultsBody(reports))) == MergeAll(streams, reports)
  {
    hide ResultsBody, ReadResults, MergeAll;
    forall i | 0 <= i < |reports| ensures 0 <= reports[i].id <= TWO_53 {
      assert |peers| <= 0x1_0000_0000;
    }
    ResultsArrive(reports);
  }

  // Both ends have all their streams when they exchange results, so the reports find them.
  lemma ServerMerges(cfg: Config, w: World)
    requires Inv(cfg, w) && w.toServer != [] && w.server.pc.AwaitResults?
    ensures ServerStage(w.server) == 5 && ClientStage(w.client) == 8 && w.toServer[1..] == [] && !w.server.late
    ensures var merged := Merging(w.server.streams, w.toServer[0]);
            && merged.Some? && |merged.value| == |w.server.streams| && Planned(cfg, merged.value, true)
            && Informed(merged.value, w.client.streams) && Reports(ReportAll(merged.value), merged.value, false)
  {
    hide Request, Fits, Merging, ResultsBody, ReportAll, MergeAll, Plan, Planned, OwnCounts, Informed, Reports, Cleared;
    hide Tally;
    hide Wanted, Relistens, Paired;
    ServerHead(cfg, w);
    AllPaired(cfg, w);
    ReportIds(w.client.streams);
    MergingReports(cfg, w.server.streams, ReportAll(w.client.streams), w.client.streams, false);
    MergePaired(w.server.streams, w.client.streams);
    var merged := MergeAll(w.server.streams, ReportAll(w.client.streams)).value;
    MergedKnows(cfg, w.server.streams, w.client.streams, true, merged);
    ReportsOf(merged);
  }

  lemma ServerResultsInv(cfg: Config, w: World)
    requires Inv(cfg, w) && w.toServer != [] && w.server.pc.AwaitResults?
    ensures Inv(cfg, ServerResults(w.(toServer := w.toServer[1..]), w.toServer[0]))
  {
    hide Request, Fits, Merging, ResultsBody, ReportAll, MergeAll, Plan, Planned, OwnCounts, Informed, Reports, Cleared;
    hide Tally;
    hide Wanted, Relistens, ChannelsOk;
    ServerMerges(cfg, w);
    ServerResultsSent(cfg, w);
  }

  lemma ServerResultsSent(cfg: Config, w: World)
    requires Inv(cfg, w) && w.toServer != [] && w.server.pc.AwaitResults?
    ensures ChannelsOk(cfg, ServerResults(w.(toServer := w.toServer[1..]), w.toServer[0]))
  {
    hide Request, Fits, Merging, ResultsBody, ReportAll, ServerOk, StreamsOk, OmitOk, ListenerOk, CountsOk;
    ServerMerges(cfg, w);
  }

  lemma ReportIds(streams: seq<Stream>)
    ensures SameIds(ReportAll(streams), streams)
  {
    hide Carried;
  }

  lemma ReportedIds(rs: seq<Report>, streams: seq<Stream>, late: bool)
    requires Reports(rs, streams, late)
    ensures SameIds(rs, streams)
  {
  }

  lemma ReportsOf(streams: seq<Stream>)
    ensures Reports(ReportAll(streams), streams, false)
  {
    hide Carried;
  }

  lemma ClientMerges(cfg: Config, w: World)
    requires Inv(cfg, w) && w.toClient != [] && w.client.pc.AwaitingResults?
    ensures ClientStage(w.client) == 8 && ServerStage(w.server) >= 6
    ensures var merged := Merging(w.client.streams, w.toClient[0]);
            && merged.Some? && |merged.value| == |w.client.streams| && Planned(cfg, merged.value, false)
            && (forall i :: 0 <= i < |merged.value| ==> OwnCount(merged.value[i]) == OwnCount(w.client.streams[i]))
            && (!w.server.late ==> Informed(merged.value, w.server.streams) && Informed(w.server.streams, merged.value))
  {
    hide Request, Fits, Merging, ResultsBody, ReportAll, MergeAll, Plan, Planned, OwnCounts, Informed, Reports, Cleared;
    hide Tally;
    hide Wanted, Relistens, Paired;
    ClientHead(cfg, w);
    AllPaired(cfg, w);
    ReportedIds(w.server.reports, w.server.streams, w.server.late);
    MergingReports(cfg, w.client.streams, w.server.reports, w.server.streams, true);
    var merged := ReportedMerge(cfg, w.client.streams, w.server.streams, w.server.reports, w.server.late);
  }

  lemma ClientResultsInv(cfg: Config, w: World)
    requires Inv(cfg, w) && w.toClient != [] && w.client.pc.AwaitingResults?
    ensures Inv(cfg, ClientResults(w.(toClient := w.toClient[1..]), w.toClient[0]))
  {
    hide Request, Fits, Merging, ResultsBody, ReportAll, MergeAll, Plan, Planned, OwnCounts, Informed, Reports, Cleared;
    hide Tally;
    hide Wanted, Relistens, ChannelsOk;
    ClientMerges(cfg, w);
    ClientResultsRead(cfg, w);
  }

  lemma ClientResultsRead(cfg: Config, w: World)
    requires Inv(cfg, w) && w.toClient != [] && w.client.pc.AwaitingResults?
    ensures ChannelsOk(cfg, ClientResults(w.(toClient := w.toClient[1..]), w.toClient[0]))
  {
    hide Request, Fits, Merging, ResultsBody, ReportAll, ServerOk, StreamsOk, OmitOk, ListenerOk, CountsOk;
    ClientHead(cfg, w);
    ClientMerges(cfg, w);
  }

  // The client merges what the server has reported, whatever has become of the server's streams.
  lemma ReportedMerge(cfg: Config, streams: seq<Stream>, peers: seq<Stream>, reports: seq<Report>, late: bool)
    returns (merged: seq<Stream>)
    requires Paired(streams, peers) && Planned(cfg, streams, false) && OwnCounts(streams) && Reports(reports, peers, late)
    ensures MergeAll(streams, reports) == Some(merged) && Planned(cfg, merged, false) && |merged| == |streams|
    ensures !late ==> Informed(merged, peers)
    ensures Informed(peers, streams) ==> Informed(peers, merged)
    ensures forall i :: 0 <= i < |streams| ==> merged[i].sender == streams[i].sender && OwnCount(merged[i]) == OwnCount(streams[i])
  {
    hide Carried, MergeAll, Planned, OwnCounts, Informed, Reports, OwnCount, Numbered;
    ReportedIds(reports, peers, late);
    NumberedIds(streams, peers, reports);
    MergeRest(streams, reports, 0);
    assert reports[0..] == reports;
    merged := MergeAll(streams, reports).value;
    MergedPlanned(cfg, streams, reports, merged);
    if !late {
      MergedInforms(streams, peers, reports, merged);
    }
    MergedKeepsOwn(streams, peers, reports, merged);
  }

  lemma NumberedIds(streams: seq<Stream>, peers: seq<Stream>, reports: seq<Report>)
    requires Paired(streams, peers) && SameIds(reports, peers)
    ensures Numbered(streams) && SameIds(reports, streams)
  {
  }

  // A stream takes from a report what the other end has counted, and keeps what it is.
  ghost predicate AllMerged(streams: seq<Stream>, reports: seq<Report>, merged: seq<Stream>) {
    |merged| == |streams| == |reports| && forall i :: 0 <= i < |merged| ==> merged[i] == Merged(streams[i], reports[i].bytes)
  }

  lemma MergedPlanned(cfg: Config, streams: seq<Stream>, reports: seq<Report>, merged: seq<Stream>)
    requires AllMerged(streams, reports, merged) && Planned(cfg, streams, false)
    ensures Planned(cfg, merged, false)
    ensures forall i :: 0 <= i < |merged| ==> merged[i].sender == streams[i].sender && OwnCount(merged[i]) == OwnCount(streams[i])
  {
    hide Plan;
  }

  lemma MergedInforms(streams: seq<Stream>, peers: seq<Stream>, reports: seq<Report>, merged: seq<Stream>)
    requires AllMerged(streams, reports, merged) && Paired(streams, peers) && OwnCounts(streams) && Reports(reports, peers, false)
    ensures Informed(merged, peers)
  {
    hide Carried, Numbered;
  }

  lemma MergedKeepsOwn(streams: seq<Stream>, peers: seq<Stream>, reports: seq<Report>, merged: seq<Stream>)
    requires AllMerged(streams, reports, merged)
    ensures Informed(peers, streams) && Paired(streams, peers) ==> Informed(peers, merged)
  {
    hide Carried, Numbered;
  }

  lemma AllPaired(cfg: Config, w: World)
    requires Inv(cfg, w) && ServerStage(w.server) >= 4
    ensures Paired(w.server.streams, w.client.streams) && Paired(w.client.streams, w.server.streams)
    ensures |w.server.streams| == |w.client.streams| == |Plan(cfg.mode, cfg.count)|
  {
    hide Request, Fits, ResultsBody, ReportAll, OwnCounts, Informed, Reports, Cleared, Relistens;
  }

  lemma MergedKnows(cfg: Config, a: seq<Stream>, b: seq<Stream>, opposite: bool, a': seq<Stream>)
    requires Paired(a, b) && Planned(cfg, a, opposite) && OwnCounts(a) && |a'| == |a|
    requires forall i :: 0 <= i < |a| ==> a'[i] == Merged(a[i], ReportOne(b[i]).bytes)
    ensures Planned(cfg, a', opposite) && Informed(a', b)
  {
    hide Carried;
  }

  lemma CountKeeps(cfg: Config, streams: seq<Stream>, opposite: bool, i: nat, n: nat)
    requires Planned(cfg, streams, opposite) && OwnCounts(streams) && i < |streams|
    ensures var s := Count(streams, i, n); |s| == |streams| && Planned(cfg, s, opposite) && OwnCounts(s)
  {
  }

  lemma EndOmitKeeps(cfg: Config, streams: seq<Stream>, opposite: bool)
    requires Planned(cfg, streams, opposite)
    ensures var s := EndOmit(streams); |s| == |streams| && Planned(cfg, s, opposite) && Cleared(s)
    ensures OwnCounts(streams) ==> OwnCounts(EndOmit(streams))
  {
  }

  // Bytes may be counted, and an omit period end, while a side is running the test.
  lemma ServerStreamsInv(cfg: Config, w: World, streams: seq<Stream>, omitting: bool)
    requires Inv(cfg, w) && w.server.pc.ServerLoop? && w.server.state == TEST_RUNNING && (omitting ==> w.server.omitting)
    requires |streams| == |w.server.streams| && Planned(cfg, streams, true) && OwnCounts(streams)
    ensures Inv(cfg, w.(server := w.server.(streams := streams, omitting := omitting)))
  {
    hide Request, Fits, ResultsBody, ReportAll, Plan, Planned, OwnCounts, Informed, Reports, Cleared, Tally, Wanted;
    hide Relistens;
    assert ServerStage(w.server) == 4;
  }

  lemma ClientStreamsInv(cfg: Config, w: World, streams: seq<Stream>, omitting: bool)
    requires Inv(cfg, w) && w.client.state == TEST_RUNNING && (omitting ==> w.client.omitting)
    requires |streams| == |w.client.streams| && Planned(cfg, streams, false) && OwnCounts(streams)
    ensures Inv(cfg, w.(client := w.client.(streams := streams, omitting := omitting)))
  {
    hide Request, Fits, ResultsBody, ReportAll, Plan, Planned, OwnCounts;
    hide Informed, Reports, Cleared, Tally, Wanted, Relistens, ServerScript;
    var ss := ServerStage(w.server);
    assert ClientStage(w.client) == 6;
    assert ClientScript(cfg, streams)[ServerRead(ss)..2] == ClientScript(cfg, w.client.streams)[ServerRead(ss)..2];
  }

  // The server's omit period ends, while the test runs or when the results are out.
  lemma ServerOmitInv(cfg: Config, w: World)
    requires Inv(cfg, w) && w.server.pc.ServerLoop? && w.server.omitting
    ensures Inv(cfg, ServerOmitEnd(w))
  {
    hide Inv, EndOmit, Planned, OwnCounts, Cleared;
    ServerPlanned(cfg, w);
    if w.server.state == TEST_RUNNING {
      EndOmitKeeps(cfg, w.server.streams, true);
      ServerStreamsInv(cfg, w, EndOmit(w.server.streams), false);
      assert ServerOmitEnd(w) == w.(server := w.server.(streams := EndOmit(w.server.streams), omitting := false));
    } else {
      LateOmitInv(cfg, w);
    }
  }

  lemma ServerPlanned(cfg: Config, w: World)
    requires Inv(cfg, w)
    ensures Planned(cfg, w.server.streams, true)
    ensures w.server.pc.ServerLoop? && w.server.omitting && w.server.state != TEST_RUNNING ==> ServerStage(w.server) == 6
    ensures w.server.state == TEST_RUNNING && w.server.pc.ServerLoop? ==> OwnCounts(w.server.streams)
    ensures w.server.late ==> !w.server.omitting
  {
    hide Request, Fits, ResultsBody, ReportAll, Plan, Planned, OwnCounts, Informed, Reports, Cleared, Tally, Wanted;
    hide Relistens;
  }

  lemma LateOmitInv(cfg: Config, w: World)
    requires Inv(cfg, w) && ServerStage(w.server) == 6 && w.server.omitting
    ensures Inv(cfg, ServerOmitEnd(w))
  {
    hide Request, Fits, ResultsBody, ReportAll, Plan, Planned, OwnCounts, Informed, Reports, Cleared, Tally, Wanted;
    hide Relistens, EndOmit, ServerScript, ClientScript;
    ServerPlanned(cfg, w);
    EndOmitKeeps(cfg, w.server.streams, true);
    ReportsStay(w.server.reports, w.server.streams);
  }

  lemma ReportsStay(rs: seq<Report>, streams: seq<Stream>)
    ensures Reports(rs, streams, false) ==> Reports(rs, EndOmit(streams), true)
  {
    hide ReportOne;
  }

  lemma Running(cfg: Config, w: World)
    requires Inv(cfg, w)
    ensures w.server.state == TEST_RUNNING ==>
              w.server.pc.ServerLoop? && Planned(cfg, w.server.streams, true) && OwnCounts(w.server.streams)
    ensures w.client.state == TEST_RUNNING ==> Planned(cfg, w.client.streams, false) && OwnCounts(w.client.streams)
  {
    hide Request, Fits, ResultsBody, ReportAll, Plan, Planned, OwnCounts, Informed, Reports, Cleared, Tally, Wanted;
    hide Relistens;
  }

  // ---------- main results ----------

  // Whatever happens next, the invariant goes on, but for the two events that end a session.
  lemma NextInv(cfg: Config, w: World, e: Event)
    requires Inv(cfg, w) && Next(cfg, w, e).Some?
    ensures !Breaks(cfg, w, e) ==> Inv(cfg, Next(cfg, w, e).value)
    ensures Breaks(cfg, w, e) ==> Next(cfg, w, e).value.server.pc == ServerFailed
  {
    if Breaks(cfg, w, e) {
      BreaksFail(cfg, w, e);
    } else {
      hide Inv, ClientMessage, ClientResults, ServerMessage, ServerCookie, ServerParameters, ServerResults;
      hide Connect, CreateStream, FinishTest, StartTest, Accept, AcceptStream, Count, EndOmit, Fits, Request;
      hide AllAccepted;
      match e
      case ClientConnects => ConnectInv(cfg, w);
      case ClientReads =>
        if w.client.pc.ClientLoop? {
          ClientMessageInv(cfg, w);
        } else {
          ClientResultsInv(cfg, w);
        }
      case ClientCreatesStream => CreateInv(cfg, w);
      case ClientFinishes => FinishInv(cfg, w);
      case ServerReads =>
        match w.server.pc {
          case ServerLoop => ServerMessageInv(cfg, w);
          case AwaitCookie => ServerCookieInv(cfg, w);
          case AwaitParameters => ServerParametersInv(cfg, w);
          case AwaitResults => ServerResultsInv(cfg, w);
        }
      case ServerAccepts =>
        if w.server.state != CREATE_STREAMS {
          AcceptInv(cfg, w);
        } else {
          AcceptStreamInv(cfg, w);
        }
      case ServerStarts => StartInv(cfg, w);
      case StrangerConnects => StrangerInv(cfg, w);
      case ClientCounts(i, n) =>
        Running(cfg, w);
        CountKeeps(cfg, w.client.streams, false, i, n);
        ClientStreamsInv(cfg, w, Count(w.client.streams, i, n), w.client.omitting);
      case ServerCounts(i, n) =>
        Running(cfg, w);
        CountKeeps(cfg, w.server.streams, true, i, n);
        ServerStreamsInv(cfg, w, Count(w.server.streams, i, n), w.server.omitting);
      case ClientEndsOmit =>
        Running(cfg, w);
        EndOmitKeeps(cfg, w.client.streams, false);
        ClientStreamsInv(cfg, w, EndOmit(w.client.streams), false);
      case ServerEndsOmit => ServerOmitInv(cfg, w);
    }
  }

  lemma BreaksFail(cfg: Config, w: World, e: Event)
    requires Inv(cfg, w) && Next(cfg, w, e).Some? && Breaks(cfg, w, e)
    ensures Next(cfg, w, e).value.server.pc == ServerFailed
  {
    hide Request, Receive, ReadParameters, ResultsBody, ReportAll, Plan, Planned, OwnCounts, Informed, Reports, Cleared;
    hide Tally;
    hide Wanted, Relistens, Relisten;
    if e == ServerReads {
      ServerHead(cfg, w);
    }
  }

  // No event ends the session when the parameters fit and either no type of service is asked for
  // or there is no stream to create.
  predicate Intact(cfg: Config) {
    Fits(cfg) && (cfg.tos == 0 || cfg.count == 0)
  }

  lemma NoBreak(cfg: Config, w: World, e: Event)
    requires Inv(cfg, w) && Intact(cfg) && Next(cfg, w, e).Some?
    ensures !Breaks(cfg, w, e)
  {
    hide Fits, Plan, Planned, OwnCounts, Informed, Reports, Cleared, ReportAll, ResultsBody, Request;
  }

  // Over any run the invariant holds until the server fails, which it does not in such a session.
  lemma {:induction false} RunInv(cfg: Config, es: seq<Event>)
    requires Run(cfg, es).Some?
    ensures var w := Run(cfg, es).value; Inv(cfg, w) || (w.server.pc == ServerFailed && !Intact(cfg))
  {
    hide Inv, Next, Intact, Breaks;
    if es == [] {
      InitInv(cfg);
    } else {
      var w, e := Run(cfg, es[..|es| - 1]).value, es[|es| - 1];
      RunInv(cfg, es[..|es| - 1]);
      if w.server.pc == ServerFailed {
        StaysFailed(cfg, w, e);
        if Inv(cfg, w) {
          Meaning(cfg, w);
        }
      } else {
        if Intact(cfg) {
          NoBreak(cfg, w, e);
        }
        NextInv(cfg, w, e);
      }
    }
  }

  lemma StaysFailed(cfg: Config, w: World, e: Event)
    requires w.server.pc == ServerFailed && Next(cfg, w, e).Some?
    ensures Next(cfg, w, e).value.server.pc == ServerFailed
  {
    hide Request, ResultsBody, ReportAll, Merging;
  }

  // What the invariant says about the two sides: neither meets a message it does not know, TEST_END
  // is sent once at most, every stranger has been denied or still waits, but for those that were
  // waiting when a listening socket was replaced.
  lemma Meaning(cfg: Config, w: World)
    requires Inv(cfg, w)
    ensures w.client.pc != ClientFailed && w.server.pc != ServerFailed
    ensures w.client.endsSent <= 1
    ensures w.denied + w.dropped + Tally(w.listener, Stranger) == w.strangers
    ensures w.dropped > 0 ==> cfg.noDelay || cfg.mss != 0 || cfg.window != 0
    ensures forall i :: 0 <= i < |w.server.streams| ==>
              i < |w.client.streams| && w.client.streams[i].id == w.server.streams[i].id
              && w.client.streams[i].sender != w.server.streams[i].sender
    ensures forall i, j :: 0 <= i < j < |w.client.streams| ==> w.client.streams[i].id != w.client.streams[j].id
  {
    TwoEnds(cfg, w);
    hide Fits, Plan, Planned, OwnCounts, Informed, Reports;
    hide Cleared, ReportAll, ResultsBody, Request, Tally, StreamsOk, CountsOk;
  }

  // What each option of the client has made of the server's side, from the moment it has read the
  // parameters on.
  lemma OptionsArrive(cfg: Config, w: World)
    requires Inv(cfg, w) && ServerStage(w.server) >= 3
    ensures var p := w.server.params;
            && p.omit == cfg.omit && p.mss == cfg.mss && p.window == cfg.window && p.tos == cfg.tos
            && p.noDelay == cfg.noDelay && p.parallel == cfg.count
            && (p.reverse <==> cfg.mode == Receiver) && (p.bidirectional <==> cfg.mode == Bidirectional)
    ensures w.server.flags.mode == if cfg.mode == Sender then Receiver else if cfg.mode == Receiver then Sender else Bidirectional
    ensures StreamsToReceive(w.server) == if cfg.mode == Receiver then 0 else cfg.count
    ensures StreamsToSend(w.server) == if cfg.mode == Sender then 0 else cfg.count
  {
    hide ChannelsOk, StreamsOk, ListenerOk, OmitOk, CountsOk;
  }

  // The server's steps to creating streams and to the running test leave nobody waiting at its
  // listening socket exactly when an option makes it replace the socket; all others leave in the
  // queue whoever is in it, but for the one that is accepted and the ones that come.
  lemma SocketReplaced(cfg: Config, w: World, e: Event)
    requires Inv(cfg, w) && Next(cfg, w, e).Some? && Inv(cfg, Next(cfg, w, e).value)
    ensures var w' := Next(cfg, w, e).value;
            if e == ServerStarts || (e == ServerReads && ServerStage(w.server) == 2) then
              w'.listener == if cfg.noDelay || cfg.mss != 0 || cfg.window != 0 then [] else w.listener
            else if e == ServerAccepts then w'.listener == w.listener[1..]
            else w.listener <= w'.listener
  {
    hide ChannelsOk, StreamsOk, ListenerOk, OmitOk, CountsOk, Request, Fits, ResultsBody, ReportAll, Merging, Plan;
    hide ReadParameters;
    hide Receive, AllAccepted, AddStream, EndOmit, Count, Tally, ClientStage, Opposite, StreamsToReceive, StreamsToSend;
    Meaning(cfg, Next(cfg, w, e).value);
  }

  lemma TwoEnds(cfg: Config, w: World)
    requires StreamsOk(cfg, w) && ListenerOk(cfg, w)
    ensures forall i :: 0 <= i < |w.server.streams| ==>
              i < |w.client.streams| && w.client.streams[i].id == w.server.streams[i].id
              && w.client.streams[i].sender != w.server.streams[i].sender
    ensures forall i, j :: 0 <= i < j < |w.client.streams| ==> w.client.streams[i].id != w.client.streams[j].id
  {
    forall i, j | 0 <= i < j < |w.client.streams| ensures w.client.streams[i].id != w.client.streams[j].id {
      IdsDistinct(i, j);
    }
  }

  // When both sides are done, all streams have been created, and the ends hold the same counts of
  // a stream exactly when a double holds what each of them has counted. All that if the server
  // is through with its omit period before it reports; otherwise its counts are gone.
  lemma Agreement(cfg: Config, w: World)
    requires Inv(cfg, w) && w.client.pc == ClientDone && w.server.pc == ServerDone
    ensures w.toClient == [] && w.toServer == []
    ensures |w.client.streams| == |w.server.streams| == |Plan(cfg.mode, cfg.count)|
    ensures w.server.late ==> cfg.omit != 0
    ensures forall i :: 0 <= i < |w.client.streams| ==>
              var c, s := w.client.streams[i], w.server.streams[i];
              if w.server.late then SameCounts(c, s) <==> Sent(c) == c.received == 0
              else && (SameCounts(c, s) <==> Exact(c) && Exact(s))
                   && (0 <= OwnCount(c) <= TWO_53 && 0 <= OwnCount(s) <= TWO_53 ==> SameCounts(c, s))
  {
    hide Inv, Paired, Informed, Cleared, SameCounts, Exact, OwnCount, Sent, Plan, ServerStage;
    AtTheEnd(cfg, w);
    AllPaired(cfg, w);
    forall i | 0 <= i < |w.client.streams|
      ensures var c, s := w.client.streams[i], w.server.streams[i];
              if w.server.late then SameCounts(c, s) <==> Sent(c) == c.received == 0
              else && (SameCounts(c, s) <==> Exact(c) && Exact(s))
                   && (0 <= OwnCount(c) <= TWO_53 && 0 <= OwnCount(s) <= TWO_53 ==> SameCounts(c, s)) {
      if w.server.late {
        OneCleared(w.client.streams, w.server.streams, i);
      } else {
        OneInformed(w.client.streams, w.server.streams, i);
      }
    }
  }

  lemma OneInformed(a: seq<Stream>, b: seq<Stream>, i: nat)
    requires Paired(a, b) && Informed(a, b) && Informed(b, a) && i < |a|
    ensures SameCounts(a[i], b[i]) <==> Exact(a[i]) && Exact(b[i])
    ensures 0 <= OwnCount(a[i]) <= TWO_53 && 0 <= OwnCount(b[i]) <= TWO_53 ==> SameCounts(a[i], b[i])
  {
    hide Carried;
    if 0 <= OwnCount(a[i]) <= TWO_53 && 0 <= OwnCount(b[i]) <= TWO_53 {
      UpTo53Bits(OwnCount(a[i]));
      UpTo53Bits(OwnCount(b[i]));
    }
  }

  lemma OneCleared(a: seq<Stream>, b: seq<Stream>, i: nat)
    requires Paired(a, b) && Cleared(b) && i < |a|
    ensures SameCounts(a[i], b[i]) <==> Sent(a[i]) == a[i].received == 0
  {
  }

  lemma AtTheEnd(cfg: Config, w: World)
    requires Inv(cfg, w) && w.client.pc == ClientDone && w.server.pc == ServerDone
    ensures w.toClient == [] && w.toServer == [] && (w.server.late ==> cfg.omit != 0) && ServerStage(w.server) == 7
    ensures if w.server.late then Cleared(w.server.streams)
            else Informed(w.client.streams, w.server.streams) && Informed(w.server.streams, w.client.streams)
  {
    AllRead(cfg, w);
    hide ChannelsOk, ServerOk, StreamsOk, ListenerOk, Informed, Cleared, Reports, OwnCounts, ClientStage, ServerStage;
  }

  lemma AllRead(cfg: Config, w: World)
    requires ChannelsOk(cfg, w) && w.client.pc == ClientDone && w.server.pc == ServerDone
    ensures w.toClient == [] && w.toServer == [] && ClientStage(w.client) == 10 && ServerStage(w.server) == 7
  {
    hide ServerScript, ClientScript, Fits;
  }

  // ---------- progress ----------

  // Connections, reads and the like, as opposed to strangers arriving, bytes being counted and the
  // server's omit period, which nothing waits for.
  predicate SessionEvent(e: Event) {
    e in {ClientConnects, ClientReads, ClientCreatesStream, ClientFinishes,
          ServerReads, ServerAccepts, ServerStarts, ClientEndsOmit}
  }

  // Until both sides are done, one of them can go on.
  lemma Progress(cfg: Config, w: World)
    requires Inv(cfg, w)
    ensures (w.client.pc == ClientDone && w.server.pc == ServerDone) || exists e :: SessionEvent(e) && Next(cfg, w, e).Some?
  {
    hide Fits, Planned, OwnCounts, Informed, Reports, Cleared, ReportAll, ResultsBody, Request, Tally, Plan, Relistens;
    hide Wanted;
    hide Connect, CreateStream, FinishTest, ClientMessage;
    hide ClientResults, ServerMessage, ServerCookie, ServerParameters, ServerResults;
    hide Accept, AcceptStream, StartTest, ClientOmitEnd, AllAccepted;
    var cc, ss := ClientStage(w.client), ServerStage(w.server);
    if cc == 0 {
      assert Next(cfg, w, ClientConnects).Some?;
    } else if cc == 3 {
      assert Next(cfg, w, ClientCreatesStream).Some?;
    } else if cc == 6 && w.client.omitting {
      assert Next(cfg, w, ClientEndsOmit).Some?;
    } else if cc == 6 {
      assert Next(cfg, w, ClientFinishes).Some?;
    } else if w.toClient != [] && cc != 10 {
      assert Next(cfg, w, ClientReads).Some?;
    } else if w.toServer != [] && ss >= 1 && ss != 7 {
      assert Next(cfg, w, ServerReads).Some?;
    } else if ss == 0 {
      assert Next(cfg, w, ServerAccepts).Some?;
    } else if ss == 3 {
      if AllAccepted(w.server) {
        assert Next(cfg, w, ServerStarts).Some?;
      } else {
        SomeWait(cfg, w);
        assert Next(cfg, w, ServerAccepts).Some?;
      }
    }
  }

  lemma SomeWait(cfg: Config, w: World)
    requires Inv(cfg, w) && ServerStage(w.server) == 3 && ClientStage(w.client) >= 4 && !AllAccepted(w.server)
    ensures w.listener != []
  {
    hide Fits, OwnCounts, Informed, Reports, Cleared, ReportAll, ResultsBody, Request, Relistens;
  }

  // How much is left to do.
  function Left(cfg: Config, w: World): int {
    (10 - ClientStage(w.client)) + (7 - ServerStage(w.server))
    + 2 * |Plan(cfg.mode, cfg.count)| - |w.client.streams| - |w.server.streams|
    + OmitLeft(cfg, w.client) + Tally(w.listener, Stranger)
  }

  // The client has its omit period still to end.
  function OmitLeft(cfg: Config, c: Client): nat {
    if cfg.omit != 0 && (ClientStage(c) < 5 || c.omitting) then 1 else 0
  }

  // Every step of the session brings its end nearer; only a new stranger adds one step. So a
  // session with finitely many strangers ends.
  lemma NearerTheEnd(cfg: Config, w: World, e: Event)
    requires Inv(cfg, w) && Next(cfg, w, e).Some? && !Breaks(cfg, w, e)
    ensures var w' := Next(cfg, w, e).value;
            && (SessionEvent(e) ==> 0 <= Left(cfg, w') < Left(cfg, w))
            && (e == StrangerConnects ==> Left(cfg, w') == Left(cfg, w) + 1)
            && (!SessionEvent(e) && e != StrangerConnects ==> Left(cfg, w') == Left(cfg, w))
  {
    NextInv(cfg, w, e);
    LeftPositive(cfg, Next(cfg, w, e).value);
    hide Inv, Left, Plan, Tally, Next, Breaks;
    match e
    case ClientReads => ClientReadsNearer(cfg, w);
    case ServerReads => ServerReadsNearer(cfg, w);
    case ServerAccepts => AcceptsNearer(cfg, w);
    case ClientCreatesStream => CreatesNearer(cfg, w);
    case ServerStarts => StartsNearer(cfg, w);
    case StrangerConnects => StrangerFurther(cfg, w);
    case ClientConnects => ConnectsNearer(cfg, w);
    case _ => OthersNearer(cfg, w, e);
  }

  lemma ClientReadsNearer(cfg: Config, w: World)
    requires Inv(cfg, w) && Next(cfg, w, ClientReads).Some?
    ensures Left(cfg, Next(cfg, w, ClientReads).value) < Left(cfg, w)
  {
    hide Fits, Plan, Planned, OwnCounts, Informed, Reports, Cleared, ReportAll, ResultsBody, Request, Tally, Merging;
    if w.client.pc.AwaitingResults? {
      ClientMerges(cfg, w);
      hide Inv, ServerStage;
    } else {
      ClientDue(cfg, w);
      hide Inv, ServerStage;
    }
  }

  lemma ServerReadsNearer(cfg: Config, w: World)
    requires Inv(cfg, w) && Next(cfg, w, ServerReads).Some? && !Breaks(cfg, w, ServerReads)
    ensures Left(cfg, Next(cfg, w, ServerReads).value) < Left(cfg, w)
  {
    hide Fits, Plan, Planned, OwnCounts, Informed, Reports;
    hide Cleared, ReportAll, ResultsBody, Request, Tally, Merging, ServerParameters;
    hide ClientStage, Relistens, Wanted;
    if w.server.pc.AwaitResults? {
      ServerMerges(cfg, w);
      hide Inv;
    } else if w.server.pc.AwaitParameters? {
      ParametersRead(cfg, w);
      NoneWaits();
      hide Inv;
    } else {
      ServerDue(cfg, w);
      hide Inv;
    }
  }

  lemma AcceptsNearer(cfg: Config, w: World)
    requires Inv(cfg, w) && Next(cfg, w, ServerAccepts).Some? && !Breaks(cfg, w, ServerAccepts)
    ensures Left(cfg, Next(cfg, w, ServerAccepts).value) < Left(cfg, w)
  {
    hide Fits, Plan, Planned, OwnCounts, Informed, Reports, Cleared, ReportAll, ResultsBody, Request, Tally;
    TallyTail(w.listener);
    NoStreamWaits(cfg, w);
    if w.listener[0] == DataStream && w.server.state == CREATE_STREAMS {
      PlannedSize(cfg, w.client.streams, false);
      NextFlag(cfg, w);
    }
  }

  lemma CreatesNearer(cfg: Config, w: World)
    requires Inv(cfg, w) && w.client.pc.CreatingStreams?
    ensures Left(cfg, CreateStream(cfg, w)) < Left(cfg, w)
    ensures Next(cfg, w, ClientCreatesStream) == Some(CreateStream(cfg, w))
  {
    hide Fits, Plan, Planned, OwnCounts, Informed, Reports, Cleared;
    hide ReportAll, ResultsBody, Request, Tally, ListenerOk, CountsOk, ServerOk;
    TallyAppend(w.listener, DataStream);
  }

  lemma StartsNearer(cfg: Config, w: World)
    requires Inv(cfg, w) && Next(cfg, w, ServerStarts).Some?
    ensures Left(cfg, Next(cfg, w, ServerStarts).value) < Left(cfg, w)
  {
    hide Fits, Plan, Planned, OwnCounts, Informed, Reports, Cleared;
    hide ReportAll, ResultsBody, Request, Tally, Relistens, ListenerOk, CountsOk;
    NoneWaits();
  }

  lemma StrangerFurther(cfg: Config, w: World)
    requires Inv(cfg, w) && Next(cfg, w, StrangerConnects).Some?
    ensures Left(cfg, Next(cfg, w, StrangerConnects).value) == Left(cfg, w) + 1
  {
    hide Inv, Plan, Tally;
    TallyAppend(w.listener, Stranger);
  }

  lemma ConnectsNearer(cfg: Config, w: World)
    requires Inv(cfg, w) && Next(cfg, w, ClientConnects).Some?
    ensures Left(cfg, Next(cfg, w, ClientConnects).value) < Left(cfg, w)
  {
    hide Request, Fits, ReportAll, ResultsBody, Plan, Tally, ServerOk, StreamsOk, ListenerOk, CountsOk;
    TallyAppend(w.listener, Control);
  }

  lemma OthersNearer(cfg: Config, w: World, e: Event)
    requires Inv(cfg, w) && Next(cfg, w, e).Some?
    requires e.ClientFinishes? || e.ClientCounts? || e.ServerCounts? || e.ClientEndsOmit? || e.ServerEndsOmit?
    ensures var w' := Next(cfg, w, e).value;
            if SessionEvent(e) then Left(cfg, w') < Left(cfg, w) else Left(cfg, w') == Left(cfg, w)
  {
    hide Request, Fits, ReportAll, ResultsBody, Plan, Tally;
    hide ServerOk, StreamsOk, ListenerOk, CountsOk, ClientScript, ServerScript;
  }

  lemma LeftPositive(cfg: Config, w: World)
    requires Inv(cfg, w)
    ensures Left(cfg, w) >= 0
  {
    hide Request, Fits, ReportAll, ResultsBody, ServerOk, CountsOk, ClientScript, ServerScript;
  }
}
