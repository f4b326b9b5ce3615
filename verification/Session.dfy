// The control protocol of a test over TCP: the client's and the server's event loops as state
// machines that share two FIFO channels and the queue of the server's listening socket.
//
// One event is one handler up to the next blocking read. Nothing fails and no signal arrives.
// The client of the session is the one that connects first; strangers may connect any time later.
module Session {
  import opened Bytes
  import opened Json
  import opened Streams
  import opened ControlBodies

  // ---------- state codes ----------

  const TEST_START: int := 1
  const TEST_RUNNING: int := 2
  const TEST_END: int := 4
  const PARAM_EXCHANGE: int := 9
  const CREATE_STREAMS: int := 10
  const CLIENT_TERMINATE: int := 12
  const EXCHANGE_RESULTS: int := 13
  const DISPLAY_RESULTS: int := 14
  const IPERF_START: int := 15
  const IPERF_DONE: int := 16

  // ---------- the world ----------

  // What the command line of the client asks for. The others are what the remaining options put
  // into the parameters: title, extra data, lengths and so on.
  datatype Config = Config(mode: Mode, count: Whole, tos: Whole, omit: Whole, mss: Whole, window: Whole,
                           noDelay: bool, others: Others)

  function Wanted(cfg: Config): Parameters {
    Parameters(cfg.omit, cfg.mss, cfg.noDelay, cfg.count, cfg.mode.Receiver?, cfg.mode.Bidirectional?, cfg.window, cfg.tos)
  }

  function Request(cfg: Config): Json {
    ParametersBody(Wanted(cfg), cfg.others)
  }

  const MAX_PARAMS_JSON_STRING: nat := 8 * 1024

  // The server reads parameters up to a limit that the client does not know of.
  predicate Fits(cfg: Config) {
    Receive(Request(cfg), MAX_PARAMS_JSON_STRING).Some?
  }

  datatype Message = Cookie | Code(state: int) | Body(v: Json)

  datatype Connection = Control | DataStream | Stranger

  // Where a process is: in its select loop, or in a handler that waits for its peer.
  datatype ClientPc = NotConnected | ClientLoop | CreatingStreams | AwaitingResults | ClientDone | ClientFailed
  datatype ServerPc = ServerLoop | AwaitCookie | AwaitParameters | AwaitResults | ServerDone | ServerFailed

  // omitting is whether the side's omit timer is running.
  datatype Client = Client(pc: ClientPc, state: int, streams: seq<Stream>, omitting: bool, endsSent: nat)

  // reports is what the server has sent of its results, and late whether its omit period ended
  // only after that.
  datatype Server = Server(pc: ServerPc, state: int, connected: bool, flags: Flags, params: Parameters,
                           receiving: nat, sending: nat, streams: seq<Stream>, omitting: bool, reports: seq<Report>, late: bool)

  // The last three count strangers: those that came, those that were denied, and those whose
  // connections went away with a listening socket that was replaced.
  datatype World = World(client: Client, server: Server, toServer: seq<Message>, toClient: seq<Message>,
                         listener: seq<Connection>, strangers: nat, denied: nat, dropped: nat)

  function Init(): World {
    World(Client(NotConnected, 0, [], false, 0),
          Server(ServerLoop, IPERF_START, false, Flags(true, false, false, Receiver), DEFAULTS, 0, 0, [], false, [], false),
          [], [], [], 0, 0, 0)
  }

  // ---------- the client ----------

  function ClientSend(w: World, c: Client, m: Message): World {
    w.(client := c, toServer := w.toServer + [m])
  }

  // iperf_connect: the control connection and the cookie on it.
  function Connect(w: World): World {
    ClientSend(w.(listener := w.listener + [Control]), w.client.(pc := ClientLoop), Cookie)
  }

  // iperf_handle_message_client, once m has been read as a state.
  function ClientMessage(cfg: Config, w: World, m: Message): World {
    if !m.Code? then w.(client := w.client.(pc := ClientFailed)) else
      var c := w.client.(state := m.state);
      if m.state == PARAM_EXCHANGE then
        ClientSend(w, c, Body(Request(cfg)))
      else if m.state == CREATE_STREAMS then w.(client := c.(pc := CreatingStreams))
      else if m.state == TEST_START then w.(client := c.(omitting := cfg.omit != 0))
      else if m.state == TEST_RUNNING then w.(client := c)
      else if m.state == EXCHANGE_RESULTS then
        ClientSend(w, c.(pc := AwaitingResults), Body(ResultsBody(ReportAll(c.streams))))
      else if m.state == DISPLAY_RESULTS then
        ClientSend(w, c.(pc := ClientDone, state := IPERF_DONE), Code(IPERF_DONE))
      else if m.state == IPERF_DONE then w.(client := c.(pc := ClientDone))
      else w.(client := c.(pc := ClientFailed))
  }

  // One round of iperf_create_streams, or the return from it.
  function CreateStream(cfg: Config, w: World): World {
    var plan := Plan(cfg.mode, cfg.count);
    var n := |w.client.streams|;
    if n < |plan| then
      w.(client := w.client.(streams := AddStream(w.client.streams, plan[n])), listener := w.listener + [DataStream])
    else w.(client := w.client.(pc := ClientLoop))
  }

  // The end condition of iperf_run_client is met; it includes that the omit period is over.
  function FinishTest(w: World): World {
    ClientSend(w, w.client.(state := TEST_END, endsSent := w.client.endsSent + 1), Code(TEST_END))
  }

  // The reports in a message, if there are any and each is about one of the streams.
  function Merging(streams: seq<Stream>, m: Message): Option<seq<Stream>> {
    if !m.Body? then None
    else match Receive(m.v, 0)
      case None => None
      case Some(v) =>
        match ReadResults(v)
        case None => None
        case Some(reports) => MergeAll(streams, reports)
  }

  // get_results at the client, the second half of iperf_exchange_results.
  function ClientResults(w: World, m: Message): World {
    match Merging(w.client.streams, m)
    case Some(streams) => w.(client := w.client.(pc := ClientLoop, streams := streams))
    case None => w.(client := w.client.(pc := ClientFailed))
  }

  // ---------- the server ----------

  function ServerSend(w: World, s: Server, ms: seq<Message>): World {
    w.(server := s, toClient := w.toClient + ms)
  }

  // The listening socket outside of CREATE_STREAMS: iperf_accept up to its first read.
  function Accept(w: World, c: Connection): World {
    if !w.server.connected then w.(server := w.server.(connected := true, pc := AwaitCookie))
    else w.(denied := w.denied + 1)
  }

  function ServerCookie(w: World, m: Message): World {
    if m.Cookie? then
      ServerSend(w, w.server.(pc := AwaitParameters, state := PARAM_EXCHANGE), [Code(PARAM_EXCHANGE)])
    else w.(server := w.server.(pc := ServerFailed))
  }

  // Whether iperf_tcp_listen, and later the start of the test, replace the listening socket.
  predicate Relistens(p: Parameters) {
    p.noDelay || p.mss != 0 || p.window != 0
  }

  // The listening socket is closed and opened again: who waits there is gone.
  function Relisten(w: World, p: Parameters): World {
    if Relistens(p) then w.(listener := [], dropped := w.dropped + Tally(w.listener, Stranger)) else w
  }

  function Tally(l: seq<Connection>, c: Connection): nat {
    multiset(l)[c]
  }

  // get_parameters, and the rest of iperf_exchange_parameters.
  function ServerParameters(w: World, m: Message): World {
    if m.Body? && Receive(m.v, MAX_PARAMS_JSON_STRING).Some? then
      var p := ReadParameters(m.v, w.server.params);
      var flags := if p.reverse then SetReverse(w.server.flags, true) else w.server.flags;
      var flags' := if p.bidirectional then SetBidirectional(flags, true) else flags;
      ServerSend(Relisten(w, p), w.server.(pc := ServerLoop, state := CREATE_STREAMS, flags := flags', params := p),
                 [Code(CREATE_STREAMS)])
    else w.(server := w.server.(pc := ServerFailed))
  }

  function StreamsToReceive(s: Server): int {
    if s.flags.mode.Sender? then 0 else s.params.parallel
  }

  function StreamsToSend(s: Server): int {
    if s.flags.mode.Receiver? then 0 else s.params.parallel
  }

  // The listening socket in CREATE_STREAMS: iperf_tcp_accept, iperf_common_sockopts and the
  // count of streams. A stranger is denied and its socket closed, but the type of service, when
  // the client asked for one, is still set on that socket: this fails and ends the session.
  function AcceptStream(w: World, c: Connection): World {
    var s := w.server;
    if c.Stranger? then
      if s.params.tos != 0 then w.(server := s.(pc := ServerFailed), denied := w.denied + 1)
      else w.(denied := w.denied + 1)
    else if s.receiving != StreamsToReceive(s) then
      w.(server := s.(receiving := s.receiving + 1, streams := AddStream(s.streams, false)))
    else if s.sending != StreamsToSend(s) then
      w.(server := s.(sending := s.sending + 1, streams := AddStream(s.streams, true)))
    else w
  }

  predicate AllAccepted(s: Server) {
    s.receiving == StreamsToReceive(s) && s.sending == StreamsToSend(s)
  }

  function StartTest(w: World): World {
    ServerSend(Relisten(w, w.server.params), w.server.(state := TEST_RUNNING, omitting := w.server.params.omit != 0),
               [Code(TEST_START), Code(TEST_RUNNING)])
  }

  // iperf_handle_message_server, once m has been read as a state.
  function ServerMessage(w: World, m: Message): World {
    if !m.Code? then w.(server := w.server.(pc := ServerFailed)) else
      var s := w.server.(state := m.state);
      if m.state == TEST_START then w.(server := s)
      else if m.state == TEST_END then
        ServerSend(w, s.(pc := AwaitResults, state := EXCHANGE_RESULTS), [Code(EXCHANGE_RESULTS)])
      else if m.state == IPERF_DONE then w.(server := s.(pc := ServerDone))
      else if m.state == CLIENT_TERMINATE then w.(server := s.(pc := ServerDone, state := IPERF_DONE))
      else w.(server := s.(pc := ServerFailed))
  }

  // get_results and send_results at the server, and the last state it sends.
  function ServerResults(w: World, m: Message): World {
    match Merging(w.server.streams, m)
    case Some(streams) =>
      var reports := ReportAll(streams);
      ServerSend(w, w.server.(pc := ServerLoop, state := DISPLAY_RESULTS, streams := streams, reports := reports),
                 [Body(ResultsBody(reports)), Code(DISPLAY_RESULTS)])
    case None => w.(server := w.server.(pc := ServerFailed))
  }

  // server_omit_timer_proc: the server runs its timers in every state.
  function ServerOmitEnd(w: World): World {
    var s := w.server;
    w.(server := s.(streams := EndOmit(s.streams), omitting := false, late := s.late || s.state == DISPLAY_RESULTS))
  }

  // client_omit_timer_proc: the client runs its timers while the test is running.
  function ClientOmitEnd(w: World): World {
    w.(client := w.client.(streams := EndOmit(w.client.streams), omitting := false))
  }

  // ---------- events ----------

  datatype Event =
    | ClientConnects
    | ClientReads
    | ClientCreatesStream
    | ClientFinishes
    | ServerReads
    | ServerAccepts
    | ServerStarts
    | StrangerConnects
    | ClientCounts(stream: nat, bytes: nat)
    | ServerCounts(stream: nat, bytes: nat)
    | ClientEndsOmit
    | ServerEndsOmit

  // Where a side reads, it is by the handler that its place calls for.
  function ClientTakes(cfg: Config, w: World, m: Message): Option<World> {
    match w.client.pc
    case ClientLoop => Some(ClientMessage(cfg, w, m))
    case AwaitingResults => Some(ClientResults(w, m))
    case _ => None
  }

  function ServerTakes(w: World, m: Message): Option<World> {
    match w.server.pc
    case ServerLoop => if w.server.connected then Some(ServerMessage(w, m)) else None
    case AwaitCookie => Some(ServerCookie(w, m))
    case AwaitParameters => Some(ServerParameters(w, m))
    case AwaitResults => Some(ServerResults(w, m))
    case _ => None
  }

  // The world after an event, or None when the event cannot happen now.
  function Next(cfg: Config, w: World, e: Event): Option<World> {
    match e
    case ClientConnects =>
      if w.client.pc.NotConnected? then Some(Connect(w)) else None
    case ClientReads =>
      if w.toClient == [] then None else ClientTakes(cfg, w.(toClient := w.toClient[1..]), w.toClient[0])
    case ClientCreatesStream =>
      if w.client.pc.CreatingStreams? then Some(CreateStream(cfg, w)) else None
    case ClientFinishes =>
      if w.client.pc.ClientLoop? && w.client.state == TEST_RUNNING && !w.client.omitting then Some(FinishTest(w)) else None
    case ServerReads =>
      if w.toServer == [] then None else ServerTakes(w.(toServer := w.toServer[1..]), w.toServer[0])
    case ServerAccepts =>
      if w.listener == [] || !w.server.pc.ServerLoop? || (w.server.state == CREATE_STREAMS && AllAccepted(w.server)) then None else
        var c, w' := w.listener[0], w.(listener := w.listener[1..]);
        Some(if w.server.state == CREATE_STREAMS then AcceptStream(w', c) else Accept(w', c))
    case ServerStarts =>
      if w.server.pc.ServerLoop? && w.server.state == CREATE_STREAMS && AllAccepted(w.server) then Some(StartTest(w)) else None
    case StrangerConnects =>
      if w.client.pc.NotConnected? then None
      else Some(w.(listener := w.listener + [Stranger], strangers := w.strangers + 1))
    case ClientCounts(i, n) =>
      if w.client.state == TEST_RUNNING && i < |w.client.streams| then
        Some(w.(client := w.client.(streams := Count(w.client.streams, i, n))))
      else None
    case ServerCounts(i, n) =>
      if w.server.state == TEST_RUNNING && i < |w.server.streams| then
        Some(w.(server := w.server.(streams := Count(w.server.streams, i, n))))
      else None
    case ClientEndsOmit =>
      if w.client.state == TEST_RUNNING && w.client.omitting then Some(ClientOmitEnd(w)) else None
    case ServerEndsOmit =>
      if w.server.pc.ServerLoop? && w.server.omitting then Some(ServerOmitEnd(w)) else None
  }

  function Run(cfg: Config, es: seq<Event>): Option<World> {
    if es == [] then Some(Init())
    else match Run(cfg, es[..|es| - 1])
      case None => None
      case Some(w) => Next(cfg, w, es[|es| - 1])
  }
}
