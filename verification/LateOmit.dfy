// The server's omit period may end after its results are out. What it then clears are counts that
// the client has been told: exactly the sessions with an omit period can end in disagreement.
module LateOmit {
  import opened Bytes
  import opened Doubles
  import opened Streams
  import opened ControlBodies
  import opened Session
  import opened SessionSafety
  import opened SessionRuns

  ghost predicate Zero(streams: seq<Stream>) {
    forall i :: 0 <= i < |streams| ==> OwnCount(streams[i]) == 0
  }

  // ---------- until the test is running ----------

  // A session that no stranger has come to and that has not counted a byte.
  ghost predicate Early(cfg: Config, w: World) {
    && Inv(cfg, w) && ClientStage(w.client) <= 6 && ServerStage(w.server) <= 4
    && Tally(w.listener, Stranger) == 0 && Zero(w.client.streams)
    && (ServerStage(w.server) == 4 && cfg.omit != 0 ==> w.server.omitting)
  }

  lemma Enabled(cfg: Config, w: World) returns (e: Event)
    requires Inv(cfg, w) && (ClientStage(w.client) < 10 || ServerStage(w.server) < 7)
    ensures SessionEvent(e) && Next(cfg, w, e).Some?
  {
    hide Next, SessionEvent, ServerOk, StreamsOk, ListenerOk, OmitOk, CountsOk, ClientScript, ServerScript, Fits;
    Progress(cfg, w);
    e :| SessionEvent(e) && Next(cfg, w, e).Some?;
  }

  lemma NoStranger(cfg: Config, w: World, e: Event)
    requires Fits(cfg) && Tally(w.listener, Stranger) == 0
    ensures !Breaks(cfg, w, e)
  {
    hide Fits;
  }

  lemma TallyKept(cfg: Config, w: World, e: Event)
    requires Next(cfg, w, e).Some? && SessionEvent(e) && Tally(w.listener, Stranger) == 0
    ensures Tally(Next(cfg, w, e).value.listener, Stranger) == 0
  {
    hide Request, ResultsBody, ReportAll, Merging, ReadParameters, Receive, Relistens;
    TallyAppend(w.listener, Control);
    TallyAppend(w.listener, DataStream);
    if w.listener != [] {
      TallyTail(w.listener);
    }
    NoneWaits();
    hide Tally;
  }

  lemma EarlyClient(cfg: Config, w: World, e: Event)
    requires Early(cfg, w) && ClientStage(w.client) < 6 && SessionEvent(e) && Next(cfg, w, e).Some?
    ensures var c := Next(cfg, w, e).value.client; ClientStage(c) <= 6 && Zero(c.streams)
  {
    hide Tally, Fits, Request, ResultsBody, ReportAll, ServerOk;
    hide StreamsOk, ListenerOk, CountsOk, Relistens, ReadParameters, Merging, Receive;
    if e == ClientReads && w.client.pc.ClientLoop? {
      ClientDue(cfg, w);
      hide Inv;
    }
  }

  lemma EarlyServer(cfg: Config, w: World, e: Event)
    requires Early(cfg, w) && ClientStage(w.client) < 6 && SessionEvent(e) && Next(cfg, w, e).Some? && !Breaks(cfg, w, e)
    ensures var s := Next(cfg, w, e).value.server;
            ServerStage(s) <= 4 && (ServerStage(s) == 4 && cfg.omit != 0 ==> s.omitting)
  {
    hide Tally, Fits, Request, ResultsBody, ReportAll, StreamsOk, ListenerOk, CountsOk, Relistens, Merging;
    if e == ServerReads {
      EarlyServerReads(cfg, w);
    }
    hide ChannelsOk, ClientStage, ServerParameters, ServerMessage, ServerResults, ServerCookie;
  }

  lemma EarlyServerReads(cfg: Config, w: World)
    requires Early(cfg, w) && ClientStage(w.client) < 6 && Next(cfg, w, ServerReads).Some? && !Breaks(cfg, w, ServerReads)
    ensures ServerStage(Next(cfg, w, ServerReads).value.server) <= 3
  {
    hide Tally, Fits, Request, ResultsBody, ReportAll, StreamsOk, ListenerOk, CountsOk, Relistens, Merging, Wanted;
    if w.server.pc.AwaitParameters? {
      ParametersRead(cfg, w);
    } else {
      ServerHead(cfg, w);
    }
    hide ServerParameters, ServerResults;
  }

  lemma {:induction false} ToRunning(cfg: Config, es: seq<Event>, w: World) returns (es': seq<Event>, w': World)
    requires Run(cfg, es) == Some(w) && Early(cfg, w) && Fits(cfg)
    ensures Run(cfg, es') == Some(w') && Early(cfg, w') && ClientStage(w'.client) == 6
    decreases Left(cfg, w)
  {
    hide Run, Fits, Next, Breaks, Inv, Left, Zero, ClientStage, ServerStage, Tally, SessionEvent;
    if ClientStage(w.client) == 6 {
      es', w' := es, w;
    } else {
      var e := Enabled(cfg, w);
      var next := Next(cfg, w, e).value;
      NoStranger(cfg, w, e);
      NextInv(cfg, w, e);
      TallyKept(cfg, w, e);
      EarlyClient(cfg, w, e);
      EarlyServer(cfg, w, e);
      NearerTheEnd(cfg, w, e);
      Step(cfg, es, w, e, next);
      es', w' := ToRunning(cfg, es + [e], next);
    }
  }

  // ---------- from there to the end ----------

  // The client has counted one byte of its first stream, and the server's omit period goes on
  // or has ended late.
  ghost predicate Spoiling(cfg: Config, w: World) {
    && Inv(cfg, w) && ClientStage(w.client) >= 6 && !w.client.omitting && Tally(w.listener, Stranger) == 0
    && OwnBytes(w.client.streams)
    && (if w.server.omitting then 4 <= ServerStage(w.server) <= 6 else w.server.late)
  }

  ghost predicate OwnBytes(streams: seq<Stream>) {
    streams != [] && OwnCount(streams[0]) == 1 && forall i :: 1 <= i < |streams| ==> OwnCount(streams[i]) == 0
  }

  // The client counts its byte.
  lemma StartSpoiling(cfg: Config, es: seq<Event>, w: World) returns (es': seq<Event>, w': World)
    requires Run(cfg, es) == Some(w) && Early(cfg, w) && ClientStage(w.client) == 6 && cfg.omit != 0 && cfg.count >= 1
    ensures Run(cfg, es') == Some(w') && Spoiling(cfg, w')
  {
    hide Run, Fits, Inv, Count, EndOmit, Tally, OwnBytes, Zero;
    AtRunning(cfg, w);
    var w1 := w;
    es' := es;
    if w.client.omitting {
      w1 := ClientOmitEnd(w);
      NextInv(cfg, w, ClientEndsOmit);
      Step(cfg, es, w, ClientEndsOmit, w1);
      ZeroKept(w.client.streams);
      es' := es + [ClientEndsOmit];
    }
    w' := w1.(client := w1.client.(streams := Count(w1.client.streams, 0, 1)));
    NextInv(cfg, w1, ClientCounts(0, 1));
    Step(cfg, es', w1, ClientCounts(0, 1), w');
    OneByte(w1.client.streams);
    es' := es' + [ClientCounts(0, 1)];
  }

  lemma AtRunning(cfg: Config, w: World)
    requires Early(cfg, w) && ClientStage(w.client) == 6 && cfg.omit != 0 && cfg.count >= 1
    ensures w.client.pc == ClientLoop && w.client.state == TEST_RUNNING && ServerStage(w.server) == 4
    ensures w.client.streams != [] && w.server.omitting
  {
    hide Fits, Tally, ServerOk, ListenerOk, CountsOk, ClientScript, ServerScript;
  }

  lemma ZeroKept(streams: seq<Stream>)
    requires Zero(streams)
    ensures Zero(EndOmit(streams))
  {
  }

  lemma OneByte(streams: seq<Stream>)
    requires Zero(streams) && streams != []
    ensures OwnBytes(Count(streams, 0, 1))
  {
  }

  lemma BytesKept(a: seq<Stream>, b: seq<Stream>)
    requires OwnBytes(a) && |a| == |b| && forall i :: 0 <= i < |b| ==> OwnCount(b[i]) == OwnCount(a[i])
    ensures OwnBytes(b)
  {
  }

  lemma SpoilingClient(cfg: Config, w: World, e: Event)
    requires Spoiling(cfg, w) && SessionEvent(e) && Next(cfg, w, e).Some?
    ensures var c := Next(cfg, w, e).value.client; ClientStage(c) >= 6 && !c.omitting && OwnBytes(c.streams)
  {
    hide Tally, Fits, Request, ResultsBody, ReportAll, OwnBytes;
    hide OwnCount, Relistens, ReadParameters, Merging, Receive, ServerStage;
    hide ClientScript, ServerScript, ServerOk, StreamsOk, ListenerOk, CountsOk;
    if e == ClientReads {
      if w.client.pc.ClientLoop? {
        ClientDue(cfg, w);
      } else {
        ClientMerges(cfg, w);
        BytesKept(w.client.streams, Merging(w.client.streams, w.toClient[0]).value);
      }
    }
    hide Inv;
  }

  lemma SpoilingServer(cfg: Config, w: World, e: Event)
    requires Spoiling(cfg, w) && SessionEvent(e) && Next(cfg, w, e).Some?
    requires !(w.server.omitting && ServerStage(w.server) == 6)
    ensures var s := Next(cfg, w, e).value.server;
            if s.omitting then 4 <= ServerStage(s) <= 6 else s.late
  {
    hide Tally, Fits, Request, ResultsBody, ReportAll, StreamsOk, ListenerOk, CountsOk, Relistens, Merging;
    hide ServerParameters;
    LateStage(cfg, w);
    if e == ServerReads {
      SpoilingServerReads(cfg, w);
      hide ServerMessage, ServerResults, ServerCookie, ServerStage;
    } else {
      hide ServerMessage, ServerResults, ServerCookie;
    }
    hide ClientStage, ChannelsOk, ClientMessage, ClientResults;
  }

  lemma LateStage(cfg: Config, w: World)
    requires Spoiling(cfg, w)
    ensures ServerStage(w.server) >= 4
  {
    hide ClientStage, ServerStage, Tally, ChannelsOk, ServerOk, StreamsOk, ListenerOk, CountsOk;
  }

  lemma SpoilingServerReads(cfg: Config, w: World)
    requires Spoiling(cfg, w) && Next(cfg, w, ServerReads).Some?
    ensures var s, s' := w.server, Next(cfg, w, ServerReads).value.server;
            && s'.omitting == s.omitting && s'.late == s.late
            && (s.omitting && ServerStage(s) < 6 ==> 4 <= ServerStage(s') <= 6)
  {
    hide Tally, Fits, Request, ResultsBody, ReportAll, OwnBytes;
    hide Relistens, Merging, Receive, ReadParameters, ClientStage, Wanted;
    LateStage(cfg, w);
    if w.server.pc.AwaitResults? {
      ServerMerges(cfg, w);
    } else if w.server.pc.ServerLoop? && w.server.connected {
      ServerDue(cfg, w);
    }
    hide Inv;
  }

  lemma {:induction false} ToEnd(cfg: Config, es: seq<Event>, w: World) returns (es': seq<Event>, w': World)
    requires Run(cfg, es) == Some(w) && Spoiling(cfg, w) && Fits(cfg)
    ensures Run(cfg, es') == Some(w') && Spoiling(cfg, w') && w'.client.pc == ClientDone && w'.server.pc == ServerDone
    decreases Left(cfg, w), w.server.omitting
  {
    hide Run, Fits, Next, Breaks, Inv, Left, OwnBytes, ClientStage, ServerStage, Tally, SessionEvent;
    if w.server.omitting && ServerStage(w.server) == 6 {
      var next := EndsLate(cfg, w);
      NearerTheEnd(cfg, w, ServerEndsOmit);
      Step(cfg, es, w, ServerEndsOmit, next);
      es', w' := ToEnd(cfg, es + [ServerEndsOmit], next);
    } else if ClientStage(w.client) < 10 || ServerStage(w.server) < 7 {
      var e := Enabled(cfg, w);
      var next := Next(cfg, w, e).value;
      NoStranger(cfg, w, e);
      NextInv(cfg, w, e);
      TallyKept(cfg, w, e);
      SpoilingClient(cfg, w, e);
      SpoilingServer(cfg, w, e);
      NearerTheEnd(cfg, w, e);
      Step(cfg, es, w, e, next);
      es', w' := ToEnd(cfg, es + [e], next);
    } else {
      Done(w);
      es', w' := es, w;
    }
  }

  lemma Done(w: World)
    requires ClientStage(w.client) >= 10 && ServerStage(w.server) >= 7
    ensures w.client.pc == ClientDone && w.server.pc == ServerDone
  {
  }

  lemma EndsLate(cfg: Config, w: World) returns (w': World)
    requires Spoiling(cfg, w) && w.server.omitting && ServerStage(w.server) == 6
    ensures Next(cfg, w, ServerEndsOmit) == Some(w') && Spoiling(cfg, w') && !w'.server.omitting
    ensures !Breaks(cfg, w, ServerEndsOmit) && !SessionEvent(ServerEndsOmit)
  {
    hide Inv, OwnBytes, ClientStage, Tally, EndOmit, Fits;
    w' := ServerOmitEnd(w);
    NextInv(cfg, w, ServerEndsOmit);
  }

  // ---------- main result ----------

  // A run to the end after which the two ends do not agree on a stream, though neither has
  // counted more than a double holds.
  ghost predicate Disagrees(cfg: Config, es: seq<Event>, i: nat) {
    var r := Run(cfg, es);
    && r.Some? && r.value.client.pc == ClientDone && r.value.server.pc == ServerDone
    && i < |r.value.client.streams| && i < |r.value.server.streams|
    && var c, s := r.value.client.streams[i], r.value.server.streams[i];
       0 <= OwnCount(c) <= TWO_53 && 0 <= OwnCount(s) <= TWO_53 && !SameCounts(c, s)
  }

  lemma SpoiltRun(cfg: Config)
    requires Fits(cfg) && cfg.omit != 0 && cfg.count >= 1
    ensures exists es, i: nat :: Disagrees(cfg, es, i)
  {
    InitEarly(cfg);
    hide Run, Fits, Early, Spoiling;
    EmptyRun(cfg);
    var es, w := ToRunning(cfg, [], Init());
    es, w := StartSpoiling(cfg, es, w);
    es, w := ToEnd(cfg, es, w);
    Spoilt(cfg, w);
    assert Disagrees(cfg, es, 0);
  }

  lemma InitEarly(cfg: Config)
    ensures Early(cfg, Init())
  {
    InitInv(cfg);
    NoneWaits();
    hide Inv, Tally;
  }

  lemma Spoilt(cfg: Config, w: World)
    requires Spoiling(cfg, w) && w.client.pc == ClientDone && w.server.pc == ServerDone
    ensures w.client.streams != [] && w.server.streams != []
    ensures var c, s := w.client.streams[0], w.server.streams[0];
            0 <= OwnCount(c) <= TWO_53 && 0 <= OwnCount(s) <= TWO_53 && !SameCounts(c, s)
  {
    AtTheEnd(cfg, w);
    AllPaired(cfg, w);
    hide Inv, ServerStage, ClientStage, Tally;
  }

  // With counts within 2^53, that can happen exactly in sessions with an omit period, given that
  // they have a stream and can take place at all.
  lemma OmitCanSpoil(cfg: Config)
    ensures (exists es, i: nat :: Disagrees(cfg, es, i)) <==> cfg.omit != 0 && cfg.count >= 1 && Fits(cfg)
  {
    hide Fits, Intact;
    if cfg.omit != 0 && cfg.count >= 1 && Fits(cfg) {
      SpoiltRun(cfg);
    }
    forall es, i: nat | Disagrees(cfg, es, i) ensures cfg.omit != 0 && cfg.count >= 1 && Fits(cfg) {
      var w := Run(cfg, es).value;
      RunInv(cfg, es);
      Agreement(cfg, w);
      AtTheEnd(cfg, w);
      FitsAtTheEnd(cfg, w);
      hide Inv, Run;
    }
  }

  lemma FitsAtTheEnd(cfg: Config, w: World)
    requires Inv(cfg, w) && ServerStage(w.server) == 7
    ensures Fits(cfg)
  {
    hide Fits, ServerStage, ClientStage, ServerOk, StreamsOk, ListenerOk, OmitOk, CountsOk;
  }
}
