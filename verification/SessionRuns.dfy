// Runs of the control protocol that end badly, and exactly when there are such runs.
module SessionRuns {
  import opened Bytes
  import opened Json
  import opened Streams
  import opened ControlBodies
  import opened Session
  import opened SessionSafety

  // ---------- one event after the other ----------

  lemma Step(cfg: Config, es: seq<Event>, w: World, e: Event, w': World)
    requires Run(cfg, es) == Some(w) && Next(cfg, w, e) == Some(w')
    ensures Run(cfg, es + [e]) == Some(w')
  {
    assert (es + [e])[..|es|] == es;
  }

  const NEW_SERVER: Server :=
    Server(ServerLoop, IPERF_START, false, Flags(true, false, false, Receiver), DEFAULTS, 0, 0, [], false, [], false)

  const FIRST: seq<Event> := [ClientConnects, ServerAccepts, ServerReads, ClientReads]

  // Where every session comes to: the parameters are on their way.
  function Asked(cfg: Config): World {
    World(Client(ClientLoop, PARAM_EXCHANGE, [], false, 0),
          NEW_SERVER.(pc := AwaitParameters, state := PARAM_EXCHANGE, connected := true),
          [Body(Request(cfg))], [], [], 0, 0, 0)
  }

  lemma AskedRun(cfg: Config)
    ensures Run(cfg, FIRST) == Some(Asked(cfg))
  {
    hide Run, Request;
    EmptyRun(cfg);
    Singles();
    var c := Client(ClientLoop, 0, [], false, 0);
    var w1 := World(c, NEW_SERVER, [Cookie], [], [Control], 0, 0, 0);
    var w2 := World(c, NEW_SERVER.(pc := AwaitCookie, connected := true), [Cookie], [], [], 0, 0, 0);
    var w3 := World(c, NEW_SERVER.(pc := AwaitParameters, state := PARAM_EXCHANGE, connected := true),
                    [], [Code(PARAM_EXCHANGE)], [], 0, 0, 0);
    Step(cfg, [], Init(), ClientConnects, w1);
    Step(cfg, [] + [ClientConnects], w1, ServerAccepts, w2);
    Step(cfg, [] + [ClientConnects] + [ServerAccepts], w2, ServerReads, w3);
    Step(cfg, [] + [ClientConnects] + [ServerAccepts] + [ServerReads], w3, ClientReads, Asked(cfg));
    assert FIRST == [] + [ClientConnects] + [ServerAccepts] + [ServerReads] + [ClientReads];
  }

  // Queues of one.
  lemma Singles()
    ensures forall m: Message :: [m][1..] == [] && [] + [m] == [m]
    ensures forall c: Connection :: [c][1..] == [] && [] + [c] == [c]
  {
  }

  lemma EmptyRun(cfg: Config)
    ensures Run(cfg, []) == Some(Init())
  {
  }

  // ---------- when a session can break ----------

  // Parameters that are too long end every session.
  lemma TooLongRun(cfg: Config)
    requires !Fits(cfg)
    ensures var r := Run(cfg, FIRST + [ServerReads]); r.Some? && r.value.server.pc == ServerFailed
  {
    AskedRun(cfg);
    hide Run, Request;
    Singles();
    var w := Asked(cfg);
    Step(cfg, FIRST, w, ServerReads, w.(toServer := [], server := w.server.(pc := ServerFailed)));
  }

  // A type of service does when a stranger is accepted before the last stream is.
  lemma StrangerRun(cfg: Config)
    requires Fits(cfg) && cfg.tos != 0 && cfg.count >= 1
    ensures var r := Run(cfg, FIRST + [ServerReads] + [StrangerConnects] + [ServerAccepts]);
            r.Some? && r.value.server.pc == ServerFailed
  {
    AskedRun(cfg);
    var w5 := Told(cfg);
    hide Run, Asked;
    var w6 := w5.(listener := [Stranger], strangers := 1);
    Step(cfg, FIRST, Asked(cfg), ServerReads, w5);
    StrangerEnds(cfg, w5, w6);
    Step(cfg, FIRST + [ServerReads], w5, StrangerConnects, w6);
    Step(cfg, FIRST + [ServerReads] + [StrangerConnects], w6, ServerAccepts, Next(cfg, w6, ServerAccepts).value);
  }

  lemma StrangerEnds(cfg: Config, w: World, w': World)
    requires w.client.pc == ClientLoop && w.server.pc == ServerLoop
    requires w.server.state == CREATE_STREAMS && w.server.params == Wanted(cfg)
    requires w.server.receiving == w.server.sending == 0 && w.listener == [] && w.strangers == 0
    requires cfg.tos != 0 && cfg.count >= 1 && w.server.flags.mode == Opposite(cfg.mode)
    requires w' == w.(listener := [Stranger], strangers := 1)
    ensures Next(cfg, w, StrangerConnects) == Some(w')
    ensures var r := Next(cfg, w', ServerAccepts); r.Some? && r.value.server.pc == ServerFailed
  {
    Singles();
  }

  // The world once the server has the parameters.
  lemma Told(cfg: Config) returns (w: World)
    requires Fits(cfg)
    ensures Next(cfg, Asked(cfg), ServerReads) == Some(w)
    ensures w.server.pc == ServerLoop && w.server.state == CREATE_STREAMS && w.server.params == Wanted(cfg)
    ensures w.server.flags.mode == Opposite(cfg.mode) && w.server.receiving == w.server.sending == 0 && w.server.streams == []
    ensures w.listener == [] && w.strangers == w.denied == w.dropped == 0 && w.client == Asked(cfg).client
    ensures w.toServer == [] && w.toClient == [Code(CREATE_STREAMS)] && !w.server.omitting && !w.server.late
  {
    hide Request, Fits, Receive, ReadParameters, Relistens, ParametersBody;
    Singles();
    RequestFits(cfg);
    ParametersArrive(Wanted(cfg), cfg.others);
    w := Next(cfg, Asked(cfg), ServerReads).value;
  }

  // So a run that ends with the server gone is there exactly in sessions whose parameters are
  // over the limit, or that have a type of service and streams.
  lemma SessionCanBreak(cfg: Config)
    ensures (exists es :: Run(cfg, es).Some? && Run(cfg, es).value.server.pc == ServerFailed)
            <==> |Text(Request(cfg), false, 0)| > 8192 || (cfg.tos != 0 && cfg.count >= 1)
  {
    hide Run, Request, Text;
    if !Fits(cfg) {
      TooLongRun(cfg);
    } else if cfg.tos != 0 && cfg.count >= 1 {
      StrangerRun(cfg);
    } else {
      forall es | Run(cfg, es).Some? ensures Run(cfg, es).value.server.pc != ServerFailed {
        RunInv(cfg, es);
        Meaning(cfg, Run(cfg, es).value);
      }
    }
  }
}
