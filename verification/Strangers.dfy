// Strangers make no difference: leave them out of a run and everything but the queue of the
// listening socket and the counts of strangers is as before.
module Strangers {
  import opened Bytes
  import opened Streams
  import opened ControlBodies
  import opened Session
  import opened SessionSafety
  import opened SessionRuns

  // The connections of the session itself.
  function Known(l: seq<Connection>): seq<Connection> {
    if l == [] then [] else (if l[0] == Stranger then [] else [l[0]]) + Known(l[1..])
  }

  lemma {:induction false} KnownAppend(l: seq<Connection>, c: Connection)
    ensures Known(l + [c]) == Known(l) + if c == Stranger then [] else [c]
  {
    if l == [] {
      assert [c][1..] == [];
    } else {
      assert (l + [c])[1..] == l[1..] + [c];
      KnownAppend(l[1..], c);
    }
  }

  lemma KnownHead(l: seq<Connection>)
    requires l != []
    ensures l[0] == Stranger ==> Known(l) == Known(l[1..])
    ensures l[0] != Stranger ==> Known(l) != [] && Known(l)[0] == l[0] && Known(l)[1..] == Known(l[1..])
  {
  }

  lemma {:induction false} NoneKnown(l: seq<Connection>)
    ensures Tally(Known(l), Stranger) == 0
  {
    if l != [] {
      NoneKnown(l[1..]);
    }
  }

  // The world as it is without strangers.
  function Erased(w: World): World {
    w.(listener := Known(w.listener), strangers := 0, denied := 0, dropped := 0)
  }

  // A stranger's arrival, and the turn of the server in which it is accepted.
  predicate Strange(w: World, e: Event) {
    e == StrangerConnects || (e == ServerAccepts && w.listener != [] && w.listener[0] == Stranger)
  }

  lemma ErasedStep(cfg: Config, w: World, e: Event)
    requires Inv(cfg, w) && Next(cfg, w, e).Some? && !Breaks(cfg, w, e)
    ensures var w' := Next(cfg, w, e).value;
            if Strange(w, e) then Erased(w') == Erased(w) else Next(cfg, Erased(w), e) == Some(Erased(w'))
  {
    hide Inv, Known, Tally, Breaks, Request, Relistens, Merging, Receive, ReadParameters, ReportAll, ResultsBody;
    hide AddStream;
    match e
    case ClientConnects => KnownAppend(w.listener, Control);
    case ClientCreatesStream => KnownAppend(w.listener, DataStream);
    case StrangerConnects => KnownAppend(w.listener, Stranger);
    case ServerAccepts => ErasedAccept(cfg, w);
    case ServerReads => ErasedRead(cfg, w);
    case ServerStarts => ErasedRelisten(w, w.server.params);
    case _ =>
  }

  lemma ErasedRelisten(w: World, p: Parameters)
    ensures Erased(Relisten(w, p)) == Relisten(Erased(w), p)
  {
    hide Relistens, Tally;
    NoneKnown(w.listener);
  }

  lemma ErasedRead(cfg: Config, w: World)
    requires Next(cfg, w, ServerReads).Some?
    ensures Next(cfg, Erased(w), ServerReads) == Some(Erased(Next(cfg, w, ServerReads).value))
  {
    hide Known, Tally, Relisten, Merging, Receive, ReadParameters, ReportAll, ResultsBody;
    var w' := w.(toServer := w.toServer[1..]);
    if w.server.pc.AwaitParameters? && w.toServer[0].Body? {
      var p := ReadParameters(w.toServer[0].v, w.server.params);
      ErasedRelisten(w', p);
    }
    assert Erased(w).(toServer := w.toServer[1..]) == Erased(w');
  }

  lemma ErasedAccept(cfg: Config, w: World)
    requires Inv(cfg, w) && Next(cfg, w, ServerAccepts).Some? && !Breaks(cfg, w, ServerAccepts)
    ensures var w' := Next(cfg, w, ServerAccepts).value;
            if Strange(w, ServerAccepts) then Erased(w') == Erased(w) else Next(cfg, Erased(w), ServerAccepts) == Some(Erased(w'))
  {
    FirstIsClient(cfg, w);
    KnownHead(w.listener);
    var c, w' := w.listener[0], w.(listener := w.listener[1..]);
    ErasedAccepted(w', c);
    hide Inv, Known, Tally, AddStream, AllAccepted, Accept, AcceptStream;
    assert c != Stranger ==> Erased(w).(listener := Erased(w).listener[1..]) == Erased(w');
  }

  lemma ErasedAccepted(w: World, c: Connection)
    ensures !w.server.connected ==> Erased(Accept(w, c)) == Accept(Erased(w), c)
    ensures c != Stranger ==> Erased(AcceptStream(w, c)) == AcceptStream(Erased(w), c)
    ensures c == Stranger && w.server.connected ==> Erased(Accept(w, c)) == Erased(w)
    ensures c == Stranger && w.server.params.tos == 0 ==> Erased(AcceptStream(w, c)) == Erased(w)
  {
    hide Known, AddStream;
  }

  // The first connection the server takes is the client's, and but for the streams no other is.
  lemma FirstIsClient(cfg: Config, w: World)
    requires Inv(cfg, w) && w.listener != [] && w.server.pc.ServerLoop?
    ensures !w.server.connected ==> w.listener[0] == Control && w.server.state != CREATE_STREAMS
    ensures w.server.connected && w.server.state != CREATE_STREAMS ==> w.listener[0] == Stranger
  {
    hide Fits, ClientScript, ServerScript, StreamsOk, OmitOk, CountsOk;
    NoStreamWaits(cfg, w);
    TallyTail(w.listener);
    hide Tally;
  }

  // A run without the events of strangers.
  function Without(cfg: Config, es: seq<Event>): seq<Event>
    requires Run(cfg, es).Some?
  {
    if es == [] then []
    else
      var before, e := es[..|es| - 1], es[|es| - 1];
      if Strange(Run(cfg, before).value, e) then Without(cfg, before) else Without(cfg, before) + [e]
  }

  lemma {:induction false} StrangersMakeNoDifference(cfg: Config, es: seq<Event>)
    requires Run(cfg, es).Some? && Run(cfg, es).value.server.pc != ServerFailed
    ensures Run(cfg, Without(cfg, es)) == Some(Erased(Run(cfg, es).value))
    ensures StrangerConnects !in Without(cfg, es)
  {
    hide Next, Inv, Breaks, Intact;
    if es != [] {
      var before, e := es[..|es| - 1], es[|es| - 1];
      var w := Run(cfg, before).value;
      if w.server.pc == ServerFailed {
        StaysFailed(cfg, w, e);
      }
      StrangersMakeNoDifference(cfg, before);
      RunInv(cfg, before);
      NextInv(cfg, w, e);
      ErasedStep(cfg, w, e);
      if !Strange(w, e) {
        Step(cfg, Without(cfg, before), Erased(w), e, Erased(Run(cfg, es).value));
      }
    }
  }
}
