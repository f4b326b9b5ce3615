// What the results of a session say, from the events of the session alone: the bytes that each end
// has counted since its omit period.
module SessionCounts {
  import opened Doubles
  import opened Streams
  import opened ControlBodies
  import opened Session
  import S = SessionSafety

  datatype Side = ClientSide | ServerSide

  // The bytes that an event moves on stream i, at that side.
  function MovedBy(e: Event, side: Side, i: nat): nat {
    match e
    case ClientCounts(k, n) => if side.ClientSide? && k == i then n else 0
    case ServerCounts(k, n) => if side.ServerSide? && k == i then n else 0
    case _ => 0
  }

  predicate EndsOmit(e: Event, side: Side) {
    if side.ClientSide? then e.ClientEndsOmit? else e.ServerEndsOmit?
  }

  // The bytes counted on stream i since the omit period of that side, or since the start.
  function SinceOmit(es: seq<Event>, side: Side, i: nat): nat {
    if es == [] then 0
    else
      var e := es[|es| - 1];
      if EndsOmit(e, side) then 0 else SinceOmit(es[..|es| - 1], side, i) + MovedBy(e, side, i)
  }

  function StreamsAt(w: World, side: Side): seq<Stream> {
    if side.ClientSide? then w.client.streams else w.server.streams
  }

  // What a side has counted itself is what the events say; a stream that is not there yet has
  // counted nothing.
  ghost predicate Counted(w: World, es: seq<Event>, side: Side) {
    && (forall i :: 0 <= i < |StreamsAt(w, side)| ==> OwnCount(StreamsAt(w, side)[i]) == SinceOmit(es, side, i))
    && (forall i: nat :: i >= |StreamsAt(w, side)| ==> SinceOmit(es, side, i) == 0)
  }

  // ---------- one event ----------

  lemma {:induction false} MergeKeepsOwn(streams: seq<Stream>, reports: seq<Report>)
    requires MergeAll(streams, reports).Some?
    ensures var r := MergeAll(streams, reports).value;
            |r| == |streams| && forall i :: 0 <= i < |r| ==> OwnCount(r[i]) == OwnCount(streams[i])
    decreases |reports|
  {
    if reports != [] {
      MergeKeepsOwn(Merge(streams, reports[0]).value, reports[1..]);
    }
  }

  // How an event changes the streams of a side.
  ghost predicate Changed(before: seq<Stream>, after: seq<Stream>, e: Event, side: Side) {
    && |before| <= |after|
    && (forall i :: 0 <= i < |before| ==>
          OwnCount(after[i]) == if EndsOmit(e, side) then 0 else OwnCount(before[i]) + MovedBy(e, side, i))
    && (forall i :: |before| <= i < |after| ==> OwnCount(after[i]) == 0)
    && (forall i: nat :: i >= |before| ==> MovedBy(e, side, i) == 0)
  }

  // The streams stay, or there is one more, or bytes have moved, or the omit period has ended, or
  // the reports of the other side have been merged.
  ghost predicate ChangesBy(before: seq<Stream>, after: seq<Stream>, e: Event, side: Side) {
    || (after == before && !EndsOmit(e, side) && forall i: nat :: MovedBy(e, side, i) == 0)
    || (exists sender :: IsAdded(before, after, sender) && !EndsOmit(e, side) && forall i: nat :: MovedBy(e, side, i) == 0)
    || (exists k: nat, n: nat :: IsCount(before, after, k, n) && !EndsOmit(e, side)
                                 && forall i: nat :: MovedBy(e, side, i) == if i == k then n else 0)
    || (after == EndOmit(before) && EndsOmit(e, side) && forall i: nat :: MovedBy(e, side, i) == 0)
    || (SameOwn(before, after) && !EndsOmit(e, side) && forall i: nat :: MovedBy(e, side, i) == 0)
  }

  ghost predicate IsAdded(before: seq<Stream>, after: seq<Stream>, sender: bool) {
    after == AddStream(before, sender)
  }

  ghost predicate IsCount(before: seq<Stream>, after: seq<Stream>, k: nat, n: nat) {
    k < |before| && after == Count(before, k, n)
  }

  ghost predicate SameOwn(before: seq<Stream>, after: seq<Stream>) {
    |after| == |before| && forall i :: 0 <= i < |after| ==> OwnCount(after[i]) == OwnCount(before[i])
  }

  lemma ChangesMean(before: seq<Stream>, after: seq<Stream>, e: Event, side: Side)
    requires ChangesBy(before, after, e, side)
    ensures Changed(before, after, e, side)
  {
    hide EndsOmit, MovedBy;
  }

  lemma ClientChanged(cfg: Config, w: World, e: Event)
    requires Next(cfg, w, e).Some?
    ensures Changed(w.client.streams, Next(cfg, w, e).value.client.streams, e, ClientSide)
  {
    hide Request, ResultsBody, ReportAll, ReadResults, Receive, MergeAll, Plan, Relistens, Tally, AddStream, Count;
    hide EndOmit;
    hide SameOwn, Merging;
    var before, after := w.client.streams, Next(cfg, w, e).value.client.streams;
    if e.ClientReads? && w.client.pc.AwaitingResults? {
      ResultsKeepOwn(before, w.toClient[0]);
    } else if e.ClientCounts? {
      assert IsCount(before, after, e.stream, e.bytes);
    } else if e.ClientCreatesStream? && after != before {
      assert IsAdded(before, after, Plan(cfg.mode, cfg.count)[|before|]);
    }
    ChangesMean(before, after, e, ClientSide);
  }

  lemma ServerChanged(cfg: Config, w: World, e: Event)
    requires Next(cfg, w, e).Some?
    ensures Changed(w.server.streams, Next(cfg, w, e).value.server.streams, e, ServerSide)
  {
    hide Request, ResultsBody, ReportAll, ReadResults, Receive, MergeAll, Plan, Relistens, Tally, AddStream, Count;
    hide EndOmit;
    hide SameOwn, Merging;
    var before, after := w.server.streams, Next(cfg, w, e).value.server.streams;
    if e.ServerReads? && w.server.pc.AwaitResults? {
      ResultsKeepOwn(before, w.toServer[0]);
    } else if e.ServerCounts? {
      assert IsCount(before, after, e.stream, e.bytes);
    } else if e.ServerAccepts? && after != before {
      assert IsAdded(before, after, false) || IsAdded(before, after, true);
    }
    ChangesMean(before, after, e, ServerSide);
  }

  lemma ResultsKeepOwn(streams: seq<Stream>, m: Message)
    ensures match Merging(streams, m)
            case None => SameOwn(streams, streams)
            case Some(r) => SameOwn(streams, r)
  {
    hide MergeAll, ReadResults, Receive;
    if Merging(streams, m).Some? {
      MergeKeepsOwn(streams, ReadResults(Receive(m.v, 0).value).value);
    }
  }

  lemma SinceNext(es: seq<Event>, e: Event, side: Side, i: nat)
    ensures SinceOmit(es + [e], side, i) == if EndsOmit(e, side) then 0 else SinceOmit(es, side, i) + MovedBy(e, side, i)
  {
    assert (es + [e])[..|es|] == es;
  }

  lemma CountedNext(w: World, w': World, es: seq<Event>, e: Event, side: Side)
    requires Counted(w, es, side) && Changed(StreamsAt(w, side), StreamsAt(w', side), e, side)
    ensures Counted(w', es + [e], side)
  {
    hide OwnCount, SinceOmit, MovedBy, EndsOmit;
    forall i: nat
      ensures SinceOmit(es + [e], side, i) == if EndsOmit(e, side) then 0 else SinceOmit(es, side, i) + MovedBy(e, side, i) {
      SinceNext(es, e, side, i);
    }
  }

  // ---------- whole runs ----------

  // Over any run, whatever its order.
  lemma {:induction false} CountsFromEvents(cfg: Config, es: seq<Event>)
    requires Run(cfg, es).Some?
    ensures Counted(Run(cfg, es).value, es, ClientSide) && Counted(Run(cfg, es).value, es, ServerSide)
  {
    hide Next, Counted, Changed;
    if es == [] {
      NothingCounted();
    } else {
      var rest, e := es[..|es| - 1], es[|es| - 1];
      var w := Run(cfg, rest).value;
      CountsFromEvents(cfg, rest);
      ClientChanged(cfg, w, e);
      ServerChanged(cfg, w, e);
      assert es == rest + [e];
      CountedNext(w, Run(cfg, es).value, rest, e, ClientSide);
      CountedNext(w, Run(cfg, es).value, rest, e, ServerSide);
    }
  }

  lemma NothingCounted()
    ensures Counted(Init(), [], ClientSide) && Counted(Init(), [], ServerSide)
  {
  }

  // When both sides are done, and the server's omit period ended before it reported, both hold of
  // every stream the bytes that the sending end counted as sent and those that the receiving end
  // counted as received, each since its omit period; if they are no more than 2^53.
  lemma FinalCounts(cfg: Config, es: seq<Event>, i: nat)
    requires Run(cfg, es).Some?
    requires var w := Run(cfg, es).value;
             && S.Inv(cfg, w) && w.client.pc == ClientDone && w.server.pc == ServerDone && !w.server.late
             && i < |w.client.streams|
    requires SinceOmit(es, ClientSide, i) <= TWO_53 && SinceOmit(es, ServerSide, i) <= TWO_53
    ensures var w := Run(cfg, es).value;
            && i < |w.server.streams|
            && var c, s := w.client.streams[i], w.server.streams[i];
               var (sending, receiving) := if c.sender then (ClientSide, ServerSide) else (ServerSide, ClientSide);
               && Sent(c) == Sent(s) == SinceOmit(es, sending, i)
               && c.received == s.received == SinceOmit(es, receiving, i)
  {
    hide S.Inv, Run, Exact, SinceOmit;
    var w := Run(cfg, es).value;
    CountsFromEvents(cfg, es);
    S.Agreement(cfg, w);
    S.Meaning(cfg, w);
  }

  // ---------- the omit period ----------

  // The client does not end the test before its omit period has ended.
  lemma {:induction false} OmitBeforeEnd(cfg: Config, es: seq<Event>)
    requires Run(cfg, es).Some? && S.Inv(cfg, Run(cfg, es).value) && cfg.omit != 0
    ensures var c := Run(cfg, es).value.client;
            && (c.endsSent > 0 ==> ClientEndsOmit in es)
            && (5 <= S.ClientStage(c) <= 6 ==> c.omitting || ClientEndsOmit in es)
  {
    hide S.Inv, Next, S.ClientStage;
    if es == [] {
      StartsBefore();
    } else {
      var rest, e := es[..|es| - 1], es[|es| - 1];
      var w := Run(cfg, rest).value;
      assert es == rest + [e];
      assert forall x :: x in es <==> x in rest || x == e;
      S.RunInv(cfg, rest);
      if w.server.pc == ServerFailed {
        S.StaysFailed(cfg, w, e);
        S.Meaning(cfg, Run(cfg, es).value);
      }
      OmitBeforeEnd(cfg, rest);
      if e != ClientEndsOmit {
        OmitStep(cfg, w, e);
      }
    }
  }

  lemma StartsBefore()
    ensures Init().client.endsSent == 0 && S.ClientStage(Init().client) == 0
  {
  }

  lemma OmitStep(cfg: Config, w: World, e: Event)
    requires S.Inv(cfg, w) && Next(cfg, w, e).Some? && cfg.omit != 0 && e != ClientEndsOmit
    requires S.Inv(cfg, Next(cfg, w, e).value)
    ensures var c, c' := w.client, Next(cfg, w, e).value.client;
            && (c'.endsSent > c.endsSent ==> S.ClientStage(c) == 6 && !c.omitting)
            && (5 <= S.ClientStage(c') <= 6 ==> c'.omitting || (!c.omitting && 5 <= S.ClientStage(c) <= 6))
  {
    hide Request, ResultsBody, ReportAll, ReadResults, Receive, MergeAll, Plan, Relistens, Tally, StreamId, S.Inv;
    StageKnown(cfg, w);
    if e.ClientReads? && w.client.pc.ClientLoop? {
      S.ClientDue(cfg, w);
    }
  }

  lemma StageKnown(cfg: Config, w: World)
    requires S.Inv(cfg, w)
    ensures S.ClientStage(w.client) >= 0
  {
    hide S.ChannelsOk;
    S.Before(cfg, w);
  }
}
