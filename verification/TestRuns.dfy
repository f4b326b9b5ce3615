// Whole tests: the workers of the streams, the callbacks for intervals and the end of the omit
// period, in any order, any number of times.
module TestRuns {
  import opened Pacing
  import opened StreamStats
  import opened TestStats
  import UdpLoss
  import RateWindow

  // A turn of a sending worker or of a receiving one (with what the read gave, and whether the test
  // is in its running state), the two callbacks, time passing, the end.
  datatype Event =
    | Send(i: nat)
    | Receive(i: nat, r: int, number: nat, running: bool)
    | CloseIntervals(omitting: bool)
    | EndOmit
    | Wait
    | Finish

  // What holds of one stream at any time.
  ghost predicate StreamSound(t: Test, sp: Stream, now: real)
    reads t`done, sp
  {
    sp.Valid() && Steady(t, sp, now)
  }

  // The part of it that intervals and the end of the omit period have nothing to do with.
  ghost predicate Steady(t: Test, sp: Stream, now: real)
    reads t`done, sp`bytesSent, sp`greenLight, sp`startTimeFixed, sp`exited, sp`pendingSize, sp`packetCount, sp`wire
    reads sp`outOfOrder, sp`cntError, sp`received, sp`repeats, sp`arrivals, sp`slept
  {
    && t.Paced(sp, now) && sp.startTimeFixed <= now
    && (sp.sender ==> sp.WireValid() && sp.pendingSize <= sp.blksize)
    && (!sp.sender ==> sp.bytesSent == 0 && (sp.udp ==> UdpLoss.Good(sp.Received()) && sp.Told()))
  }

  ghost predicate Sound(t: Test, now: real)
    reads t`done, t`bytesSent, t.streams, t.limit, t.limit.trafficBytes
  {
    && t.Distinct() && t.Totalled() && t.limit.Valid()
    && forall i :: 0 <= i < |t.streams| ==> StreamSound(t, t.streams[i], now)
  }

  lemma LaterSound(t: Test, sp: Stream, now: real, later: real)
    requires StreamSound(t, sp, now) && now <= later
    ensures StreamSound(t, sp, later)
  {
    hide Stream.Valid, Stream.WireValid, UdpLoss.Good, Test.Paced, Stream.Told;
    t.PacedLater(sp, now, later);
  }

  lemma AllLater(t: Test, now: real, later: real, k: nat)
    requires k <= |t.streams| && now <= later && forall i :: 0 <= i < k ==> StreamSound(t, t.streams[i], now)
    ensures forall i :: 0 <= i < k ==> StreamSound(t, t.streams[i], later)
  {
    hide StreamSound;
    forall i | 0 <= i < k ensures StreamSound(t, t.streams[i], later) {
      LaterSound(t, t.streams[i], now, later);
    }
  }

  // A stream of a new test.
  ghost predicate New(sp: Stream)
    reads sp
  {
    && sp.Valid() && sp.WireValid() && sp.bytesSent == sp.bytesSentOmit == 0 && sp.pendingSize <= sp.blksize
    && sp.Received() == UdpLoss.NOTHING && sp.arrivals == []
  }

  method BeginOne(t: Test, sp: Stream, clock: Clock)
    requires New(sp)
    modifies sp`startTimeFixed, sp`greenLight, sp`slept, clock
    ensures New(sp) && StreamSound(t, sp, clock.now) && clock.now >= old(clock.now)
  {
    hide Stream.Valid, Stream.WireValid, Test.Paced;
    t.Start(sp, clock);
    UdpLoss.NothingTells();
  }

  // iperf_init_test for all streams of a new test.
  method Begin(t: Test, clock: Clock)
    requires t.Distinct() && t.limit.Valid() && t.bytesSent == 0
    requires forall i :: 0 <= i < |t.streams| ==> New(t.streams[i])
    modifies t.streams, clock
    ensures Sound(t, clock.now) && forall i :: 0 <= i < |t.streams| ==> t.streams[i].arrivals == []
  {
    hide StreamSound, New, RateWindow.RateLimit.Valid;
    var i := 0;
    while i < |t.streams|
      invariant i <= |t.streams| && t.limit.Valid() && t.bytesSent == 0
      invariant forall j :: 0 <= j < |t.streams| ==> New(t.streams[j])
      invariant forall j :: 0 <= j < i ==> StreamSound(t, t.streams[j], clock.now)
    {
      ghost var now := clock.now;
      BeginOne(t, t.streams[i], clock);
      AllLater(t, now, clock.now, i);
      i := i + 1;
    }
    NothingSent(t);
    NothingCame(t);
  }

  lemma NothingCame(t: Test)
    requires forall i :: 0 <= i < |t.streams| ==> New(t.streams[i])
    ensures forall i :: 0 <= i < |t.streams| ==> t.streams[i].arrivals == []
  {
  }

  lemma NothingSent(t: Test)
    requires t.bytesSent == 0 && forall i :: 0 <= i < |t.streams| ==> New(t.streams[i])
    ensures t.Totalled()
  {
    hide Stream.Valid, Stream.WireValid, UdpLoss.Good;
    t.NothingMoved();
  }

  // ---------- one event ----------

  // The number that an event brings to stream i, if it counts.
  function Coming(e: Event, i: nat): seq<nat> {
    if e.Receive? && e.i == i && e.r > 0 && e.running && e.number >= 1 then [e.number] else []
  }

  function AllComing(events: seq<Event>, i: nat): seq<nat> {
    if events == [] then [] else AllComing(events[..|events| - 1], i) + Coming(events[|events| - 1], i)
  }

  ghost predicate Receiver(sp: Stream) {
    sp.udp && !sp.sender
  }

  twostate predicate NothingNew(t: Test)
    reads t.streams
  {
    forall i :: 0 <= i < |t.streams| && Receiver(t.streams[i]) ==> t.streams[i].arrivals == old(t.streams[i].arrivals)
  }

  method SendOnce(t: Test, clock: Clock, i: nat)
    requires Sound(t, clock.now) && i < |t.streams| && t.streams[i].sender && t.streams[i].startTimeFixed < clock.now
    modifies t`bytesSent, t`blocksSent, clock, t.streams
    ensures Sound(t, clock.now) && NothingNew(t)
  {
    hide Stream.Valid, Stream.WireValid, RateWindow.RateLimit.Valid, Test.Paced, Test.Totalled, UdpLoss.Good;
    hide Stream.Told;
    ghost var now := clock.now;
    assert StreamSound(t, t.streams[i], now);
    t.Work(i, clock);
    AllButOne(t, now, clock.now, i);
  }

  lemma AllButOne(t: Test, now: real, later: real, k: nat)
    requires k < |t.streams| && now <= later && StreamSound(t, t.streams[k], later)
    requires forall i :: 0 <= i < |t.streams| && i != k ==> StreamSound(t, t.streams[i], now)
    ensures forall i :: 0 <= i < |t.streams| ==> StreamSound(t, t.streams[i], later)
  {
    hide StreamSound;
    forall i | 0 <= i < |t.streams| && i != k ensures StreamSound(t, t.streams[i], later) {
      LaterSound(t, t.streams[i], now, later);
    }
  }

  method ReceiveOnce(t: Test, clock: Clock, i: nat, r: int, number: nat, running: bool)
    requires Sound(t, clock.now) && i < |t.streams| && !t.streams[i].sender && number >= 1
    modifies t.streams
    ensures Sound(t, clock.now)
    ensures forall j :: 0 <= j < |t.streams| && Receiver(t.streams[j]) ==>
              t.streams[j].arrivals == old(t.streams[j].arrivals) + Coming(Receive(i, r, number, running), j)
  {
    hide StreamSound, RateWindow.RateLimit.Valid;
    var sp := t.streams[i];
    ghost var moved := t.Moved(|t.streams|);
    ReceiveOn(t, sp, clock.now, r, number, running);
    SameTotal(t, moved, |t.streams|);
  }

  method ReceiveOn(t: Test, sp: Stream, ghost now: real, r: int, number: nat, running: bool)
    requires StreamSound(t, sp, now) && !sp.sender && number >= 1
    modifies sp`bytesReceived, sp`bytesReceivedThisInterval, sp`packetCount, sp`outOfOrder, sp`cntError, sp`received, sp`repeats
    modifies sp`arrivals
    ensures StreamSound(t, sp, now)
    ensures Receiver(sp) ==> sp.arrivals == old(sp.arrivals) + if r > 0 && running then [number] else []
  {
    hide Stream.Valid, Stream.WireValid, UdpLoss.Good, Test.Ahead, Stream.Told;
    if sp.udp {
      var result := sp.UdpRecv(r, number, running);
    } else {
      var result := sp.TcpRecv(r, running);
    }
  }

  lemma SameTotal(t: Test, moved: seq<int>, k: nat)
    requires k <= |t.streams| && |moved| == k
    requires forall i :: 0 <= i < k ==> moved[i] == t.streams[i].bytesSent - t.streams[i].bytesSentOmit
    ensures t.Moved(k) == moved
  {
  }

  method Close(t: Test, clock: Clock, omitting: bool)
    requires Sound(t, clock.now)
    modifies t.streams`bytesSentThisInterval, t.streams`bytesReceivedThisInterval, t.streams`intervalResults, t.streams`history
    modifies t.limit, t.limit.trafficBytes
    ensures Sound(t, clock.now)
  {
    hide Stream.Valid, Stream.WireValid, RateWindow.RateLimit.Valid, UdpLoss.Good, Test.Ahead, Stream.Told;
    hide Steady, Test.Closed;
    ghost var moved := t.Moved(|t.streams|);
    t.StatsCallback(omitting);
    SameTotal(t, moved, |t.streams|);
  }

  lemma AllPaced(t: Test, now: real)
    requires forall i :: 0 <= i < |t.streams| ==> StreamSound(t, t.streams[i], now)
    ensures forall i :: 0 <= i < |t.streams| ==> t.streams[i].Valid() && t.Paced(t.streams[i], now)
  {
    hide Stream.Valid, Stream.WireValid, UdpLoss.Good, Test.Paced, Stream.Told;
  }

  method Reset(t: Test, clock: Clock)
    requires Sound(t, clock.now)
    modifies t`bytesSent, t`blocksSent, t.streams
    ensures Sound(t, clock.now) && NothingNew(t)
  {
    hide Stream.Valid, Steady, Test.Paced, Test.Totalled, Test.Distinct, RateWindow.RateLimit.Valid;
    AllPaced(t, clock.now);
    t.ResetStats(clock);
  }

  method Step(t: Test, clock: Clock, e: Event)
    requires Sound(t, clock.now)
    modifies t`bytesSent, t`blocksSent, t`done, clock, t.streams, t.limit, t.limit.trafficBytes
    ensures Sound(t, clock.now)
    ensures forall j :: 0 <= j < |t.streams| && Receiver(t.streams[j]) ==>
              t.streams[j].arrivals == old(t.streams[j].arrivals) + Coming(e, j)
  {
    hide StreamSound, Test.Totalled, RateWindow.RateLimit.Valid;
    match e
    case Send(i) =>
      if i < |t.streams| && t.streams[i].sender && t.streams[i].startTimeFixed < clock.now {
        SendOnce(t, clock, i);
      }
    case Receive(i, r, number, running) =>
      if i < |t.streams| && !t.streams[i].sender && number >= 1 {
        ReceiveOnce(t, clock, i, r, number, running);
      }
    case CloseIntervals(omitting) => Close(t, clock, omitting);
    case EndOmit => Reset(t, clock);
    case Wait =>
      ghost var before := clock.now;
      var now := clock.TimeNow();
      AllLater(t, before, now, |t.streams|);
    case Finish => End(t, clock);
  }

  method End(t: Test, clock: Clock)
    requires Sound(t, clock.now)
    modifies t`done
    ensures Sound(t, clock.now)
  {
    hide Stream.Valid, Stream.WireValid, UdpLoss.Good, Stream.Told, Test.Ahead, Test.Totalled;
    hide RateWindow.RateLimit.Valid;
    assert forall i :: 0 <= i < |t.streams| ==> StreamSound(t, t.streams[i], clock.now);
    t.done := true;
  }

  // ---------- whole tests ----------

  // What a test has kept for a stream: the target rate, up to rounding and one go of messages, and
  // with no more sleep than its bits take at that rate; its bytes, which are those of the intervals
  // since the omit period and of the open one; the numbers of its datagrams; and the counters it
  // reports, which are those that the datagrams that came in call for.
  ghost predicate Kept(t: Test, sp: Stream, now: real)
    reads sp
  {
    && (t.rate > 0 ==> (8 * sp.bytesSent) as real
                       <= t.rate as real * (now - sp.startTimeFixed) + Rounding(t.rate) + (8 * sp.blksize * t.Messages()) as real)
    && (t.rate > 0 ==> t.rate as real * sp.slept <= (8 * sp.bytesSent) as real)
    && sp.resetAt <= |sp.history| && ByteSum(sp.history, sp.resetAt) + sp.Open() == sp.Moved()
    && (sp.sender ==> |sp.wire| == sp.packetCount && forall n :: 0 <= n < |sp.wire| ==> sp.wire[n] == n + 1)
    && (sp.sender && sp.udp ==> sp.bytesSent <= sp.blksize * |sp.wire|)
    && (Receiver(sp) ==> sp.cntError <= |UdpLoss.Missing(sp.Received())| && UdpLoss.Tells(sp.Received(), sp.arrivals))
  }

  // The flag of the server's check is up exactly when some window has been over the limit.
  ghost predicate FlagTells(limit: RateWindow.RateLimit)
    reads limit
  {
    && limit.statsPerInterval >= 1 && limit.statsInterval > 0.0
    && limit.exceeded == RateWindow.Exceeded(limit.values, limit.statsPerInterval, limit.statsInterval, limit.bitrateLimit)
  }

  // Whatever happens to a test, in whatever order and however often, all this is kept, and the
  // test's own count of bytes sent is the sum over its streams.
  method RunTest(t: Test, clock: Clock, events: seq<Event>)
    requires t.Distinct() && t.limit.Valid() && t.bytesSent == 0
    requires forall i :: 0 <= i < |t.streams| ==> New(t.streams[i])
    modifies t`bytesSent, t`blocksSent, t`done, clock, t.streams, t.limit, t.limit.trafficBytes
    ensures forall i :: 0 <= i < |t.streams| ==> Kept(t, t.streams[i], clock.now)
    ensures forall i :: 0 <= i < |t.streams| && Receiver(t.streams[i]) ==> t.streams[i].arrivals == AllComing(events, i)
    ensures t.bytesSent == SumOf(t.Moved(|t.streams|)) && FlagTells(t.limit)
  {
    hide StreamSound, New;
    Begin(t, clock);
    for k := 0 to |events|
      invariant Sound(t, clock.now)
      invariant forall i :: 0 <= i < |t.streams| && Receiver(t.streams[i]) ==> t.streams[i].arrivals == AllComing(events[..k], i)
    {
      assert events[..k + 1][..k] == events[..k];
      Step(t, clock, events[k]);
    }
    assert events[..|events|] == events;
    forall i | 0 <= i < |t.streams| ensures Kept(t, t.streams[i], clock.now) {
      SoundMeans(t, t.streams[i], clock.now);
    }
    LimitMeans(t.limit);
    hide Sound, Kept, FlagTells;
  }

  lemma SoundMeans(t: Test, sp: Stream, now: real)
    requires StreamSound(t, sp, now)
    ensures Kept(t, sp, now)
  {
  }

  lemma LimitMeans(limit: RateWindow.RateLimit)
    requires limit.Valid()
    ensures FlagTells(limit)
  {
  }
}
