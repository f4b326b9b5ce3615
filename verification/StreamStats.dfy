// The counters of one stream: bytes, blocks and packets, the intervals reported from them, and
// the reset at the end of the omitted part of a test.
module StreamStats {
  import opened UdpLoss

  // The UDP counters: packets, out of order, lost.
  datatype Counts = Counts(packets: int, outOfOrder: int, losses: int)

  const ZERO: Counts := Counts(0, 0, 0)

  function Plus(a: Counts, b: Counts): Counts {
    Counts(a.packets + b.packets, a.outOfOrder + b.outOfOrder, a.losses + b.losses)
  }

  function Minus(a: Counts, b: Counts): Counts {
    Counts(a.packets - b.packets, a.outOfOrder - b.outOfOrder, a.losses - b.losses)
  }

  // What is kept of one interval: for UDP its own counts and the counters at its end, which are
  // not used for TCP.
  datatype Interval = Interval(bytes: nat, omitted: bool, counts: Counts, end: Counts)

  // ---------- all the intervals there have been ----------

  ghost function ByteSum(h: seq<Interval>, k: nat): nat
    requires k <= |h|
    decreases |h| - k
  {
    if k == |h| then 0 else h[k].bytes + ByteSum(h, k + 1)
  }

  ghost function Sum(h: seq<Interval>, k: nat): Counts
    requires k <= |h|
    decreases |h| - k
  {
    if k == |h| then ZERO else Plus(h[k].counts, Sum(h, k + 1))
  }

  // The counters at the start of interval k.
  ghost function Start(h: seq<Interval>, k: nat): Counts
    requires k <= |h|
  {
    if k == 0 then ZERO else h[k - 1].end
  }

  ghost predicate Chained(h: seq<Interval>) {
    forall i :: 0 <= i < |h| ==> h[i].counts == Minus(h[i].end, Start(h, i))
  }

  lemma {:induction false} ByteSumAppend(h: seq<Interval>, x: Interval, k: nat)
    requires k <= |h|
    ensures ByteSum(h + [x], k) == ByteSum(h, k) + x.bytes
    decreases |h| - k
  {
    if k < |h| {
      ByteSumAppend(h, x, k + 1);
    }
  }

  lemma ChainedAppend(h: seq<Interval>, x: Interval)
    requires Chained(h) && x.counts == Minus(x.end, Start(h, |h|))
    ensures Chained(h + [x])
  {
    hide Minus;
    var h' := h + [x];
    forall i | 0 <= i < |h'| ensures h'[i].counts == Minus(h'[i].end, Start(h', i)) {
      assert i < |h| ==> h'[i] == h[i] && Start(h', i) == Start(h, i);
    }
  }

  lemma ThereAndBack(a: Counts, b: Counts, c: Counts)
    ensures Plus(a, Plus(Minus(b, a), c)) == Plus(b, c)
  {
  }

  // From interval k on, the counts of the intervals add up to the way the counters have come.
  lemma {:induction false} Telescope(h: seq<Interval>, k: nat)
    requires k <= |h| && Chained(h)
    ensures Plus(Start(h, k), Sum(h, k)) == Start(h, |h|)
    decreases |h| - k
  {
    if k < |h| {
      Telescope(h, k + 1);
      assert Start(h, k + 1) == h[k].end && h[k].counts == Minus(h[k].end, Start(h, k));
      ThereAndBack(Start(h, k), h[k].end, Sum(h, k + 1));
    }
  }

  class Stream {
    const sender: bool
    const udp: bool
    const blksize: nat
    var pendingSize: nat
    var bytesSent: nat
    var bytesReceived: nat
    var bytesSentThisInterval: nat
    var bytesReceivedThisInterval: nat
    var bytesSentOmit: nat
    var packetCount: nat
    var outOfOrder: nat
    var cntError: nat
    var omitted: Counts
    var intervalResults: seq<Interval>
    // whether the next message may go out now, and the start of the test in seconds
    var greenLight: bool
    var startTimeFixed: real
    // whether the stream's worker has returned
    var exited: bool

    // how often a write was tried, and the numbers of the datagrams that went out, in order
    ghost var writes: nat
    ghost var wire: seq<nat>
    // the numbers that came in, and how often one had come before
    ghost var received: set<nat>
    ghost var repeats: nat
    // the same numbers in the order they came
    ghost var arrivals: seq<nat>
    // the seconds that the throttle has put the stream to sleep for
    ghost var slept: real
    // all intervals since the start, and how many there were at the last reset
    ghost var history: seq<Interval>
    ghost var resetAt: nat

    constructor (sender: bool, udp: bool, blksize: nat)
      ensures this.sender == sender && this.udp == udp && this.blksize == blksize
      ensures Valid() && WireValid() && BlocksValid(0) && Received() == NOTHING
      ensures history == [] && wire == [] && arrivals == [] && slept == 0.0 && bytesSent == bytesReceived == packetCount == 0
    {
      this.sender, this.udp, this.blksize := sender, udp, blksize;
      pendingSize, bytesSent, bytesReceived := 0, 0, 0;
      bytesSentThisInterval, bytesReceivedThisInterval, bytesSentOmit := 0, 0, 0;
      packetCount, outOfOrder, cntError, omitted, intervalResults := 0, 0, 0, ZERO, [];
      greenLight, startTimeFixed := false, 0.0;
      writes, wire, received, repeats, history, resetAt := 0, [], {}, 0, [], 0;
      arrivals, slept := [], 0.0;
      exited := false;
    }

    // ---------- what holds between two steps ----------

    ghost function Counters(): Counts
      reads `packetCount, `outOfOrder, `cntError
    {
      Counts(packetCount, outOfOrder, cntError)
    }

    ghost function Received(): Tally
      reads `packetCount, `outOfOrder, `cntError, `received, `repeats
    {
      Tally(packetCount, cntError, outOfOrder, received, repeats)
    }

    // The counters say what the numbers that came in, in their order, call for.
    ghost predicate Told()
      reads `packetCount, `outOfOrder, `cntError, `received, `repeats, `arrivals
    {
      Tells(Received(), arrivals)
    }

    // The bytes moved since the last reset, and those of the interval that is still open.
    ghost function Moved(): int
      reads `bytesSent, `bytesReceived, `bytesSentOmit
    {
      if sender then bytesSent - bytesSentOmit else bytesReceived
    }

    ghost function Open(): nat
      reads `bytesSentThisInterval, `bytesReceivedThisInterval
    {
      if sender then bytesSentThisInterval else bytesReceivedThisInterval
    }

    ghost predicate Valid()
      reads `bytesSent, `bytesReceived, `bytesSentOmit, `bytesSentThisInterval, `bytesReceivedThisInterval
      reads `history, `resetAt, `intervalResults
    {
      && intervalResults == (if history == [] then [] else [history[|history| - 1]])
      && (udp ==> Chained(history))
      && resetAt <= |history|
      && ByteSum(history, resetAt) + Open() == Moved()
    }

    // The datagrams that went out have the numbers from 1 on, and have all the bytes sent.
    ghost predicate WireValid()
      reads `packetCount, `wire, `bytesSent
    {
      && |wire| == packetCount && (forall i :: 0 <= i < |wire| ==> wire[i] == i + 1)
      && (udp ==> bytesSent <= blksize * |wire|)
    }

    // Whole blocks have been sent, but for what is still pending of the last one.
    ghost predicate BlocksValid(blocks: nat)
      reads `pendingSize, `bytesSent
    {
      pendingSize <= blksize && bytesSent + pendingSize == blksize * (blocks + if pendingSize > 0 then 1 else 0)
    }

    // ---------- sending and receiving ----------

    // iperf_tcp_send, where r is the result of the write of what is pending of the block.
    method TcpSend(r: int) returns (result: int)
      requires Valid() && r <= if pendingSize == 0 then blksize else pendingSize
      modifies `pendingSize, `bytesSent, `bytesSentThisInterval, `writes
      ensures Valid() && result == r && writes == old(writes) + 1
      ensures pendingSize <= if old(pendingSize) == 0 then blksize else old(pendingSize)
      ensures bytesSent == old(bytesSent) + (if r > 0 then r else 0)
      ensures forall blocks: nat :: old(BlocksValid(blocks)) && blksize > 0 ==>
                BlocksValid(blocks + if r >= 0 && pendingSize == 0 then 1 else 0)
    {
      writes := writes + 1;
      if pendingSize == 0 {
        pendingSize := blksize;
      }
      if r < 0 {
        return r;
      }
      pendingSize := pendingSize - r;
      bytesSent := bytesSent + r;
      bytesSentThisInterval := bytesSentThisInterval + r;
      return r;
    }

    // iperf_tcp_recv, where r is the result of the read.
    method TcpRecv(r: int, running: bool) returns (result: int)
      requires Valid()
      modifies `bytesReceived, `bytesReceivedThisInterval
      ensures Valid() && result == r
      ensures bytesReceived == old(bytesReceived) + (if r > 0 && running then r else 0)
    {
      if r < 0 {
        return r;
      }
      if running {
        bytesReceived := bytesReceived + r;
        bytesReceivedThisInterval := bytesReceivedThisInterval + r;
      }
      return r;
    }

    // iperf_udp_send, where r is the result of the write. A write that sends nothing takes its
    // number back, so that the next datagram has it.
    method UdpSend(r: int) returns (result: int)
      requires Valid() && WireValid() && r <= blksize
      modifies `packetCount, `bytesSent, `bytesSentThisInterval, `wire, `writes
      ensures Valid() && WireValid() && result == r && writes == old(writes) + 1
      ensures wire == if r > 0 then old(wire) + [old(packetCount) + 1] else old(wire)
      ensures bytesSent == old(bytesSent) + (if r > 0 then r else 0)
    {
      assert blksize * (|wire| + 1) == blksize * |wire| + blksize;
      writes := writes + 1;
      packetCount := packetCount + 1;
      var number := packetCount;
      if r <= 0 {
        packetCount := packetCount - 1;
        if r < 0 {
          return r;
        }
      } else {
        wire := wire + [number];
      }
      bytesSent := bytesSent + r;
      bytesSentThisInterval := bytesSentThisInterval + r;
      return r;
    }

    // iperf_udp_recv, where r is the result of the read and pcount the number in the datagram.
    method UdpRecv(r: int, pcount: nat, running: bool) returns (result: int)
      requires Valid()
      modifies `bytesReceived, `bytesReceivedThisInterval, `packetCount, `outOfOrder, `cntError, `received, `repeats, `arrivals
      ensures Valid() && result == r
      ensures Received() == if r > 0 && running then Heard(old(Received()), pcount) else old(Received())
      ensures arrivals == old(arrivals) + if r > 0 && running then [pcount] else []
      ensures pcount >= 1 && Good(old(Received())) ==> Good(Received())
      ensures pcount >= 1 && old(Told()) ==> Told()
      ensures bytesReceived == old(bytesReceived) + (if r > 0 && running then r else 0)
    {
      hide Good, Tells;
      if r <= 0 {
        return r;
      }
      if running {
        bytesReceived := bytesReceived + r;
        bytesReceivedThisInterval := bytesReceivedThisInterval + r;
        CountPacket(pcount);
      }
      return r;
    }

    method CountPacket(pcount: nat)
      modifies `packetCount, `outOfOrder, `cntError, `received, `repeats, `arrivals
      ensures Received() == Heard(old(Received()), pcount) && arrivals == old(arrivals) + [pcount]
      ensures pcount >= 1 && Good(old(Received())) ==> Good(Received())
      ensures pcount >= 1 && old(Told()) ==> Told()
    {
      hide Missing, UdpLoss.Interval, Tells;
      if pcount >= 1 && Told() {
        HeardTells(Received(), arrivals, pcount);
      }
      if pcount >= 1 && Good(Received()) {
        HeardGood(Received(), pcount);
      }
      if pcount >= packetCount + 1 {
        if pcount > packetCount + 1 {
          cntError := cntError + ((pcount - 1) - packetCount);
        }
        packetCount := pcount;
      } else {
        outOfOrder := outOfOrder + 1;
        if cntError > 0 {
          cntError := cntError - 1;
        }
        if pcount in received {
          repeats := repeats + 1;
        }
      }
      received, arrivals := received + {pcount}, arrivals + [pcount];
    }

    // ---------- intervals and the reset ----------

    // add_to_interval_list: only the last interval stays in the list.
    method AddToIntervalList(new': Interval)
      modifies `intervalResults
      ensures old(|intervalResults|) <= 1 ==> intervalResults == [new']
    {
      if intervalResults != [] {
        intervalResults := intervalResults[..|intervalResults| - 1];
      }
      intervalResults := intervalResults + [new'];
    }

    // The interval that ends now: a UDP interval counts from the last one in the list.
    method NewInterval(omitting: bool) returns (temp: Interval)
      requires Valid()
      ensures temp.bytes == Open() && temp.omitted == omitting
      ensures udp ==> temp.end == Counters() && temp.counts == Minus(Counters(), Start(history, |history|))
    {
      var bytes := if sender then bytesSentThisInterval else bytesReceivedThisInterval;
      if !udp {
        return Interval(bytes, omitting, ZERO, ZERO);
      }
      var now := Counts(packetCount, outOfOrder, cntError);
      if intervalResults == [] {
        return Interval(bytes, omitting, now, now);
      }
      var irp := intervalResults[|intervalResults| - 1];
      return Interval(bytes, omitting, Minus(now, irp.end), now);
    }

    // The part of iperf_stats_callback for one stream: closes the open interval.
    method CloseInterval(omitting: bool) returns (transferred: nat)
      requires Valid()
      modifies `bytesSentThisInterval, `bytesReceivedThisInterval, `intervalResults, `history
      ensures Valid()
      ensures transferred == old(bytesSentThisInterval) + old(bytesReceivedThisInterval)
      ensures bytesSentThisInterval == bytesReceivedThisInterval == 0
      ensures |history| == |old(history)| + 1 && history[..|old(history)|] == old(history)
      ensures var x := history[|old(history)|]; x.bytes == old(Open()) && x.omitted == omitting && (udp ==> x.end == Counters())
    {
      hide Sum;
      hide ByteSum;
      ghost var h := history;
      transferred := bytesSentThisInterval + bytesReceivedThisInterval;
      var temp := NewInterval(omitting);
      if udp {
        ChainedAppend(h, temp);
      }
      ByteSumAppend(h, temp, resetAt);
      hide Chained;
      AddToIntervalList(temp);
      bytesSentThisInterval, bytesReceivedThisInterval := 0, 0;
      history := h + [temp];
      assert ByteSum(history, resetAt) == ByteSum(h, resetAt) + temp.bytes;
    }

    // The part of iperf_reset_stats for one stream: the omitted part of the test is over.
    method Reset()
      requires Valid()
      modifies `bytesSentOmit, `bytesReceived, `bytesSentThisInterval, `bytesReceivedThisInterval, `omitted, `resetAt
      ensures Valid() && Moved() == 0 && Open() == 0
      ensures resetAt == |history| && omitted == Counters() && bytesSentOmit == bytesSent
      ensures bytesReceived == bytesSentThisInterval == bytesReceivedThisInterval == 0
    {
      omitted := Counts(packetCount, outOfOrder, cntError);
      bytesSentOmit := bytesSent;
      bytesReceived := 0;
      bytesSentThisInterval, bytesReceivedThisInterval := 0, 0;
      resetAt := |history|;
    }

    // What no step breaks. The bytes of the intervals since the reset and of the open interval
    // are the bytes moved since the reset. The UDP counts of all intervals, and of the open
    // interval, are the counters.
    lemma Conservation()
      requires Valid()
      ensures ByteSum(history, resetAt) + Open() == Moved()
      ensures udp ==> Plus(Sum(history, 0), Minus(Counters(), Start(history, |history|))) == Counters()
    {
      if udp {
        Telescope(history, 0);
      }
    }

    // The UDP counts since the reset are the counters less the omitted part exactly when no
    // packet was counted between the last interval before the reset and the reset: unlike the
    // bytes, the counts of the interval open at the reset are in the first interval after it.
    lemma CountsSinceReset()
      requires Valid() && udp
      ensures Plus(Sum(history, resetAt), Minus(Counters(), Start(history, |history|))) == Minus(Counters(), omitted)
              <==> omitted == Start(history, resetAt)
    {
      Telescope(history, resetAt);
    }
  }

  // A packet counted before the reset, with no interval closed in between: it is in the omitted
  // part, and still in the counts of the intervals after the reset.
  method CountedBeforeReset() returns (s: Stream)
    ensures s.Valid() && s.udp && s.omitted != Start(s.history, s.resetAt)
  {
    hide *;
    s := new Stream(true, true, 8);
    var r := s.UdpSend(8);
    s.Reset();
    Omitted(s);
  }

  lemma Omitted(s: Stream)
    requires s.WireValid() && s.wire == [1] && s.history == [] && s.omitted == s.Counters() && s.resetAt == 0
    ensures s.omitted != Start(s.history, s.resetAt)
  {
  }
}
