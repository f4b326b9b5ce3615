// The test's side of the counters: sending a burst within the target rate, closing an interval of
// all streams, and the reset at the end of the omitted part.
module TestStats {
  import opened Pacing
  import RateWindow
  import opened StreamStats

  // The wall clock, in seconds. It only goes forward. The sleeps on it: the nanoseconds asked for
  // in all, how many sleeps were interrupted, and the seconds slept of those asked for.
  class Clock {
    var now: real
    ghost var asked: nat
    ghost var interrupted: nat
    ghost var slept: real

    method TimeNow() returns (t: real)
      modifies `now
      ensures t == now >= old(now)
    {
      var d: real :| d >= 0.0;
      now := now + d;
      return now;
    }

    // nanosleep, for less than a second: an uninterrupted sleep takes at least as long as asked.
    method Nanosleep(ns: nat) returns (ret: int)
      requires ns < SEC_TO_NS
      modifies this
      ensures now >= old(now) && (ret == 0 ==> now >= old(now) + Seconds(ns))
      ensures asked == old(asked) + ns && interrupted == old(interrupted) + if ret == 0 then 0 else 1
      ensures 0.0 <= slept - old(slept) <= now - old(now) && slept - old(slept) <= Seconds(ns)
    {
      var d: real :| d >= 0.0;
      now := now + d;
      asked := asked + ns;
      slept := slept + if d < Seconds(ns) then d else Seconds(ns);
      ret := if d >= Seconds(ns) then 0 else -1;
      interrupted := interrupted + if ret == 0 then 0 else 1;
    }
  }

  function Seconds(ns: int): real {
    ns as real / SEC_TO_NS as real
  }

  const NET_SOFTERROR: int := -1

  function SumOf(s: seq<int>): int {
    if s == [] then 0 else SumOf(s[..|s| - 1]) + s[|s| - 1]
  }

  lemma {:induction false} SumOfChange(s: seq<int>, t: seq<int>, i: nat)
    requires i < |s| == |t| && forall j :: 0 <= j < |s| && j != i ==> t[j] == s[j]
    ensures SumOf(t) - SumOf(s) == t[i] - s[i]
  {
    var n := |s| - 1;
    if i == n {
      assert t[..n] == s[..n];
    } else {
      SumOfChange(s[..n], t[..n], i);
    }
  }

  lemma {:induction false} SumOfZeros(s: seq<int>)
    requires forall i :: 0 <= i < |s| ==> s[i] == 0
    ensures SumOf(s) == 0
  {
    if s != [] {
      SumOfZeros(s[..|s| - 1]);
    }
  }

  class Test {
    const rate: nat
    const burst: nat
    const bytesLimit: nat
    const blocksLimit: nat
    const server: bool
    const streams: seq<Stream>
    const limit: RateWindow.RateLimit
    var done: bool
    var bytesSent: int
    var blocksSent: int

    constructor (rate: nat, burst: nat, bytesLimit: nat, blocksLimit: nat, server: bool,
                 streams: seq<Stream>, limit: RateWindow.RateLimit)
      ensures this.rate == rate && this.burst == burst && this.streams == streams && this.limit == limit
      ensures !done && bytesSent == 0
    {
      this.rate, this.burst, this.bytesLimit, this.blocksLimit := rate, burst, bytesLimit, blocksLimit;
      this.server, this.streams, this.limit := server, streams, limit;
      done, bytesSent, blocksSent := false, 0, 0;
    }

    // The messages of one go: the burst, or else one if there is a target rate and ten if not.
    function Messages(): (n: nat)
      ensures n >= 1 && (burst == rate == 0 ==> n == 10) && (rate > 0 ==> n == if burst > 1 then burst else 1)
    {
      if burst != 0 then burst else if rate == 0 then 10 else 1
    }

    // ---------- the pacing ----------

    // At any time the bits sent are within the rate, up to rounding and one go of messages; and
    // while the light is green and the worker goes on, within the rate up to rounding alone. And
    // the throttle has not made the stream sleep for longer than its bits take at the rate.
    ghost predicate Paced(sp: Stream, now: real)
      reads `done, sp`bytesSent, sp`greenLight, sp`startTimeFixed, sp`exited, sp`slept
    {
      rate > 0 ==>
        && sp.startTimeFixed <= now && Rested(sp, now)
        && Ahead(sp, now, Messages())
        && (sp.greenLight && !done && !sp.exited ==> Ahead(sp, now, 0))
    }

    ghost predicate Rested(sp: Stream, now: real)
      reads sp`bytesSent, sp`startTimeFixed, sp`slept
    {
      rate as real * sp.slept <= (8 * sp.bytesSent) as real && sp.startTimeFixed + sp.slept <= now
    }

    // The bits are within the rate, up to rounding and k messages.
    ghost predicate Ahead(sp: Stream, now: real, k: nat)
      reads sp`bytesSent, sp`startTimeFixed
    {
      Within(8 * sp.bytesSent, rate, now - sp.startTimeFixed, 8 * sp.blksize * k)
    }

    lemma Later(sp: Stream, t: real, later: real, k: nat, more: nat)
      requires Ahead(sp, t, k) && t <= later && k <= more
      ensures Ahead(sp, later, more)
    {
      assert 8 * sp.blksize * k <= 8 * sp.blksize * more;
      LaterWithin(8 * sp.bytesSent, rate, t - sp.startTimeFixed, later - sp.startTimeFixed,
                  8 * sp.blksize * k, 8 * sp.blksize * more);
    }

    // One more message puts the stream that much further ahead.
    lemma OneMore(sp: Stream, before: nat, r: nat, t: real, k: nat)
      requires sp.bytesSent == before + r && r <= sp.blksize
      requires Within(8 * before, rate, t - sp.startTimeFixed, 8 * sp.blksize * k)
      ensures Ahead(sp, t, k + 1)
    {
      assert 8 * sp.blksize * (k + 1) == 8 * sp.blksize * k + 8 * sp.blksize;
    }

    // Waiting keeps a stream paced.
    lemma PacedLater(sp: Stream, now: real, later: real)
      requires Paced(sp, now) && now <= later
      ensures Paced(sp, later)
    {
      hide Test.Ahead;
      if rate > 0 {
        Later(sp, now, later, Messages(), Messages());
        if sp.greenLight && !done && !sp.exited {
          Later(sp, now, later, 0, 0);
        }
      }
    }

    // iperf_init_test and iperf_create_send_timers for one stream.
    method Start(sp: Stream, clock: Clock)
      requires sp.bytesSent == 0
      modifies sp`startTimeFixed, sp`greenLight, sp`slept, clock`now
      ensures Paced(sp, clock.now) && sp.greenLight && sp.startTimeFixed == clock.now >= old(clock.now)
      ensures sp.slept == 0.0
    {
      var now := clock.TimeNow();
      sp.startTimeFixed := now;
      sp.greenLight := true;
      sp.slept := 0.0;
    }

    // The bits of the stream are below the rate at the time t.
    ghost predicate Below(sp: Stream, t: real)
      reads sp`bytesSent, sp`startTimeFixed
    {
      (8 * sp.bytesSent) as real < rate as real * (t - sp.startTimeFixed)
    }

    // They are above the rate by a bit a second or more.
    ghost predicate Above(sp: Stream, t: real)
      reads sp`bytesSent, sp`startTimeFixed
    {
      (8 * sp.bytesSent) as real >= (rate as real + 1.0) * (t - sp.startTimeFixed)
    }

    // iperf_check_throttle at the time nowP. The light is green for a stream below the rate, and
    // for one above it that has had its sleep. The sleep is as long as the stream is ahead, at most.
    method CheckThrottle(sp: Stream, clock: Clock, nowP: real)
      requires sp.startTimeFixed < nowP <= clock.now && (rate > 0 ==> Rested(sp, nowP))
      modifies sp`greenLight, sp`slept, clock
      ensures clock.now >= old(clock.now) && clock.asked >= old(clock.asked)
      ensures done || rate == 0 ==> sp.greenLight == old(sp.greenLight) && clock.asked == old(clock.asked)
      ensures !done && rate > 0 ==>
                (sp.greenLight <==> Below(sp, nowP) || (Above(sp, nowP) && clock.interrupted == old(clock.interrupted)))
      ensures rate > 0 ==> NoLonger(clock.asked - old(clock.asked), 8 * sp.bytesSent, rate, nowP - sp.startTimeFixed)
      ensures !done && rate > 0 && sp.greenLight ==> Ahead(sp, clock.now, 0)
      ensures rate > 0 ==> Rested(sp, clock.now)
    {
      hide Within, NoLonger;
      NoLonger0(8 * sp.bytesSent, nowP - sp.startTimeFixed);
      if done || rate == 0 {
        return;
      }
      ghost var start := sp.startTimeFixed;
      var seconds := nowP - sp.startTimeFixed;
      var bitsSent := 8 * sp.bytesSent;
      var bitsPerSecond := (bitsSent as real / seconds).Floor;
      assert bitsPerSecond == BitsPerSecond(bitsSent, seconds);
      hide BitsPerSecond;
      var missingRate := rate - bitsPerSecond;
      BelowRate(bitsSent, seconds, rate);
      BelowRate(bitsSent, seconds, rate + 1);
      if missingRate > 0 {
        sp.greenLight := true;
        JustBelow(bitsSent, rate, seconds, clock.now - start);
      } else {
        sp.greenLight := false;
      }
      if missingRate < 0 {
        SleepOff(sp, clock, seconds, bitsSent);
      }
    }

    lemma NoLonger0(bits: nat, seconds: real)
      ensures NoLonger(0, bits, rate, seconds)
    {
    }

    // The sleep of a stream that is ahead of the rate.
    method SleepOff(sp: Stream, clock: Clock, seconds: real, bitsSent: nat)
      requires rate > 0 && seconds > 0.0 && BitsPerSecond(bitsSent, seconds) > rate
      requires sp.startTimeFixed + seconds <= clock.now && bitsSent == 8 * sp.bytesSent && !sp.greenLight
      requires Rested(sp, sp.startTimeFixed + seconds)
      modifies sp`greenLight, sp`slept, clock
      ensures clock.now >= old(clock.now) && clock.asked >= old(clock.asked)
      ensures sp.greenLight <==> clock.interrupted == old(clock.interrupted)
      ensures NoLonger(clock.asked - old(clock.asked), bitsSent, rate, seconds)
      ensures sp.greenLight ==> Ahead(sp, clock.now, 0)
      ensures Rested(sp, clock.now)
    {
      hide Within, NoLonger;
      ghost var start := sp.startTimeFixed;
      var deltaBits := (bitsSent as real - seconds * rate as real).Floor;
      var timeToGreenLight := SEC_TO_NS * deltaBits / rate;
      assert timeToGreenLight == TimeToGreenLight(bitsSent, seconds, rate);
      hide TimeToGreenLight;
      NotNegative(bitsSent, seconds);
      hide BitsPerSecond;
      SleepIsNotTooLong(bitsSent, seconds, rate);
      if timeToGreenLight >= 0 {
        var ret := Sleep(clock, timeToGreenLight);
        NoLongerLess(clock.asked - old(clock.asked), timeToGreenLight, bitsSent, seconds);
        RestedAfter(bitsSent, rate, sp.slept, seconds, clock.asked - old(clock.asked), clock.slept - old(clock.slept));
        sp.slept := sp.slept + (clock.slept - old(clock.slept));
        if ret == 0 {
          sp.greenLight := true;
          SleepIsEnough(bitsSent, seconds, rate, clock.now - start);
        }
      }
    }

    lemma NotNegative(bits: nat, seconds: real)
      requires rate > 0 && seconds > 0.0 && BitsPerSecond(bits, seconds) > rate
      ensures TimeToGreenLight(bits, seconds, rate) >= 0
    {
      hide Within;
      SleepIsEnough(bits, seconds, rate, seconds + Seconds(TimeToGreenLight(bits, seconds, rate)));
    }

    lemma NoLongerLess(less: nat, ns: nat, bits: nat, seconds: real)
      requires NoLonger(ns, bits, rate, seconds) && less <= ns
      ensures NoLonger(less, bits, rate, seconds)
    {
      assert less as real * rate as real <= ns as real * rate as real;
    }

    // The loop of sleeps shorter than a second, until one is interrupted or all the time has been
    // asked for.
    method Sleep(clock: Clock, timeToGreenLight: nat) returns (ret: int)
      modifies clock
      ensures clock.now >= old(clock.now)
      ensures ret == 0 ==> clock.now >= old(clock.now) + Seconds(timeToGreenLight)
      ensures ret == 0 <==> clock.interrupted == old(clock.interrupted)
      ensures old(clock.asked) <= clock.asked <= old(clock.asked) + timeToGreenLight
      ensures ret == 0 ==> clock.asked == old(clock.asked) + timeToGreenLight
      ensures 0.0 <= clock.slept - old(clock.slept) <= clock.now - old(clock.now)
      ensures clock.slept - old(clock.slept) <= Seconds(clock.asked - old(clock.asked))
    {
      var left := timeToGreenLight;
      var nsec := if left >= SEC_TO_NS then SEC_TO_NS - 1 else left;
      left := left - nsec;
      ret := clock.Nanosleep(nsec);
      while ret == 0 && left > 0
        invariant left >= 0 && clock.now >= old(clock.now)
        invariant ret == 0 <==> clock.interrupted == old(clock.interrupted)
        invariant clock.interrupted >= old(clock.interrupted)
        invariant ret == 0 ==> clock.now >= old(clock.now) + Seconds(timeToGreenLight - left)
        invariant clock.asked == old(clock.asked) + timeToGreenLight - left
        invariant 0.0 <= clock.slept - old(clock.slept) <= clock.now - old(clock.now)
        invariant clock.slept - old(clock.slept) <= Seconds(clock.asked - old(clock.asked))
      {
        nsec := if left >= SEC_TO_NS then SEC_TO_NS - 1 else left;
        left := left - nsec;
        ret := clock.Nanosleep(nsec);
      }
    }

    // ---------- sending ----------

    // The stream's send function, on whatever the write gives.
    method Snd(sp: Stream) returns (r: int)
      requires sp.Valid() && sp.WireValid() && sp.pendingSize <= sp.blksize
      modifies sp`pendingSize, sp`packetCount, sp`bytesSent, sp`bytesSentThisInterval, sp`wire, sp`writes
      ensures sp.Valid() && sp.WireValid() && sp.pendingSize <= sp.blksize
      ensures r <= sp.blksize && sp.bytesSent == old(sp.bytesSent) + (if r > 0 then r else 0)
      ensures sp.writes == old(sp.writes) + 1
      ensures sp.wire == if sp.udp && r > 0 then old(sp.wire) + [|old(sp.wire)| + 1] else old(sp.wire)
    {
      var written: int :| written <= if sp.udp || sp.pendingSize == 0 then sp.blksize else sp.pendingSize;
      if sp.udp {
        r := sp.UdpSend(written);
      } else {
        r := sp.TcpSend(written);
      }
    }

    // One message: sent and counted.
    method Message(sp: Stream) returns (r: int)
      requires sp.Valid() && sp.WireValid() && sp.pendingSize <= sp.blksize
      modifies this`bytesSent, this`blocksSent
      modifies sp`pendingSize, sp`packetCount, sp`bytesSent, sp`bytesSentThisInterval, sp`wire, sp`writes
      ensures sp.Valid() && sp.WireValid() && sp.pendingSize <= sp.blksize
      ensures r <= sp.blksize && sp.bytesSent == old(sp.bytesSent) + (if r > 0 then r else 0)
      ensures sp.writes == old(sp.writes) + 1
      ensures bytesSent == old(bytesSent) + (if r > 0 then r else 0)
      ensures blocksSent == old(blocksSent) + (if r >= 0 && sp.pendingSize == 0 then 1 else 0)
    {
      r := Snd(sp);
      if r >= 0 {
        bytesSent := bytesSent + r;
        if sp.pendingSize == 0 {
          blocksSent := blocksSent + 1;
        }
      }
    }

    // iperf_send_mt: the messages of one go, as long as the light is green, with the throttle
    // checked after each message or after all of them. soft is whether a write that can be tried
    // again later ended it.
    method SendMt(sp: Stream, clock: Clock) returns (result: int, ghost soft: bool)
      requires sp.Valid() && sp.WireValid() && sp.pendingSize <= sp.blksize
      requires !done && !sp.exited && sp.startTimeFixed < clock.now && Paced(sp, clock.now)
      modifies this`bytesSent, this`blocksSent, clock, sp`greenLight, sp`slept
      modifies sp`pendingSize, sp`packetCount, sp`bytesSent, sp`bytesSentThisInterval, sp`wire, sp`writes
      ensures sp.Valid() && sp.WireValid() && sp.pendingSize <= sp.blksize
      ensures clock.now >= old(clock.now) && clock.asked >= old(clock.asked)
      ensures rate > 0 ==> Ahead(sp, clock.now, Messages()) && Rested(sp, clock.now)
      ensures result >= 0 ==> Paced(sp, clock.now)
      ensures bytesSent - old(bytesSent) == sp.bytesSent - old(sp.bytesSent) >= 0
      // the throttle is checked, and makes the stream sleep for what it is ahead by at most
      ensures result >= 0 && rate > 0 && Below(sp, old(clock.now)) ==> sp.greenLight
      ensures if rate == 0 then clock.asked == old(clock.asked) && sp.greenLight == old(sp.greenLight)
              else NoLonger(clock.asked - old(clock.asked), 8 * sp.bytesSent, rate, old(clock.now) - sp.startTimeFixed)
      // nothing is sent under a red light, and a whole go under a green one unless a write fails or
      // a limit is reached
      ensures !old(sp.greenLight) ==> sp.writes == old(sp.writes)
      ensures old(sp.greenLight) && bytesLimit == blocksLimit == 0 ==> sp.writes > old(sp.writes)
      ensures sp.writes <= old(sp.writes) + Messages()
      ensures result >= 0 && old(sp.greenLight) && sp.writes < old(sp.writes) + Messages() ==>
                soft || (AtLimit() && sp.writes + 1 < old(sp.writes) + Messages())
      ensures old(sp.greenLight) && Messages() == 1 ==> sp.writes > old(sp.writes)
      // once a limit is reached, at most one more message goes out
      ensures old(AtLimit()) && Messages() > 1 ==> sp.writes == old(sp.writes)
      ensures bytesLimit != 0 ==> bytesSent < bytesLimit + 2 * sp.blksize || bytesSent <= old(bytesSent) + sp.blksize
      ensures blocksLimit != 0 ==> blocksSent <= blocksLimit + 1 || blocksSent <= old(blocksSent) + 1
    {
      hide Stream.Valid, Stream.WireValid, Within, NoLonger, Below, Rested, Ahead;
      var multisend := Messages();
      var throttleCheck, perMessage := rate != 0, rate != 0 && burst == 0;
      var messageSent, now := false, 0.0;
      soft := false;
      ghost var n, start := multisend, clock.now;
      while sp.greenLight && multisend > 0
        invariant 0 <= multisend <= n && messageSent == (multisend < n)
        invariant sp.Valid() && sp.WireValid() && sp.pendingSize <= sp.blksize
        invariant clock.now >= start && sp.writes == old(sp.writes) + (n - multisend)
        invariant messageSent ==> old(sp.greenLight)
        invariant bytesSent - old(bytesSent) == sp.bytesSent - old(sp.bytesSent) >= 0
        invariant rate > 0 ==> Ahead(sp, clock.now, n) && (sp.greenLight ==> Ahead(sp, clock.now, n - multisend))
        invariant if messageSent && perMessage then Checked(sp, clock, start, clock.asked - old(clock.asked))
                  else && (rate > 0 ==> Rested(sp, start)) && sp.greenLight == old(sp.greenLight)
                       && clock.asked == old(clock.asked) && clock.now == start
        invariant InLimits(sp, old(bytesSent), old(blocksSent), multisend, messageSent)
        invariant old(AtLimit()) && n > 1 ==> !messageSent
        decreases multisend
      {
        if multisend > 1 && bytesLimit != 0 && bytesSent >= bytesLimit {
          break;
        }
        if multisend > 1 && blocksLimit != 0 && blocksSent >= blocksLimit {
          break;
        }
        var r;
        r, now := OneMessage(sp, clock, perMessage, messageSent, now, start, n - multisend);
        if r < 0 {
          NoLonger0(8 * sp.bytesSent, start - sp.startTimeFixed);
          if r == NET_SOFTERROR {
            soft := true;
            break;
          }
          return r, soft;
        }
        if rate > 0 {
          Later(sp, clock.now, clock.now, n - multisend + 1, n);
        }
        messageSent := true;
        multisend := multisend - 1;
      }
      if throttleCheck && (!perMessage || !messageSent) {
        ghost var t := clock.now;
        now := clock.TimeNow();
        Check(sp, clock, now, start);
        Later(sp, t, clock.now, n, n);
      }
      return 0, soft;
    }

    // One message, and the throttle behind it if it is checked for each; k messages have gone
    // before. In that case there is just one, so the time is read.
    method OneMessage(sp: Stream, clock: Clock, perMessage: bool, messageSent: bool, now: real, ghost start: real, ghost k: nat)
      returns (r: int, now': real)
      requires sp.Valid() && sp.WireValid() && sp.pendingSize <= sp.blksize
      requires !done && (perMessage ==> rate > 0 && !messageSent) && sp.startTimeFixed < start <= clock.now
      requires rate > 0 ==> Ahead(sp, clock.now, k) && Rested(sp, start)
      modifies this`bytesSent, this`blocksSent, clock, sp`greenLight, sp`slept
      modifies sp`pendingSize, sp`packetCount, sp`bytesSent, sp`bytesSentThisInterval, sp`wire, sp`writes
      ensures sp.Valid() && sp.WireValid() && sp.pendingSize <= sp.blksize
      ensures r <= sp.blksize && sp.bytesSent == old(sp.bytesSent) + (if r > 0 then r else 0)
      ensures sp.writes == old(sp.writes) + 1 && bytesSent == old(bytesSent) + (if r > 0 then r else 0)
      ensures blocksSent == old(blocksSent) + (if r >= 0 && sp.pendingSize == 0 then 1 else 0)
      ensures rate > 0 ==> Ahead(sp, clock.now, if r < 0 then k else k + 1)
      ensures if r >= 0 && perMessage
              then clock.now >= old(clock.now) && Checked(sp, clock, start, clock.asked - old(clock.asked))
              else && (rate > 0 ==> Rested(sp, start)) && sp.greenLight == old(sp.greenLight)
                   && clock.asked == old(clock.asked) && clock.now == old(clock.now)
    {
      hide Stream.Valid, Stream.WireValid, Within, NoLonger, Below;
      ghost var before, t := sp.bytesSent, clock.now;
      now' := now;
      r := Message(sp);
      if r < 0 {
        return;
      }
      if rate > 0 {
        OneMore(sp, before, r, t, k);
      }
      if perMessage {
        if !messageSent {
          now' := clock.TimeNow();
        }
        Check(sp, clock, now', start);
        Later(sp, t, clock.now, k + 1, k + 1);
      }
    }

    // How far one go may take the counts over the limits, with so many messages of it to go.
    ghost predicate InLimits(sp: Stream, bytes: int, blocks: int, toGo: nat, messageSent: bool)
      reads `bytesSent, `blocksSent
    {
      if !messageSent then bytesSent == bytes && blocksSent == blocks
      else
        && (bytesLimit != 0 ==>
              bytesSent < bytesLimit + (if toGo > 0 then sp.blksize else 2 * sp.blksize)
              || (toGo == 0 && bytesSent <= bytes + sp.blksize))
        && (blocksLimit != 0 ==>
              blocksSent <= blocksLimit + (if toGo > 0 then 0 else 1) || (toGo == 0 && blocksSent <= blocks + 1))
    }

    // What a check of the throttle has made sure of, for a stream that started the go at start.
    ghost predicate Checked(sp: Stream, clock: Clock, start: real, asked: int)
      reads sp`bytesSent, sp`startTimeFixed, sp`slept, sp`greenLight, clock`now
    {
      && (Below(sp, start) ==> sp.greenLight) && (sp.greenLight ==> Ahead(sp, clock.now, 0)) && Rested(sp, clock.now)
      && asked >= 0 && NoLonger(asked, 8 * sp.bytesSent, rate, start - sp.startTimeFixed)
    }

    method Check(sp: Stream, clock: Clock, now: real, ghost start: real)
      requires !done && rate > 0 && sp.startTimeFixed < start <= now <= clock.now && Rested(sp, start)
      modifies sp`greenLight, sp`slept, clock
      ensures clock.now >= old(clock.now) && Checked(sp, clock, start, clock.asked - old(clock.asked))
    {
      hide Within, NoLonger, Ahead;
      RestedLater(sp, start, now);
      CheckThrottle(sp, clock, now);
      LooserBefore(clock.asked - old(clock.asked), 8 * sp.bytesSent, rate, now - sp.startTimeFixed, start - sp.startTimeFixed);
      BelowLater(sp, start, now);
    }

    lemma BelowLater(sp: Stream, t: real, later: real)
      requires t <= later
      ensures Below(sp, t) ==> Below(sp, later)
    {
      assert rate as real * (t - sp.startTimeFixed) <= rate as real * (later - sp.startTimeFixed);
    }

    lemma RestedLater(sp: Stream, t: real, later: real)
      requires Rested(sp, t) && t <= later
      ensures Rested(sp, later)
    {
    }

    ghost predicate AtLimit()
      reads `bytesSent, `blocksSent
    {
      (bytesLimit != 0 && bytesSent >= bytesLimit) || (blocksLimit != 0 && blocksSent >= blocksLimit)
    }

    // ---------- all streams ----------

    ghost predicate Distinct() {
      forall i, j :: 0 <= i < j < |streams| ==> streams[i] != streams[j]
    }

    // The bytes sent since the last reset, of each of the first k streams.
    ghost function Moved(k: nat): (s: seq<int>)
      requires k <= |streams|
      reads streams`bytesSent, streams`bytesSentOmit
      ensures |s| == k && forall i :: 0 <= i < k ==> s[i] == streams[i].bytesSent - streams[i].bytesSentOmit
    {
      if k == 0 then [] else Moved(k - 1) + [streams[k - 1].bytesSent - streams[k - 1].bytesSentOmit]
    }

    // The test's count of bytes sent is that of its streams since the last reset.
    ghost predicate Totalled()
      reads `bytesSent, streams`bytesSent, streams`bytesSentOmit
    {
      bytesSent == SumOf(Moved(|streams|))
    }

    // One turn of a sending worker: iperf_client_worker_run and its like on the server.
    method Turn(sp: Stream, clock: Clock) returns (result: int)
      requires sp.Valid() && sp.WireValid() && sp.pendingSize <= sp.blksize
      requires sp.startTimeFixed < clock.now && Paced(sp, clock.now)
      modifies this`bytesSent, this`blocksSent, clock, sp
      ensures sp.Valid() && sp.WireValid() && sp.pendingSize <= sp.blksize
      ensures Paced(sp, clock.now) && clock.now >= old(clock.now)
      ensures bytesSent - old(bytesSent) == sp.bytesSent - old(sp.bytesSent)
      ensures sp.bytesSentOmit == old(sp.bytesSentOmit) && sp.startTimeFixed == old(sp.startTimeFixed)
      ensures done || old(sp.exited) ==> sp.exited == old(sp.exited) && sp.writes == old(sp.writes)
      ensures !done && !old(sp.exited) ==> (sp.exited <==> result < 0)
      ensures !done && !old(sp.exited) && old(sp.greenLight) && bytesLimit == blocksLimit == 0 ==> sp.writes > old(sp.writes)
    {
      hide Stream.Valid;
      hide Stream.WireValid;
      hide Test.Ahead;
      result := 0;
      if done || sp.exited {
        return;
      }
      ghost var soft;
      result, soft := SendMt(sp, clock);
      if result < 0 {
        sp.exited := true;
      }
    }

    method Work(i: nat, clock: Clock)
      requires i < |streams| && Distinct() && Totalled()
      requires var sp := streams[i]; sp.Valid() && sp.WireValid() && sp.pendingSize <= sp.blksize
      requires streams[i].startTimeFixed < clock.now && Paced(streams[i], clock.now)
      modifies this`bytesSent, this`blocksSent, clock, streams[i]
      ensures var sp := streams[i]; sp.Valid() && sp.WireValid() && sp.pendingSize <= sp.blksize
      ensures Totalled() && Paced(streams[i], clock.now) && clock.now >= old(clock.now)
      ensures streams[i].startTimeFixed == old(streams[i].startTimeFixed)
      ensures !done && !old(streams[i].exited) && old(streams[i].greenLight) && bytesLimit == blocksLimit == 0 ==>
                streams[i].writes > old(streams[i].writes)
    {
      hide Stream.Valid;
      hide Stream.WireValid;
      hide Test.Paced;
      ghost var moved, sent := Moved(|streams|), bytesSent;
      var result := Turn(streams[i], clock);
      SumOfChange(moved, Moved(|streams|), i);
    }

    // iperf_reset_stats. It leaves the pacing alone.
    method ResetStats(clock: Clock)
      requires Distinct() && forall i :: 0 <= i < |streams| ==> streams[i].Valid() && Paced(streams[i], clock.now)
      modifies this`bytesSent, this`blocksSent, streams`bytesSentOmit, streams`bytesReceived, streams`bytesSentThisInterval
      modifies streams`bytesReceivedThisInterval, streams`omitted, streams`resetAt
      ensures forall i :: 0 <= i < |streams| ==> streams[i].Valid() && Paced(streams[i], clock.now)
      ensures forall i :: 0 <= i < |streams| ==> streams[i].Moved() == 0 && streams[i].omitted == streams[i].Counters()
      ensures Totalled() && bytesSent == blocksSent == 0
    {
      hide Stream.Valid;
      hide Test.Paced;
      hide Test.Moved;
      bytesSent, blocksSent := 0, 0;
      for i := 0 to |streams|
        invariant bytesSent == blocksSent == 0
        invariant forall j :: 0 <= j < |streams| ==> streams[j].Valid() && Paced(streams[j], clock.now)
        invariant forall j :: 0 <= j < i ==> streams[j].Moved() == 0 && streams[j].omitted == streams[j].Counters()
        invariant forall j :: 0 <= j < i ==> streams[j].bytesSent == streams[j].bytesSentOmit
      {
        streams[i].Reset();
      }
      NothingMoved();
    }

    lemma NothingMoved()
      requires forall i :: 0 <= i < |streams| ==> streams[i].bytesSent == streams[i].bytesSentOmit
      ensures SumOf(Moved(|streams|)) == 0
    {
      SumOfZeros(Moved(|streams|));
    }

    // The bytes of the intervals still open, of the first k streams.
    ghost function OpenBytes(k: nat): nat
      requires k <= |streams|
      reads streams`bytesSentThisInterval, streams`bytesReceivedThisInterval
    {
      if k == 0 then 0
      else OpenBytes(k - 1) + streams[k - 1].bytesSentThisInterval + streams[k - 1].bytesReceivedThisInterval
    }

    // A stream has closed the interval that had so many bytes, behind the intervals of h.
    ghost predicate Closed(sp: Stream, h: seq<Interval>, bytes: nat, omitting: bool)
      reads sp`bytesSentThisInterval, sp`bytesReceivedThisInterval, sp`history
      reads sp`packetCount, sp`outOfOrder, sp`cntError
    {
      && sp.bytesSentThisInterval == sp.bytesReceivedThisInterval == 0
      && |sp.history| == |h| + 1 && sp.history[..|h|] == h
      && var x := sp.history[|h|]; x.bytes == bytes && x.omitted == omitting && (sp.udp ==> x.end == sp.Counters())
    }

    // iperf_stats_callback: every stream closes its interval, and the server checks the total rate.
    method StatsCallback(omitting: bool)
      requires Distinct() && limit.Valid() && forall i :: 0 <= i < |streams| ==> streams[i].Valid()
      modifies streams`bytesSentThisInterval, streams`bytesReceivedThisInterval, streams`intervalResults, streams`history
      modifies limit, limit.trafficBytes
      ensures limit.Valid() && forall i :: 0 <= i < |streams| ==> streams[i].Valid()
      ensures forall i :: 0 <= i < |streams| ==> Closed(streams[i], old(streams[i].history), old(streams[i].Open()), omitting)
      ensures limit.values == if server && !done && limit.bitrateLimit > 0 then old(limit.values) + [old(OpenBytes(|streams|))]
                              else old(limit.values)
    {
      hide Stream.Valid;
      hide RateWindow.RateLimit.Valid;
      var total := 0;
      for i := 0 to |streams|
        invariant forall j :: 0 <= j < |streams| ==> streams[j].Valid()
        invariant forall j :: i <= j < |streams| ==>
                    streams[j].bytesSentThisInterval == old(streams[j].bytesSentThisInterval)
                    && streams[j].bytesReceivedThisInterval == old(streams[j].bytesReceivedThisInterval)
        invariant forall j :: i <= j < |streams| ==> streams[j].history == old(streams[j].history)
        invariant forall j :: 0 <= j < i ==> Closed(streams[j], old(streams[j].history), old(streams[j].Open()), omitting)
        invariant total == old(OpenBytes(i))
        invariant limit.Valid() && limit.values == old(limit.values)
      {
        var transferred := streams[i].CloseInterval(omitting);
        total := total + transferred;
      }
      if server {
        limit.CheckTotalRate(total, done);
      }
    }
  }
}
