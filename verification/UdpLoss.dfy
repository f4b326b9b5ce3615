// UDP streams: the number in a datagram, and what one loss counter at the receiver says over a
// network that may lose, reorder and (if it likes) repeat datagrams.
module UdpLoss {
  import opened Bytes
  import opened NetworkOrder

  // ---------- the number in the datagram ----------

  // The header: seconds, microseconds and the packet count in 4 or 8 bytes.
  function Header(secs: nat, usecs: nat, pcount: nat, wide: bool): seq<byte> {
    BigEndian(secs, 4) + BigEndian(usecs, 4) + BigEndian(pcount, if wide then 8 else 4)
  }

  function HeaderCount(h: seq<byte>, wide: bool): nat
    requires |h| >= 16 || (!wide && |h| >= 12)
  {
    FromBigEndian(h[8..if wide then 16 else 12])
  }

  // The receiver reads the number that was written exactly while it fits the counter.
  lemma HeaderRoundTrip(secs: nat, usecs: nat, pcount: nat, wide: bool)
    ensures var limit := if wide then 0x1_0000_0000_0000_0000 else 0x1_0000_0000;
            HeaderCount(Header(secs, usecs, pcount, wide), wide) == pcount <==> pcount < limit
  {
    var width := if wide then 8 else 4;
    assert Header(secs, usecs, pcount, wide)[8..8 + width] == BigEndian(pcount, width);
    RoundTrips(pcount, width);
    Limits();
  }

  // The datagram starts with the time in two words and has the number behind them, most
  // significant byte first.
  lemma HeaderLayout(secs: nat, usecs: nat, pcount: nat, wide: bool, i: nat)
    requires i < |Header(secs, usecs, pcount, wide)|
    ensures |Header(secs, usecs, pcount, wide)| == if wide then 16 else 12
    ensures Header(secs, usecs, pcount, wide)[i] ==
            if i < 4 then secs / Power256(3 - i) % 256
            else if i < 8 then usecs / Power256(7 - i) % 256
            else pcount / Power256((if wide then 15 else 11) - i) % 256
  {
    hide BigEndian, Power256;
    if i < 4 {
      PlaceValues(secs, 4, i);
    } else if i < 8 {
      PlaceValues(usecs, 4, i - 4);
    } else {
      PlaceValues(pcount, if wide then 8 else 4, i - 8);
    }
  }

  // ---------- the numbers of a stream ----------

  // The numbers 1, ..., n.
  function Interval(n: nat): (s: set<nat>)
    ensures forall p: nat :: p in s <==> 1 <= p <= n
    ensures |s| == n
  {
    if n == 0 then {} else Interval(n - 1) + {n}
  }

  // What a receiver keeps, which is the highest number seen, the loss counter and the
  // out-of-order counter; and what it does not keep, which is the set of numbers that have come
  // and how often a number came again.
  datatype Tally = Tally(highest: nat, losses: nat, outOfOrder: nat, received: set<nat>, repeats: nat)

  const NOTHING: Tally := Tally(0, 0, 0, {}, 0)

  function Heard(t: Tally, p: nat): Tally {
    if p > t.highest then
      t.(highest := p, losses := t.losses + (p - 1 - t.highest), received := t.received + {p})
    else
      t.(outOfOrder := t.outOfOrder + 1, losses := if t.losses > 0 then t.losses - 1 else 0,
         received := t.received + {p}, repeats := t.repeats + if p in t.received then 1 else 0)
  }

  // The numbers up to the highest one that have not come.
  function Missing(t: Tally): set<nat> {
    Interval(t.highest) - t.received
  }

  // The counter has every missing number, or fewer once a number has come again.
  ghost predicate Good(t: Tally) {
    && t.received <= Interval(t.highest)
    && (t.highest > 0 ==> t.highest in t.received)
    && t.losses <= |Missing(t)|
    && (t.repeats == 0 ==> t.losses == |Missing(t)|)
  }

  lemma SubsetSize(a: set<nat>, b: set<nat>)
    requires a <= b
    ensures |b - a| == |b| - |a|
  {
    assert b == a + (b - a);
  }

  lemma HeardGood(t: Tally, p: nat)
    requires Good(t) && p >= 1
    ensures Good(Heard(t, p))
    // the zero guard of the decrement never bites before a number has come again
    ensures t.repeats == 0 && p <= t.highest && p !in t.received ==> t.losses > 0
  {
    var t' := Heard(t, p);
    SubsetSize(t.received, Interval(t.highest));
    SubsetSize(t'.received, Interval(t'.highest));
    if p <= t.highest && p !in t.received {
      assert p in Missing(t);
      assert |Missing(t)| > 0;
    }
  }

  // Exactly when one more datagram leaves a right count right: it is new, or nothing is missing.
  lemma StaysRight(t: Tally, p: nat)
    requires Good(t) && p >= 1 && t.losses == |Missing(t)|
    ensures Heard(t, p).losses == |Missing(Heard(t, p))| <==> p !in t.received || t.losses == 0
  {
    var t' := Heard(t, p);
    SubsetSize(t.received, Interval(t.highest));
    SubsetSize(t'.received, Interval(t'.highest));
    if p <= t.highest && p !in t.received {
      assert p in Missing(t);
    }
    if p in t.received {
      assert t'.received == t.received;
    }
  }

  lemma IsMissing(t: Tally, p: nat)
    requires 1 <= p <= t.highest && p !in t.received
    ensures p in Missing(t)
  {
  }

  // ---------- the counters, from the numbers that have come ----------

  // The highest of the numbers, or 0.
  function Highest(ps: seq<nat>): nat {
    if ps == [] then 0
    else
      var h, p := Highest(ps[..|ps| - 1]), ps[|ps| - 1];
      if p > h then p else h
  }

  lemma {:induction false} HighestIs(ps: seq<nat>)
    ensures forall i :: 0 <= i < |ps| ==> ps[i] <= Highest(ps)
    ensures ps != [] ==> Highest(ps) in ps
  {
    if ps != [] {
      var rest := ps[..|ps| - 1];
      HighestIs(rest);
      assert ps == rest + [ps[|ps| - 1]];
    }
  }

  // Number j has come behind one that is as high or higher.
  predicate Overtaken(ps: seq<nat>, j: nat)
    requires j < |ps|
  {
    exists i :: 0 <= i < j && ps[i] >= ps[j]
  }

  // Number j has come before.
  predicate Repeated(ps: seq<nat>, j: nat)
    requires j < |ps|
  {
    exists i :: 0 <= i < j && ps[i] == ps[j]
  }

  function Late(ps: seq<nat>): set<nat> {
    set j: nat | j < |ps| && Overtaken(ps, j)
  }

  function Again(ps: seq<nat>): set<nat> {
    set j: nat | j < |ps| && Repeated(ps, j)
  }

  // How far the highest number has come since the first k arrivals, less the arrivals since.
  function Excess(ps: seq<nat>, k: nat): int
    requires k <= |ps|
  {
    Highest(ps) - Highest(ps[..k]) - (|ps| - k)
  }

  // The counters say of the numbers that have come: the highest; how many were overtaken; how many
  // had come before; and as losses the largest excess there has been since any moment.
  ghost predicate Tells(t: Tally, ps: seq<nat>) {
    && t.highest == Highest(ps)
    && t.received == (set p | p in ps)
    && t.outOfOrder == |Late(ps)|
    && t.repeats == |Again(ps)|
    && (forall k :: 0 <= k <= |ps| ==> Excess(ps, k) <= t.losses)
    && (exists k :: 0 <= k <= |ps| && Excess(ps, k) == t.losses)
  }

  lemma NothingTells()
    ensures Tells(NOTHING, [])
  {
    assert Excess([], 0) == 0;
    assert Late([]) == {} && Again([]) == {};
  }

  lemma LateAfter(ps: seq<nat>, p: nat)
    ensures Late(ps + [p]) == Late(ps) + if p <= Highest(ps) && ps != [] then {|ps|} else {}
    ensures Again(ps + [p]) == Again(ps) + if p in ps then {|ps|} else {}
  {
    hide Highest;
    var ps' := ps + [p];
    forall j | 0 <= j < |ps| ensures Overtaken(ps', j) == Overtaken(ps, j) && Repeated(ps', j) == Repeated(ps, j) {
      assert forall i :: 0 <= i <= j ==> ps'[i] == ps[i];
    }
    LastOne(ps, p);
    SameButLast(ps, p);
  }

  lemma SameButLast(ps: seq<nat>, p: nat)
    requires forall j :: 0 <= j < |ps| ==> Overtaken(ps + [p], j) == Overtaken(ps, j) && Repeated(ps + [p], j) == Repeated(ps, j)
    ensures Late(ps + [p]) == Late(ps) + if Overtaken(ps + [p], |ps|) then {|ps|} else {}
    ensures Again(ps + [p]) == Again(ps) + if Repeated(ps + [p], |ps|) then {|ps|} else {}
  {
    hide Overtaken, Repeated;
  }

  lemma LastOne(ps: seq<nat>, p: nat)
    ensures Overtaken(ps + [p], |ps|) <==> p <= Highest(ps) && ps != []
    ensures Repeated(ps + [p], |ps|) <==> p in ps
  {
    hide Highest;
    HighestIs(ps);
    var ps' := ps + [p];
    assert forall i :: 0 <= i < |ps| ==> ps'[i] == ps[i];
    if ps != [] && p <= Highest(ps) {
      var i :| 0 <= i < |ps| && ps[i] >= p;
      assert ps'[i] >= p;
    }
    if p in ps {
      var i :| 0 <= i < |ps| && ps[i] == p;
      assert ps'[i] == p;
    }
  }

  lemma ExcessAfter(ps: seq<nat>, p: nat, k: nat)
    requires k <= |ps|
    ensures Excess(ps + [p], k) == Excess(ps, k) + (if p > Highest(ps) then p - Highest(ps) else 0) - 1
  {
    var ps' := ps + [p];
    assert ps'[..|ps|] == ps && ps'[|ps|] == p && ps'[..k] == ps[..k];
    assert Highest(ps') == if p > Highest(ps) then p else Highest(ps);
    hide Highest;
  }

  // One more number keeps it so.
  lemma HeardTells(t: Tally, ps: seq<nat>, p: nat)
    requires Tells(t, ps) && p >= 1
    ensures Tells(Heard(t, p), ps + [p])
  {
    CountsAfter(t, ps, p);
    LossesAfter(t, ps, p);
    hide Late, Again, Excess, Highest;
  }

  lemma CountsAfter(t: Tally, ps: seq<nat>, p: nat)
    requires t.highest == Highest(ps) && t.received == (set q | q in ps) && p >= 1
    requires t.outOfOrder == |Late(ps)| && t.repeats == |Again(ps)|
    ensures var t', ps' := Heard(t, p), ps + [p];
            && t'.highest == Highest(ps') && t'.received == (set q | q in ps')
            && t'.outOfOrder == |Late(ps')| && t'.repeats == |Again(ps')|
  {
    hide Late, Again, Highest;
    SizesAfter(ps, p);
    HighestAfter(ps, p);
  }

  lemma SizesAfter(ps: seq<nat>, p: nat)
    ensures |Late(ps + [p])| == |Late(ps)| + if p <= Highest(ps) && ps != [] then 1 else 0
    ensures |Again(ps + [p])| == |Again(ps)| + if p in ps then 1 else 0
  {
    LateAfter(ps, p);
    Within(ps);
    assert |ps| !in Late(ps) && |ps| !in Again(ps);
    hide Late, Again, Highest;
  }

  lemma HighestAfter(ps: seq<nat>, p: nat)
    ensures Highest(ps + [p]) == if p > Highest(ps) then p else Highest(ps)
    ensures p > Highest(ps) ==> p !in ps
    ensures (set q | q in ps + [p]) == (set q | q in ps) + {p}
    ensures ps == [] ==> Highest(ps) == 0
  {
    HighestIs(ps);
    assert (ps + [p])[..|ps|] == ps && (ps + [p])[|ps|] == p;
  }

  // The losses follow the largest excess.
  lemma LossesAfter(t: Tally, ps: seq<nat>, p: nat)
    requires t.highest == Highest(ps)
    requires forall k :: 0 <= k <= |ps| ==> Excess(ps, k) <= t.losses
    requires exists k :: 0 <= k <= |ps| && Excess(ps, k) == t.losses
    ensures var t', ps' := Heard(t, p), ps + [p];
            && (forall k :: 0 <= k <= |ps'| ==> Excess(ps', k) <= t'.losses)
            && exists k :: 0 <= k <= |ps'| && Excess(ps', k) == t'.losses
  {
    hide Excess, Highest;
    var ps', t' := ps + [p], Heard(t, p);
    NoExcess(ps');
    forall k | 0 <= k <= |ps| ensures Excess(ps', k) == Excess(ps, k) + (if p > t.highest then p - t.highest else 0) - 1 {
      ExcessAfter(ps, p, k);
    }
    var k :| 0 <= k <= |ps| && Excess(ps, k) == t.losses;
    assert Excess(ps', if p > t.highest || t.losses > 0 then k else |ps'|) == t'.losses;
  }

  lemma Within(ps: seq<nat>)
    ensures forall j :: j in Late(ps) || j in Again(ps) ==> j < |ps|
  {
  }

  lemma NoExcess(ps: seq<nat>)
    ensures Excess(ps, |ps|) == 0
  {
    assert ps[..|ps|] == ps;
  }

  // ---------- whole runs ----------

  // A write of the sender with its result, or a read of the receiver.
  datatype Event = Write(r: int) | Arrive(p: nat, r: int, running: bool)

  datatype Link = Link(sent: nat, tally: Tally)

  // The counters of both ends after one event, as StreamStats.Stream changes them.
  function Step(k: Link, e: Event): Link {
    match e
    case Write(r) => if r > 0 then k.(sent := k.sent + 1) else k
    case Arrive(p, r, running) => if r > 0 && running then k.(tally := Heard(k.tally, p)) else k
  }

  function Run(k: Link, es: seq<Event>): Link
    decreases |es|
  {
    if es == [] then k else Run(Step(k, es[0]), es[1..])
  }

  // From the events alone: the numbers that the receiver counts, in order, and how many datagrams
  // have gone out.
  function Arrivals(es: seq<Event>): seq<nat> {
    if es == [] then []
    else
      var e := es[|es| - 1];
      Arrivals(es[..|es| - 1]) + if e.Arrive? && e.r > 0 && e.running then [e.p] else []
  }

  function Sent(es: seq<Event>): nat {
    if es == [] then 0
    else
      var e := es[|es| - 1];
      Sent(es[..|es| - 1]) + if e.Write? && e.r > 0 then 1 else 0
  }

  // Only what has been written can arrive, in any order, any number of times.
  predicate Possible(k: Link, es: seq<Event>)
    decreases |es|
  {
    es == [] || ((es[0].Arrive? ==> 1 <= es[0].p <= k.sent) && Possible(Step(k, es[0]), es[1..]))
  }

  lemma {:induction false} RunGood(k: Link, es: seq<Event>)
    requires Good(k.tally) && k.tally.highest <= k.sent && Possible(k, es)
    ensures var k' := Run(k, es); Good(k'.tally) && k'.tally.highest <= k'.sent
    decreases |es|
  {
    hide Interval;
    hide Good;
    if es != [] {
      var e := es[0];
      if e.Arrive? {
        HeardGood(k.tally, e.p);
      }
      RunGood(Step(k, e), es[1..]);
    }
  }

  // After any run: the losses reported are the numbers up to the highest one received that have
  // not arrived, or fewer if some datagram arrived twice. Without repeats, what was sent is what
  // was received, what is reported lost, and what was sent after the highest number received.
  lemma LossesAreMissing(es: seq<Event>)
    requires Possible(Link(0, NOTHING), es)
    ensures var k := Run(Link(0, NOTHING), es);
            && k.tally.received <= Interval(k.sent)
            && k.tally.losses <= |Missing(k.tally)|
            && (k.tally.repeats == 0 ==>
                  && k.tally.losses == |Missing(k.tally)|
                  && k.sent == |k.tally.received| + k.tally.losses + (k.sent - k.tally.highest))
  {
    RunGood(Link(0, NOTHING), es);
    var t := Run(Link(0, NOTHING), es).tally;
    SubsetSize(t.received, Interval(t.highest));
  }

  lemma {:induction false} RunBehind(k: Link, es: seq<Event>, e: Event)
    ensures Run(k, es + [e]) == Step(Run(k, es), e)
    ensures Possible(k, es + [e]) ==> Possible(k, es) && (e.Arrive? ==> 1 <= e.p <= Run(k, es).sent)
    decreases |es|
  {
    if es == [] {
      assert [e][1..] == [];
    } else {
      assert (es + [e])[1..] == es[1..] + [e];
      RunBehind(Step(k, es[0]), es[1..], e);
    }
  }

  // After any run the counters of both ends are what the list of events says: see Tells.
  lemma {:induction false} RunTells(es: seq<Event>)
    requires Possible(Link(0, NOTHING), es)
    ensures Tells(Run(Link(0, NOTHING), es).tally, Arrivals(es))
    ensures Run(Link(0, NOTHING), es).sent == Sent(es)
    decreases |es|
  {
    hide Tells, Heard, Run, Possible;
    var start := Link(0, NOTHING);
    if es == [] {
      RunOfNothing(start);
      NothingTells();
    } else {
      var rest, e := es[..|es| - 1], es[|es| - 1];
      assert es == rest + [e];
      RunBehind(start, rest, e);
      RunTells(rest);
      assert Arrivals(rest) + [] == Arrivals(rest);
      if e.Arrive? && e.r > 0 && e.running {
        HeardTells(Run(start, rest).tally, Arrivals(rest), e.p);
      }
    }
  }

  lemma Unrolled(k: Link, e: Event, es: seq<Event>)
    ensures Run(k, [e] + es) == Run(Step(k, e), es)
    ensures Possible(k, [e] + es) <==> (e.Arrive? ==> 1 <= e.p <= k.sent) && Possible(Step(k, e), es)
  {
    assert ([e] + es)[1..] == es;
  }

  lemma HeardKeeps(t: Tally, p: nat, q: nat)
    ensures q in Heard(t, p).received <==> q in t.received || q == p
    ensures p > t.highest ==> Heard(t, p).highest == p && Heard(t, p).losses == t.losses + p - 1 - t.highest
    ensures p <= t.highest ==> Heard(t, p).highest == t.highest && Heard(t, p).losses == if t.losses > 0 then t.losses - 1 else 0
  {
  }

  // 1 and 3, and 3 once more.
  lemma OneAndThree(once: Tally, twice: Tally)
    requires once == Heard(Heard(NOTHING, 1), 3) && twice == Heard(once, 3)
    ensures once.losses == 1 && twice.losses == 0 && twice.highest == 3 && 2 !in twice.received
  {
    hide Heard;
    HeardKeeps(NOTHING, 1, 2);
    HeardKeeps(Heard(NOTHING, 1), 3, 2);
    HeardKeeps(once, 3, 2);
  }

  // Three datagrams are sent, 1 and 3 arrive: one is reported lost. When 3 arrives again, none is,
  // and number 2 is still missing.
  lemma RepeatHidesLoss()
    ensures var start, w, last := Link(0, NOTHING), Write(8), Arrive(3, 8, true);
            var es := [w] + ([w] + ([w] + ([Arrive(1, 8, true)] + ([last] + []))));
            var es' := [w] + ([w] + ([w] + ([Arrive(1, 8, true)] + ([last] + ([last] + [])))));
            && Possible(start, es) && Run(start, es).tally.losses == 1
            && Possible(start, es') && Run(start, es').tally.losses == 0 && 2 in Missing(Run(start, es').tally)
  {
    hide Missing, Interval, Heard, Run, Possible;
    var first, last := Arrive(1, 8, true), Arrive(3, 8, true);
    var one := Heard(NOTHING, 1);
    var once := Heard(one, 3);
    var twice := Heard(once, 3);
    OneAndThree(once, twice);
    RunOfNothing(Link(3, once));
    RunOfNothing(Link(3, twice));
    Unrolled(Link(3, once), last, []);
    Unrolled(Link(3, one), last, []);
    Unrolled(Link(3, one), last, [last] + []);
    ThreeWritten(first, [last] + []);
    ThreeWritten(first, [last] + ([last] + []));
    IsMissing(twice, 2);
  }

  lemma RunOfNothing(k: Link)
    ensures Run(k, []) == k && Possible(k, [])
  {
  }

  lemma ThreeWritten(e: Event, es: seq<Event>)
    requires e == Arrive(1, 8, true)
    ensures var all := [Write(8)] + ([Write(8)] + ([Write(8)] + ([e] + es)));
            && Run(Link(0, NOTHING), all) == Run(Link(3, Heard(NOTHING, 1)), es)
            && (Possible(Link(0, NOTHING), all) <==> Possible(Link(3, Heard(NOTHING, 1)), es))
  {
    hide Run, Possible, Heard;
    var w := Write(8);
    Unrolled(Link(3, NOTHING), e, es);
    Unrolled(Link(2, NOTHING), w, [e] + es);
    Unrolled(Link(1, NOTHING), w, [w] + ([e] + es));
    Unrolled(Link(0, NOTHING), w, [w] + ([w] + ([e] + es)));
  }
}
