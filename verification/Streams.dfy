// The data streams of a test: who sends, their ids, and the byte counts the two ends exchange.
module Streams {
  import opened Bytes
  import opened Doubles

  // ---------- modes ----------

  datatype Mode = Sender | Receiver | Bidirectional

  // The fields of a test that decide its mode.
  datatype Flags = Flags(isServer: bool, reverse: bool, bidirectional: bool, mode: Mode)

  function SetRole(f: Flags, isServer: bool): Flags {
    f.(isServer := isServer,
       mode := if f.reverse then (if isServer then Sender else Receiver)
               else if f.bidirectional then Bidirectional
               else if isServer then Receiver else Sender)
  }

  function SetReverse(f: Flags, reverse: bool): Flags {
    f.(reverse := reverse, mode := if reverse == f.isServer then Sender else Receiver)
  }

  function SetBidirectional(f: Flags, bidirectional: bool): Flags {
    var g := f.(bidirectional := bidirectional);
    if bidirectional then g.(mode := Bidirectional) else SetReverse(g, g.reverse)
  }

  function Opposite(m: Mode): Mode {
    match m
    case Sender => Receiver
    case Receiver => Sender
    case Bidirectional => Bidirectional
  }

  // ---------- streams ----------

  // sent counts from the start, omitted is its value at the end of the omit period.
  datatype Stream = Stream(id: nat, sender: bool, sent: int, omitted: int, received: int)

  // The sender flags of the client's streams, in the order in which it connects them.
  function Plan(mode: Mode, count: nat): (p: seq<bool>)
    ensures |p| == if mode.Bidirectional? then 2 * count else count
  {
    match mode
    case Sender => seq(count, _ => true)
    case Receiver => seq(count, _ => false)
    case Bidirectional => seq(count, _ => true) + seq(count, _ => false)
  }

  // iperf_add_stream: the ids are 1, 3, 4, 5 and so on.
  function StreamId(index: nat): nat {
    if index == 0 then 1 else index + 2
  }

  function AddStream(streams: seq<Stream>, sender: bool): seq<Stream> {
    streams + [Stream(StreamId(|streams|), sender, 0, 0, 0)]
  }

  // Bytes move on a running stream.
  function Count(streams: seq<Stream>, i: nat, bytes: nat): (r: seq<Stream>)
    requires i < |streams|
  {
    var s := streams[i];
    streams[i := if s.sender then s.(sent := s.sent + bytes) else s.(received := s.received + bytes)]
  }

  // iperf_reset_stats, as far as the byte counts go.
  function EndOmit(streams: seq<Stream>): (r: seq<Stream>)
    ensures |r| == |streams|
  {
    seq(|streams|, i requires 0 <= i < |streams| => streams[i].(omitted := streams[i].sent, received := 0))
  }

  // ---------- results ----------

  // The numbers of a report are JSON numbers: the bytes have been through a double.
  datatype Report = Report(id: int, bytes: Int64)

  // What an end has counted itself.
  function OwnCount(s: Stream): int {
    if s.sender then s.sent - s.omitted else s.received
  }

  function ReportOne(s: Stream): Report {
    Report(s.id, Carried(OwnCount(s)))
  }

  // send_results: one report for each stream.
  function ReportAll(streams: seq<Stream>): (r: seq<Report>)
    ensures |r| == |streams|
  {
    seq(|streams|, i requires 0 <= i < |streams| => ReportOne(streams[i]))
  }

  // The stream a report is about.
  function Find(streams: seq<Stream>, id: int): (r: Option<nat>)
    ensures r.Some? ==> r.value < |streams| && streams[r.value].id == id
    ensures r.None? ==> forall i :: 0 <= i < |streams| ==> streams[i].id != id
  {
    if streams == [] then None
    else if streams[0].id == id then Some(0)
    else match Find(streams[1..], id)
      case Some(i) => Some(i + 1)
      case None => None
  }

  function Merge(streams: seq<Stream>, r: Report): Option<seq<Stream>> {
    match Find(streams, r.id)
    case None => None
    case Some(i) =>
      Some(streams[i := if streams[i].sender then streams[i].(received := r.bytes) else streams[i].(sent := r.bytes)])
  }

  // get_results: every report goes to the stream with its id; an unknown id is an error.
  function MergeAll(streams: seq<Stream>, reports: seq<Report>): Option<seq<Stream>>
    decreases |reports|
  {
    if reports == [] then Some(streams)
    else match Merge(streams, reports[0])
      case None => None
      case Some(s) => MergeAll(s, reports[1..])
  }

  // ---------- proofs ----------

  // What the mode is to be: the end sends unless the other one is to; and both do if so asked.
  function ModeOf(isServer: bool, reverse: bool, bidirectional: bool): Mode {
    if bidirectional then Bidirectional
    else match (isServer, reverse)
      case (false, false) => Sender
      case (false, true) => Receiver
      case (true, false) => Receiver
      case (true, true) => Sender
  }

  // The options may come in any order: the role before or behind the direction, whatever was set
  // of the role and the mode before.
  lemma AnyOrder(f: Flags, isServer: bool, reverse: bool, bidirectional: bool)
    requires !f.reverse && !f.bidirectional && !(reverse && bidirectional)
    ensures var all := Flags(isServer, reverse, bidirectional, ModeOf(isServer, reverse, bidirectional));
            && SetRole(Directed(f, reverse, bidirectional), isServer) == all
            && Directed(SetRole(f, isServer), reverse, bidirectional) == all
            && SetReverse(SetRole(f, isServer), false) == SetRole(f, isServer) == SetBidirectional(SetRole(f, isServer), false)
  {
  }

  // The calls for the options, of which parse_arguments takes one at most.
  function Directed(f: Flags, reverse: bool, bidirectional: bool): Flags {
    if reverse then SetReverse(f, true) else if bidirectional then SetBidirectional(f, true) else f
  }

  // Whichever way the client is set up, the server it talks to takes the opposite mode.
  lemma ServerModeIsOpposite(reverse: bool, bidirectional: bool, start: Flags)
    requires !(reverse && bidirectional)
    requires start == Flags(true, false, false, Receiver)
    ensures var client := SetRole(Flags(false, false, false, Sender), false);
            var client' := if reverse then SetReverse(client, true) else if bidirectional then SetBidirectional(client, true) else client;
            var server := if reverse then SetReverse(start, true) else start;
            var server' := if bidirectional then SetBidirectional(server, true) else server;
            server'.mode == Opposite(client'.mode)
  {
  }

  // The ids that both ends give by the order of their streams.
  ghost predicate Numbered(streams: seq<Stream>) {
    forall i :: 0 <= i < |streams| ==> streams[i].id == StreamId(i)
  }

  // The ids go up from 1, and the only number they leave out is 2.
  lemma IdsAre(i: nat, id: nat)
    ensures StreamId(i) < StreamId(i + 1) && StreamId(0) == 1
    ensures (exists k: nat :: StreamId(k) == id) <==> id >= 1 && id != 2
  {
    if id >= 1 && id != 2 {
      var k := if id == 1 then 0 else id - 2;
      assert StreamId(k) == id;
    }
  }

  lemma IdsDistinct(i: nat, j: nat)
    ensures StreamId(i) == StreamId(j) ==> i == j
  {
  }

  lemma FindNumbered(streams: seq<Stream>, i: nat)
    requires Numbered(streams) && i < |streams|
    ensures Find(streams, StreamId(i)) == Some(i)
  {
    var r := Find(streams, StreamId(i));
    assert streams[i].id == StreamId(i);
    IdsDistinct(r.value, i);
  }

  // What a stream is once its peer's report has come in.
  function Merged(s: Stream, bytes: int): Stream {
    if s.sender then s.(received := bytes) else s.(sent := bytes)
  }

  // Reports with the ids of the streams, in their order, reach just these; here those from position k on.
  lemma {:induction false} MergeRest(streams: seq<Stream>, reports: seq<Report>, k: nat)
    requires Numbered(streams) && SameIds(reports, streams) && k <= |reports|
    ensures var r := MergeAll(streams, reports[k..]);
            && r.Some? && |r.value| == |streams|
            && (forall i :: 0 <= i < k ==> r.value[i] == streams[i])
            && (forall i :: k <= i < |streams| ==> r.value[i] == Merged(streams[i], reports[i].bytes))
    decreases |reports| - k
  {
    if k < |reports| {
      assert reports[k..][0] == reports[k] && reports[k..][1..] == reports[k + 1..];
      FindNumbered(streams, k);
      MergeRest(streams[k := Merged(streams[k], reports[k].bytes)], reports, k + 1);
    }
  }

  ghost predicate SameIds(rs: seq<Report>, streams: seq<Stream>) {
    |rs| == |streams| && forall i :: 0 <= i < |rs| ==> rs[i].id == streams[i].id
  }

  // The two ends of the same streams.
  ghost predicate Paired(a: seq<Stream>, b: seq<Stream>) {
    && |a| == |b| && Numbered(a) && Numbered(b)
    && forall i :: 0 <= i < |a| ==> a[i].sender == !b[i].sender
  }

  // What an end knows of the bytes sent after the omit period and of those received.
  function Sent(s: Stream): int {
    s.sent - s.omitted
  }

  // Until the exchange an end has counted in its own direction only.
  ghost predicate OwnCounts(streams: seq<Stream>) {
    forall i :: 0 <= i < |streams| ==>
      if streams[i].sender then streams[i].omitted <= streams[i].sent && streams[i].received == 0
      else streams[i].sent == streams[i].omitted == 0 && streams[i].received >= 0
  }

  lemma MergePaired(streams: seq<Stream>, peers: seq<Stream>)
    requires Paired(streams, peers)
    ensures var r := MergeAll(streams, ReportAll(peers));
            && r.Some? && Paired(r.value, peers)
            && forall i :: 0 <= i < |streams| ==> r.value[i] == Merged(streams[i], ReportOne(peers[i]).bytes)
  {
    assert ReportAll(peers)[0..] == ReportAll(peers);
    MergeRest(streams, ReportAll(peers), 0);
  }

  // A stream for which both ends hold the same counts.
  ghost predicate SameCounts(a: Stream, b: Stream) {
    a.id == b.id && Sent(a) == Sent(b) && a.received == b.received
  }

  // A count that comes through a report as it is.
  ghost predicate Exact(s: Stream) {
    Carried(OwnCount(s)) == OwnCount(s)
  }

  // iperf_exchange_results at both ends: the server takes the client's reports before it sends
  // its own. In the end both hold the same counts for a stream exactly when the counts of both
  // ends are integers that a double holds, as all up to 2^53 are.
  lemma ExchangeAgrees(c: seq<Stream>, s: seq<Stream>)
    requires Paired(c, s) && OwnCounts(c) && OwnCounts(s)
    ensures MergeAll(s, ReportAll(c)).Some?
    ensures var s' := MergeAll(s, ReportAll(c)).value;
            && MergeAll(c, ReportAll(s')).Some?
            && var c' := MergeAll(c, ReportAll(s')).value;
            && Paired(c', s') && |c'| == |c|
            && forall i :: 0 <= i < |c| ==>
                 && (SameCounts(c'[i], s'[i]) <==> Exact(c[i]) && Exact(s[i]))
                 && (OwnCount(c[i]) <= TWO_53 && OwnCount(s[i]) <= TWO_53 ==> SameCounts(c'[i], s'[i]))
  {
    hide MergeAll, ReportAll, Carried;
    MergePaired(s, c);
    MergePaired(c, MergeAll(s, ReportAll(c)).value);
    var s' := MergeAll(s, ReportAll(c)).value;
    var c' := MergeAll(c, ReportAll(s')).value;
    forall i | 0 <= i < |c|
      ensures SameCounts(c'[i], s'[i]) <==> Exact(c[i]) && Exact(s[i])
      ensures OwnCount(c[i]) <= TWO_53 && OwnCount(s[i]) <= TWO_53 ==> SameCounts(c'[i], s'[i]) {
      BothExact(c[i], s[i], s'[i], c'[i]);
    }
  }

  lemma BothExact(c: Stream, s: Stream, s': Stream, c': Stream)
    requires c.sender == !s.sender && c.id == s.id
    requires s' == Merged(s, ReportOne(c).bytes) && c' == Merged(c, ReportOne(s').bytes)
    requires if c.sender then c.omitted <= c.sent && s.sent == s.omitted == 0 && s.received >= 0
             else s.omitted <= s.sent && c.sent == c.omitted == 0 && c.received >= 0
    ensures SameCounts(c', s') <==> Exact(c) && Exact(s)
    ensures OwnCount(c) <= TWO_53 && OwnCount(s) <= TWO_53 ==> SameCounts(c', s')
  {
    hide Carried;
    if OwnCount(c) <= TWO_53 && OwnCount(s) <= TWO_53 {
      UpTo53Bits(OwnCount(c));
      UpTo53Bits(OwnCount(s));
    }
  }

  // One byte more than that gets lost.
  lemma TooManyBytes()
    ensures var s := Stream(1, true, TWO_53 + 1, 0, 0); !Exact(s) && ReportOne(s).bytes == TWO_53
  {
    FirstLost();
  }
}
