// The part of struct iperf_test that Streams and Session speak of on values: the mode, which its
// setters work out, and the singly linked list of streams.
module StreamList {
  import opened Bytes
  import opened Doubles
  import opened Streams

  class Node {
    var id: nat
    var sender: bool
    var bytesSent: int
    var bytesSentOmit: int
    var bytesReceived: int
    var next: Node?

    constructor (sender: bool)
      ensures View() == Stream(0, sender, 0, 0, 0) && next == null
    {
      id, this.sender, bytesSent, bytesSentOmit, bytesReceived, next := 0, sender, 0, 0, 0, null;
    }

    ghost function View(): Stream
      reads `id, `sender, `bytesSent, `bytesSentOmit, `bytesReceived
    {
      Stream(id, sender, bytesSent, bytesSentOmit, bytesReceived)
    }
  }

  class Test {
    var isServer: bool
    var reverse: bool
    var bidirectional: bool
    var mode: Mode
    var first: Node?
    ghost var list: seq<Node>

    constructor (isServer: bool)
      ensures Valid() && list == [] && ModeFields() == SetRole(Flags(isServer, false, false, Sender), isServer)
    {
      this.isServer, reverse, bidirectional := isServer, false, false;
      mode := if isServer then Receiver else Sender;
      first, list := null, [];
    }

    // ---------- modes ----------

    ghost function ModeFields(): Flags
      reads `isServer, `reverse, `bidirectional, `mode
    {
      Flags(isServer, reverse, bidirectional, mode)
    }

    // iperf_set_test_role
    method SetTestRole(isServer: bool)
      modifies `isServer, `mode
      ensures ModeFields() == SetRole(old(ModeFields()), isServer)
    {
      this.isServer := isServer;
      if !reverse {
        if bidirectional {
          mode := Bidirectional;
        } else if !isServer {
          mode := Sender;
        } else {
          mode := Receiver;
        }
      } else if !isServer {
        mode := Receiver;
      } else {
        mode := Sender;
      }
    }

    // iperf_set_test_reverse
    method SetTestReverse(reverse: bool)
      modifies `reverse, `mode
      ensures ModeFields() == SetReverse(old(ModeFields()), reverse)
    {
      this.reverse := reverse;
      if !reverse {
        mode := if !isServer then Sender else Receiver;
      } else {
        mode := if !isServer then Receiver else Sender;
      }
    }

    // iperf_set_test_bidirectional
    method SetTestBidirectional(bidirectional: bool)
      modifies `bidirectional, `reverse, `mode
      ensures ModeFields() == SetBidirectional(old(ModeFields()), bidirectional)
    {
      this.bidirectional := bidirectional;
      if bidirectional {
        mode := Bidirectional;
      } else {
        SetTestReverse(reverse);
      }
    }

    // ---------- the list ----------

    ghost predicate Valid()
      reads `first, `list, list`next
    {
      && (forall i, j :: 0 <= i < j < |list| ==> list[i] != list[j])
      && first == (if list == [] then null else list[0])
      && (forall i {:trigger list[i].next} :: 0 <= i < |list| ==> list[i].next == if i + 1 < |list| then list[i + 1] else null)
    }

    ghost function View(): (s: seq<Stream>)
      reads `list, list`id, list`sender, list`bytesSent, list`bytesSentOmit, list`bytesReceived
      ensures |s| == |list| && forall i :: 0 <= i < |list| ==> s[i] == list[i].View()
    {
      Views(list)
    }

    // iperf_add_stream: walks to the end, counting from 2, and puts the new stream there.
    method AddStream(sp: Node)
      requires Valid() && sp !in list && sp.next == null
      modifies `first, `list, list`next, sp`id
      ensures Valid() && list == old(list) + [sp] && sp.id == StreamId(|old(list)|)
    {
      if first == null {
        first := sp;
        sp.id := 1;
      } else {
        var i := 2;
        var prev: Node? := null;
        var n := first;
        ghost var k := 0;
        while n != null
          invariant k <= |list| && i == k + 2
          invariant n == if k < |list| then list[k] else null
          invariant prev == if k == 0 then null else list[k - 1]
          decreases |list| - k
        {
          prev := n;
          i := i + 1;
          n := n.next;
          k := k + 1;
        }
        if prev != null {
          prev.next := sp;
          sp.id := i;
        }
      }
      list := list + [sp];
    }

    // The search for the stream a report is about.
    method FindStream(id: int) returns (sp: Node?, ghost k: nat)
      requires Valid()
      ensures sp == null <==> Find(View(), id).None?
      ensures sp != null ==> Find(View(), id) == Some(k) && k < |list| && sp == list[k]
    {
      sp, k := first, 0;
      while sp != null
        invariant k <= |list| && sp == if k < |list| then list[k] else null
        invariant forall i :: 0 <= i < k ==> list[i].id != id
        decreases |list| - k
      {
        if sp.id == id {
          break;
        }
        sp, k := sp.next, k + 1;
      }
      if sp != null {
        FirstFound(View(), id, k);
      }
    }

    // One report of get_results: the peer's count goes to the stream with its id.
    method MergeReport(r: Report) returns (ok: bool)
      requires Valid()
      modifies list`bytesSent, list`bytesReceived
      ensures Valid()
      ensures match Merge(old(View()), r)
              case None => !ok && View() == old(View())
              case Some(s) => ok && View() == s
    {
      hide Find, Views;
      ghost var before := View();
      var sp, k := FindStream(r.id);
      if sp == null {
        return false;
      }
      if sp.sender {
        sp.bytesReceived := r.bytes;
      } else {
        sp.bytesSent := r.bytes;
      }
      assert forall i :: 0 <= i < |list| && i != k ==> View()[i] == before[i];
      assert View() == before[k := Merged(before[k], r.bytes)];
      return true;
    }

    // The loop of get_results. It goes on after a report it cannot use.
    method GetResults(reports: seq<Report>) returns (ok: bool)
      requires Valid()
      modifies list`bytesSent, list`bytesReceived
      ensures Valid()
      ensures ok <==> MergeAll(old(View()), reports).Some?
      ensures ok ==> View() == MergeAll(old(View()), reports).value
    {
      hide Merge;
      ok := true;
      assert reports[0..] == reports;
      for i := 0 to |reports|
        invariant Valid()
        invariant if ok then MergeAll(old(View()), reports) == MergeAll(View(), reports[i..]) else MergeAll(old(View()), reports).None?
      {
        assert reports[i..][0] == reports[i] && reports[i..][1..] == reports[i + 1..];
        var merged := MergeReport(reports[i]);
        ok := ok && merged;
      }
    }

    // The loop of send_results over the streams.
    method SendResults() returns (reports: seq<Report>)
      requires Valid()
      ensures reports == ReportAll(View())
    {
      reports := [];
      var sp := first;
      ghost var k := 0;
      while sp != null
        invariant k <= |list| && sp == if k < |list| then list[k] else null
        invariant |reports| == k && forall i :: 0 <= i < k ==> reports[i] == ReportOne(list[i].View())
        decreases |list| - k
      {
        var bytes := if sp.sender then sp.bytesSent - sp.bytesSentOmit else sp.bytesReceived;
        reports := reports + [Report(sp.id, Carried(bytes))];
        sp, k := sp.next, k + 1;
      }
    }
  }

  ghost function Views(list: seq<Node>): (s: seq<Stream>)
    reads list`id, list`sender, list`bytesSent, list`bytesSentOmit, list`bytesReceived
    ensures |s| == |list| && forall i :: 0 <= i < |list| ==> s[i] == list[i].View()
  {
    if list == [] then [] else Views(list[..|list| - 1]) + [list[|list| - 1].View()]
  }

  lemma {:induction false} FirstFound(s: seq<Stream>, id: int, k: nat)
    requires k < |s| && s[k].id == id && forall i :: 0 <= i < k ==> s[i].id != id
    ensures Find(s, id) == Some(k)
  {
    if k > 0 {
      FirstFound(s[1..], id, k - 1);
    }
  }
}
