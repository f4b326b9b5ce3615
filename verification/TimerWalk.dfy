// Which timers one walk of tmr_run leaves out, worked out beforehand from the deadlines. The
// callback at the end of the omit period moves the report timers out of the walk's way, and the
// walk stops when the timer it would go on with is one of them.
module TimerWalk {
  import opened TimerQueue

  function Periodic(proc: TimerProc): bool {
    proc == TimerProc.Stats || proc == Reporter
  }

  // A timer as the walk finds it; called is whether the walk has fired it before.
  datatype Entry = Entry(proc: TimerProc, due: nat, usecs: nat, called: bool)

  ghost predicate PositivePeriods(q: seq<Entry>) {
    forall e :: e in q && Periodic(e.proc) ==> e.usecs >= 1
  }

  function LateBy(e: Entry, now: nat): nat {
    if e.due <= now then now - e.due + 1 else 0
  }

  function Lateness(q: seq<Entry>, now: nat): nat {
    if q == [] then 0 else LateBy(q[0], now) + Lateness(q[1..], now)
  }

  // Into its place, behind every entry that is not later.
  function Place(q: seq<Entry>, e: Entry): seq<Entry> {
    if q == [] || e.due < q[0].due then [e] + q else [q[0]] + Place(q[1..], e)
  }

  // What the walk has before it once e has been fired and has its next deadline: e is left behind
  // when that deadline comes before all the rest.
  function Again(rest: seq<Entry>, e: Entry): seq<Entry> {
    if rest == [] || e.due < rest[0].due then rest else Place(rest, e)
  }

  // The timers that are due, and that the walk over q does not fire.
  ghost function Skipped(q: seq<Entry>, now: nat): set<TimerProc>
    requires PositivePeriods(q)
    decreases Lateness(q, now)
  {
    if q == [] || q[0].due > now then {}
    else
      var e, rest := q[0], q[1..];
      match e.proc
      case TestEnd => Skipped(rest, now)
      case OmitEnd => SkippedByOmit(rest, now)
      case _ =>
        var again := e.(due := e.due + e.usecs, called := true);
        AgainLess(rest, again, now);
        Skipped(Again(rest, again), now)
  }

  // Behind the end of an omit period: the report timers that are due, and everything that is due
  // when the first timer behind it is a report timer.
  ghost function SkippedByOmit(rest: seq<Entry>, now: nat): set<TimerProc> {
    set e | e in rest && e.due <= now && !e.called && (Periodic(e.proc) || Periodic(rest[0].proc)) :: e.proc
  }

  lemma {:induction false} PlaceAdds(q: seq<Entry>, e: Entry, now: nat)
    ensures Lateness(Place(q, e), now) == Lateness(q, now) + LateBy(e, now)
    ensures forall x :: x in Place(q, e) <==> x in q || x == e
  {
    if q != [] && e.due >= q[0].due {
      PlaceAdds(q[1..], e, now);
      assert ([q[0]] + Place(q[1..], e))[1..] == Place(q[1..], e);
    } else {
      assert ([e] + q)[1..] == q;
    }
  }

  lemma AgainLess(rest: seq<Entry>, e: Entry, now: nat)
    ensures Lateness(Again(rest, e), now) <= Lateness(rest, now) + LateBy(e, now)
    ensures forall x :: x in Again(rest, e) ==> x in rest || x == e
  {
    PlaceAdds(rest, e, now);
  }

  ghost predicate InOrder(q: seq<Entry>) {
    forall i, j :: 0 <= i < j < |q| ==> q[i].due <= q[j].due
  }

  lemma {:induction false} PlaceAt(q: seq<Entry>, e: Entry, j: nat)
    requires j <= |q|
    requires forall i :: 0 <= i < j ==> q[i].due <= e.due
    requires forall i :: j <= i < |q| ==> e.due < q[i].due
    ensures Place(q, e) == q[..j] + [e] + q[j..]
  {
    if j == 0 {
      assert q[..0] + [e] + q[0..] == [e] + q;
    } else {
      PlaceAt(q[1..], e, j - 1);
      assert q[..j] == [q[0]] + q[1..][..j - 1] && q[j..] == q[1..][j - 1..];
    }
  }

  // One firing that is not the end of an omit period, at position k, takes nothing off the
  // outcome: the entry at position k is gone, or is at position p with its next deadline.
  lemma OneShotStep(es: seq<Entry>, k: nat, now: nat)
    requires k < |es| && es[k].due <= now && es[k].proc == TestEnd && PositivePeriods(es[k..])
    ensures PositivePeriods(Rest(es, k)[k..])
    ensures Skipped(Rest(es, k)[k..], now) == Skipped(es[k..], now)
  {
    assert Rest(es, k)[k..] == es[k..][1..];
  }

  lemma PeriodicStep(es: seq<Entry>, k: nat, p: nat, e: Entry, now: nat)
    requires k < |es| && p < |es| && es[k].due <= now && Periodic(es[k].proc) && PositivePeriods(es[k..])
    requires e == es[k].(due := es[k].due + es[k].usecs, called := true)
    requires forall i :: 0 <= i < p ==> Rest(es, k)[i].due <= e.due
    requires forall i :: p <= i < |Rest(es, k)| ==> e.due < Rest(es, k)[i].due
    ensures var after := Put(Rest(es, k), p, e)[if p <= k then k + 1 else k..];
            PositivePeriods(after) && Skipped(after, now) == Skipped(es[k..], now)
  {
    hide Skipped, Lateness, Place;
    var tail := es[k + 1..];
    Unfold(es[k..], e, now);
    assert es[k..][1..] == tail;
    AgainLess(tail, e, now);
    assert Put(Rest(es, k), p, e)[if p <= k then k + 1 else k..] == Again(tail, e) by {
      AgainAt(es, k, p, e);
    }
  }

  lemma Unfold(q: seq<Entry>, e: Entry, now: nat)
    requires q != [] && q[0].due <= now && Periodic(q[0].proc) && PositivePeriods(q)
    requires e == q[0].(due := q[0].due + q[0].usecs, called := true)
    ensures PositivePeriods(Again(q[1..], e)) && Skipped(q, now) == Skipped(Again(q[1..], e), now)
  {
    AgainLess(q[1..], e, now);
  }

  function Rest(es: seq<Entry>, k: nat): seq<Entry>
    requires k < |es|
  {
    es[..k] + es[k + 1..]
  }

  function Put(es: seq<Entry>, p: nat, e: Entry): seq<Entry>
    requires p <= |es|
  {
    es[..p] + [e] + es[p..]
  }

  // Where e stands in the whole list decides where it stands in what the walk has before it.
  lemma AgainAt(es: seq<Entry>, k: nat, p: nat, e: Entry)
    requires k < |es| && p < |es|
    requires forall i :: 0 <= i < p ==> Rest(es, k)[i].due <= e.due
    requires forall i :: p <= i < |Rest(es, k)| ==> e.due < Rest(es, k)[i].due
    ensures Put(Rest(es, k), p, e)[if p <= k then k + 1 else k..] == Again(es[k + 1..], e)
  {
    var rest, tail := Rest(es, k), es[k + 1..];
    assert forall i :: 0 <= i < |tail| ==> rest[k + i] == tail[i];
    assert tail != [] ==> rest[k] == tail[0];
    hide Place, Rest;
    if p <= k {
      assert Put(rest, p, e)[k + 1..] == tail by {
        TailOfPut(es, k, p, e);
      }
    } else {
      PlaceAt(tail, e, p - k);
      TailOfPut(es, k, p, e);
    }
  }

  lemma TailOfPut(es: seq<Entry>, k: nat, p: nat, e: Entry)
    requires k < |es| && p < |es|
    ensures p <= k ==> Put(Rest(es, k), p, e)[k + 1..] == es[k + 1..]
    ensures p > k ==> Put(Rest(es, k), p, e)[k..] == es[k + 1..][..p - k] + [e] + es[k + 1..][p - k..]
  {
    var rest, tail := Rest(es, k), es[k + 1..];
    var all := Put(rest, p, e);
    hide Rest, Put;
    if p <= k {
      forall i | 0 <= i < |tail| ensures all[k + 1..][i] == tail[i] {
        PutAt(rest, p, e, k + 1 + i);
        RestAt(es, k, k + i);
      }
    } else {
      var parts := tail[..p - k] + [e] + tail[p - k..];
      forall i | 0 <= i < |parts| ensures all[k..][i] == parts[i] {
        PutAt(rest, p, e, k + i);
        if i != p - k {
          RestAt(es, k, if i < p - k then k + i else k + i - 1);
        }
      }
    }
  }

  lemma PutAt(q: seq<Entry>, p: nat, e: Entry, i: nat)
    requires p <= |q| && i <= |q|
    ensures Put(q, p, e)[i] == if i < p then q[i] else if i == p then e else q[i - 1]
  {
  }

  lemma RestAt(es: seq<Entry>, k: nat, i: nat)
    requires k < |es| && i < |es| - 1
    ensures Rest(es, k)[i] == if i < k then es[i] else es[i + 1]
  {
  }

  // ---------- the outcome in terms of the deadlines ----------

  ghost predicate OneOfEachKind(q: seq<Entry>) {
    forall i, j :: 0 <= i < j < |q| ==> q[i].proc != q[j].proc
  }

  // Whether one of the report timers rs, which are all in front of the end of the omit period at
  // omit, has its deadline from omit on but before end when that end is reached. A report timer
  // that is fired gets a new deadline, and it has another turn only if that is behind the next
  // report timer and in front of omit.
  function LandsBetween(rs: seq<Entry>, omit: nat, end: nat): bool
    requires forall i :: 0 <= i < |rs| ==> rs[i].usecs >= 1
    decreases Lateness(rs, omit), |rs|
  {
    if rs == [] then false
    else
      var e := rs[0].(due := rs[0].due + rs[0].usecs, called := true);
      if |rs| == 1 || e.due < rs[1].due || e.due >= omit then
        omit <= e.due < end || LandsBetween(rs[1..], omit, end)
      else
        PlaceAdds(rs[1..], e, omit);
        assert forall x :: x in Place(rs[1..], e) ==> x.usecs >= 1;
        LandsBetween(Place(rs[1..], e), omit, end)
  }

  lemma {:induction false} PlaceSplit(q: seq<Entry>, e: Entry) returns (j: nat)
    requires InOrder(q)
    ensures j <= |q| && Place(q, e) == Put(q, j, e) && InOrder(Put(q, j, e))
    ensures forall i :: 0 <= i < j ==> q[i].due <= e.due
    ensures forall i :: j <= i < |q| ==> e.due < q[i].due
  {
    hide Place;
    j := 0;
    while j < |q| && q[j].due <= e.due
      invariant j <= |q| && forall i :: 0 <= i < j ==> q[i].due <= e.due
    {
      j := j + 1;
    }
    assert forall i :: j <= i < |q| ==> q[j].due <= q[i].due;
    PlaceAt(q, e, j);
  }

  // The test's end is left out exactly when a report timer comes between it and the end of the
  // omit period: one that is there from the start, or one that lands there.
  ghost predicate Caught(q: seq<Entry>, o: nat, t: nat)
    requires o < t < |q| && PositivePeriods(q) && forall i :: 0 <= i < o ==> Periodic(q[i].proc)
  {
    Periodic(q[o + 1].proc) || LandsBetween(q[..o], q[o].due, q[t].due)
  }

  // The deadline of a report timer after so many more periods.
  function Turn(e: Entry, i: nat): int {
    e.due + i * e.usecs
  }

  ghost predicate TurnsUp(e: Entry, omit: nat, end: nat) {
    exists i: nat :: i >= 1 && omit <= Turn(e, i) < end
  }

  // One report timer in front lands in between exactly when its next deadline does.
  lemma OneLands(a: Entry, omit: nat, end: nat)
    requires a.usecs >= 1
    ensures LandsBetween([a], omit, end) <==> omit <= a.due + a.usecs < end
  {
    assert [a][1..] == [];
  }

  // Two of the same period, as the options make them: when they are no further apart than it, they
  // take turns until the end of the omit period, so that one lands there exactly when some later
  // deadline of either does. Otherwise only the next deadline of the later one counts.
  lemma {:induction false} TwoLand(a: Entry, b: Entry, omit: nat, end: nat)
    requires a.usecs == b.usecs >= 1 && a.due <= b.due <= omit
    ensures b.due <= a.due + a.usecs ==> (LandsBetween([a, b], omit, end) <==> TurnsUp(a, omit, end) || TurnsUp(b, omit, end))
    ensures b.due > a.due + a.usecs ==> (LandsBetween([a, b], omit, end) <==> omit <= b.due + b.usecs < end)
    decreases omit - a.due, omit - b.due
  {
    var e := a.(due := a.due + a.usecs, called := true);
    assert [a, b][1..] == [b];
    if e.due < b.due {
      OneLands(b, omit, end);
    } else if e.due >= omit {
      OneLands(b, omit, end);
      FirstTurn(a, omit, end);
      FirstTurn(b, omit, end);
    } else {
      assert Place([b], e) == [b, e] by {
        assert [b][1..] == [];
      }
      TwoLand(b, e, omit, end);
      NextTurn(a, e, omit, end);
    }
  }

  // When the next deadline is past the omit period, only that one can turn up.
  lemma FirstTurn(e: Entry, omit: nat, end: nat)
    requires e.usecs >= 1 && e.due + e.usecs >= omit
    ensures TurnsUp(e, omit, end) <==> e.due + e.usecs < end
  {
    assert Turn(e, 1) == e.due + e.usecs;
    forall i: nat | i >= 1 ensures Turn(e, i) >= Turn(e, 1) {
      assert (i - 1) * e.usecs >= 0;
      assert i * e.usecs == (i - 1) * e.usecs + e.usecs;
    }
  }

  // When it is not, the timer turns up as it does one period on.
  lemma NextTurn(a: Entry, e: Entry, omit: nat, end: nat)
    requires e == a.(due := a.due + a.usecs, called := true) && e.due < omit
    ensures TurnsUp(a, omit, end) <==> TurnsUp(e, omit, end)
  {
    forall i: nat ensures Turn(e, i) == Turn(a, i + 1) {
      assert (i + 1) * a.usecs == i * a.usecs + a.usecs;
    }
    if TurnsUp(a, omit, end) {
      var i: nat :| i >= 1 && omit <= Turn(a, i) < end;
      assert Turn(a, 1) == e.due;
      assert Turn(e, i - 1) == Turn(a, i);
    }
    if TurnsUp(e, omit, end) {
      var i: nat :| i >= 1 && omit <= Turn(e, i) < end;
      assert Turn(e, i) == Turn(a, i + 1);
    }
  }

  // The lists the outcome is about: one timer of each kind at most, in order, the test's end at t
  // behind the end of the omit period at o, and only report timers in front of that.
  ghost predicate Setting(q: seq<Entry>, o: nat, t: nat, now: nat) {
    && InOrder(q) && OneOfEachKind(q) && PositivePeriods(q) && o < t < |q|
    && q[o].proc == OmitEnd && q[t].proc == TestEnd && q[t].due <= now && !q[t].called
    && forall i :: 0 <= i < o ==> Periodic(q[i].proc)
  }

  lemma {:induction false} TestEndSkipped(q: seq<Entry>, o: nat, t: nat, now: nat)
    requires Setting(q, o, t, now)
    ensures TestEnd in Skipped(q, now) <==> Caught(q, o, t)
    decreases Lateness(q, now)
  {
    if o == 0 {
      OmitThenTestEnd(q, t, now);
    } else {
      FirstIsReport(q, o, t, now);
      var e, rest := q[0].(due := q[0].due + q[0].usecs, called := true), q[1..];
      hide Setting, Skipped, Caught, LandsBetween, Place, Put, Lateness, InOrder, OneOfEachKind, PositivePeriods;
      Unfold(q, e, now);
      LessLate(q, e, now);
      var j := Next(q, e);
      hide Again, Moves;
      if e.due < rest[0].due {
        LeftBehind(q, e, o, t, now);
        TestEndSkipped(rest, o - 1, t - 1, now);
      } else {
        if j < o {
          InFront(q, e, j, o, t, now);
          TestEndSkipped(Put(rest, j, e), o, t, now);
        } else {
          Behind(q, e, j, o, t, now);
          TestEndSkipped(Put(rest, j, e), o - 1, if j < t then t else t - 1, now);
        }
      }
    }
  }

  lemma OmitThenTestEnd(q: seq<Entry>, t: nat, now: nat)
    requires Setting(q, 0, t, now)
    ensures TestEnd in Skipped(q, now) <==> Caught(q, 0, t)
  {
    assert q[1..][0] == q[1] && q[1..][t - 1] == q[t];
  }

  lemma FirstIsReport(q: seq<Entry>, o: nat, t: nat, now: nat)
    requires Setting(q, o, t, now) && o > 0
    ensures Periodic(q[0].proc) && q[0].usecs >= 1 && q[0].due <= now && PositivePeriods(q) && InOrder(q[1..]) && |q| > 2
  {
    assert q[0] in q;
  }

  lemma LessLate(q: seq<Entry>, e: Entry, now: nat)
    requires q != [] && q[0].due <= now && q[0].usecs >= 1 && e.due == q[0].due + q[0].usecs
    ensures Lateness(Again(q[1..], e), now) < Lateness(q, now)
  {
    AgainLess(q[1..], e, now);
  }

  lemma LeftBehind(q: seq<Entry>, e: Entry, o: nat, t: nat, now: nat)
    requires Setting(q, o, t, now) && o > 0 && e == q[0].(due := q[0].due + q[0].usecs, called := true)
    requires e.due < q[1].due
    ensures Setting(q[1..], o - 1, t - 1, now)
    ensures Caught(q, o, t) <==> Caught(q[1..], o - 1, t - 1)
  {
    assert q[..o][1..] == q[1..][..o - 1];
    assert q[1].due <= q[o].due;
  }

  // e is the first entry with its next deadline, and j its place among the others.
  ghost predicate Moves(q: seq<Entry>, e: Entry, j: nat) {
    && 0 < j < |q| && e == q[0].(due := q[0].due + q[0].usecs, called := true)
    && (forall i :: 0 <= i < j ==> q[1..][i].due <= e.due)
    && (forall i :: j <= i < |q| - 1 ==> e.due < q[1..][i].due)
  }

  // What the walk has before it once the first entry has been fired.
  lemma Next(q: seq<Entry>, e: Entry) returns (j: nat)
    requires |q| > 1 && InOrder(q[1..]) && e == q[0].(due := q[0].due + q[0].usecs, called := true)
    ensures e.due < q[1..][0].due ==> Again(q[1..], e) == q[1..]
    ensures e.due >= q[1..][0].due ==> Moves(q, e, j) && Again(q[1..], e) == Put(q[1..], j, e)
  {
    hide InOrder, Put, Place;
    j := PlaceSplit(q[1..], e);
  }

  // Where each entry comes from when the first one is moved to j.
  lemma MovedAt(q: seq<Entry>, e: Entry, j: nat, i: nat)
    requires j < |q| && i < |q|
    ensures Put(q[1..], j, e)[i] == if i < j then q[i + 1] else if i == j then e else q[i]
  {
  }

  lemma MovedInOrder(q: seq<Entry>, e: Entry, j: nat)
    requires InOrder(q) && Moves(q, e, j)
    ensures InOrder(Put(q[1..], j, e))
  {
    var after := Put(q[1..], j, e);
    assert forall i :: 0 <= i < |q| - 1 ==> q[1..][i] == q[i + 1];
    hide Put;
    forall i, k | 0 <= i < k < |after| ensures after[i].due <= after[k].due {
      MovedAt(q, e, j, i);
      MovedAt(q, e, j, k);
      if i == j {
        assert q[1..][k - 1] == q[k];
      }
      if k == j {
        assert q[1..][i] == q[i + 1];
      }
    }
  }

  lemma MovedKinds(q: seq<Entry>, e: Entry, j: nat)
    requires OneOfEachKind(q) && PositivePeriods(q) && Moves(q, e, j)
    ensures OneOfEachKind(Put(q[1..], j, e)) && PositivePeriods(Put(q[1..], j, e))
  {
    var after := Put(q[1..], j, e);
    assert q[0] in q;
    assert forall x :: x in after ==> x in q || x == e;
    hide Put, Moves;
    forall i, k | 0 <= i < k < |after| ensures after[i].proc != after[k].proc {
      MovedAt(q, e, j, i);
      MovedAt(q, e, j, k);
    }
  }

  // The new deadline is still in front of the end of the omit period.
  lemma InFront(q: seq<Entry>, e: Entry, j: nat, o: nat, t: nat, now: nat)
    requires Setting(q, o, t, now) && Moves(q, e, j) && j < o
    ensures Setting(Put(q[1..], j, e), o, t, now)
    ensures Caught(q, o, t) <==> Caught(Put(q[1..], j, e), o, t)
  {
    MovedInOrder(q, e, j);
    MovedKinds(q, e, j);
    hide InOrder, OneOfEachKind, PositivePeriods, LandsBetween, Put;
    var after := Put(q[1..], j, e);
    forall i | 0 <= i < o ensures Periodic(after[i].proc) {
      MovedAt(q, e, j, i);
    }
    MovedAt(q, e, j, o);
    MovedAt(q, e, j, o + 1);
    MovedAt(q, e, j, t);
    ReportsInFront(q, e, j, o, t);
  }

  // The report timers in front of the end of the omit period land as before.
  lemma ReportsInFront(q: seq<Entry>, e: Entry, j: nat, o: nat, t: nat)
    requires Moves(q, e, j) && j < o < t < |q| && forall i :: 0 <= i < o ==> q[i].usecs >= 1
    ensures forall i :: 0 <= i < o ==> Put(q[1..], j, e)[..o][i].usecs >= 1
    ensures LandsBetween(q[..o], q[o].due, q[t].due) == LandsBetween(Put(q[1..], j, e)[..o], q[o].due, q[t].due)
  {
    var rest, rs := q[1..], q[..o];
    assert rs[1..] == rest[..o - 1] && rs[1] == rest[0];
    assert rest[o - 1] == q[o];
    assert forall i :: 0 <= i < o - 1 ==> rest[..o - 1][i] == rest[i];
    PlaceAt(rest[..o - 1], e, j);
    Prefix(rest, j, e, o - 1);
    hide Place, Put;
    forall i | 0 <= i < o ensures Put(rest, j, e)[..o][i].usecs >= 1 {
      MovedAt(q, e, j, i);
    }
  }

  lemma Prefix(s: seq<Entry>, j: nat, e: Entry, n: nat)
    requires j <= n <= |s|
    ensures Put(s, j, e)[..n + 1] == Put(s[..n], j, e)
  {
  }

  // The new deadline is behind the end of the omit period.
  lemma Behind(q: seq<Entry>, e: Entry, j: nat, o: nat, t: nat, now: nat)
    requires Setting(q, o, t, now) && Moves(q, e, j) && 0 < o <= j
    ensures var t' := if j < t then t else t - 1;
            && Setting(Put(q[1..], j, e), o - 1, t', now)
            && (Caught(q, o, t) <==> Caught(Put(q[1..], j, e), o - 1, t'))
  {
    MovedInOrder(q, e, j);
    MovedKinds(q, e, j);
    var t' := if j < t then t else t - 1;
    var after := Put(q[1..], j, e);
    BetweenIsReports(q, o, t);
    hide InOrder, OneOfEachKind, PositivePeriods;
    forall i | 0 <= i < o ensures Periodic(after[i].proc) || i == o - 1 {
      MovedAt(q, e, j, i);
    }
    MovedAt(q, e, j, o - 1);
    MovedAt(q, e, j, o);
    MovedAt(q, e, j, t');
    LandsBehind(q, e, j, o, t);
  }

  lemma LandsBehind(q: seq<Entry>, e: Entry, j: nat, o: nat, t: nat)
    requires Moves(q, e, j) && 0 < o <= j && o < t < |q| && forall i :: 0 <= i < o ==> q[i].usecs >= 1
    ensures q[o].due <= e.due && (e.due < q[t].due <==> j < t)
    ensures Put(q[1..], j, e)[..o - 1] == q[..o][1..]
    ensures LandsBetween(q[..o], q[o].due, q[t].due) <==>
              e.due < q[t].due || LandsBetween(q[..o][1..], q[o].due, q[t].due)
  {
    assert q[1..][o - 1] == q[o] && q[1..][t - 1] == q[t];
  }

  lemma BetweenIsReports(q: seq<Entry>, o: nat, t: nat)
    requires OneOfEachKind(q) && o < t < |q| && q[o].proc == OmitEnd && q[t].proc == TestEnd
    ensures Periodic(q[o + 1].proc) <==> o + 1 < t
  {
  }

  // In a test's list, whose two report timers have the same period, the condition can be read off
  // the deadlines.
  lemma CaughtExactly(q: seq<Entry>, o: nat, t: nat, now: nat)
    requires Setting(q, o, t, now)
    requires forall i, j :: 0 <= i < |q| && 0 <= j < |q| && Periodic(q[i].proc) && Periodic(q[j].proc) ==> q[i].usecs == q[j].usecs
    ensures o <= 2
    ensures Caught(q, o, t) <==>
            || o + 1 < t
            || (o == 1 && q[1].due <= q[0].due + q[0].usecs < q[t].due)
            || (o == 2 && q[1].due > q[0].due + q[0].usecs && q[2].due <= q[1].due + q[1].usecs < q[t].due)
            || (o == 2 && q[1].due <= q[0].due + q[0].usecs
                && (TurnsUp(q[0], q[2].due, q[t].due) || TurnsUp(q[1], q[2].due, q[t].due)))
  {
    BetweenIsReports(q, o, t);
    assert q[0] in q && q[1] in q;
    hide LandsBetween;
    if o == 0 {
      NoneLands(q[0].due, q[t].due);
      assert q[..0] == [];
    } else if o == 1 {
      OneLands(q[0], q[1].due, q[t].due);
      assert q[..1] == [q[0]];
    } else {
      TwoKinds(q, o);
      TwoLand(q[0], q[1], q[2].due, q[t].due);
      assert q[..2] == [q[0], q[1]];
    }
  }

  lemma NoneLands(omit: nat, end: nat)
    ensures !LandsBetween([], omit, end)
  {
  }

  lemma TwoKinds(q: seq<Entry>, o: nat)
    requires OneOfEachKind(q) && 2 <= o < |q| && forall i :: 0 <= i < o ==> Periodic(q[i].proc)
    ensures o == 2
  {
    assert q[0].proc != q[1].proc && q[0].proc != q[2].proc && q[1].proc != q[2].proc;
  }

  // Only what is due behind the end of the omit period is left out, and every report timer that is.
  ghost predicate DueBehind(q: seq<Entry>, o: nat, proc: TimerProc, now: nat) {
    exists i :: o < i < |q| && q[i].proc == proc && q[i].due <= now && !q[i].called
  }

  ghost predicate OmitDue(q: seq<Entry>, o: nat, now: nat) {
    && InOrder(q) && OneOfEachKind(q) && PositivePeriods(q)
    && o < |q| && q[o].proc == OmitEnd && q[o].due <= now
  }

  lemma {:induction false} ReportSkipped(q: seq<Entry>, o: nat, proc: TimerProc, now: nat)
    requires OmitDue(q, o, now)
    ensures proc in Skipped(q, now) ==> DueBehind(q, o, proc, now)
    ensures Periodic(proc) ==> (proc in Skipped(q, now) <==> DueBehind(q, o, proc, now))
    decreases Lateness(q, now)
  {
    var rest := q[1..];
    if o == 0 {
      OmitIsNext(q, proc, now);
    } else if q[0].proc == TestEnd {
      ShiftedBehind(q, o, proc, now);
      assert q[0].due <= q[o].due;
      ReportSkipped(rest, o - 1, proc, now);
    } else {
      var e := q[0].(due := q[0].due + q[0].usecs, called := true);
      FirstReportDue(q, o, now);
      ShiftedBehind(q, o, proc, now);
      hide OmitDue, DueBehind, Skipped, Place, Lateness, InOrder, OneOfEachKind, PositivePeriods;
      Unfold(q, e, now);
      LessLate(q, e, now);
      var j := Next(q, e);
      hide Again, Moves, Put;
      if e.due < rest[0].due {
        ReportSkipped(rest, o - 1, proc, now);
      } else {
        MovedBehind(q, e, j, o, proc, now);
        ReportSkipped(Put(rest, j, e), if j < o then o else o - 1, proc, now);
      }
    }
  }

  lemma OmitIsNext(q: seq<Entry>, proc: TimerProc, now: nat)
    requires OmitDue(q, 0, now)
    ensures proc in Skipped(q, now) ==> DueBehind(q, 0, proc, now)
    ensures Periodic(proc) ==> (proc in Skipped(q, now) <==> DueBehind(q, 0, proc, now))
  {
    var rest := q[1..];
    assert forall i :: 0 <= i < |rest| ==> rest[i] == q[i + 1];
    if DueBehind(q, 0, proc, now) {
      var i :| 0 < i < |q| && q[i].proc == proc && q[i].due <= now && !q[i].called;
      assert rest[i - 1] in rest;
    }
  }

  lemma FirstReportDue(q: seq<Entry>, o: nat, now: nat)
    requires OmitDue(q, o, now) && o > 0 && q[0].proc != TestEnd
    ensures Periodic(q[0].proc) && q[0].usecs >= 1 && q[0].due <= now && PositivePeriods(q) && InOrder(q[1..]) && |q| > 1
  {
    assert q[0] in q;
  }

  lemma ShiftedBehind(q: seq<Entry>, o: nat, proc: TimerProc, now: nat)
    requires OmitDue(q, o, now) && o > 0
    ensures OmitDue(q[1..], o - 1, now)
    ensures DueBehind(q, o, proc, now) <==> DueBehind(q[1..], o - 1, proc, now)
  {
    var rest := q[1..];
    assert forall i :: 0 <= i < |rest| ==> rest[i] == q[i + 1];
    if DueBehind(q, o, proc, now) {
      var i :| o < i < |q| && q[i].proc == proc && q[i].due <= now && !q[i].called;
      assert rest[i - 1].proc == proc;
    }
  }

  lemma MovedBehind(q: seq<Entry>, e: Entry, j: nat, o: nat, proc: TimerProc, now: nat)
    requires OmitDue(q, o, now) && 0 < o && Moves(q, e, j)
    ensures var o' := if j < o then o else o - 1;
            && OmitDue(Put(q[1..], j, e), o', now)
            && (DueBehind(q, o, proc, now) <==> DueBehind(Put(q[1..], j, e), o', proc, now))
  {
    MovedInOrder(q, e, j);
    MovedKinds(q, e, j);
    var o' := if j < o then o else o - 1;
    MovedAt(q, e, j, o');
    BehindAfter(q, e, j, o, proc, now);
    BehindBefore(q, e, j, o, proc, now);
  }

  lemma BehindAfter(q: seq<Entry>, e: Entry, j: nat, o: nat, proc: TimerProc, now: nat)
    requires 0 < o < |q| && j < |q|
    ensures DueBehind(q, o, proc, now) ==> DueBehind(Put(q[1..], j, e), if j < o then o else o - 1, proc, now)
  {
    if DueBehind(q, o, proc, now) {
      var i :| o < i < |q| && q[i].proc == proc && q[i].due <= now && !q[i].called;
      var i' := if j < i then i else i - 1;
      MovedAt(q, e, j, i');
      hide Put;
      assert Put(q[1..], j, e)[i'] == q[i];
    }
  }

  lemma BehindBefore(q: seq<Entry>, e: Entry, j: nat, o: nat, proc: TimerProc, now: nat)
    requires 0 < o < |q| && j < |q| && e.called
    ensures DueBehind(Put(q[1..], j, e), if j < o then o else o - 1, proc, now) ==> DueBehind(q, o, proc, now)
  {
    var after, o' := Put(q[1..], j, e), if j < o then o else o - 1;
    if DueBehind(after, o', proc, now) {
      var i :| o' < i < |after| && after[i].proc == proc && after[i].due <= now && !after[i].called;
      MovedAt(q, e, j, i);
      hide Put;
      assert q[if i < j then i + 1 else i] == after[i];
    }
  }

  // Where no end of an omit period is due, nothing is left out.
  lemma {:induction false} NothingSkipped(q: seq<Entry>, now: nat)
    requires PositivePeriods(q) && forall e :: e in q && e.proc == OmitEnd ==> e.due > now
    ensures Skipped(q, now) == {}
    decreases Lateness(q, now)
  {
    if q != [] && q[0].due <= now {
      assert q[0] in q;
      if q[0].proc == TestEnd {
        NothingSkipped(q[1..], now);
      } else {
        var e := q[0].(due := q[0].due + q[0].usecs, called := true);
        AgainLess(q[1..], e, now);
        NothingSkipped(Again(q[1..], e), now);
      }
    }
  }

  // The end of the omit period is due at 5, the statistics at 6 and every 6, the test's end at 7.
  // At 8 the statistics are in the way, and neither they nor the test's end are reached.
  lemma TestEndLeftOut()
    ensures Skipped([Entry(OmitEnd, 5, 5, false), Entry(TimerProc.Stats, 6, 6, false), Entry(TestEnd, 7, 7, false)], 8)
         == {TimerProc.Stats, TestEnd}
  {
    var q := [Entry(OmitEnd, 5, 5, false), Entry(TimerProc.Stats, 6, 6, false), Entry(TestEnd, 7, 7, false)];
    assert q[1..] == [q[1], q[2]];
    assert q[1] in q[1..] && q[2] in q[1..];
  }
}
