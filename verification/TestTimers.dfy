// The timers of one test: the handles the test keeps, the callbacks that run from tmr_run, and
// tmr_run itself.
module TestTimers {
  import opened IperfTime
  import opened TimerQueue
  import opened TimerWalk

  class Test {
    const queue: TimerQueue
    var timer: Timer?
    var statsTimer: Timer?
    var reporterTimer: Timer?
    var omitTimer: Timer?
    var done: bool
    var omitting: bool

    constructor ()
      ensures Valid() && fresh(queue) && queue.active == queue.free == []
      ensures timer == statsTimer == reporterTimer == omitTimer == null
    {
      queue := new TimerQueue();
      timer, statsTimer, reporterTimer, omitTimer := null, null, null, null;
      done, omitting := false, false;
    }

    // A handle that is not null is an active timer with the handle's own callback.
    ghost predicate Handle(h: Timer?, proc: TimerProc)
      reads queue`active, queue.active`proc
    {
      h != null ==> h in AsSet(queue.active) && h.proc == proc
    }

    ghost predicate Handles()
      reads this, queue`active, queue.active`proc
    {
      && Handle(timer, TestEnd) && Handle(statsTimer, TimerProc.Stats)
      && Handle(reporterTimer, Reporter) && Handle(omitTimer, OmitEnd)
    }

    // The statistics and report timers are the periodic ones, and their periods are positive.
    ghost predicate Kinds()
      reads queue`active, queue.active`proc, queue.active`periodic, queue.active`usecs
    {
      forall t :: t in AsSet(queue.active) ==> (t.periodic <==> Periodic(t.proc)) && (t.periodic ==> t.usecs >= 1)
    }

    ghost predicate Valid()
      reads this, queue, queue.active, queue.free
    {
      queue.Valid() && Kinds() && Handles()
    }

    // No second passes by in 32 bits before now plus any of the periods.
    ghost predicate NoWrap(now: Time)
      reads queue`active, queue.active`usecs
    {
      Normal(now) && forall t :: t in AsSet(queue.active) ==> InUsecs(now) + t.usecs < WRAP * MILLION
    }

    // tmr_reset, for an active timer.
    method Reset(now: Time, t: Timer)
      requires Valid() && NoWrap(now) && t in queue.active && t.periodic
      modifies queue, AsSet(queue.active)`next, AsSet(queue.active)`prev, t`time
      ensures Valid() && AsSet(queue.active) == old(AsSet(queue.active)) && queue.free == old(queue.free)
      ensures t.Due() == InUsecs(now) + t.usecs
      ensures Overdue(queue.active, InUsecs(now)) <= old(Overdue(queue.active, InUsecs(now)))
    {
      hide TimerQueue.Valid, Overdue, With, Without;
      ghost var k :| 0 <= k < |queue.active| && queue.active[k] == t;
      var _ := Reschedule(t, k, now, InUsecs(now));
    }

    // At position p, t stands behind every timer that is not later.
    ghost predicate InPlace(t: Timer, p: nat)
      reads queue`active, queue.active`time, t`time
    {
      && p < |queue.active|
      && (forall i :: 0 <= i < p ==> queue.active[i].Due() <= t.Due())
      && (forall i :: p < i < |queue.active| ==> t.Due() < queue.active[i].Due())
    }

    lemma InPlaceFacts(t: Timer, p: nat)
      requires InPlace(t, p)
      ensures p < |queue.active|
      ensures forall i :: 0 <= i < p ==> queue.active[i].Due() <= t.Due()
      ensures forall i :: p < i < |queue.active| ==> t.Due() < queue.active[i].Due()
    {
    }

    // The timer at position k gets its period added to from as its new deadline.
    method Reschedule(t: Timer, ghost k: nat, from: Time, ghost now: nat) returns (ghost p: nat)
      requires queue.Valid() && k < |queue.active| && queue.active[k] == t
      requires Normal(from) && InUsecs(from) + t.usecs < WRAP * MILLION
      modifies queue, AsSet(queue.active)`next, AsSet(queue.active)`prev, t`time
      ensures queue.Valid() && queue.free == old(queue.free)
      ensures p < |old(queue.active)| && queue.active == With(old(Without(queue.active, k)), p, t)
      ensures AsSet(queue.active) == old(AsSet(queue.active))
      ensures t.Due() == InUsecs(from) + t.usecs
      ensures InPlace(t, p)
      ensures Overdue(queue.active, now) + old(Late(t, now)) == old(Overdue(queue.active, now)) + Late(t, now)
    {
      hide Sorted;
      ghost var rest := Without(queue.active, k);
      queue.WithoutDistinctOf(k);
      OverdueWithout(queue.active, k, now);
      AddIsExact(from, t.usecs);
      p := queue.SetTime(t, k, AddUsecs(from, t.usecs));
      OverdueWith(rest, p, t, now);
      SameSet(old(queue.active), k, p, t);
    }

    // The callback of a timer. The end of the omit period gives the statistics and report timers
    // a whole period from now; every other timer, and any other callback, changes no deadline.
    method Callback(proc: TimerProc, now: Time)
      requires Valid() && NoWrap(now)
      modifies this`timer, this`omitTimer, this`done, this`omitting, queue
      modifies AsSet(queue.active)`next, AsSet(queue.active)`prev, AsSet(queue.active)`time
      ensures Valid() && AsSet(queue.active) == old(AsSet(queue.active)) && queue.free == old(queue.free)
      ensures Overdue(queue.active, InUsecs(now)) <= old(Overdue(queue.active, InUsecs(now)))
      ensures forall t :: t in AsSet(queue.active) && (proc == OmitEnd ==> t !in Reports()) ==> t.time == old(t.time)
      ensures proc == OmitEnd ==> Moved(statsTimer, now) && Moved(reporterTimer, now)
      ensures proc != OmitEnd ==> queue.active == old(queue.active)
      ensures Called(proc)
    {
      hide TimerQueue.Valid, Overdue;
      match proc
      case TestEnd =>
        timer := null;
        done := true;
      case Stats =>
      case Reporter =>
      case OmitEnd =>
        OmitCallback(now);
    }

    // A timer that has a whole period to go.
    ghost predicate Moved(h: Timer?, now: Time)
      reads Only(h)`time, Only(h)`usecs
    {
      h != null ==> h.Due() == InUsecs(now) + h.usecs
    }

    lemma MovedLater(now: Time)
      requires Valid() && Moved(statsTimer, now) && Moved(reporterTimer, now)
      ensures forall x :: x in Reports() ==> x.periodic && x.Due() > InUsecs(now)
    {
      hide TimerQueue.Valid;
    }

    // The statistics and report timers that the test has.
    ghost function Reports(): set<Timer>
      reads this`statsTimer, this`reporterTimer
    {
      Only(statsTimer) + Only(reporterTimer)
    }

    // What a callback does to the test itself.
    twostate predicate Called(proc: TimerProc)
      reads this
    {
      && timer == (if proc == TestEnd then null else old(timer)) && done == (old(done) || proc == TestEnd)
      && omitTimer == (if proc == OmitEnd then null else old(omitTimer)) && omitting == (old(omitting) && proc != OmitEnd)
    }

    method OmitCallback(now: Time)
      requires Valid() && NoWrap(now)
      modifies this`omitTimer, this`omitting, queue
      modifies AsSet(queue.active)`next, AsSet(queue.active)`prev, AsSet(queue.active)`time
      ensures Valid() && AsSet(queue.active) == old(AsSet(queue.active)) && queue.free == old(queue.free)
      ensures Overdue(queue.active, InUsecs(now)) <= old(Overdue(queue.active, InUsecs(now)))
      ensures forall t :: t in AsSet(queue.active) && t !in Reports() ==> t.time == old(t.time)
      ensures Moved(statsTimer, now) && Moved(reporterTimer, now)
      ensures omitTimer == null && !omitting
    {
      hide TimerQueue.Valid, Overdue;
      omitTimer := null;
      omitting := false;
      if statsTimer != null {
        Reset(now, statsTimer);
      }
      if reporterTimer != null {
        Reset(now, reporterTimer);
      }
    }

    // The body of the loop of tmr_run, for a timer whose deadline has come: its callback, then
    // its next deadline or the free list.
    method Fire(t: Timer, ghost k: nat, now: Time) returns (ghost p: nat)
      requires Valid() && NoWrap(now)
      requires k < |queue.active| && queue.active[k] == t && t.Due() <= InUsecs(now)
      modifies this`timer, this`omitTimer, this`done, this`omitting, queue
      modifies AsSet(queue.active)`next, AsSet(queue.active)`prev, AsSet(queue.active)`time
      ensures Valid()
      ensures t.periodic ==> AsSet(queue.active) == old(AsSet(queue.active)) && queue.free == old(queue.free)
      ensures !t.periodic ==> AsSet(queue.active) == old(AsSet(queue.active)) - {t} && queue.free == [t] + old(queue.free)
      ensures Overdue(queue.active, InUsecs(now)) < old(Overdue(queue.active, InUsecs(now)))
      ensures forall x :: x in old(AsSet(queue.active)) && x != t && (t.proc == OmitEnd ==> x !in Reports()) ==>
                x.time == old(x.time)
      ensures t.proc == OmitEnd ==> Moved(statsTimer, now) && Moved(reporterTimer, now)
      ensures t.periodic ==> t.Due() == old(t.Due()) + t.usecs
      ensures t.proc != OmitEnd && t.periodic ==>
                p < |old(queue.active)| && queue.active == With(old(Without(queue.active, k)), p, t) && InPlace(t, p)
      ensures t.proc != OmitEnd && !t.periodic ==> queue.active == old(Without(queue.active, k))
      ensures Called(t.proc)
    {
      hide TimerQueue.Valid, Overdue, With, Without;
      assert t in AsSet(queue.active);
      Callback(t.proc, now);
      ghost var at: nat :| at < |queue.active| && queue.active[at] == t && (t.proc != OmitEnd ==> at == k);
      p := PutBack(t, at, now);
    }

    // What tmr_run does with a timer after its callback.
    method PutBack(t: Timer, ghost k: nat, now: Time) returns (ghost p: nat)
      requires queue.Valid() && Kinds() && NoWrap(now)
      requires k < |queue.active| && queue.active[k] == t && t.Due() <= InUsecs(now)
      requires Handles() && (t.proc == TestEnd ==> timer == null) && (t.proc == OmitEnd ==> omitTimer == null)
      modifies queue, AsSet(queue.active)`next, AsSet(queue.active)`prev, t`time
      ensures Valid()
      ensures t.periodic ==> AsSet(queue.active) == old(AsSet(queue.active)) && queue.free == old(queue.free)
      ensures !t.periodic ==> AsSet(queue.active) == old(AsSet(queue.active)) - {t} && queue.free == [t] + old(queue.free)
      ensures Overdue(queue.active, InUsecs(now)) < old(Overdue(queue.active, InUsecs(now)))
      ensures t.periodic ==> t.Due() == old(t.Due()) + t.usecs
      ensures t.periodic ==> p < |old(queue.active)| && queue.active == With(old(Without(queue.active, k)), p, t)
      ensures t.periodic ==> InPlace(t, p)
      ensures !t.periodic ==> queue.active == old(Without(queue.active, k))
    {
      ghost var n := InUsecs(now);
      assert t in AsSet(queue.active);
      queue.ActiveFacts(k);
      ghost var rest := Without(queue.active, k);
      OverdueWithout(queue.active, k, n);
      ghost var left := Overdue(rest, n);
      hide TimerQueue.Valid, Overdue, With, Without;
      p := 0;
      if t.periodic {
        p := RescheduleFired(t, k, n);
      } else {
        CancelFired(t, k);
        assert queue.active == rest && Overdue(rest, n) == left;
      }
    }

    method RescheduleFired(t: Timer, ghost k: nat, ghost now: nat) returns (ghost p: nat)
      requires Valid() && t.periodic && t.usecs >= 1
      requires k < |queue.active| && queue.active[k] == t && Normal(t.time)
      requires t.Due() <= now && now + t.usecs < WRAP * MILLION
      modifies queue, AsSet(queue.active)`next, AsSet(queue.active)`prev, t`time
      ensures Valid() && AsSet(queue.active) == old(AsSet(queue.active)) && queue.free == old(queue.free)
      ensures Overdue(queue.active, now) < old(Overdue(queue.active, now))
      ensures t.Due() == old(t.Due()) + t.usecs
      ensures p < |old(queue.active)| && queue.active == With(old(Without(queue.active, k)), p, t)
      ensures InPlace(t, p)
    {
      hide TimerQueue.Valid, Overdue, With, Without;
      p := Reschedule(t, k, t.time, now);
    }

    // tmr_cancel from tmr_run, once no handle points to t any more.
    method CancelFired(t: Timer, ghost k: nat)
      requires queue.Valid() && Kinds() && Handles() && !t.periodic
      requires k < |queue.active| && queue.active[k] == t
      requires (t.proc == TestEnd ==> timer == null) && (t.proc == OmitEnd ==> omitTimer == null)
      modifies queue, AsSet(queue.active)`next, AsSet(queue.active)`prev
      ensures Valid() && queue.active == old(Without(queue.active, k)) && queue.free == [t] + old(queue.free)
      ensures AsSet(queue.active) == old(AsSet(queue.active)) - {t}
    {
      assert t in AsSet(queue.active);
      queue.ActiveFacts(k);
      RemovedSet(queue.active, k);
      hide TimerQueue.Valid, Without;
      queue.Cancel(t, k);
    }

    ghost function Deadlines(): map<Timer, nat>
      reads queue`active, queue.active`time
    {
      map x | x in AsSet(queue.active) :: x.Due()
    }

    // What a run has done so far: fired lists the timers whose callbacks have been called, due0
    // has the deadlines from before the run; the others are the timers that are active and free, and
    // the deadlines, as they are now.
    ghost predicate BookOn(fired: seq<Timer>, due0: map<Timer, nat>, now: nat,
                           active: set<Timer>, free: set<Timer>, due: map<Timer, nat>)
      reads active`periodic, fired`periodic
    {
      && active <= due0.Keys && active == due.Keys
      && (forall x :: x in fired ==> x in due0 && due0[x] <= now)
      && (forall x :: x in active ==> (due0[x] > now ==> due[x] > now) && (!x.periodic ==> x !in fired))
      && (forall x :: x in active && !x.periodic ==> due[x] == due0[x])
      && (forall x :: x in due0 ==> x in active || x in fired)
      && (forall x :: x in fired && !x.periodic ==> x !in active && x in free && multiset(fired)[x] == 1)
      && (forall x :: x in fired && x.periodic ==> x in active)
    }

    ghost predicate Book(fired: seq<Timer>, due0: map<Timer, nat>, now: nat)
      reads queue, queue.active, queue.free, fired
    {
      BookOn(fired, due0, now, AsSet(queue.active), AsSet(queue.free), Deadlines())
    }

    // The same while no omit period has ended: deadlines have moved by whole periods only, and
    // every timer in front of position k has had its turn.
    ghost predicate CalmBook(fired: seq<Timer>, due0: map<Timer, nat>, k: nat)
      reads queue`active, queue.active`time, queue.active`usecs
      requires AsSet(queue.active) <= due0.Keys
    {
      && (forall x :: x in AsSet(queue.active) ==> x.Due() == due0[x] + Periods(fired, x))
      && k <= |queue.active| && forall j :: 0 <= j < k ==> queue.active[j] in fired
    }

    // The timers from position k on as the walk finds them, and what it will leave out.
    ghost function Outcome(k: nat, fired: seq<Timer>, now: nat): set<TimerProc>
      reads queue`active, queue.active`proc, queue.active`time, queue.active`usecs
    {
      var es := Entries(queue.active, fired);
      if k <= |es| && PositivePeriods(es[k..]) then Skipped(es[k..], now) else {}
    }

    lemma OutcomeOf(k: nat, fired: seq<Timer>, now: nat)
      requires Kinds() && k <= |queue.active|
      ensures PositivePeriods(Entries(queue.active, fired)) && PositivePeriods(Entries(queue.active, fired)[k..])
      ensures Outcome(k, fired, now) == Skipped(Entries(queue.active, fired)[k..], now)
    {
      hide Skipped;
      var es := Entries(queue.active, fired);
      forall e | e in es && Periodic(e.proc) ensures e.usecs >= 1 {
        var i :| 0 <= i < |es| && es[i] == e;
        assert queue.active[i] in AsSet(queue.active);
      }
    }

    // Where the walk along the list stands.
    ghost predicate At(t: Timer?, k: nat)
      reads queue`active
    {
      if k < |queue.active| then t == queue.active[k] else t == null
    }

    // One round of the loop of tmr_run. Unless it ends an omit period, what the walk will leave
    // out stays the same.
    method Round(t: Timer, ghost k: nat, now: Time, ghost fired: seq<Timer>, ghost due0: map<Timer, nat>, ghost calm: bool)
      returns (ghost k': nat)
      requires Valid() && NoWrap(now) && Book(fired, due0, InUsecs(now))
      requires k < |queue.active| && queue.active[k] == t && t.Due() <= InUsecs(now)
      requires calm ==> CalmBook(fired, due0, k) && t.proc != OmitEnd
      modifies this`timer, this`omitTimer, this`done, this`omitting, queue
      modifies AsSet(queue.active)`next, AsSet(queue.active)`prev, AsSet(queue.active)`time
      ensures Valid() && NoWrap(now) && Book(fired + [t], due0, InUsecs(now))
      ensures Overdue(queue.active, InUsecs(now)) < old(Overdue(queue.active, InUsecs(now)))
      ensures old(AsSet(queue.active)) - {t} <= AsSet(queue.active) <= old(AsSet(queue.active))
      ensures calm ==> CalmBook(fired + [t], due0, k') && At(if k + 1 < |old(queue.active)| then old(queue.active)[k + 1] else null, k')
      ensures calm ==> Outcome(k', fired + [t], InUsecs(now)) == old(Outcome(k, fired, InUsecs(now)))
      ensures t.proc == OmitEnd ==> Moved(statsTimer, now) && Moved(reporterTimer, now)
      ensures Called(t.proc)
      ensures forall x :: x in AsSet(queue.active) && x != t && (t.proc != OmitEnd || !x.periodic) ==> x.Due() == old(x.Due())
    {
      hide *;
      RoundFacts(t, k, fired, InUsecs(now));
      ghost var before, es := queue.active, Entries(queue.active, fired);
      EntriesAre(before, fired);
      ghost var p;
      p, k' := BookedRound(t, k, now, fired, due0, calm);
      if calm {
        OthersHold(before, es, k, t, fired);
        if t.periodic {
          InPlaceFacts(t, p);
          PeriodicStepped(before, es, k, p, t, fired, InUsecs(now));
        } else {
          OneShotStepped(before, es, k, t, fired, InUsecs(now));
        }
        ValidKinds();
        OutcomeOf(k', fired + [t], InUsecs(now));
      }
    }

    lemma ValidKinds()
      requires Valid()
      ensures Kinds()
    {
    }

    lemma RoundFacts(t: Timer, k: nat, fired: seq<Timer>, now: nat)
      requires Valid() && k < |queue.active| && queue.active[k] == t
      ensures Distinct(queue.active) && PositivePeriods(Entries(queue.active, fired))
      ensures PositivePeriods(Entries(queue.active, fired)[k..])
      ensures Outcome(k, fired, now) == Skipped(Entries(queue.active, fired)[k..], now)
      ensures t.periodic <==> Periodic(t.proc)
      ensures !t.periodic && t.proc != OmitEnd ==> t.proc == TestEnd
      ensures forall x :: x in AsSet(queue.active) <==> x in queue.active
    {
      hide Skipped;
      OutcomeOf(k, fired, now);
      assert t in AsSet(queue.active);
    }

    method BookedRound(t: Timer, ghost k: nat, now: Time, ghost fired: seq<Timer>, ghost due0: map<Timer, nat>, ghost calm: bool)
      returns (ghost p: nat, ghost k': nat)
      requires Valid() && NoWrap(now) && Book(fired, due0, InUsecs(now))
      requires k < |queue.active| && queue.active[k] == t && t.Due() <= InUsecs(now)
      requires calm ==> CalmBook(fired, due0, k) && t.proc != OmitEnd
      modifies this`timer, this`omitTimer, this`done, this`omitting, queue
      modifies AsSet(queue.active)`next, AsSet(queue.active)`prev, AsSet(queue.active)`time
      ensures Valid() && NoWrap(now) && Book(fired + [t], due0, InUsecs(now))
      ensures Overdue(queue.active, InUsecs(now)) < old(Overdue(queue.active, InUsecs(now)))
      ensures old(AsSet(queue.active)) - {t} <= AsSet(queue.active) <= old(AsSet(queue.active))
      ensures calm ==> CalmBook(fired + [t], due0, k') && At(if k + 1 < |old(queue.active)| then old(queue.active)[k + 1] else null, k')
      ensures calm ==> k' == if t.periodic && p <= k then k + 1 else k
      ensures t.periodic ==> t.Due() == old(t.Due()) + t.usecs
      ensures t.proc != OmitEnd ==>
                && (forall x :: x in AsSet(queue.active) ==> x.Due() == old(x.Due()) + if x == t then t.usecs else 0)
                && (t.periodic ==> p < |old(queue.active)| && queue.active == With(old(Without(queue.active, k)), p, t) && InPlace(t, p))
                && (!t.periodic ==> queue.active == old(Without(queue.active, k)))
      ensures forall x :: x in AsSet(queue.active) && x != t && !x.periodic ==> x.Due() == old(x.Due())
      ensures t.proc == OmitEnd ==> Moved(statsTimer, now) && Moved(reporterTimer, now)
      ensures Called(t.proc)
    {
      hide TimerQueue.Valid, Overdue, With, Without, Handles, Kinds, Book, InPlace, Moved;
      assert t in AsSet(queue.active);
      ghost var before := queue.active;
      p := FireAndBook(t, k, now, fired, due0);
      k' := 0;
      if calm {
        Counted(fired, t);
        k' := Onwards(before, k, p, t, fired);
      }
    }

    method FireAndBook(t: Timer, ghost k: nat, now: Time, ghost fired: seq<Timer>, ghost due0: map<Timer, nat>)
      returns (ghost p: nat)
      requires Valid() && NoWrap(now) && Book(fired, due0, InUsecs(now))
      requires k < |queue.active| && queue.active[k] == t && t.Due() <= InUsecs(now)
      modifies this`timer, this`omitTimer, this`done, this`omitting, queue
      modifies AsSet(queue.active)`next, AsSet(queue.active)`prev, AsSet(queue.active)`time
      ensures Valid() && NoWrap(now) && Book(fired + [t], due0, InUsecs(now)) && AsSet(queue.active) <= due0.Keys
      ensures Overdue(queue.active, InUsecs(now)) < old(Overdue(queue.active, InUsecs(now)))
      ensures old(AsSet(queue.active)) - {t} <= AsSet(queue.active) <= old(AsSet(queue.active))
      ensures t.periodic ==> t.Due() == old(t.Due()) + t.usecs
      ensures t.proc != OmitEnd ==>
                && (forall x :: x in AsSet(queue.active) ==> x.Due() == old(x.Due()) + if x == t then t.usecs else 0)
                && (t.periodic ==> p < |old(queue.active)| && queue.active == With(old(Without(queue.active, k)), p, t) && InPlace(t, p))
                && (!t.periodic ==> queue.active == old(Without(queue.active, k)))
      ensures forall x :: x in AsSet(queue.active) && x != t && !x.periodic ==> x.Due() == old(x.Due())
      ensures t.proc == OmitEnd ==> Moved(statsTimer, now) && Moved(reporterTimer, now)
      ensures Called(t.proc)
    {
      hide TimerQueue.Valid, Valid, NoWrap, Overdue, With, Without, Moved, InPlace, Periods, BookOn;
      BookIs(fired, due0, InUsecs(now));
      ghost var active, free, due := AsSet(queue.active), AsSet(queue.free), Deadlines();
      p := FireAlone(t, k, now);
      Booked(t, fired, due0, InUsecs(now), active, free, due, AsSet(queue.active), AsSet(queue.free), Deadlines());
      BookIs(fired + [t], due0, InUsecs(now));
    }

    lemma BookIs(fired: seq<Timer>, due0: map<Timer, nat>, now: nat)
      ensures Book(fired, due0, now) ==> AsSet(queue.active) <= due0.Keys
    {
    }

    // The book is kept when t is fired.
    lemma Booked(t: Timer, fired: seq<Timer>, due0: map<Timer, nat>, now: nat,
                 active: set<Timer>, free: set<Timer>, due: map<Timer, nat>,
                 active': set<Timer>, free': set<Timer>, due': map<Timer, nat>)
      requires BookOn(fired, due0, now, active, free, due) && t in active && due[t] <= now
      requires active' == (if t.periodic then active else active - {t}) && active' == due'.Keys
      requires free' == if t.periodic then free else free + {t}
      requires t.periodic ==> due'[t] >= due[t]
      requires forall x :: x in active' && x != t ==> due'[x] == due[x] || (x.periodic && due'[x] > now)
      ensures BookOn(fired + [t], due0, now, active', free', due')
    {
      Counted(fired, t);
    }

    method FireAlone(t: Timer, ghost k: nat, now: Time) returns (ghost p: nat)
      requires Valid() && NoWrap(now)
      requires k < |queue.active| && queue.active[k] == t && t.Due() <= InUsecs(now)
      modifies this`timer, this`omitTimer, this`done, this`omitting, queue
      modifies AsSet(queue.active)`next, AsSet(queue.active)`prev, AsSet(queue.active)`time
      ensures Valid() && NoWrap(now) && t in old(AsSet(queue.active))
      ensures Overdue(queue.active, InUsecs(now)) < old(Overdue(queue.active, InUsecs(now)))
      ensures AsSet(queue.active) == if t.periodic then old(AsSet(queue.active)) else old(AsSet(queue.active)) - {t}
      ensures AsSet(queue.free) == if t.periodic then old(AsSet(queue.free)) else old(AsSet(queue.free)) + {t}
      ensures t.periodic ==> t.Due() == old(t.Due()) + t.usecs
      ensures t.proc != OmitEnd ==>
                && (forall x :: x in AsSet(queue.active) ==> x.Due() == old(x.Due()) + if x == t then t.usecs else 0)
                && (t.periodic ==> p < |old(queue.active)| && queue.active == With(old(Without(queue.active, k)), p, t) && InPlace(t, p))
                && (!t.periodic ==> queue.active == old(Without(queue.active, k)))
      ensures forall x :: x in AsSet(queue.active) && x != t ==>
                x.Due() == old(x.Due()) || (x.periodic && x.Due() > InUsecs(now))
      ensures t.proc == OmitEnd ==> Moved(statsTimer, now) && Moved(reporterTimer, now)
      ensures Called(t.proc)
    {
      hide TimerQueue.Valid, Overdue, With, Without, Handles, Moved, InPlace;
      assert t in AsSet(queue.active);
      p := Fire(t, k, now);
      if t.proc == OmitEnd {
        MovedLater(now);
      }
    }

    // At most one timer of each kind is active, and the periodic ones are behind their handles.
    ghost predicate Owned()
      reads this`statsTimer, this`reporterTimer, queue`active, queue.active`proc
    {
      && (forall x, y :: x in AsSet(queue.active) && y in AsSet(queue.active) && x.proc == y.proc ==> x == y)
      && (forall x :: x in AsSet(queue.active) && Periodic(x.proc) ==> x == statsTimer || x == reporterTimer)
    }

    // tmr_run. It ends; it never calls back for a deadline that has not come; a one-shot timer is
    // called at most once and is then free.
    //
    // While no omit period ends, every timer whose deadline has come is called, deadlines move by
    // whole periods, one for each call, and a timer that is due afterwards has been called. With
    // one timer of each kind at most, as a test has them, the timers that are called are those
    // that are due and that TimerWalk.Skipped, from the list before the run, does not name.
    // Once an omit period has ended in the run, the report timers have a whole period to go.
    method Run(now: Time) returns (ghost fired: seq<Timer>)
      requires Valid() && NoWrap(now)
      modifies this`timer, this`omitTimer, this`done, this`omitting, queue
      modifies AsSet(queue.active)`next, AsSet(queue.active)`prev, AsSet(queue.active)`time
      ensures Valid()
      ensures forall x :: x in fired ==> x in old(AsSet(queue.active)) && old(x.Due()) <= InUsecs(now)
      ensures forall x :: x in fired && !x.periodic ==> multiset(fired)[x] == 1 && x in AsSet(queue.free)
      ensures forall x :: x in old(AsSet(queue.active)) ==> (x in AsSet(queue.active) <==> x.periodic || x !in fired)
      ensures AsSet(queue.active) <= old(AsSet(queue.active))
      ensures forall x :: x in AsSet(queue.active) && !x.periodic ==> x.Due() == old(x.Due())
      ensures (forall x :: x in old(AsSet(queue.active)) && x.proc == OmitEnd ==> old(x.Due()) > InUsecs(now)) ==>
                && (forall x :: x in old(AsSet(queue.active)) && old(x.Due()) <= InUsecs(now) ==> x in fired)
                && (forall x :: x in AsSet(queue.active) ==> x.Due() == old(x.Due()) + Periods(fired, x))
                && (forall x :: x in AsSet(queue.active) && x.Due() <= InUsecs(now) ==> x in fired)
      ensures old(Owned()) ==> forall x :: x in old(AsSet(queue.active)) ==>
                (x in fired <==> old(x.Due()) <= InUsecs(now) && x.proc !in old(Outcome(0, [], InUsecs(now))))
      ensures old(Owned()) && CallOf(OmitEnd, fired) ==> Moved(statsTimer, now) && Moved(reporterTimer, now)
      ensures AllCalled(fired)
    {
      hide TimerQueue.Valid, Overdue, Kinds, Handles, Outcome, Moved, AllCalled;
      ghost var due0 := map x | x in AsSet(queue.active) :: x.Due();
      ghost var calm;
      fired, calm := Walk(now, due0);
    }

    // Exactly the timers that are due and not left out have been called.
    ghost predicate Exact(fired: seq<Timer>, due0: map<Timer, nat>, now: nat, skip: set<TimerProc>)
      reads due0.Keys`proc
    {
      forall x :: x in due0.Keys ==> (x in fired <==> due0[x] <= now && x.proc !in skip)
    }

    ghost predicate OwnedAll(due0: map<Timer, nat>)
      reads this`statsTimer, this`reporterTimer, due0.Keys`proc
    {
      && (forall x, y :: x in due0.Keys && y in due0.Keys && x.proc == y.proc ==> x == y)
      && (forall x :: x in due0.Keys && Periodic(x.proc) ==> x == statsTimer || x == reporterTimer)
    }

    // The same but for the timer that the walk goes on with, unless that is a report timer.
    ghost predicate Settled(t: Timer?, fired: seq<Timer>, due0: map<Timer, nat>, now: nat, skip: set<TimerProc>)
      reads due0.Keys`proc, Only(t)`proc
    {
      && (forall x :: x in due0.Keys && (x != t || Periodic(x.proc)) ==> (x in fired <==> due0[x] <= now && x.proc !in skip))
      && (t != null && !Periodic(t.proc) ==> t.proc !in skip)
    }

    // Once an omit period has ended: every report timer has a whole period to go, and the only
    // other timer is the test's end.
    ghost predicate PastOmit(t: Timer?, fired: seq<Timer>, due0: map<Timer, nat>, now: nat, skip: set<TimerProc>)
      reads queue`active, queue.active`proc, queue.active`time, queue.active`usecs, due0.Keys`proc, Only(t)`proc
    {
      && AsSet(queue.active) <= due0.Keys && Settled(t, fired, due0, now, skip)
      && (forall x :: x in AsSet(queue.active) && Periodic(x.proc) ==> x.Due() == now + x.usecs)
      && (forall x :: x in AsSet(queue.active) && !Periodic(x.proc) ==> x.Due() == due0[x] && x.proc == TestEnd)
    }

    ghost predicate CallOf(proc: TimerProc, fired: seq<Timer>)
      reads fired`proc
    {
      exists i :: 0 <= i < |fired| && fired[i].proc == proc
    }

    lemma CallsGrow(fired: seq<Timer>, t: Timer)
      ensures forall proc :: CallOf(proc, fired + [t]) <==> CallOf(proc, fired) || t.proc == proc
    {
      forall proc ensures CallOf(proc, fired + [t]) <==> CallOf(proc, fired) || t.proc == proc {
        if CallOf(proc, fired) {
          var i :| 0 <= i < |fired| && fired[i].proc == proc;
          assert (fired + [t])[i].proc == proc;
        }
        assert (fired + [t])[|fired|] == t;
      }
    }

    lemma NoCalls()
      ensures forall proc :: !CallOf(proc, [])
    {
    }

    // What the callbacks of a run have done to the test itself.
    twostate predicate AllCalled(new fired: seq<Timer>)
      reads this, fired`proc
    {
      && timer == (if CallOf(TestEnd, fired) then null else old(timer)) && done == (old(done) || CallOf(TestEnd, fired))
      && omitTimer == (if CallOf(OmitEnd, fired) then null else old(omitTimer))
      && omitting == (old(omitting) && !CallOf(OmitEnd, fired))
    }

    // The loop of tmr_run; calm is whether no omit period has ended in it.
    method Walk(now: Time, ghost due0: map<Timer, nat>) returns (ghost fired: seq<Timer>, ghost calm: bool)
      requires Valid() && NoWrap(now) && due0.Keys == AsSet(queue.active) && forall x :: x in due0 ==> due0[x] == x.Due()
      modifies this`timer, this`omitTimer, this`done, this`omitting, queue
      modifies AsSet(queue.active)`next, AsSet(queue.active)`prev, AsSet(queue.active)`time
      ensures Valid() && Book(fired, due0, InUsecs(now)) && AsSet(queue.active) <= due0.Keys
      ensures calm ==> CalmBook(fired, due0, 0) && forall x :: x in AsSet(queue.active) ==> x in fired || x.Due() > InUsecs(now)
      ensures calm <==> !CallOf(OmitEnd, fired)
      ensures AllCalled(fired)
      ensures old(Owned()) && !calm ==> Moved(statsTimer, now) && Moved(reporterTimer, now)
      ensures old(Owned()) ==> Exact(fired, due0, InUsecs(now), old(Outcome(0, [], InUsecs(now))))
    {
      hide TimerQueue.Valid, Overdue, Kinds, Handles, Book, CalmBook, Outcome, PastOmit, Exact, OwnedAll, Owned, Moved;
      hide CallOf;
      ghost var n, k := InUsecs(now), 0;
      ghost var skip, owned := Outcome(0, [], n), Owned();
      fired, calm := [], true;
      StartOfWalk(due0, n);
      NoCalls();
      queue.Head();
      var t := queue.timers;
      while t != null
        invariant Valid() && NoWrap(now) && Book(fired, due0, n) && AsSet(queue.active) <= due0.Keys
        invariant t != null ==> t in AsSet(queue.active)
        invariant calm ==> CalmBook(fired, due0, k) && At(t, k) && Outcome(k, fired, n) == skip
        invariant calm <==> !CallOf(OmitEnd, fired)
        invariant AllCalled(fired)
        invariant owned ==> OwnedAll(due0)
        invariant owned && !calm ==> PastOmit(t, fired, due0, n, skip)
        decreases Overdue(queue.active, n)
      {
        ghost var at: nat :| at < |queue.active| && queue.active[at] == t && (calm ==> at == k);
        queue.Successor(at);
        var next := t.next;
        if Compare(t.time, now) > 0 {
          queue.RestIsLater(at, now);
          break;
        }
        CompareIsOrder(t.time, now);
        k := WalkOn(t, at, now, fired, due0, calm, skip, owned, next);
        CallsGrow(fired, t);
        calm := calm && t.proc != OmitEnd;
        fired := fired + [t];
        t := next;
      }
      if owned && !calm {
        ReportsMoved(t, fired, due0, now, skip);
      }
      EndOfWalk(t, k, fired, due0, n, calm, owned, skip);
    }

    // One round, and what is known for the next one.
    method WalkOn(t: Timer, ghost k: nat, now: Time, ghost fired: seq<Timer>, ghost due0: map<Timer, nat>, ghost calm: bool,
                  ghost skip: set<TimerProc>, ghost owned: bool, ghost next: Timer?) returns (ghost k': nat)
      requires Valid() && NoWrap(now) && Book(fired, due0, InUsecs(now)) && AsSet(queue.active) <= due0.Keys
      requires k < |queue.active| && queue.active[k] == t && t.Due() <= InUsecs(now)
      requires next == if k + 1 < |queue.active| then queue.active[k + 1] else null
      requires calm ==> CalmBook(fired, due0, k) && Outcome(k, fired, InUsecs(now)) == skip
      requires owned ==> OwnedAll(due0)
      requires owned && !calm ==> PastOmit(t, fired, due0, InUsecs(now), skip)
      modifies this`timer, this`omitTimer, this`done, this`omitting, queue
      modifies AsSet(queue.active)`next, AsSet(queue.active)`prev, AsSet(queue.active)`time
      ensures Valid() && NoWrap(now) && Book(fired + [t], due0, InUsecs(now)) && AsSet(queue.active) <= due0.Keys
      ensures Overdue(queue.active, InUsecs(now)) < old(Overdue(queue.active, InUsecs(now)))
      ensures Called(t.proc)
      ensures next != null ==> next in AsSet(queue.active)
      ensures calm && t.proc != OmitEnd ==> CalmBook(fired + [t], due0, k') && At(next, k') && Outcome(k', fired + [t], InUsecs(now)) == skip
      ensures owned && !(calm && t.proc != OmitEnd) ==> PastOmit(next, fired + [t], due0, InUsecs(now), skip)
    {
      hide TimerQueue.Valid, Overdue, Kinds, Handles, Book, CalmBook, Outcome;
      hide Settled, SettledOn, OwnedAll, PastOmit, NoWrap, Moved, At;
      hide InUsecs, Distinct, Skipped, Entries, Timer.Due, PositivePeriods;
      ghost var inFront := calm && t.proc != OmitEnd;
      NextIsOther(t, k, next);
      if owned && !inFront {
        RoundFacts(t, k, fired, InUsecs(now));
        if calm {
          AtOmit(k, fired, due0, InUsecs(now), next);
        } else {
          BeyondOmit(k, fired, due0, InUsecs(now), skip, next);
        }
      }
      ghost var procs := map x | x in due0.Keys :: x.proc;
      if owned && !inFront {
        SettledIs(next, fired + [t], due0, procs, InUsecs(now), skip);
      }
      hide Valid;
      k' := Round(t, k, now, fired, due0, inFront);
      if owned && !inFront {
        SettledIs(next, fired + [t], due0, procs, InUsecs(now), skip);
        Beyond(t, fired, due0, now, skip, next);
      }
    }

    // The same on values.
    ghost predicate SettledOn(t: Timer?, fired: seq<Timer>, due0: map<Timer, nat>, procs: map<Timer, TimerProc>, now: nat,
                              skip: set<TimerProc>)
      requires procs.Keys == due0.Keys
    {
      && (forall x :: x in due0.Keys && (x != t || Periodic(procs[x])) ==> (x in fired <==> due0[x] <= now && procs[x] !in skip))
      && (t != null && t in procs && !Periodic(procs[t]) ==> procs[t] !in skip)
    }

    lemma SettledIs(t: Timer?, fired: seq<Timer>, due0: map<Timer, nat>, procs: map<Timer, TimerProc>, now: nat, skip: set<TimerProc>)
      requires procs.Keys == due0.Keys && (forall x :: x in procs ==> procs[x] == x.proc) && (t != null ==> t in procs)
      ensures Settled(t, fired, due0, now, skip) <==> SettledOn(t, fired, due0, procs, now, skip)
    {
    }

    lemma NextIsOther(t: Timer, k: nat, next: Timer?)
      requires Valid() && k < |queue.active| && queue.active[k] == t
      requires next == if k + 1 < |queue.active| then queue.active[k + 1] else null
      ensures next != t && (next != null ==> next in AsSet(queue.active)) && t in AsSet(queue.active)
    {
    }

    // The timers other than t that are not periodic: just the test's end, with its old deadline.
    ghost predicate OnlyTestEnd(t: Timer, due0: map<Timer, nat>)
      requires AsSet(queue.active) <= due0.Keys
      reads queue`active, queue.active`proc, queue.active`time, queue.active`periodic
    {
      forall x :: x in AsSet(queue.active) && x != t && !x.periodic ==> x.Due() == due0[x] && x.proc == TestEnd
    }

    // What the end of an omit period at position k does to the outcome.
    lemma AtOmit(k: nat, fired: seq<Timer>, due0: map<Timer, nat>, now: nat, next: Timer?)
      requires Kinds() && Book(fired, due0, now) && CalmBook(fired, due0, k) && OwnedAll(due0) && Distinct(queue.active)
      requires k < |queue.active| && queue.active[k].proc == OmitEnd && queue.active[k].Due() <= now
      requires next == if k + 1 < |queue.active| then queue.active[k + 1] else null
      ensures Settled(next, fired + [queue.active[k]], due0, now, Outcome(k, fired, now))
      ensures OnlyTestEnd(queue.active[k], due0)
    {
      hide Kinds, Outcome, Entries, CalmBook, Book, OwnedAll, OnlyTestEnd, Distinct, AsSet;
      var skip, t := Outcome(k, fired, now), queue.active[k];
      forall x | x in due0.Keys && (x != next || Periodic(x.proc)) ensures x in fired + [t] <==> due0[x] <= now && x.proc !in skip {
        OneAtOmit(x, k, fired, due0, now, next);
      }
      if next != null {
        NextAtOmit(k, fired, now);
      }
      OthersAtOmit(k, fired, due0, now);
    }

    lemma OneAtOmit(x: Timer, k: nat, fired: seq<Timer>, due0: map<Timer, nat>, now: nat, next: Timer?)
      requires Kinds() && Book(fired, due0, now) && CalmBook(fired, due0, k) && OwnedAll(due0) && Distinct(queue.active)
      requires k < |queue.active| && queue.active[k].proc == OmitEnd && queue.active[k].Due() <= now
      requires next == if k + 1 < |queue.active| then queue.active[k + 1] else null
      requires x in due0.Keys && (x != next || Periodic(x.proc))
      ensures x in fired + [queue.active[k]] <==> due0[x] <= now && x.proc !in Outcome(k, fired, now)
    {
      hide Outcome, Entries, CalmBook, OwnedAll, Distinct;
      SkippedAt(k, fired, now);
      hide Kinds, Book, AsSet;
      NotCalled(x, fired, due0, now, k);
      AtOmitFor(x, k, fired, due0, now, Outcome(k, fired, now));
    }

    lemma NextAtOmit(k: nat, fired: seq<Timer>, now: nat)
      requires Kinds() && k + 1 < |queue.active| && queue.active[k].proc == OmitEnd && queue.active[k].Due() <= now
      ensures !Periodic(queue.active[k + 1].proc) ==> queue.active[k + 1].proc !in Outcome(k, fired, now)
    {
      SkippedAt(k, fired, now);
    }

    lemma OthersAtOmit(k: nat, fired: seq<Timer>, due0: map<Timer, nat>, now: nat)
      requires Kinds() && Book(fired, due0, now) && CalmBook(fired, due0, k) && OwnedAll(due0) && Distinct(queue.active)
      requires k < |queue.active| && queue.active[k].proc == OmitEnd
      ensures OnlyTestEnd(queue.active[k], due0)
    {
      assert queue.active[k] in AsSet(queue.active);
    }

    lemma AtOmitFor(x: Timer, k: nat, fired: seq<Timer>, due0: map<Timer, nat>, now: nat, skip: set<TimerProc>)
      requires AsSet(queue.active) <= due0.Keys && OwnedAll(due0) && Distinct(queue.active) && x in due0.Keys
      requires k < |queue.active| && queue.active[k].proc == OmitEnd && queue.active[k].Due() <= now
      requires x in fired ==> due0[x] <= now
      requires x !in fired ==> x.Due() == due0[x] && exists i :: k <= i < |queue.active| && queue.active[i] == x
      requires x.proc in skip ==>
                 exists i :: k < i < |queue.active| && queue.active[i].proc == x.proc
                   && queue.active[i] !in fired && queue.active[i].Due() <= now
                             && (Periodic(x.proc) || Periodic(queue.active[k + 1].proc))
      requires forall i :: k < i < |queue.active| && queue.active[i] !in fired && queue.active[i].Due() <= now ==>
                 (queue.active[i].proc in skip || !(Periodic(queue.active[i].proc) || Periodic(queue.active[k + 1].proc)))
      ensures x in fired + [queue.active[k]] && x != queue.active[k] ==> due0[x] <= now && x.proc !in skip
      ensures x == queue.active[k] && x !in fired ==> due0[x] <= now && x.proc !in skip
      ensures x !in fired && x != queue.active[k] && due0[x] <= now && x.proc !in skip ==>
                k + 1 < |queue.active| && x == queue.active[k + 1] && !Periodic(x.proc)
    {
      var t := queue.active[k];
      assert t in AsSet(queue.active);
      if x.proc in skip {
        var i :| k < i < |queue.active| && queue.active[i].proc == x.proc && queue.active[i] !in fired && queue.active[i].Due() <= now;
        assert queue.active[i] in AsSet(queue.active);
      } else if x !in fired && x != t && due0[x] <= now {
        var i :| k <= i < |queue.active| && queue.active[i] == x;
        assert queue.active[k + 1] in AsSet(queue.active) && queue.active[i] in AsSet(queue.active);
      }
    }

    // The procs that the end of an omit period at position k makes the walk leave out.
    lemma SkippedAt(k: nat, fired: seq<Timer>, now: nat)
      requires Kinds() && k < |queue.active| && queue.active[k].proc == OmitEnd && queue.active[k].Due() <= now
      ensures forall proc :: proc in Outcome(k, fired, now) ==>
                exists i :: k < i < |queue.active| && queue.active[i].proc == proc
                  && queue.active[i] !in fired && queue.active[i].Due() <= now
                            && (Periodic(proc) || Periodic(queue.active[k + 1].proc))
      ensures forall i :: k < i < |queue.active| && queue.active[i] !in fired && queue.active[i].Due() <= now ==>
                (queue.active[i].proc in Outcome(k, fired, now) || !(Periodic(queue.active[i].proc) || Periodic(queue.active[k + 1].proc)))
    {
      OutcomeOf(k, fired, now);
      var es := Entries(queue.active, fired);
      var rest := es[k..][1..];
      assert forall i :: 0 <= i < |rest| ==> rest[i] == es[k + 1 + i];
      forall i | k < i < |queue.active| && queue.active[i] !in fired && queue.active[i].Due() <= now
        ensures queue.active[i].proc in Outcome(k, fired, now) || !(Periodic(queue.active[i].proc) || Periodic(queue.active[k + 1].proc)) {
        assert rest[i - k - 1] in rest;
      }
    }

    // What has not been called has its old deadline, and is not in front of position k.
    lemma NotCalled(x: Timer, fired: seq<Timer>, due0: map<Timer, nat>, now: nat, k: nat)
      requires Book(fired, due0, now) && CalmBook(fired, due0, k) && x in due0.Keys
      ensures x !in fired ==> x.Due() == due0[x] && exists i :: k <= i < |queue.active| && queue.active[i] == x
      ensures x in fired ==> due0[x] <= now
    {
      if x !in fired {
        assert x in AsSet(queue.active);
        assert multiset(fired)[x] == 0;
      }
    }

    lemma BeyondOmit(k: nat, fired: seq<Timer>, due0: map<Timer, nat>, now: nat, skip: set<TimerProc>, next: Timer?)
      requires Valid() && Book(fired, due0, now) && OwnedAll(due0) && k < |queue.active|
      requires PastOmit(queue.active[k], fired, due0, now, skip) && queue.active[k].Due() <= now
      requires next == if k + 1 < |queue.active| then queue.active[k + 1] else null
      ensures Settled(next, fired + [queue.active[k]], due0, now, skip)
      ensures !queue.active[k].periodic && queue.active[k].proc == TestEnd && OnlyTestEnd(queue.active[k], due0)
      ensures forall x :: x in AsSet(queue.active) && Periodic(x.proc) ==> x.Due() == now + x.usecs
    {
    }

    lemma Beyond(t: Timer, fired: seq<Timer>, due0: map<Timer, nat>, now: Time, skip: set<TimerProc>, next: Timer?)
      requires Valid() && Book(fired + [t], due0, InUsecs(now)) && OwnedAll(due0) && AsSet(queue.active) <= due0.Keys
      requires Settled(next, fired + [t], due0, InUsecs(now), skip) && !t.periodic && OnlyTestEnd(t, due0)
      requires t.proc == OmitEnd ==> Moved(statsTimer, now) && Moved(reporterTimer, now)
      requires t.proc != OmitEnd ==> forall x :: x in AsSet(queue.active) && Periodic(x.proc) ==> x.Due() == InUsecs(now) + x.usecs
      ensures PastOmit(next, fired + [t], due0, InUsecs(now), skip)
    {
      hide TimerQueue.Valid;
      assert t in fired + [t];
    }

    lemma StartOfWalk(due0: map<Timer, nat>, now: nat)
      requires Valid() && due0.Keys == AsSet(queue.active) && forall x :: x in due0 ==> due0[x] == x.Due()
      ensures Book([], due0, now) && CalmBook([], due0, 0) && At(queue.timers, 0)
      ensures Owned() ==> OwnedAll(due0)
    {
    }

    lemma ReportsMoved(t: Timer?, fired: seq<Timer>, due0: map<Timer, nat>, now: Time, skip: set<TimerProc>)
      requires Valid() && PastOmit(t, fired, due0, InUsecs(now), skip)
      ensures Moved(statsTimer, now) && Moved(reporterTimer, now)
    {
      hide TimerQueue.Valid, Settled;
    }

    // At the end of the list, or at a timer that is not due, the outcome is there.
    lemma EndOfWalk(t: Timer?, k: nat, fired: seq<Timer>, due0: map<Timer, nat>, now: nat, calm: bool, owned: bool, skip: set<TimerProc>)
      requires Valid() && Book(fired, due0, now) && AsSet(queue.active) <= due0.Keys
      requires t != null ==> t in AsSet(queue.active) && t.Due() > now
      requires calm ==> CalmBook(fired, due0, k) && At(t, k) && Outcome(k, fired, now) == skip
      requires calm && t != null ==> forall i :: k <= i < |queue.active| ==> queue.active[i].Due() > now
      requires owned ==> OwnedAll(due0)
      requires owned && !calm ==> PastOmit(t, fired, due0, now, skip)
      ensures calm ==> CalmBook(fired, due0, 0) && forall x :: x in AsSet(queue.active) ==> x in fired || x.Due() > now
      ensures owned ==> Exact(fired, due0, now, skip)
    {
      hide TimerQueue.Valid, Handles;
      if calm {
        OutcomeOf(k, fired, now);
        var es := Entries(queue.active, fired)[k..];
        assert es != [] ==> es[0] == EntryOf(queue.active[k], fired);
        assert skip == {};
      }
    }

    // When the test's end is due behind the end of an omit period, a run leaves it out exactly when
    // a report timer stands between the two, or lands there before the omit period ends.
    lemma TestEndLeftOut(now: Time, o: nat, t: nat)
      requires Valid() && Owned() && o < t < |queue.active|
      requires queue.active[o].proc == OmitEnd && queue.active[t].proc == TestEnd && queue.active[t].Due() <= InUsecs(now)
      ensures PositivePeriods(Entries(queue.active, [])) && (forall i :: 0 <= i < o ==> Periodic(queue.active[i].proc))
      ensures TestEnd in Outcome(0, [], InUsecs(now)) <==> Caught(Entries(queue.active, []), o, t)
    {
      var es := Entries(queue.active, []);
      EntriesInOrder();
      OutcomeOf(0, [], InUsecs(now));
      assert es[0..] == es;
      assert queue.active[o] in AsSet(queue.active) && queue.active[t] in AsSet(queue.active);
      assert forall i :: 0 <= i < |queue.active| ==> queue.active[i] in AsSet(queue.active);
      hide Caught, Skipped, Outcome, TimerQueue.Valid, Entries;
      TestEndSkipped(es, o, t, InUsecs(now));
    }

    // A report timer that is due is left out exactly when it is behind a due end of an omit period.
    lemma ReportLeftOut(now: Time, o: nat, i: nat)
      requires Valid() && Owned() && o < |queue.active| && i < |queue.active|
      requires queue.active[o].proc == OmitEnd && queue.active[o].Due() <= InUsecs(now)
      requires Periodic(queue.active[i].proc) && queue.active[i].Due() <= InUsecs(now)
      ensures queue.active[i].proc in Outcome(0, [], InUsecs(now)) <==> o < i
    {
      var es := Entries(queue.active, []);
      EntriesInOrder();
      OutcomeOf(0, [], InUsecs(now));
      assert es[0..] == es;
      hide Skipped, Outcome, TimerQueue.Valid, Entries;
      ReportSkipped(es, o, queue.active[i].proc, InUsecs(now));
      if DueBehind(es, o, queue.active[i].proc, InUsecs(now)) {
        var j :| o < j < |es| && es[j].proc == queue.active[i].proc && es[j].due <= InUsecs(now) && !es[j].called;
        OneOf(es, i, j);
      }
    }

    lemma EntriesInOrder()
      requires Valid() && Owned()
      ensures InOrder(Entries(queue.active, [])) && OneOfEachKind(Entries(queue.active, []))
    {
      var s := queue.active;
      assert forall i :: 0 <= i < |s| ==> s[i] in AsSet(s);
      forall i, j | 0 <= i < j < |s| ensures s[i].proc != s[j].proc && s[i].Due() <= s[j].Due() {
      }
    }

    // Handles that are not null are active timers, and no two of them are the same one.
    lemma HandlesDistinct()
      requires Valid()
      ensures forall h :: h in [timer, statsTimer, reporterTimer, omitTimer] && h != null ==> h in queue.active
      ensures timer == null || (timer != statsTimer && timer != reporterTimer && timer != omitTimer)
      ensures statsTimer == null || (statsTimer != reporterTimer && statsTimer != omitTimer)
      ensures reporterTimer == null || reporterTimer != omitTimer
    {
    }

    // One tmr_create; the caller stores the handle.
    method NewTimer(now: Time, proc: TimerProc, usecs: nat) returns (t: Timer)
      requires Valid() && Normal(now) && usecs >= 1
      modifies queue, AsSet(queue.active)`next, AsSet(queue.active)`prev, AsSet(queue.free)
      ensures Valid() && AsSet(queue.active) == old(AsSet(queue.active)) + {t}
      ensures t !in old(AsSet(queue.active)) && (fresh(t) || t in old(AsSet(queue.free))) && t.usecs == usecs
      ensures AsSet(queue.free) <= old(AsSet(queue.free))
      ensures t.proc == proc && t.time == AddUsecs(now, usecs)
      ensures forall x :: x in old(AsSet(queue.active)) ==> x.time == old(x.time) && x.usecs == old(x.usecs)
    {
      ghost var p;
      t, p := queue.Create(now, proc, usecs, Periodic(proc));
      AddedSet(old(queue.active), p, t);
    }

    // create_client_timers and create_client_omit_timer (the server's differ in the duration
    // only). A time of 0 asks for no timer. Whatever was there before stays as it is.
    method CreateTimers(now: Time, duration: nat, stats: nat, report: nat, omit: nat)
      requires Valid() && Normal(now)
      modifies this, queue, AsSet(queue.active)`next, AsSet(queue.active)`prev, AsSet(queue.free)
      ensures Valid() && AsSet(queue.active) == old(AsSet(queue.active)) + Held()
      ensures fresh(AsSet(queue.active) - old(AsSet(queue.active)) - old(AsSet(queue.free)))
      ensures Started(timer, now, duration) && Started(statsTimer, now, stats)
      ensures Started(reporterTimer, now, report) && Started(omitTimer, now, omit)
      ensures omitting <==> omit != 0
      ensures done <==> old(done) && duration == 0
    {
      hide TimerQueue.Valid;
      StartAll(now, duration, stats, report);
      hide Valid;
      StartOmit(now, omit);
    }

    method StartAll(now: Time, duration: nat, stats: nat, report: nat)
      requires Valid() && Normal(now)
      modifies this`timer, this`statsTimer, this`reporterTimer, this`done, queue
      modifies AsSet(queue.active)`next, AsSet(queue.active)`prev, AsSet(queue.free)
      ensures Valid() && AsSet(queue.active) == old(AsSet(queue.active)) + Only(timer) + Only(statsTimer) + Only(reporterTimer)
      ensures AsSet(queue.free) <= old(AsSet(queue.free))
      ensures fresh(AsSet(queue.active) - old(AsSet(queue.active)) - old(AsSet(queue.free)))
      ensures Started(timer, now, duration) && Started(statsTimer, now, stats) && Started(reporterTimer, now, report)
      ensures done <==> old(done) && duration == 0
    {
      hide TimerQueue.Valid;
      timer, statsTimer, reporterTimer := null, null, null;
      StartTest(now, duration);
      StartReports(now, stats, report);
    }

    method StartTest(now: Time, duration: nat)
      requires Valid() && Normal(now) && timer == null
      modifies this`timer, this`done, queue, AsSet(queue.active)`next, AsSet(queue.active)`prev, AsSet(queue.free)
      ensures Valid() && AsSet(queue.active) == old(AsSet(queue.active)) + Only(timer)
      ensures AsSet(queue.free) <= old(AsSet(queue.free))
      ensures fresh(AsSet(queue.active) - old(AsSet(queue.active)) - old(AsSet(queue.free)))
      ensures Started(timer, now, duration) && (done <==> old(done) && duration == 0)
    {
      if duration != 0 {
        done := false;
        timer := NewTimer(now, TestEnd, duration);
      }
    }

    method StartReports(now: Time, stats: nat, report: nat)
      requires Valid() && Normal(now) && statsTimer == reporterTimer == null
      modifies this`statsTimer, this`reporterTimer, queue, AsSet(queue.active)`next, AsSet(queue.active)`prev, AsSet(queue.free)
      ensures Valid() && AsSet(queue.active) == old(AsSet(queue.active)) + Only(statsTimer) + Only(reporterTimer)
      ensures AsSet(queue.free) <= old(AsSet(queue.free))
      ensures fresh(AsSet(queue.active) - old(AsSet(queue.active)) - old(AsSet(queue.free)))
      ensures Started(statsTimer, now, stats) && Started(reporterTimer, now, report)
      ensures forall x :: x in old(AsSet(queue.active)) ==> x.time == old(x.time) && x.usecs == old(x.usecs)
    {
      hide TimerQueue.Valid;
      if stats != 0 {
        statsTimer := NewTimer(now, TimerProc.Stats, stats);
      }
      if report != 0 {
        reporterTimer := NewTimer(now, Reporter, report);
      }
    }

    method StartOmit(now: Time, omit: nat)
      requires Valid() && Normal(now)
      modifies this`omitTimer, this`omitting, queue, AsSet(queue.active)`next, AsSet(queue.active)`prev, AsSet(queue.free)
      ensures Valid() && AsSet(queue.active) == old(AsSet(queue.active)) + Only(omitTimer)
      ensures fresh(AsSet(queue.active) - old(AsSet(queue.active)) - old(AsSet(queue.free)))
      ensures Started(omitTimer, now, omit) && (omitting <==> omit != 0)
      ensures forall x :: x in old(AsSet(queue.active)) ==> x.time == old(x.time) && x.usecs == old(x.usecs)
    {
      if omit == 0 {
        omitTimer := null;
        omitting := false;
      } else {
        omitting := true;
        omitTimer := NewTimer(now, OmitEnd, omit);
      }
    }

    ghost predicate Started(h: Timer?, now: Time, usecs: nat)
      reads queue`active, if h == null then {} else {h}
    {
      if usecs == 0 then h == null
      else h != null && h in AsSet(queue.active) && h.time == AddUsecs(now, usecs) && h.usecs == usecs
    }

    method CancelTimer(t: Timer)
      requires Valid() && t in AsSet(queue.active)
      modifies queue, AsSet(queue.active)`next, AsSet(queue.active)`prev
      ensures queue.Valid() && Kinds() && AsSet(queue.active) == old(AsSet(queue.active)) - {t}
      ensures AsSet(queue.free) == old(AsSet(queue.free)) + {t}
    {
      ghost var k: nat :| k < |queue.active| && queue.active[k] == t;
      queue.ActiveFacts(k);
      RemovedSet(queue.active, k);
      queue.Cancel(t, k);
    }

    // The end of cleanup_server, and iperf_reset_test: every timer a handle points to is
    // cancelled, once, and nothing else is.
    method CancelTimers()
      requires Valid()
      modifies this, queue, AsSet(queue.active)`next, AsSet(queue.active)`prev
      ensures Valid() && timer == statsTimer == reporterTimer == omitTimer == null
      ensures AsSet(queue.active) == old(AsSet(queue.active)) - old(Held())
      ensures AsSet(queue.free) == old(AsSet(queue.free)) + old(Held())
    {
      hide TimerQueue.Valid;
      CancelReports();
      CancelOmit();
      if timer != null {
        CancelTimer(timer);
        timer := null;
      }
    }

    method CancelOmit()
      requires Valid()
      modifies this`omitTimer, queue, AsSet(queue.active)`next, AsSet(queue.active)`prev
      ensures Valid() && omitTimer == null
      ensures AsSet(queue.active) == old(AsSet(queue.active) - Only(omitTimer))
      ensures AsSet(queue.free) == old(AsSet(queue.free) + Only(omitTimer))
    {
      hide TimerQueue.Valid;
      if omitTimer != null {
        CancelTimer(omitTimer);
        omitTimer := null;
      }
    }

    method CancelReports()
      requires Valid()
      modifies this`statsTimer, this`reporterTimer, queue, AsSet(queue.active)`next, AsSet(queue.active)`prev
      ensures Valid() && statsTimer == reporterTimer == null
      ensures AsSet(queue.active) == old(AsSet(queue.active)) - old(Only(statsTimer) + Only(reporterTimer))
      ensures AsSet(queue.free) == old(AsSet(queue.free)) + old(Only(statsTimer) + Only(reporterTimer))
    {
      hide TimerQueue.Valid;
      if statsTimer != null {
        CancelTimer(statsTimer);
        statsTimer := null;
      }
      assert Valid();
      if reporterTimer != null {
        CancelTimer(reporterTimer);
        reporterTimer := null;
      }
    }

    static ghost function Only(t: Timer?): set<Timer> {
      if t == null then {} else {t}
    }

    // The timers that the handles point to.
    ghost function Held(): set<Timer>
      reads this
    {
      Only(timer) + Only(statsTimer) + Only(reporterTimer) + Only(omitTimer)
    }
  }

  // An omit period of 5, statistics every 6 and a test of 7, and no look at the clock before 8:
  // the run at 8 does not call the end of the test.
  method LateLook() returns (test: Test, end: Timer, now: Time, ghost fired: seq<Timer>)
    ensures test.Valid() && end.proc == TestEnd && end in AsSet(test.queue.active)
    ensures now == Time(0, 8) && end.Due() == 7 && end !in fired
  {
    hide *;
    test, end := ShortTest();
    now := Time(0, 8);
    AtEight(test, end, now);
    fired := test.Run(now);
  }

  method ShortTest() returns (test: Test, end: Timer)
    ensures fresh(test) && fresh(test.queue) && fresh(AsSet(test.queue.active))
    ensures test.Valid() && test.Owned() && |test.queue.active| == 3 && test.queue.active[2] == end
    ensures test.queue.active[0].proc == OmitEnd && test.queue.active[1].proc == TimerProc.Stats && end.proc == TestEnd
    ensures end.Due() == 7 && !end.periodic && forall x :: x in AsSet(test.queue.active) ==> x.usecs <= 7
  {
    hide TimerQueue.Valid, Test.Owned;
    test := ThreeTimers();
    end := test.timer;
    ThreeInOrder(test, test.omitTimer, test.statsTimer, end);
  }

  // The test ends at 7, its stats are due at 6 and its omit period ends at 5.
  method ThreeTimers() returns (test: Test)
    ensures fresh(test) && fresh(test.queue) && fresh(AsSet(test.queue.active)) && test.Valid() && test.Owned()
    ensures test.Started(test.timer, Time(0, 0), 7) && test.Started(test.statsTimer, Time(0, 0), 6)
    ensures test.Started(test.omitTimer, Time(0, 0), 5) && test.reporterTimer == null
    ensures AsSet(test.queue.active) == {test.omitTimer, test.statsTimer, test.timer}
  {
    hide TimerQueue.Valid, Test.Owned;
    test := new Test();
    var now := Time(0, 0);
    test.CreateTimers(now, 7, 6, 0, 5);
    assert AsSet(test.queue.active) == {test.omitTimer, test.statsTimer, test.timer};
    hide Test.Started;
    OwnedThree(test);
  }

  lemma OwnedThree(test: Test)
    requires test.Valid() && test.omitTimer != null && test.statsTimer != null && test.timer != null
    requires AsSet(test.queue.active) == {test.omitTimer, test.statsTimer, test.timer}
    ensures test.Owned()
  {
    hide TimerQueue.Valid, AsSet;
  }

  lemma AtEight(test: Test, end: Timer, now: Time)
    requires test.Valid() && test.Owned() && |test.queue.active| == 3 && test.queue.active[2] == end && end.proc == TestEnd
    requires test.queue.active[0].proc == OmitEnd && test.queue.active[1].proc == TimerProc.Stats
    requires end.Due() == 7 && now == Time(0, 8) && forall x :: x in AsSet(test.queue.active) ==> x.usecs <= 7
    ensures TestEnd in test.Outcome(0, [], InUsecs(now)) && end in AsSet(test.queue.active) && test.NoWrap(now)
  {
    hide TimerQueue.Valid, Caught, Skipped, LandsBetween;
    test.TestEndLeftOut(now, 0, 2);
    EntriesAre(test.queue.active, []);
    StatsInBetween(Entries(test.queue.active, []));
  }

  lemma StatsInBetween(q: seq<Entry>)
    requires |q| == 3 && PositivePeriods(q) && q[1].proc == TimerProc.Stats
    ensures Caught(q, 0, 2)
  {
  }

  lemma OneOf(q: seq<Entry>, i: nat, j: nat)
    requires OneOfEachKind(q) && i < |q| && j < |q| && q[i].proc == q[j].proc
    ensures i == j
  {
  }

  lemma FourthTimer(s: seq<Timer>)
    ensures |s| > 3 ==> s[3] in AsSet(s)
  {
  }

  lemma ThreeInOrder(test: Test, a: Timer, b: Timer, c: Timer)
    requires test.Valid() && AsSet(test.queue.active) == {a, b, c} && a.Due() < b.Due() < c.Due()
    ensures test.queue.active == [a, b, c]
  {
    var s := test.queue.active;
    assert a in AsSet(s) && b in AsSet(s) && c in AsSet(s);
    var i :| 0 <= i < |s| && s[i] == a;
    var j :| 0 <= j < |s| && s[j] == b;
    var k :| 0 <= k < |s| && s[k] == c;
    assert i < j < k;
    assert s[0] in AsSet(s) && s[1] in AsSet(s) && s[2] in AsSet(s);
    assert s[0] == a;
    assert s[1] == b;
    assert s[2] == c;
    FourthTimer(s);
  }

  lemma AddedSet(s: seq<Timer>, p: nat, t: Timer)
    requires p <= |s|
    ensures AsSet(With(s, p, t)) == AsSet(s) + {t}
  {
    SetConcat(s[..p] + [t], s[p..]);
    SetConcat(s[..p], [t]);
    SetConcat(s[..p], s[p..]);
    assert s == s[..p] + s[p..];
  }

  // How far the firings have moved the deadline of a timer.
  ghost function Periods(fired: seq<Timer>, x: Timer): nat
    reads x`usecs
  {
    multiset(fired)[x] * x.usecs
  }

  lemma Counted(fired: seq<Timer>, t: Timer)
    ensures Periods(fired + [t], t) == Periods(fired, t) + t.usecs
    ensures forall x :: x != t ==> multiset(fired + [t])[x] == multiset(fired)[x]
    ensures forall x :: x in fired + [t] <==> x in fired || x == t
    ensures t !in fired ==> multiset(fired + [t])[t] == 1
  {
    assert multiset(fired + [t]) == multiset(fired) + multiset{t};
    var m := multiset(fired)[t];
    assert (m + 1) * t.usecs == m * t.usecs + t.usecs;
  }

  ghost function EntryOf(t: Timer, fired: seq<Timer>): Entry
    reads t`proc, t`time, t`usecs
  {
    Entry(t.proc, t.Due(), t.usecs, t in fired)
  }

  ghost function Entries(s: seq<Timer>, fired: seq<Timer>): (es: seq<Entry>)
    reads s`proc, s`time, s`usecs
    ensures |es| == |s| && forall i :: 0 <= i < |s| ==> es[i] == EntryOf(s[i], fired)
  {
    if s == [] then [] else Entries(s[..|s| - 1], fired) + [EntryOf(s[|s| - 1], fired)]
  }

  // After a firing of t, which was at position k of before, that did not end an omit period.
  ghost predicate Others(before: seq<Timer>, es: seq<Entry>, k: nat, t: Timer, fired: seq<Timer>)
    reads before`proc, before`time, before`usecs
  {
    && Distinct(before) && k < |before| == |es| && before[k] == t && PositivePeriods(es)
    && forall i :: 0 <= i < |es| && i != k ==> es[i] == EntryOf(before[i], fired)
  }

  lemma EntriesAre(s: seq<Timer>, fired: seq<Timer>)
    ensures var es := Entries(s, fired);
            |es| == |s| && forall i :: 0 <= i < |s| ==>
              es[i].proc == s[i].proc && es[i].due == s[i].Due() && es[i].usecs == s[i].usecs && es[i].called == (s[i] in fired)
  {
  }

  lemma OthersHold(before: seq<Timer>, es: seq<Entry>, k: nat, t: Timer, fired: seq<Timer>)
    requires Distinct(before) && k < |before| == |es| && before[k] == t && PositivePeriods(es)
    requires forall i :: 0 <= i < |es| ==>
               es[i].proc == before[i].proc && es[i].usecs == before[i].usecs && es[i].called == (before[i] in fired)
    requires forall i :: 0 <= i < |es| && before[i] != t ==> es[i].due == before[i].Due()
    ensures Others(before, es, k, t, fired)
  {
  }

  lemma PeriodicStepped(before: seq<Timer>, es: seq<Entry>, k: nat, p: nat, t: Timer, fired: seq<Timer>, now: nat)
    requires Others(before, es, k, t, fired) && p < |before|
    requires es[k].due <= now && es[k].proc == t.proc && es[k].usecs == t.usecs
    requires Periodic(t.proc) && t.Due() == es[k].due + t.usecs
    requires var s' := With(Without(before, k), p, t);
             (forall i :: 0 <= i < p ==> s'[i].Due() <= t.Due()) && (forall i :: p < i < |s'| ==> t.Due() < s'[i].Due())
    ensures var s' := With(Without(before, k), p, t);
            var k' := if p <= k then k + 1 else k;
            && k' <= |s'| && PositivePeriods(es[k..]) && PositivePeriods(Entries(s', fired + [t])[k'..])
            && Skipped(Entries(s', fired + [t])[k'..], now) == Skipped(es[k..], now)
  {
    hide Skipped, Entries;
    var e := es[k].(due := t.Due(), called := true);
    PutEntries(before, es, k, p, t, fired);
    assert forall i :: 0 <= i < p ==> Rest(es, k)[i].due <= e.due;
    assert forall i :: p <= i < |Rest(es, k)| ==> e.due < Rest(es, k)[i].due by {
      forall i | p <= i < |Rest(es, k)| ensures e.due < Rest(es, k)[i].due {
        assert With(Without(before, k), p, t)[i + 1] == Without(before, k)[i];
      }
    }
    PeriodicStep(es, k, p, e, now);
  }

  lemma RestEntries(before: seq<Timer>, es: seq<Entry>, k: nat, t: Timer, fired: seq<Timer>)
    requires Others(before, es, k, t, fired)
    ensures Entries(Without(before, k), fired + [t]) == Rest(es, k)
    ensures forall i :: 0 <= i < |Rest(es, k)| ==> Rest(es, k)[i] == EntryOf(Without(before, k)[i], fired + [t])
  {
    hide Entries;
  }

  lemma PutEntries(before: seq<Timer>, es: seq<Entry>, k: nat, p: nat, t: Timer, fired: seq<Timer>)
    requires Others(before, es, k, t, fired) && p < |before|
    requires es[k].proc == t.proc && es[k].usecs == t.usecs
    ensures Entries(With(Without(before, k), p, t), fired + [t]) == Put(Rest(es, k), p, es[k].(due := t.Due(), called := true))
    ensures forall i :: 0 <= i < |Rest(es, k)| ==> Rest(es, k)[i].due == Without(before, k)[i].Due()
    ensures forall i :: 0 <= i < p ==> Without(before, k)[i] == With(Without(before, k), p, t)[i]
  {
    hide Entries;
    RestEntries(before, es, k, t, fired);
  }

  lemma OneShotStepped(before: seq<Timer>, es: seq<Entry>, k: nat, t: Timer, fired: seq<Timer>, now: nat)
    requires Others(before, es, k, t, fired)
    requires es[k].due <= now && es[k].proc == TestEnd
    ensures var s' := Without(before, k);
            && k <= |s'| && PositivePeriods(es[k..]) && PositivePeriods(Entries(s', fired + [t])[k..])
            && Skipped(Entries(s', fired + [t])[k..], now) == Skipped(es[k..], now)
  {
    hide Skipped, Entries;
    RestEntries(before, es, k, t, fired);
    OneShotStep(es, k, now);
  }

  // The timer behind t keeps its place in the walk, wherever t goes.
  lemma Onwards(s: seq<Timer>, k: nat, p: nat, t: Timer, fired: seq<Timer>) returns (k': nat)
    requires k < |s| && s[k] == t && forall j :: 0 <= j < k ==> s[j] in fired
    ensures k' == if t.periodic && p <= k then k + 1 else k
    ensures !t.periodic ==>
              var s' := Without(s, k);
              && k' <= |s'| && (if k' < |s'| then k + 1 < |s| && s'[k'] == s[k + 1] else k + 1 == |s|)
              && forall j :: 0 <= j < k' ==> s'[j] in fired + [t]
    ensures t.periodic && p < |s| ==>
              var s' := With(Without(s, k), p, t);
              && k' <= |s'| && (if k' < |s'| then k + 1 < |s| && s'[k'] == s[k + 1] else k + 1 == |s|)
              && forall j :: 0 <= j < k' ==> s'[j] in fired + [t]
  {
    k' := if t.periodic && p <= k then k + 1 else k;
  }

  lemma RemovedSet(s: seq<Timer>, k: nat)
    requires Distinct(s) && k < |s|
    ensures AsSet(Without(s, k)) == AsSet(s) - {s[k]}
  {
    WithoutDistinct(s, k);
  }

  lemma SameSet(s: seq<Timer>, k: nat, p: nat, t: Timer)
    requires k < |s| && s[k] == t && p < |s|
    ensures AsSet(With(Without(s, k), p, t)) == AsSet(s)
  {
    var rest := Without(s, k);
    assert s == s[..k] + [t] + s[k + 1..];
    assert rest == rest[..p] + rest[p..];
    SetConcat(s[..k] + [t], s[k + 1..]);
    SetConcat(s[..k], [t]);
    SetConcat(s[..k], s[k + 1..]);
    SetConcat(rest[..p] + [t], rest[p..]);
    SetConcat(rest[..p], [t]);
    SetConcat(rest[..p], rest[p..]);
  }

  lemma SetConcat(a: seq<Timer>, b: seq<Timer>)
    ensures AsSet(a + b) == AsSet(a) + AsSet(b)
  {
  }
}
