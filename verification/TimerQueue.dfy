// The timer package: a list of active timers sorted by deadline, doubly linked, and a list of
// free ones, singly linked.
module TimerQueue {
  import opened IperfTime

  // The callbacks of a test that timers are created with.
  datatype TimerProc = TestEnd | Stats | Reporter | OmitEnd

  class Timer {
    var proc: TimerProc
    var usecs: nat
    var periodic: bool
    var time: Time
    var prev: Timer?
    var next: Timer?

    constructor ()
      ensures next == prev == null
    {
      proc, usecs, periodic, time := TestEnd, 0, false, Time(0, 0);
      prev, next := null, null;
    }

    function Due(): nat
      reads this`time
    {
      InUsecs(time)
    }
  }

  ghost predicate Distinct(s: seq<Timer>) {
    forall i, j :: 0 <= i < j < |s| ==> s[i] != s[j]
  }

  ghost function AsSet(s: seq<Timer>): set<Timer> {
    set t | t in s
  }

  ghost predicate DoublyLinked(s: seq<Timer>)
    reads s`next, s`prev
  {
    && (forall i {:trigger s[i].next} :: 0 <= i < |s| ==> s[i].next == if i + 1 < |s| then s[i + 1] else null)
    && (forall i {:trigger s[i].prev} :: 0 <= i < |s| ==> s[i].prev == if i > 0 then s[i - 1] else null)
  }

  ghost predicate SinglyLinked(s: seq<Timer>)
    reads s`next
  {
    forall i {:trigger s[i].next} :: 0 <= i < |s| ==> s[i].next == if i + 1 < |s| then s[i + 1] else null
  }

  ghost predicate Sorted(s: seq<Timer>)
    reads s`time
  {
    && (forall i :: 0 <= i < |s| ==> Normal(s[i].time))
    && (forall i, j :: 0 <= i < j < |s| ==> s[i].Due() <= s[j].Due())
  }

  ghost function First(s: seq<Timer>): Timer? {
    if s == [] then null else s[0]
  }

  class TimerQueue {
    var timers: Timer?
    var freeTimers: Timer?
    ghost var active: seq<Timer>
    ghost var free: seq<Timer>

    ghost predicate ActiveOk()
      reads this`timers, this`active, active`next, active`prev
    {
      Distinct(active) && DoublyLinked(active) && timers == First(active)
    }

    ghost predicate FreeOk()
      reads this`freeTimers, this`free, free`next
    {
      Distinct(free) && SinglyLinked(free) && freeTimers == First(free)
    }

    // Everything but the order of the deadlines.
    ghost predicate Links()
      reads this, active`next, active`prev, free`next
    {
      ActiveOk() && FreeOk() && forall t :: t in active ==> t !in free
    }

    ghost predicate Valid()
      reads this, active`next, active`prev, active`time, free`next
    {
      Links() && Sorted(active)
    }

    constructor ()
      ensures Valid() && active == [] && free == []
    {
      timers, freeTimers := null, null;
      active, free := [], [];
    }

    // list_add: behind every timer that is not later, so first come first served.
    method ListAdd(t: Timer) returns (ghost k: nat)
      requires Valid() && t !in active && t !in free && Normal(t.time)
      modifies this`timers, this`active, AsSet(active)`next, AsSet(active)`prev, t`next, t`prev
      ensures Valid() && k <= |old(active)| && active == old(active)[..k] + [t] + old(active)[k..]
      ensures forall i :: 0 <= i < k ==> old(active)[i].Due() <= t.Due()
      ensures forall i :: k <= i < |old(active)| ==> t.Due() < old(active)[i].Due()
    {
      k := Place(t);
      KeptSorted(old(active), k, t);
      assert FreeOk();
    }

    method Place(t: Timer) returns (ghost k: nat)
      requires ActiveOk() && Sorted(active) && t !in active && Normal(t.time)
      modifies this`timers, this`active, AsSet(active)`next, AsSet(active)`prev, t`next, t`prev
      ensures ActiveOk() && k <= |old(active)| && active == old(active)[..k] + [t] + old(active)[k..]
      ensures forall i :: 0 <= i < k ==> old(active)[i].Due() <= t.Due()
      ensures forall i :: k <= i < |old(active)| ==> t.Due() < old(active)[i].Due()
    {
      if timers == null {
        timers := t;
        t.prev := null;
        t.next := null;
        active := [t];
        k := 0;
        return;
      }
      CompareIsOrder(t.time, timers.time);
      if Compare(t.time, timers.time) < 0 {
        LinkHead(t);
        k := 0;
        return;
      }
      var before, after;
      before, after, k := Walk(t);
      assert before in active;
      if after != null {
        assert after in active;
        Link(t, before, after, k);
      } else {
        LinkTail(t, before);
      }
    }

    // The walk to the insertion point, which lies behind the first timer.
    method Walk(t: Timer) returns (before: Timer, after: Timer?, ghost k: nat)
      requires ActiveOk() && Sorted(active) && active != [] && active[0].Due() <= t.Due() && Normal(t.time)
      ensures 1 <= k <= |active| && before == active[k - 1]
      ensures after == if k < |active| then active[k] else null
      ensures forall i :: 0 <= i < k ==> active[i].Due() <= t.Due()
      ensures forall i :: k <= i < |active| ==> t.Due() < active[i].Due()
    {
      before, after, k := timers, timers.next, 1;
      while after != null
        invariant 1 <= k <= |active| && before == active[k - 1]
        invariant after == if k < |active| then active[k] else null
        invariant forall i :: 0 <= i < k ==> active[i].Due() <= t.Due()
        decreases |active| - k
      {
        CompareIsOrder(t.time, after.time);
        if Compare(t.time, after.time) < 0 {
          return;
        }
        before := after;
        after := after.next;
        k := k + 1;
      }
    }

    lemma KeptSorted(s: seq<Timer>, k: nat, t: Timer)
      requires Sorted(s) && k <= |s| && Normal(t.time)
      requires forall i :: 0 <= i < k ==> s[i].Due() <= t.Due()
      requires forall i :: k <= i < |s| ==> t.Due() < s[i].Due()
      ensures Sorted(s[..k] + [t] + s[k..])
    {
    }

    method LinkHead(t: Timer)
      requires ActiveOk() && t !in active && active != []
      modifies this`timers, this`active, AsSet(active)`prev, t`next, t`prev
      ensures ActiveOk() && active == old(active)[..0] + [t] + old(active)[0..]
    {
      t.prev := null;
      t.next := timers;
      timers.prev := t;
      timers := t;
      ghost var u := [t] + active;
      assert forall i :: 0 < i < |u| ==> u[i] == active[i - 1];
      active := u;
    }

    method LinkTail(t: Timer, before: Timer)
      requires ActiveOk() && t !in active
      requires active != [] && before == active[|active| - 1]
      modifies this`active, before`next, t`next, t`prev
      ensures ActiveOk() && active == old(active)[..|old(active)|] + [t] + old(active)[|old(active)|..]
    {
      before.next := t;
      t.prev := before;
      t.next := null;
      active := active + [t];
    }

    // t goes between two neighbours.
    method Link(t: Timer, before: Timer, after: Timer, ghost k: nat)
      requires ActiveOk() && t !in active
      requires 1 <= k < |active| && before == active[k - 1] && after == active[k]
      modifies this`active, before`next, after`prev, t`next, t`prev
      ensures ActiveOk() && active == old(active)[..k] + [t] + old(active)[k..]
    {
      ghost var s := active;
      before.next := t;
      t.prev := before;
      t.next := after;
      after.prev := t;
      InsertedDistinct(s, k, t);
      active := s[..k] + [t] + s[k..];
    }

    method ListRemove(t: Timer, ghost k: nat)
      requires ActiveOk() && k < |active| && active[k] == t
      modifies this`timers, this`active, AsSet(active)`next, AsSet(active)`prev
      ensures ActiveOk() && active == old(active)[..k] + old(active)[k + 1..]
      ensures t.next == old(t.next) && t.prev == old(t.prev)
    {
      ghost var s := active;
      if t.prev == null {
        timers := t.next;
      } else {
        t.prev.next := t.next;
      }
      if t.next != null {
        t.next.prev := t.prev;
      }
      ghost var u := s[..k] + s[k + 1..];
      assert forall i :: 0 <= i < k ==> u[i] == s[i];
      assert forall i :: k <= i < |u| ==> u[i] == s[i + 1];
      active := u;
    }

    // list_resort: t, whose time has changed, is put back in order.
    method ListResort(t: Timer, ghost k: nat) returns (ghost p: nat)
      requires Links() && k < |active| && active[k] == t
      requires Sorted(Without(active, k)) && Normal(t.time)
      modifies this`timers, this`active, AsSet(active)`next, AsSet(active)`prev
      ensures Valid() && p < |old(active)| && active == With(old(Without(active, k)), p, t)
      ensures forall i :: 0 <= i < p ==> active[i].Due() <= t.Due()
      ensures forall i :: p < i < |active| ==> t.Due() < active[i].Due()
    {
      ghost var rest := Without(active, k);
      Unlink(t, k);
      p := ListAdd(t);
      WithIndices(rest, p, t);
    }

    // The end of tmr_reset and of a periodic firing: a new deadline for t, and back in order.
    method SetTime(t: Timer, ghost k: nat, time: Time) returns (ghost p: nat)
      requires Valid() && k < |active| && active[k] == t && Normal(time)
      modifies this`timers, this`active, AsSet(active)`next, AsSet(active)`prev, t`time
      ensures Valid() && t.time == time
      ensures p < |old(active)| && active == With(old(Without(active, k)), p, t)
      ensures forall i :: 0 <= i < p ==> active[i].Due() <= t.Due()
      ensures forall i :: p < i < |active| ==> t.Due() < active[i].Due()
    {
      hide ActiveOk, FreeOk;
      SortedWithout(active, k);
      WithoutDistinctOf(k);
      t.time := time;
      p := ListResort(t, k);
    }

    lemma ActiveFacts(k: nat)
      requires Valid() && k < |active|
      ensures Distinct(active) && Normal(active[k].time)
    {
    }

    lemma Head()
      requires Valid()
      ensures timers == if active == [] then null else active[0]
    {
    }

    lemma Successor(k: nat)
      requires Valid() && k < |active|
      ensures active[k].next == if k + 1 < |active| then active[k + 1] else null
      ensures k + 1 < |active| ==> active[k + 1] != active[k]
      ensures Normal(active[k].time)
    {
    }

    // Behind a timer that is not due no timer is due.
    lemma RestIsLater(k: nat, now: Time)
      requires Valid() && Normal(now) && k < |active| && Compare(active[k].time, now) > 0
      ensures forall i :: k <= i < |active| ==> active[i].Due() > InUsecs(now)
    {
      CompareIsOrder(active[k].time, now);
    }

    lemma WithoutDistinctOf(k: nat)
      requires ActiveOk() && k < |active|
      ensures active[k] !in Without(active, k)
    {
      WithoutDistinct(active, k);
    }

    method Unlink(t: Timer, ghost k: nat)
      requires Links() && k < |active| && active[k] == t
      modifies this`timers, this`active, AsSet(active)`next, AsSet(active)`prev
      ensures Links() && active == old(Without(active, k)) && t !in active && t !in free
    {
      WithoutDistinct(active, k);
      ListRemove(t, k);
      assert FreeOk();
    }

    // tmr_create, on a timer from the free list if there is one.
    method Create(now: Time, proc: TimerProc, usecs: nat, periodic: bool) returns (t: Timer, ghost p: nat)
      requires Valid() && Normal(now)
      modifies this, AsSet(active)`next, AsSet(active)`prev, AsSet(free)
      ensures Valid()
      ensures old(free) == [] ==> fresh(t) && free == []
      ensures old(free) != [] ==> t == old(free)[0] && free == old(free)[1..]
      ensures p <= |old(active)| && active == With(old(active), p, t) && t !in old(active)
      ensures t.proc == proc && t.usecs == usecs && t.periodic == periodic && t.time == AddUsecs(now, usecs)
    {
      t := Take();
      Fill(t, now, proc, usecs, periodic);
      p := ListAdd(t);
    }

    method Fill(t: Timer, now: Time, proc: TimerProc, usecs: nat, periodic: bool)
      requires Valid() && t !in active && Normal(now)
      modifies t`proc, t`usecs, t`periodic, t`time
      ensures Valid() && Normal(t.time)
      ensures t.proc == proc && t.usecs == usecs && t.periodic == periodic && t.time == AddUsecs(now, usecs)
    {
      hide AddUsecs, Sorted;
      AddIsExact(now, usecs);
      t.proc := proc;
      t.usecs := usecs;
      t.periodic := periodic;
      t.time := AddUsecs(now, usecs);
    }

    method Take() returns (t: Timer)
      requires Valid()
      modifies this`freeTimers, this`free
      ensures Valid() && t !in active && t !in free
      ensures old(free) == [] ==> fresh(t) && free == []
      ensures old(free) != [] ==> t == old(free)[0] && free == old(free)[1..]
    {
      if freeTimers != null {
        t := freeTimers;
        freeTimers := t.next;
        assert t in free;
        free := free[1..];
      } else {
        t := new Timer();
      }
    }

    // tmr_cancel, for an active timer.
    method Cancel(t: Timer, ghost k: nat)
      requires Valid() && k < |active| && active[k] == t
      modifies this, AsSet(active)`next, AsSet(active)`prev
      ensures Valid() && active == old(Without(active, k)) && free == [t] + old(free)
    {
      hide ActiveOk, FreeOk, Sorted, Distinct;
      NotFree(k);
      SortedWithout(active, k);
      Unlink(t, k);
      PushFree(t);
    }

    lemma NotFree(k: nat)
      requires Links() && k < |active|
      ensures active[k] !in free && active[k] !in Without(active, k)
      ensures forall x :: x in Without(active, k) ==> x in active
    {
      WithoutDistinct(active, k);
    }

    method PushFree(t: Timer)
      requires FreeOk() && t !in free
      modifies this`freeTimers, this`free, t`next, t`prev
      ensures FreeOk() && free == [t] + old(free)
    {
      t.next := freeTimers;
      freeTimers := t;
      t.prev := null;
      ghost var f := [t] + free;
      assert forall i :: 0 < i < |f| ==> f[i] == free[i - 1];
      free := f;
    }

    // tmr_timeout: how long until the first deadline, as seconds and microseconds.
    method Timeout(now: Time) returns (pending: bool, secs: nat, usecs: nat)
      requires Valid() && Normal(now)
      ensures pending <==> active != []
      ensures pending ==> usecs < MILLION
      ensures pending ==> forall t :: t in active ==> secs * MILLION + usecs <= Remaining(t.Due(), InUsecs(now))
      ensures pending ==> exists t :: t in active && secs * MILLION + usecs == Remaining(t.Due(), InUsecs(now))
    {
      if timers == null {
        return false, 0, 0;
      }
      assert timers in active;
      DiffIsDistance(timers.time, now);
      var diff := Diff(timers.time, now);
      var left := if diff.0 then 0 else InUsecs(diff.1);
      secs, usecs := left / MILLION, left % MILLION;
      assert secs * MILLION + usecs == Remaining(timers.Due(), InUsecs(now));
      pending := true;
    }
  }

  function Remaining(due: nat, now: nat): nat {
    if due <= now then 0 else due - now
  }

  ghost function Without(s: seq<Timer>, k: nat): seq<Timer>
    requires k < |s|
  {
    s[..k] + s[k + 1..]
  }

  ghost function With(s: seq<Timer>, p: nat, t: Timer): seq<Timer>
    requires p <= |s|
  {
    s[..p] + [t] + s[p..]
  }

  lemma SortedWithout(s: seq<Timer>, k: nat)
    requires Sorted(s) && k < |s|
    ensures Sorted(Without(s, k))
  {
  }

  lemma WithIndices(s: seq<Timer>, p: nat, t: Timer)
    requires p <= |s|
    ensures forall i :: 0 <= i < p ==> With(s, p, t)[i] == s[i]
    ensures With(s, p, t)[p] == t
    ensures forall i :: p < i <= |s| ==> With(s, p, t)[i] == s[i - 1]
  {
  }

  // A new element at k: what stands where, and that it all differs.
  lemma InsertedDistinct(s: seq<Timer>, k: nat, t: Timer)
    requires Distinct(s) && k <= |s| && t !in s
    ensures var u := s[..k] + [t] + s[k..];
            && Distinct(u) && |u| == |s| + 1 && u[k] == t
            && (forall i :: 0 <= i < k ==> u[i] == s[i])
            && (forall i :: k < i < |u| ==> u[i] == s[i - 1])
  {
  }

  lemma WithoutDistinct(s: seq<Timer>, k: nat)
    requires Distinct(s) && k < |s|
    ensures var rest := Without(s, k);
            && Distinct(rest) && s[k] !in rest
            && (forall i :: 0 <= i < k ==> rest[i] == s[i])
            && (forall i :: k <= i < |rest| ==> rest[i] == s[i + 1])
            && (forall t :: t in rest <==> t in s && t != s[k])
  {
    var rest := Without(s, k);
    forall t | t in s && t != s[k] ensures t in rest {
      var i :| 0 <= i < |s| && s[i] == t;
      assert if i < k then rest[i] == t else rest[i - 1] == t;
    }
  }

  // How much a timer is overdue, counting the microsecond of its deadline itself.
  ghost function Late(t: Timer, now: nat): nat
    reads t`time
  {
    if t.Due() <= now then now - t.Due() + 1 else 0
  }

  ghost function Overdue(s: seq<Timer>, now: nat): nat
    reads s`time
  {
    if s == [] then 0 else Late(s[0], now) + Overdue(s[1..], now)
  }

  lemma {:induction false} OverdueConcat(a: seq<Timer>, b: seq<Timer>, now: nat)
    ensures Overdue(a + b, now) == Overdue(a, now) + Overdue(b, now)
  {
    if a == [] {
      assert [] + b == b;
    } else {
      assert (a + b)[1..] == a[1..] + b;
      OverdueConcat(a[1..], b, now);
    }
  }

  lemma OverdueWith(s: seq<Timer>, p: nat, t: Timer, now: nat)
    requires p <= |s|
    ensures Overdue(With(s, p, t), now) == Overdue(s, now) + Late(t, now)
  {
    OverdueConcat(s[..p] + [t], s[p..], now);
    OverdueConcat(s[..p], [t], now);
    OverdueConcat(s[..p], s[p..], now);
    assert s[..p] + s[p..] == s;
    assert Overdue([t], now) == Late(t, now) + Overdue([], now);
  }

  lemma OverdueWithout(s: seq<Timer>, k: nat, now: nat)
    requires k < |s|
    ensures Overdue(s, now) == Overdue(Without(s, k), now) + Late(s[k], now)
  {
    assert With(Without(s, k), k, s[k]) == s;
    OverdueWith(Without(s, k), k, s[k], now);
  }
}
