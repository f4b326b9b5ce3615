// Time stamps of seconds and microseconds, both kept in 32 bits.
module IperfTime {

  const MILLION: nat := 1_000_000
  const WRAP: nat := 0x1_0000_0000

  datatype Time = Time(secs: nat, usecs: nat)

  // Normalised: the microseconds are less than a second.
  predicate Normal(t: Time) {
    t.secs < WRAP && t.usecs < MILLION
  }

  function InUsecs(t: Time): nat {
    t.secs * MILLION + t.usecs
  }

  // iperf_time_add_usecs: the seconds wrap at 32 bits.
  function AddUsecs(t: Time, usecs: nat): Time {
    var total := t.usecs + usecs;
    Time((t.secs + total / MILLION) % WRAP, total % MILLION)
  }

  function Compare(a: Time, b: Time): int {
    if a.secs < b.secs then -1
    else if a.secs > b.secs then 1
    else if a.usecs < b.usecs then -1
    else if a.usecs > b.usecs then 1
    else 0
  }

  // iperf_time_diff: the distance, and whether a is not later than b.
  function Diff(a: Time, b: Time): (bool, Time)
    requires Normal(a) && Normal(b)
  {
    var cmp := Compare(a, b);
    if cmp == 0 then (true, Time(0, 0))
    else if cmp == 1 then (false, Minus(a, b))
    else (true, Minus(b, a))
  }

  function Minus(a: Time, b: Time): Time
    requires Normal(a) && Normal(b) && Compare(a, b) == 1
  {
    if a.usecs < b.usecs then Time(a.secs - b.secs - 1, a.usecs + MILLION - b.usecs)
    else Time(a.secs - b.secs, a.usecs - b.usecs)
  }

  lemma CompareIsOrder(a: Time, b: Time)
    requires Normal(a) && Normal(b)
    ensures Compare(a, b) < 0 <==> InUsecs(a) < InUsecs(b)
    ensures Compare(a, b) == 0 <==> InUsecs(a) == InUsecs(b)
    ensures InUsecs(a) == InUsecs(b) ==> a == b
  {
  }

  lemma DiffIsDistance(a: Time, b: Time)
    requires Normal(a) && Normal(b)
    ensures Diff(a, b).0 <==> InUsecs(a) <= InUsecs(b)
    ensures InUsecs(Diff(a, b).1) == if InUsecs(a) < InUsecs(b) then InUsecs(b) - InUsecs(a) else InUsecs(a) - InUsecs(b)
    ensures Normal(Diff(a, b).1)
  {
    CompareIsOrder(a, b);
  }

  // Adding is exact precisely until the seconds no longer fit their 32 bits.
  lemma AddIsExact(t: Time, usecs: nat)
    requires Normal(t)
    ensures Normal(AddUsecs(t, usecs))
    ensures InUsecs(AddUsecs(t, usecs)) == InUsecs(t) + usecs <==> InUsecs(t) + usecs < WRAP * MILLION
  {
    var total := t.usecs + usecs;
    assert total == total / MILLION * MILLION + total % MILLION;
    var s := t.secs + total / MILLION;
    assert InUsecs(t) + usecs == s * MILLION + total % MILLION;
    if s >= WRAP {
      assert s % WRAP < s;
    }
  }
}
