// Pacing of a stream: when a message may go out so that the stream keeps to the target rate.
module Pacing {
  const SEC_TO_NS: nat := 1_000_000_000

  // The rate so far in whole bits a second.
  function BitsPerSecond(bits: nat, seconds: real): int
    requires seconds > 0.0
  {
    (bits as real / seconds).Floor
  }

  // How far rounding may put a stream ahead: one bit, and what the rate gives in a nanosecond.
  function Rounding(rate: nat): real {
    1.0 + rate as real / SEC_TO_NS as real
  }

  // The bits are within what the rate allows in the time, and so many more.
  ghost predicate Within(bits: nat, rate: nat, elapsed: real, more: nat) {
    bits as real <= rate as real * elapsed + Rounding(rate) + more as real
  }

  lemma LaterWithin(bits: nat, rate: nat, elapsed: real, later: real, more: nat, evenMore: nat)
    requires Within(bits, rate, elapsed, more) && elapsed <= later && more <= evenMore
    ensures Within(bits, rate, later, evenMore)
  {
    assert rate as real * elapsed <= rate as real * later;
  }

  // The rate so far is below the target exactly when the bits are.
  lemma BelowRate(bits: nat, seconds: real, rate: nat)
    requires seconds > 0.0
    ensures BitsPerSecond(bits, seconds) < rate <==> bits as real < rate as real * seconds
  {
    var x := bits as real / seconds;
    assert x * seconds == bits as real;
    if x < rate as real {
      assert x * seconds < rate as real * seconds;
    } else {
      assert x * seconds >= rate as real * seconds;
    }
  }

  lemma JustBelow(bits: nat, rate: nat, elapsed: real, later: real)
    requires bits as real < rate as real * elapsed && elapsed <= later
    ensures Within(bits, rate, later, 0)
  {
    assert rate as real * elapsed <= rate as real * later;
  }

  // The sleep in nanoseconds for a stream that is ahead.
  function TimeToGreenLight(bits: nat, seconds: real, rate: nat): int
    requires rate > 0
  {
    SEC_TO_NS * (bits as real - seconds * rate as real).Floor / rate
  }

  // After that sleep the stream is within the rate again, up to rounding.
  lemma SleepIsEnough(bits: nat, seconds: real, rate: nat, later: real)
    requires seconds > 0.0 && rate > 0 && BitsPerSecond(bits, seconds) > rate
    requires later >= seconds + TimeToGreenLight(bits, seconds, rate) as real / SEC_TO_NS as real
    ensures TimeToGreenLight(bits, seconds, rate) >= 0
    ensures Within(bits, rate, later, 0)
  {
    BelowRate(bits, seconds, rate);
    var ahead := bits as real - seconds * rate as real;
    var delta := ahead.Floor;
    var sleep := TimeToGreenLight(bits, seconds, rate);
    assert delta >= 0;
    assert sleep * rate + rate > SEC_TO_NS * delta by {
      Quotient(SEC_TO_NS * delta, rate);
    }
    var t := sleep as real / SEC_TO_NS as real;
    var r := rate as real;
    assert t * r + r / SEC_TO_NS as real > delta as real by {
      assert t * r == (sleep * rate) as real / SEC_TO_NS as real;
    }
    assert r * later >= r * (seconds + t) == r * seconds + t * r;
  }

  // A sleep that is at most what the stream is ahead by, at the target rate.
  ghost predicate NoLonger(ns: nat, bits: nat, rate: nat, seconds: real) {
    ns == 0 || ns as real * rate as real <= SEC_TO_NS as real * (bits as real - rate as real * seconds)
  }

  // The sleep is no longer than that, and shorter by rounding at most.
  lemma SleepIsNotTooLong(bits: nat, seconds: real, rate: nat)
    requires seconds > 0.0 && rate > 0 && TimeToGreenLight(bits, seconds, rate) >= 0
    ensures NoLonger(TimeToGreenLight(bits, seconds, rate), bits, rate, seconds)
    ensures TimeToGreenLight(bits, seconds, rate) as real * rate as real
            > SEC_TO_NS as real * (bits as real - rate as real * seconds - Rounding(rate))
  {
    var ahead := bits as real - seconds * rate as real;
    var delta := ahead.Floor;
    var sleep := TimeToGreenLight(bits, seconds, rate);
    assert sleep * rate <= SEC_TO_NS * delta < sleep * rate + rate;
    assert (sleep * rate) as real == sleep as real * rate as real;
  }

  // When the sleep takes just the time that was asked for, the stream wakes with at least the bits
  // that the rate asks for.
  lemma NeverBelow(ns: nat, bits: nat, rate: nat, seconds: real)
    requires ns > 0 && NoLonger(ns, bits, rate, seconds)
    ensures bits as real >= rate as real * (seconds + ns as real / SEC_TO_NS as real)
  {
    var t := ns as real / SEC_TO_NS as real;
    assert ns as real * rate as real == SEC_TO_NS as real * (t * rate as real);
    assert rate as real * (seconds + t) == rate as real * seconds + t * rate as real;
  }

  // An earlier look at the clock only allows a longer sleep.
  lemma LooserBefore(ns: nat, bits: nat, rate: nat, seconds: real, less: real)
    requires NoLonger(ns, bits, rate, seconds) && less <= seconds
    ensures NoLonger(ns, bits, rate, less)
  {
    assert rate as real * less <= rate as real * seconds;
  }

  // A stream that slept for some of the time so far, and no longer than its bits take at the rate,
  // keeps to that with one more sleep.
  lemma RestedAfter(bits: nat, rate: nat, slept: real, seconds: real, ns: nat, more: real)
    requires NoLonger(ns, bits, rate, seconds) && 0.0 <= more <= ns as real / SEC_TO_NS as real
    requires rate as real * slept <= bits as real && slept <= seconds
    ensures rate as real * (slept + more) <= bits as real
  {
    var r := rate as real;
    assert r * (slept + more) == r * slept + r * more;
    if ns > 0 {
      NeverBelow(ns, bits, rate, seconds);
      assert r * (slept + more) <= r * (seconds + ns as real / SEC_TO_NS as real);
    }
  }

  lemma Quotient(a: nat, b: nat)
    requires b > 0
    ensures 0 <= a / b && a / b * b <= a < a / b * b + b
  {
  }
}
