/**
 * The offer countdown of app.js: the remaining time until a deadline, in integer
 * milliseconds, is shown as days, hours, minutes and seconds, and the widget keeps
 * rescheduling itself until the deadline has passed, when it shows "Offer ended".
 */
module Countdown {
  import Decimal

  const MsPerSecond: nat := 1000
  const MsPerMinute: nat := 60000
  const MsPerHour: nat := 3600000
  const MsPerDay: nat := 86400000

  const Ended := "Offer ended"

  datatype Parts = Parts(days: nat, hours: nat, minutes: nat, seconds: nat)

  /** The milliseconds the parts stand for. */
  function Millis(p: Parts): nat {
    p.days * MsPerDay + p.hours * MsPerHour + p.minutes * MsPerMinute + p.seconds * MsPerSecond
  }

  /** Parts in the ranges a clock shows: hours below 24, minutes and seconds below 60. */
  predicate InRange(p: Parts) {
    p.hours < 24 && p.minutes < 60 && p.seconds < 60
  }

  /** The floor divisions and remainders of the tick, for a positive remaining time. */
  function Decompose(diff: nat): (p: Parts)
    ensures InRange(p)
  {
    Parts(diff / MsPerDay, diff % MsPerDay / MsPerHour, diff % MsPerHour / MsPerMinute,
          diff % MsPerMinute / MsPerSecond)
  }

  /** Euclidean division is determined by quotient and remainder. */
  lemma DivModUnique(x: int, m: int, q: int, r: int)
    requires m > 0 && 0 <= r < m && x == m * q + r
    ensures x / m == q && x % m == r
  {
    var q', r' := x / m, x % m;
    assert m * (q - q') == r' - r;
    if q > q' {
      MulAtLeast(m, q - q');
    } else if q < q' {
      MulAtLeast(m, q' - q);
    }
  }

  lemma {:induction false} MulAtLeast(m: int, t: int)
    requires m > 0 && t >= 1
    ensures m * t >= m
    decreases t
  {
    if t > 1 {
      MulAtLeast(m, t - 1);
      assert m * t == m * (t - 1) + m;
    }
  }

  /** Taking a remainder by a multiple of `m` first does not change the remainder by `m`. */
  lemma ModOfMultiple(x: nat, m: nat, k: nat)
    requires m > 0 && k > 0
    ensures m * k > 0 && (x % (m * k)) % m == x % m
  {
    var mk := m * k;
    assert mk >= m;
    var q, r := x / mk, x % mk;
    assert x == m * (k * q + r / m) + r % m;
    DivModUnique(x, m, k * q + r / m, r % m);
  }

  /** The parts account for the remaining time to the millisecond below a whole second. */
  lemma DecomposeWindow(diff: nat)
    ensures Millis(Decompose(diff)) <= diff < Millis(Decompose(diff)) + MsPerSecond
  {
    var p := Decompose(diff);
    var r1 := diff % MsPerDay;
    assert diff == p.days * MsPerDay + r1;
    ModOfMultiple(diff, MsPerHour, 24);
    var r2 := diff % MsPerHour;
    assert r1 == p.hours * MsPerHour + r2;
    ModOfMultiple(diff, MsPerMinute, 60);
    var r3 := diff % MsPerMinute;
    assert r2 == p.minutes * MsPerMinute + r3;
    ModOfMultiple(diff, MsPerSecond, 60);
    assert r3 == p.seconds * MsPerSecond + diff % MsPerSecond;
  }

  /** Any in-range parts that account for `diff` this way are the ones the tick computes. */
  lemma DecomposeUnique(diff: nat, p: Parts)
    requires InRange(p)
    requires Millis(p) <= diff < Millis(p) + MsPerSecond
    ensures p == Decompose(diff)
  {
    var e := diff - Millis(p);
    var r3 := p.seconds * MsPerSecond + e;
    var r2 := p.minutes * MsPerMinute + r3;
    var r1 := p.hours * MsPerHour + r2;
    assert diff == MsPerDay * p.days + r1;
    DivModUnique(diff, MsPerDay, p.days, r1);
    DivModUnique(r1, MsPerHour, p.hours, r2);
    ModOfMultiple(diff, MsPerHour, 24);
    DivModUnique(r2, MsPerMinute, p.minutes, r3);
    ModOfMultiple(diff, MsPerMinute, 60);
    DivModUnique(r3, MsPerSecond, p.seconds, e);
    ModOfMultiple(diff, MsPerSecond, 60);
  }

  /** The countdown text `${d}d ${h}h ${m}m ${s}s`. */
  function Format(p: Parts): (text: string)
    ensures |text| > 0 && Decimal.IsDigit(text[0])
  {
    Decimal.NatToString(p.days) + "d " + Decimal.NatToString(p.hours) + "h "
    + Decimal.NatToString(p.minutes) + "m " + Decimal.NatToString(p.seconds) + "s"
  }

  /** What one tick writes into the countdown element for the remaining time `diff`. */
  function Render(diff: int): (text: string)
    ensures text == Ended <==> diff <= 0
  {
    if diff <= 0 then Ended
    else
      var t := Format(Decompose(diff));
      assert t[0] != Ended[0];
      t
  }

  /** A deadline 3661000 ms away is first shown as one hour, one minute and one second. */
  lemma RenderOneHourOneMinuteOneSecond()
    ensures Render(3661000) == "0d 1h 1m 1s"
  {
    assert Decompose(3661000) == Parts(0, 1, 1, 1);
  }

  /**
   * The countdown element and its self-rescheduling tick. `pending` says whether the
   * tick has scheduled another run of itself; `target` is the deadline in milliseconds.
   */
  class CountdownWidget {
    const target: int
    var hidden: bool
    var text: string
    var pending: bool
    ghost var remaining: int    // target - now at the most recent tick

    /**
     * The text is the rendering of the last remaining time, and another tick is scheduled
     * exactly while time remained, that is, exactly while the text is not "Offer ended".
     */
    ghost predicate Valid()
      reads this
    {
      text == Render(remaining) && (pending <==> remaining > 0)
    }

    /** `startCountdown`: unhide the element and run the first tick at once. */
    constructor Start(target: int, now: int)
      ensures Valid() && this.target == target && !hidden
      ensures remaining == target - now && text == Render(target - now) && pending == (now < target)
    {
      this.target := target;
      hidden := false;
      text := "";
      pending := false;
      new;
      Tick(now);
    }

    /** One tick at clock reading `now`: render, and reschedule only while time remains. */
    method Tick(now: int)
      modifies this`text, this`pending, this`remaining
      ensures Valid() && (pending <==> text != Ended)
      ensures remaining == target - now && text == Render(target - now) && pending == (now < target)
    {
      var diff := target - now;
      remaining := diff;
      if diff <= 0 {
        text := Ended;
        pending := false;
        return;
      }
      text := Format(Decompose(diff));
      pending := true;
    }

    /**
     * The scheduled ticks, run one after another at the clock readings `clock`, until the
     * deadline has passed or the readings run out. Returns how many ticks ran; with `Valid()`
     * the text is the rendering of the last tick's remaining time.
     */
    method Run(clock: seq<int>) returns (ran: nat)
      requires Valid()
      modifies this`text, this`pending, this`remaining
      ensures Valid() && ran <= |clock|
      ensures !old(pending) ==> ran == 0 && text == old(text) && !pending
      ensures old(pending) ==> forall j :: 0 <= j < ran - 1 ==> clock[j] < target
      ensures old(pending) && ran > 0 ==>
                remaining == target - clock[ran - 1] && pending == (clock[ran - 1] < target)
      ensures pending ==> ran == |clock|
      ensures old(pending) && |clock| > 0 ==> ran > 0
      ensures ran == 0 ==> text == old(text) && pending == old(pending) && remaining == old(remaining)
    {
      ran := 0;
      if !pending {
        return;
      }
      while ran < |clock| && pending
        invariant Valid() && ran <= |clock|
        invariant ran == 0 ==> pending
        invariant ran == 0 ==> text == old(text) && pending == old(pending) && remaining == old(remaining)
        invariant forall j :: 0 <= j < ran - 1 ==> clock[j] < target
        invariant ran > 0 ==> remaining == target - clock[ran - 1]
      {
        Tick(clock[ran]);
        ran := ran + 1;
      }
    }
  }
}
