/** The lease, renewal and rebinding times that dhcpack computes (client/dhclient.c). */
module LeaseTimes {
  import opened Common

  /** `time_t` as 32 or 64 bits; all of its values lie in `-Half() .. Half() - 1`. */
  datatype Width = Narrow | Wide {
    function Half(): int { if Narrow? then 0x8000_0000 else 0x8000_0000_0000_0000 }

    predicate Fits(x: int) { -Half() <= x < Half() }

    /** What a sum of two values wraps to. */
    function Wrap(x: int): int { if x >= Half() then x - 2 * Half() else x }

    /** An unsigned 32-bit option value stored in a `time_t`. */
    function FromWire(x: nat): int
      requires x < 0x1_0000_0000
    {
      if Narrow? && x >= 0x8000_0000 then x - 0x1_0000_0000 else x
    }

    /** `t += now`, with an overflowed sum replaced by TIME_MAX. */
    function AddClock(t: int, now: int): int {
      var sum := Wrap(t + now);
      if sum < now then TIME_MAX else sum
    }
  }

  /** The clock values at which no sum of the clock and an option can overflow a wide `time_t`. */
  predicate ClockOk(w: Width, now: int) {
    0 <= now && (if w.Narrow? then now < w.Half() else now <= w.Half() - 0x1_0000_0000)
  }

  predicate OnWire(x: int) { 0 <= x < 0x1_0000_0000 }

  datatype Times = Times(expiry: int, renewal: int, rebind: int)

  /** The lease length as dhcpack keeps it: a value that looks negative is very large. */
  function LeaseLength(w: Width, lease: nat): int
    requires OnWire(lease)
  {
    var e := w.FromWire(lease);
    if e < 0 then TIME_MAX else e
  }

  /** The renewal interval before it is compared with the rebinding interval. */
  function Renewal(w: Width, expiry: int, t1: nat, random: nat): int
    requires OnWire(t1) && expiry > 0
  {
    var wire := w.FromWire(t1);
    var r := if wire == 0 then expiry / 2 + 1 else wire;
    var r' := if r <= 0 then TIME_MAX else r;
    if r' <= TIME_MAX / 3 - 3 then (r' * 3 + 3) / 4 + (random % r' + 3) / 4 else r'
  }

  function Rebind(w: Width, expiry: int, t2: nat): int
    requires OnWire(t2) && expiry > 0
  {
    var wire := w.FromWire(t2);
    if wire > 0 then wire
    else if expiry <= TIME_MAX / 7 then expiry * 7 / 8
    else expiry / 8 * 7
  }

  /** A renewal interval that the randomness carried past the rebinding interval is pulled back. */
  function Clamped(renewal: int, rebind: int): int {
    if renewal <= rebind then renewal
    else if rebind <= TIME_MAX / 3 then rebind * 3 / 4
    else rebind / 4 * 3
  }

  /** dhcpack's times; option values of 0 stand for a missing or short option. `lease` is not 0. */
  function AckTimes(w: Width, now: int, lease: nat, t1: nat, t2: nat, random: nat): Times
    requires OnWire(lease) && OnWire(t1) && OnWire(t2) && lease != 0
  {
    var e := LeaseLength(w, lease);
    var b := Rebind(w, e, t2);
    var r := Clamped(Renewal(w, e, t1, random), b);
    Times(w.AddClock(e, now), w.AddClock(r, now), w.AddClock(b, now))
  }

  /** Adding the clock with saturation keeps the order of intervals and never goes before the clock. */
  lemma AddClockMono(w: Width, x: int, y: int, now: int)
    requires ClockOk(w, now) && 0 <= x <= y < 0x1_0000_0000 && (w.Narrow? ==> y <= TIME_MAX)
    ensures now <= w.AddClock(x, now) <= w.AddClock(y, now)
    ensures w.AddClock(x, now) == if x + now < w.Half() then x + now else TIME_MAX
  {
  }

  lemma RenewalBounds(w: Width, expiry: int, t1: nat, random: nat)
    requires OnWire(t1) && 0 < expiry < 0x1_0000_0000 && (w.Narrow? ==> expiry <= TIME_MAX)
    ensures 1 <= Renewal(w, expiry, t1, random) < 0x1_0000_0000
    ensures w.Narrow? ==> Renewal(w, expiry, t1, random) <= TIME_MAX
  {
    var wire := w.FromWire(t1);
    var r := if wire == 0 then expiry / 2 + 1 else wire;
    var r' := if r <= 0 then TIME_MAX else r;
    assert 0 <= random % r' < r';
  }

  lemma RebindBounds(w: Width, expiry: int, t2: nat)
    requires OnWire(t2) && 0 < expiry < 0x1_0000_0000 && (w.Narrow? ==> expiry <= TIME_MAX)
    ensures 0 <= Rebind(w, expiry, t2) < 0x1_0000_0000
    ensures w.Narrow? ==> Rebind(w, expiry, t2) <= TIME_MAX
    ensures w.FromWire(t2) <= 0 ==> Rebind(w, expiry, t2) <= expiry
  {
  }

  // ----- how long the intervals are

  /** The option value looks negative in a narrow `time_t`. */
  predicate LooksNegative(w: Width, x: nat) { w.Narrow? && x >= 0x8000_0000 }

  /** T2 is the server's, or seven eighths of the lease; above a seventh of TIME_MAX these are rounded down further. */
  predicate IsT2(w: Width, lease: int, t2: nat, b: int) {
    if t2 != 0 && !LooksNegative(w, t2) then b == t2
    else 8 * b <= 7 * lease && (if lease <= TIME_MAX / 7 then 7 * lease - 8 < 8 * b else 7 * lease - 56 < 8 * b)
  }

  /** What T1 is based on: the server's, or half of the lease. */
  predicate IsT1Base(w: Width, lease: int, t1: nat, base: int) {
    if t1 == 0 then lease < 2 * base <= lease + 2
    else if LooksNegative(w, t1) then base == TIME_MAX
    else base == t1
  }

  /** Three quarters of the base, and a quarter of what the random number leaves over after division by it. */
  predicate IsT1(base: int, random: nat, r: int) {
    base >= 1 &&
    if base <= TIME_MAX / 3 - 3 then 3 * base + random % base <= 4 * r <= 3 * base + random % base + 6 else r == base
  }

  lemma RebindIs(w: Width, lease: int, t2: nat)
    requires OnWire(t2) && lease > 0
    ensures IsT2(w, lease, t2, Rebind(w, lease, t2))
  {
  }

  lemma RenewalIs(w: Width, lease: int, t1: nat, random: nat, base: int)
    requires OnWire(t1) && lease > 0 && IsT1Base(w, lease, t1, base)
    ensures IsT1(base, random, Renewal(w, lease, t1, random))
  {
    assert 0 <= random % base < base;
  }

  /** So T1 lies between three quarters and all of its base, but for rounding. */
  lemma T1Range(base: int, random: nat, r: int)
    requires IsT1(base, random, r)
    ensures 3 * base <= 4 * r <= 4 * base + 5
  {
    assert 0 <= random % base < base;
  }

  /**
   * What a DHCPACK makes of its options: `r0` is the randomised T1, which counts unless T2 comes first; then T1 is
   * three quarters of T2.
   */
  lemma AckTimesAre(w: Width, now: int, lease: nat, t1: nat, t2: nat, random: nat, base: int)
    returns (e: int, r0: int, r: int, b: int)
    requires OnWire(lease) && OnWire(t1) && OnWire(t2) && lease != 0
    requires IsT1Base(w, if LooksNegative(w, lease) then TIME_MAX else lease, t1, base)
    ensures AckTimes(w, now, lease, t1, t2, random) == Times(w.AddClock(e, now), w.AddClock(r, now), w.AddClock(b, now))
    ensures e == (if LooksNegative(w, lease) then TIME_MAX else lease)
    ensures IsT1(base, random, r0) && IsT2(w, e, t2, b)
    ensures if r0 <= b then r == r0
            else 4 * r <= 3 * b && (if b <= TIME_MAX / 3 then 3 * b - 4 < 4 * r else 3 * b - 12 < 4 * r)
  {
    e := LeaseLength(w, lease);
    RebindIs(w, e, t2);
    RenewalIs(w, e, t1, random, base);
    r0, b := Renewal(w, e, t1, random), Rebind(w, e, t2);
    r := Clamped(r0, b);
  }

  /**
   * For every option value, random number and clock: now <= T1 <= T2, and T2 comes no later than the
   * end of the lease if the server sent no T2 or one within the lease (section 4.4.5 of RFC 2131).
   */
  lemma AckTimesOrdered(w: Width, now: int, lease: nat, t1: nat, t2: nat, random: nat)
    requires OnWire(lease) && OnWire(t1) && OnWire(t2) && lease != 0 && ClockOk(w, now)
    ensures var t := AckTimes(w, now, lease, t1, t2, random);
            && now <= t.renewal <= t.rebind
            && now <= t.expiry
            && (t2 <= lease ==> t.rebind <= t.expiry)
  {
    var e := LeaseLength(w, lease);
    var b := Rebind(w, e, t2);
    RenewalBounds(w, e, t1, random);
    RebindBounds(w, e, t2);
    var r := Clamped(Renewal(w, e, t1, random), b);
    assert 0 <= r <= b;
    AddClockMono(w, r, b, now);
    AddClockMono(w, e, e, now);
    if t2 <= lease {
      assert b <= e;
      AddClockMono(w, b, e, now);
    }
  }

  /** Exactly when rebinding is scheduled after the end of the lease. */
  lemma RebindPastExpiryIff(w: Width, now: int, lease: nat, t1: nat, t2: nat, random: nat)
    requires OnWire(lease) && OnWire(t1) && OnWire(t2) && lease != 0 && ClockOk(w, now)
    ensures var t, e := AckTimes(w, now, lease, t1, t2, random), LeaseLength(w, lease);
            t.rebind > t.expiry <==> w.FromWire(t2) > e && (w.Narrow? ==> e + now < TIME_MAX)
  {
    var e := LeaseLength(w, lease);
    var b := Rebind(w, e, t2);
    RebindBounds(w, e, t2);
    AddClockMono(w, e, e, now);
    AddClockMono(w, b, b, now);
  }

  /** The saturated sum does not go before the clock exactly if nothing overflows or the clock is below TIME_MAX. */
  lemma AddClockForwardIff(w: Width, x: int, now: int)
    requires 0 <= now < w.Half() && 0 <= x < 0x1_0000_0000 && w.Fits(x)
    ensures now <= w.AddClock(x, now) <==> x + now < w.Half() || now <= TIME_MAX
  {
  }

  /** The renewal interval after dhcpack has pulled it back before the rebinding interval. */
  function RenewalLength(w: Width, lease: nat, t1: nat, t2: nat, random: nat): int
    requires OnWire(lease) && OnWire(t1) && OnWire(t2) && lease != 0
  {
    var e := LeaseLength(w, lease);
    Clamped(Renewal(w, e, t1, random), Rebind(w, e, t2))
  }

  /** The options of a DHCPACK with which the client renews more than a second after the end of its lease. */
  predicate Overstays(w: Width, now: int, lease: nat, t1: nat, t2: nat, random: nat)
    requires OnWire(lease) && OnWire(t1) && OnWire(t2) && lease != 0
  {
    var e := LeaseLength(w, lease);
    RenewalLength(w, lease, t1, t2, random) > e + 1 && (w.Narrow? ==> e + now + 1 < TIME_MAX)
  }

  /** The scheduled renewal is more than a second past the end of the lease exactly for those options. */
  lemma RenewalPastExpiryIff(w: Width, now: int, lease: nat, t1: nat, t2: nat, random: nat)
    requires OnWire(lease) && OnWire(t1) && OnWire(t2) && lease != 0 && ClockOk(w, now)
    ensures var t := AckTimes(w, now, lease, t1, t2, random);
            t.renewal > t.expiry + 1 <==> Overstays(w, now, lease, t1, t2, random)
  {
    var e, r := LeaseLength(w, lease), RenewalLength(w, lease, t1, t2, random);
    RenewalBounds(w, e, t1, random);
    RebindBounds(w, e, t2);
    AddClockMono(w, e, e, now);
    AddClockMono(w, r, r, now);
  }

  /** It takes a T2 beyond the lease. */
  lemma OverstayNeedsT2(w: Width, now: int, lease: nat, t1: nat, t2: nat, random: nat)
    requires OnWire(lease) && OnWire(t1) && OnWire(t2) && lease != 0 && ClockOk(w, now)
    ensures Overstays(w, now, lease, t1, t2, random) ==> t2 > lease
  {
    AckTimesOrdered(w, now, lease, t1, t2, random);
    RenewalPastExpiryIff(w, now, lease, t1, t2, random);
  }

  // ----- the computation as the source runs it: no product leaves the type, no remainder modulo zero

  method ComputeRenewal(w: Width, expiry: int, t1: nat, random: nat) returns (renewal: int)
    requires OnWire(t1) && 0 < expiry < 0x1_0000_0000 && (w.Narrow? ==> expiry <= TIME_MAX)
    ensures renewal == Renewal(w, expiry, t1, random) && w.Fits(renewal)
  {
    renewal := w.FromWire(t1);
    if renewal == 0 {
      renewal := expiry / 2 + 1;
    }
    if renewal <= 0 {
      renewal := TIME_MAX;
    }
    if renewal <= TIME_MAX / 3 - 3 {
      assert w.Fits(renewal * 3 + 3) && renewal != 0;
      renewal := (renewal * 3 + 3) / 4 + (random % renewal + 3) / 4;
    }
    RenewalBounds(w, expiry, t1, random);
  }

  method ComputeRebind(w: Width, expiry: int, t2: nat) returns (rebind: int)
    requires OnWire(t2) && 0 < expiry < 0x1_0000_0000 && (w.Narrow? ==> expiry <= TIME_MAX)
    ensures rebind == Rebind(w, expiry, t2) && w.Fits(rebind) && IsT2(w, expiry, t2, rebind)
  {
    rebind := w.FromWire(t2);
    if rebind <= 0 {
      if expiry <= TIME_MAX / 7 {
        assert w.Fits(expiry * 7);
        rebind := expiry * 7 / 8;
      } else {
        assert w.Fits(expiry / 8 * 7);
        rebind := expiry / 8 * 7;
      }
    }
  }

  method PullBack(w: Width, renewal: int, rebind: int) returns (r: int)
    requires w.Fits(renewal) && w.Fits(rebind) && rebind >= 0
    ensures r == Clamped(renewal, rebind)
  {
    r := renewal;
    if r > rebind {
      if rebind <= TIME_MAX / 3 {
        assert w.Fits(rebind * 3);
        r := rebind * 3 / 4;
      } else {
        assert w.Fits(rebind / 4 * 3);
        r := rebind / 4 * 3;
      }
    }
  }

  method AddNow(w: Width, interval: int, now: int) returns (t: int)
    ensures t == w.AddClock(interval, now)
  {
    t := w.Wrap(interval + now);
    if t < now {
      t := TIME_MAX;
    }
  }

  method ComputeTimes(w: Width, now: int, lease: nat, t1: nat, t2: nat, random: nat) returns (t: Times)
    requires OnWire(lease) && OnWire(t1) && OnWire(t2) && lease != 0
    ensures t == AckTimes(w, now, lease, t1, t2, random)
  {
    var expiry := w.FromWire(lease);
    if expiry < 0 {
      expiry := TIME_MAX;
    }
    var renewal := ComputeRenewal(w, expiry, t1, random);
    var rebind := ComputeRebind(w, expiry, t2);
    RebindBounds(w, expiry, t2);
    renewal := PullBack(w, renewal, rebind);
    expiry := AddNow(w, expiry, now);
    renewal := AddNow(w, renewal, now);
    rebind := AddNow(w, rebind, now);
    t := Times(expiry, renewal, rebind);
  }
}
