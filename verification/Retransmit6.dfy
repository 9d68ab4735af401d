/** DHCPv6 retransmission timing of client/dhc6.c: one message exchange with fixed IRT, MRT, MRC and MRD. */
module Retransmit6 {
  import opened Common

  /** RT, IRT and MRT count hundredths of a second, MRD seconds, and times microseconds. */
  const CENTI: int := 10000

  datatype Params = Params(irt: int, mrt: int, mrc: int, mrd: int) {
    predicate Ok() { irt >= 1 && mrt >= 0 && mrc >= 0 }
  }

  datatype Status = Active | MrcExceeded | MrdExceeded | AllocFailure | Fatal

  datatype Exchange = Exchange(rt: int, txcount: nat, start: int, wake: int, status: Status)

  // ----- the arithmetic

  /** dhc6_rand; None where it gives up with a fatal error. */
  function Rand(base: int, random: nat): (r: Option<int>)
    ensures r.Some? <==> base >= 1
    ensures r.Some? ==> -((base - 1) / 10) <= r.value <= (base - 1) / 10
  {
    if base <= 0 then None
    else
      var split := (base - 1) / 10;
      if split == 0 then Some(0) else Some(random % (split * 2 + 1) - split)
  }

  /** The next RT before it is cut to MRD. */
  function Doubled(p: Params, rt: int, r1: nat, r2: nat): Option<int> {
    match Rand(rt, r1)
    case None => None
    case Some(d) =>
      if p.mrt != 0 && rt + rt + d > p.mrt then
        match Rand(p.mrt, r2)
        case None => None
        case Some(e) => Some(p.mrt + e)
      else Some(rt + rt + d)
  }

  /** RT cut so that a wait of RT that begins `after` microseconds into the exchange ends at MRD. */
  function Cut(mrd: int, after: int, rt: int): int {
    if mrd == 0 || (after + rt * CENTI) / SECOND < mrd then rt
    else
      var left := (mrd - after / SECOND) * 100 - after % SECOND / CENTI;
      if left < 0 then 0 else left
  }

  lemma DoubledBounds(p: Params, rt: int, r1: nat, r2: nat)
    requires p.Ok() && rt >= 1
    ensures var r := Doubled(p, rt, r1, r2);
            r.Some? && r.value >= 1 && (p.mrt != 0 ==> r.value <= p.mrt + (p.mrt - 1) / 10)
  {
  }

  /** `next` is twice `rt`, give or take a tenth; or MRT, give or take a tenth, where that would be above MRT. */
  predicate IsNextRt(p: Params, rt: int, next: int) {
    || (2 * rt - (rt - 1) / 10 <= next <= 2 * rt + (rt - 1) / 10 && (p.mrt != 0 ==> next <= p.mrt))
    || (p.mrt != 0 && 2 * rt + (rt - 1) / 10 > p.mrt
        && p.mrt - (p.mrt - 1) / 10 <= next <= p.mrt + (p.mrt - 1) / 10)
  }

  /** Where twice RT cannot exceed MRT it is what comes next, and where it must exceed MRT that is. */
  lemma DoubledIs(p: Params, rt: int, r1: nat, r2: nat)
    requires p.Ok() && rt >= 1
    ensures var r := Doubled(p, rt, r1, r2);
            r.Some? && IsNextRt(p, rt, r.value)
            && (p.mrt == 0 || 2 * rt + (rt - 1) / 10 <= p.mrt ==>
                  2 * rt - (rt - 1) / 10 <= r.value <= 2 * rt + (rt - 1) / 10)
            && (p.mrt != 0 && 2 * rt - (rt - 1) / 10 > p.mrt ==>
                  p.mrt - (p.mrt - 1) / 10 <= r.value <= p.mrt + (p.mrt - 1) / 10)
  {
  }

  /** Every value within a tenth of the base is drawn by some random number. */
  lemma RandReaches(base: int, d: int)
    requires base >= 1 && -((base - 1) / 10) <= d <= (base - 1) / 10
    ensures d + (base - 1) / 10 >= 0 && Rand(base, d + (base - 1) / 10) == Some(d)
  {
  }

  /** What is left of MRD, in whole hundredths. */
  lemma LeftOver(mrd: int, after: int)
    requires after >= 0
    ensures (mrd - after / SECOND) * 100 - after % SECOND / CENTI == mrd * 100 - after / CENTI
  {
  }

  /** Cutting never lengthens the wait; it leaves nothing exactly if the wait would begin at or past MRD. */
  lemma CutBounds(mrd: int, after: int, rt: int)
    requires after >= 0 && rt >= 1
    ensures 0 <= Cut(mrd, after, rt) <= rt
    ensures Cut(mrd, after, rt) == 0 <==> mrd != 0 && after >= mrd * SECOND
  {
    LeftOver(mrd, after);
  }

  /** A wait that is cut, and is not empty, ends less than a hundredth of a second after MRD. */
  lemma CutEndsAtMrd(mrd: int, after: int, rt: int)
    requires after >= 0 && rt >= 1 && mrd != 0 && after < mrd * SECOND && after + rt * CENTI >= mrd * SECOND
    ensures mrd * SECOND <= after + Cut(mrd, after, rt) * CENTI < mrd * SECOND + CENTI
  {
    LeftOver(mrd, after);
  }

  // ----- the exchange

  /** dhc6_retrans_init: the state before the first transmission, which may come at any time from `now` on. */
  function Begin(p: Params, random: nat, now: int): (x: Exchange)
    requires p.Ok()
  {
    Exchange(p.irt + Rand(p.irt, random).value, 0, now, now, Active)
  }

  /** start_init6 does not let the first RT be IRT or less. */
  function AboveIrt(irt: int, rt: int): int {
    var r := if rt <= irt then irt + (irt - rt) else rt;
    if r <= irt then irt + 1 else r
  }

  /** The first RT of a Solicit is greater than IRT, by at most a tenth of it or by one. */
  lemma SolicitAboveIrt(p: Params, random: nat, now: int)
    requires p.Ok()
    ensures var rt := AboveIrt(p.irt, Begin(p, random, now).rt);
            p.irt < rt && (rt == p.irt + 1 || rt <= p.irt + (p.irt - 1) / 10)
  {
  }

  /** check_timing6, up to forming the message. */
  function Checked(p: Params, x: Exchange, now: int, memory: bool): Exchange {
    if x.txcount != 0 && p.mrc != 0 && x.txcount > p.mrc then x.(status := MrcExceeded)
    else
      var y := if x.txcount == 0 then x.(start := now) else x;
      if p.mrd != 0 && (now - y.start) / SECOND >= p.mrd then y.(status := MrdExceeded)
      else if !memory then y.(status := AllocFailure)
      else y
  }

  /** A transmission, the wait of RT that follows it, and dhc6_retrans_advance. */
  function Sent(p: Params, x: Exchange, now: int, r1: nat, r2: nat): Exchange {
    match Doubled(p, x.rt, r1, r2)
    case None => x.(status := Fatal)
    case Some(rt) =>
      x.(rt := Cut(p.mrd, now - x.start + x.rt * CENTI, rt), txcount := x.txcount + 1, wake := now + x.rt * CENTI)
  }

  /** One wake-up. */
  function Wakeup(p: Params, x: Exchange, now: int, memory: bool, r1: nat, r2: nat): Exchange {
    var y := Checked(p, x, now, memory);
    if y.status == Active then Sent(p, y, now, r1, r2) else y
  }

  /** What holds between wake-ups. */
  predicate Sound(p: Params, x: Exchange) {
    && x.rt >= 0 && x.status != Fatal && (x.txcount > 0 ==> x.start <= x.wake)
    && (x.rt == 0 ==> x.txcount > 0 && p.mrd != 0 && x.wake - x.start >= p.mrd * SECOND)
    && (p.mrc != 0 ==> x.txcount <= p.mrc + 1)
    && (p.mrt != 0 && x.txcount > 0 ==> x.rt <= p.mrt + (p.mrt - 1) / 10)
  }

  lemma BeginSound(p: Params, random: nat, now: int)
    requires p.Ok()
    ensures var x := Begin(p, random, now);
            Sound(p, x) && x.txcount == 0 && Sound(p, x.(rt := AboveIrt(p.irt, x.rt)))
    ensures p.irt - (p.irt - 1) / 10 <= Begin(p, random, now).rt <= p.irt + (p.irt - 1) / 10
  {
    SolicitAboveIrt(p, random, now);
  }

  /** With an RT of 0, the next check ends the exchange. */
  lemma CheckedSound(p: Params, x: Exchange, now: int, memory: bool)
    requires p.Ok() && Sound(p, x) && x.status == Active && x.wake <= now
    ensures var y := Checked(p, x, now, memory);
            Sound(p, y) && y.start <= now && (y.status == Active ==> y.rt >= 1 && (p.mrc != 0 ==> y.txcount <= p.mrc))
  {
    if x.rt == 0 {
      assert (now - x.start) / SECOND >= p.mrd;
    }
  }

  lemma SentSound(p: Params, x: Exchange, now: int, r1: nat, r2: nat)
    requires p.Ok() && Sound(p, x) && x.status == Active && x.start <= now && x.rt >= 1
    requires p.mrc != 0 ==> x.txcount <= p.mrc
    ensures Sound(p, Sent(p, x, now, r1, r2)) && Sent(p, x, now, r1, r2).status == Active
  {
    DoubledBounds(p, x.rt, r1, r2);
    CutBounds(p.mrd, now - x.start + x.rt * CENTI, Doubled(p, x.rt, r1, r2).value);
  }

  /** A wake-up that is not early keeps the exchange sound; in particular it is never fatal. */
  lemma WakeupSound(p: Params, x: Exchange, now: int, memory: bool, r1: nat, r2: nat)
    requires p.Ok() && Sound(p, x) && x.status == Active && x.wake <= now
    ensures Sound(p, Wakeup(p, x, now, memory, r1, r2))
  {
    CheckedSound(p, x, now, memory);
    var y := Checked(p, x, now, memory);
    if y.status == Active { SentSound(p, y, now, r1, r2); }
  }

  /** How a wake-up that is not early ends: after MRC + 1 transmissions, after MRD, or with a message and a wait. */
  lemma WakeupEndsIff(p: Params, x: Exchange, now: int, memory: bool, r1: nat, r2: nat)
    requires p.Ok() && Sound(p, x) && x.status == Active && x.wake <= now
    ensures var y := Wakeup(p, x, now, memory, r1, r2);
            var over := p.mrc != 0 && x.txcount == p.mrc + 1;
            var late := p.mrd != 0 && now - (if x.txcount == 0 then now else x.start) >= p.mrd * SECOND;
            && (y.status == MrcExceeded <==> over)
            && (y.status == MrdExceeded <==> !over && late)
            && (y.status == Active <==> !over && !late && memory)
            && (y.status == Active ==> y.txcount == x.txcount + 1 && y.wake == now + x.rt * CENTI)
            && (y.status != Active ==> y.txcount == x.txcount)
            && (!over ==> y.start == if x.txcount == 0 then now else x.start)
  {
    WakeupSound(p, x, now, memory, r1, r2);
  }

  datatype Alarm = Alarm(at: int, memory: bool, r1: nat, r2: nat)

  /** No alarm is early, and the exchange ends with the first check that fails. */
  predicate IsRun(p: Params, x: Exchange, alarms: seq<Alarm>)
    decreases |alarms|
  {
    alarms == [] ||
    var a := alarms[0];
    && x.status == Active && x.wake <= a.at
    && IsRun(p, Wakeup(p, x, a.at, a.memory, a.r1, a.r2), alarms[1..])
  }

  function After(p: Params, x: Exchange, alarms: seq<Alarm>): Exchange
    decreases |alarms|
  {
    if alarms == [] then x
    else
      var a := alarms[0];
      After(p, Wakeup(p, x, a.at, a.memory, a.r1, a.r2), alarms[1..])
  }

  /** In every exchange: dhc6_rand is never given a base of 0 or less, and RT and the transmissions are bounded. */
  lemma {:induction false} RunSound(p: Params, x: Exchange, alarms: seq<Alarm>)
    requires p.Ok() && Sound(p, x) && IsRun(p, x, alarms)
    ensures Sound(p, After(p, x, alarms))
    decreases |alarms|
  {
    if alarms != [] {
      var a := alarms[0];
      WakeupSound(p, x, a.at, a.memory, a.r1, a.r2);
      RunSound(p, Wakeup(p, x, a.at, a.memory, a.r1, a.r2), alarms[1..]);
    }
  }

  /** A run has at most one alarm more than transmissions, so with MRC set it has at most MRC + 2 alarms. */
  lemma {:induction false} RunCounts(p: Params, x: Exchange, alarms: seq<Alarm>)
    requires p.Ok() && Sound(p, x) && IsRun(p, x, alarms)
    ensures var y := After(p, x, alarms);
            y.txcount <= x.txcount + |alarms| <= y.txcount + 1
                && (y.status == Active ==> y.txcount == x.txcount + |alarms|)
    ensures p.mrc != 0 ==> x.txcount + |alarms| <= p.mrc + 2
    decreases |alarms|
  {
    RunSound(p, x, alarms);
    if alarms != [] {
      var a := alarms[0];
      WakeupSound(p, x, a.at, a.memory, a.r1, a.r2);
      RunCounts(p, Wakeup(p, x, a.at, a.memory, a.r1, a.r2), alarms[1..]);
    }
  }

  /** An exchange that ends with MRC has sent MRC + 1 messages; one that ends with MRD has lasted at least as long. */
  lemma {:induction false} RunEnds(p: Params, x: Exchange, alarms: seq<Alarm>)
    requires p.Ok() && Sound(p, x) && IsRun(p, x, alarms) && x.status == Active && alarms != []
    ensures var y, last := After(p, x, alarms), alarms[|alarms| - 1].at;
            && (y.status == MrcExceeded ==> y.txcount == p.mrc + 1)
            && (y.status == MrdExceeded ==> last - y.start >= p.mrd * SECOND)
    decreases |alarms|
  {
    var a := alarms[0];
    WakeupEndsIff(p, x, a.at, a.memory, a.r1, a.r2);
    WakeupSound(p, x, a.at, a.memory, a.r1, a.r2);
    var z := Wakeup(p, x, a.at, a.memory, a.r1, a.r2);
    if |alarms| > 1 {
      RunEnds(p, z, alarms[1..]);
    } else {
      assert After(p, z, alarms[1..]) == z;
    }
  }

  function Pow(b: nat, n: nat): (r: nat)
    ensures b >= 1 ==> r >= 1
  {
    if n == 0 then 1 else b * Pow(b, n - 1)
  }

  /** MRT holds RT back: it is at least nine tenths of MRT. */
  predicate Capped(p: Params, rt: int) { p.mrt != 0 && 10 * rt >= 9 * p.mrt }

  /** One transmission without MRD: RT grows by nineteen to twenty-one tenths, or MRT holds it back. */
  lemma WakeupGrows(p: Params, x: Exchange, now: int, memory: bool, r1: nat, r2: nat)
    requires p.Ok() && p.mrd == 0 && Sound(p, x) && x.status == Active && x.wake <= now
    ensures var y := Wakeup(p, x, now, memory, r1, r2);
            && (y.txcount == x.txcount ==> y.rt == x.rt)
            && (y.txcount > x.txcount ==> y.wake == now + x.rt * CENTI)
            && (y.txcount > x.txcount ==> 19 * x.rt <= 10 * y.rt <= 21 * x.rt || Capped(p, y.rt))
            && (Capped(p, x.rt) ==> Capped(p, y.rt))
  {
    CheckedSound(p, x, now, memory);
    if x.rt >= 1 { DoubledIs(p, x.rt, r1, r2); }
  }

  /** RT after `n` transmissions, if it was `first` before them. */
  predicate Grown(p: Params, first: int, n: nat, rt: int) {
    Pow(19, n) * first <= Pow(10, n) * rt <= Pow(21, n) * first || Capped(p, rt)
  }

  lemma Scale(k: nat, x: int, y: int)
    requires x <= y
    ensures k * x <= k * y
  {
  }

  lemma ScaleBoth(a: nat, b: nat, x: int, y: int, z: int, u: nat, v: nat)
    requires a * x <= b * y && u * y <= v * z
    ensures (u * a) * x <= (v * b) * z
  {
    calc {
      (u * a) * x;
      u * (a * x);
    <= { Scale(u, a * x, b * y); }
      u * (b * y);
      b * (u * y);
    <= { Scale(b, u * y, v * z); }
      b * (v * z);
      (v * b) * z;
    }
  }

  lemma GrownFirst(p: Params, first: int, second: int, n: nat, rt: int)
    requires 19 * first <= 10 * second <= 21 * first || Capped(p, second)
    requires Grown(p, second, n, rt) && (Capped(p, second) ==> Capped(p, rt))
    ensures Grown(p, first, n + 1, rt)
  {
    if !Capped(p, rt) {
      ScaleBoth(Pow(10, n), Pow(21, n), rt, second, first, 10, 21);
      ScaleBoth(19, 10, first, second, rt, Pow(19, n), Pow(10, n));
    }
  }

  /** Without MRD the exchange backs off exponentially: RT grows as 1.9^n at least until MRT holds it back. */
  lemma {:induction false} RunGrows(p: Params, x: Exchange, alarms: seq<Alarm>)
    requires p.Ok() && p.mrd == 0 && Sound(p, x) && IsRun(p, x, alarms)
    ensures var y := After(p, x, alarms);
            && y.txcount >= x.txcount && (Capped(p, x.rt) ==> Capped(p, y.rt))
            && Grown(p, x.rt, y.txcount - x.txcount, y.rt)
    decreases |alarms|
  {
    if alarms != [] {
      var a := alarms[0];
      var z := Wakeup(p, x, a.at, a.memory, a.r1, a.r2);
      WakeupSound(p, x, a.at, a.memory, a.r1, a.r2);
      WakeupGrows(p, x, a.at, a.memory, a.r1, a.r2);
      RunGrows(p, z, alarms[1..]);
      var y := After(p, x, alarms);
      if z.txcount > x.txcount { GrownFirst(p, x.rt, z.rt, y.txcount - z.txcount, y.rt); }
    }
  }

  /** For any wake-up, early or not: it is fatal exactly if it sends although RT was cut to 0, before MRD is over. */
  lemma FatalIff(p: Params, x: Exchange, now: int, memory: bool, r1: nat, r2: nat)
    requires p.Ok() && Sound(p, x) && x.status == Active
    ensures Wakeup(p, x, now, memory, r1, r2).status == Fatal
            <==> x.rt == 0 && (p.mrc == 0 || x.txcount <= p.mrc) && (now - x.start) / SECOND < p.mrd && memory
    ensures Wakeup(p, x, now, memory, r1, r2).status == Fatal ==> now < x.wake
  {
    if x.rt >= 1 { DoubledBounds(p, x.rt, r1, r2); }
  }

  lemma TwoAlarms(p: Params, x: Exchange, y: Exchange, z: Exchange, a: Alarm, b: Alarm)
    requires x.status == Active && x.wake <= a.at && y == Wakeup(p, x, a.at, a.memory, a.r1, a.r2)
    requires y.status == Active && y.wake <= b.at && z == Wakeup(p, y, b.at, b.memory, b.r1, b.r2)
    ensures IsRun(p, x, [a, b]) && After(p, x, [a, b]) == z
  {
    assert [a, b][1..] == [b] && [b][1..] == [];
    assert IsRun(p, z, []) && After(p, z, []) == z;
    assert IsRun(p, y, [b]) && After(p, y, [b]) == z;
  }

  /** One transmission with an RT of half a second and an MRD of one second: what is left of it is the next RT. */
  lemma HalfSecondWait(p: Params, x: Exchange, now: int)
    requires p == Params(50, 0, 0, 1) && x.rt == 50 && x.status == Active && (x.txcount > 0 ==> x.start == 0)
    requires if x.txcount == 0 then now == 0 else now == 500000
    ensures Wakeup(p, x, now, true, 4, 0)
            == Exchange(if now == 0 then 50 else 0, x.txcount + 1, 0, now + 500000, Active)
  {
    assert Rand(50, 4) == Some(0);
    assert Doubled(p, 50, 4, 0) == Some(100);
    assert Cut(1, now + 500000, 100) == if now == 0 then 50 else 0;
  }

  /** An exchange gets there: two transmissions with an MRD of one second, and an alarm a microsecond early. */
  lemma EarlyAlarmIsFatal(p: Params, x: Exchange, a: Alarm, b: Alarm)
    requires p == Params(50, 0, 0, 1) && x == Begin(p, 4, 0)
    requires a == Alarm(0, true, 4, 0) && b == Alarm(500000, true, 4, 0)
    ensures IsRun(p, x, [a, b]) && After(p, x, [a, b]).wake == SECOND
    ensures Wakeup(p, After(p, x, [a, b]), SECOND - 1, true, 0, 0).status == Fatal
  {
    var y := Exchange(50, 1, 0, 500000, Active);
    var z := Exchange(0, 2, 0, SECOND, Active);
    HalfSecondWait(p, x, 0);
    HalfSecondWait(p, y, 500000);
    TwoAlarms(p, x, y, z, a, b);
    FatalIff(p, z, SECOND - 1, true, 0, 0);
  }

  // ----- as the source computes it, on seconds and microseconds

  lemma MicrosSplit(t: Timeval)
    requires t.Ok()
    ensures t.Micros() / SECOND == t.sec && t.Micros() % SECOND == t.usec
  {
  }

  method Since(now: Timeval, start: Timeval) returns (elapsed: Timeval)
    requires now.Ok() && start.Ok()
    ensures elapsed.Ok() && elapsed.Micros() == now.Micros() - start.Micros()
  {
    elapsed := Timeval(now.sec - start.sec, now.usec - start.usec);
    if elapsed.usec < 0 {
      elapsed := Timeval(elapsed.sec - 1, elapsed.usec + SECOND);
    }
  }

  method Plus(t: Timeval, rt: int) returns (u: Timeval)
    requires t.Ok() && rt >= 0
    ensures u.Ok() && u.Micros() == t.Micros() + rt * CENTI
  {
    u := Timeval(t.sec + rt / 100, t.usec + (rt % 100) * CENTI);
    if u.usec >= SECOND {
      u := Timeval(u.sec + 1, u.usec - SECOND);
    }
  }

  class Retransmission {
    const p: Params
    var rt: int
    var txcount: nat
    var start: Timeval
    var wake: Timeval
    var status: Status

    ghost predicate Valid()
      reads this
    {
      p.Ok() && start.Ok() && wake.Ok() && Sound(p, State())
    }

    ghost function State(): Exchange
      reads this
    {
      Exchange(rt, txcount, start.Micros(), wake.Micros(), status)
    }

    constructor (p: Params, random: nat, now: Timeval, solicit: bool)
      requires p.Ok() && now.Ok()
      ensures Valid() && this.p == p
      ensures var x := Begin(p, random, now.Micros());
              State() == if solicit then x.(rt := AboveIrt(p.irt, x.rt)) else x
    {
      BeginSound(p, random, now.Micros());
      this.p := p;
      var r := p.irt + Rand(p.irt, random).value;
      if solicit {
        if r <= p.irt { r := p.irt + (p.irt - r); }
        if r <= p.irt { r := p.irt + 1; }
      }
      rt, txcount, start, wake, status := r, 0, now, now, Active;
    }

    /** dhc6_retrans_advance. */
    method Advance(now: Timeval, r1: nat, r2: nat)
      requires Valid() && now.Ok() && rt >= 1 && start.Micros() <= now.Micros()
      modifies this`rt, this`txcount
      ensures txcount == old(txcount) + 1
      ensures var next := Doubled(p, old(rt), r1, r2);
              next.Some? && rt == Cut(p.mrd, now.Micros() - start.Micros() + old(rt) * CENTI, next.value)
    {
      DoubledBounds(p, rt, r1, r2);
      var elapsed := Since(now, start);
      elapsed := Plus(elapsed, rt);
      var elapsedPlusRt := elapsed;
      rt := rt + rt + Rand(rt, r1).value;
      if p.mrt != 0 && rt > p.mrt {
        rt := p.mrt + Rand(p.mrt, r2).value;
      }
      if p.mrd != 0 {
        elapsed := Plus(elapsed, rt);
        MicrosSplit(elapsed);
        MicrosSplit(elapsedPlusRt);
        if elapsed.sec >= p.mrd {
          rt := p.mrd - elapsedPlusRt.sec;
          rt := rt * 100 - elapsedPlusRt.usec / CENTI;
          if rt < 0 { rt := 0; }
        }
      }
      txcount := txcount + 1;
    }

    /** check_timing6, up to forming the message. */
    method CheckTiming(now: Timeval, memory: bool)
      requires Valid() && status == Active && now.Ok() && wake.Micros() <= now.Micros()
      modifies this`start, this`status
      ensures start.Ok() && State() == Checked(p, old(State()), now.Micros(), memory)
    {
      if txcount == 0 {
        start := now;
      } else if p.mrc != 0 && txcount > p.mrc {
        status := MrcExceeded;
        return;
      }
      var elapsed := Since(now, start);
      MicrosSplit(elapsed);
      if p.mrd != 0 && elapsed.sec >= p.mrd {
        status := MrdExceeded;
      } else if !memory {
        status := AllocFailure;
      }
    }

    /** One wake-up of do_init6, do_confirm6, do_select6 or do_refresh6. */
    method Transmit(now: Timeval, memory: bool, r1: nat, r2: nat) returns (sent: bool)
      requires Valid() && status == Active && now.Ok() && wake.Micros() <= now.Micros()
      modifies this
      ensures Valid() && sent == (status == Active)
      ensures State() == Wakeup(p, old(State()), now.Micros(), memory, r1, r2)
    {
      CheckedSound(p, State(), now.Micros(), memory);
      CheckTiming(now, memory);
      if status != Active { return false; }
      SentSound(p, State(), now.Micros(), r1, r2);
      wake := Plus(now, rt);
      Advance(now, r1, r2);
      return true;
    }
  }
}
