/** DHCPv6 lease times of client/dhc6.c: renewal, rebinding, depreference and expiry of the active lease. */
module Expire6 {
  import opened Common
  import opened Lease6

  const MAX_TIME: int := 0x7fff_ffff
  const INFINITE: int := 0xffff_ffff

  // ----- addresses

  function PrefEnd(a: Addr): int { if a.preferredLife == INFINITE then MAX_TIME else a.starts + a.preferredLife }

  function ValidEnd(a: Addr): int { if a.maxLife == INFINITE then MAX_TIME else a.starts + a.maxLife }

  /** The first depreference among the addresses of one IA. */
  function MinPref(addrs: seq<Addr>): int {
    if addrs == [] then MAX_TIME
    else
      var a := addrs[|addrs| - 1];
      var rest := MinPref(addrs[..|addrs| - 1]);
      if a.depreffed then rest else Min(rest, PrefEnd(a))
  }

  /** The first and the last expiry among the addresses, relative to the start of the IA. */
  function RelLo(starts: int, addrs: seq<Addr>): int {
    if addrs == [] then MAX_TIME
    else
      var a := addrs[|addrs| - 1];
      var rest := RelLo(starts, addrs[..|addrs| - 1]);
      if a.expired then rest else Min(rest, ValidEnd(a) - starts)
  }

  function RelHi(starts: int, addrs: seq<Addr>): (h: int)
    ensures h >= 0
  {
    if addrs == [] then 0
    else
      var a := addrs[|addrs| - 1];
      var rest := RelHi(starts, addrs[..|addrs| - 1]);
      if a.expired then rest else Max(rest, ValidEnd(a) - starts)
  }

  predicate Live(addrs: seq<Addr>) {
    exists k :: 0 <= k < |addrs| && !addrs[k].expired
  }

  predicate AnyLive(bs: seq<Ia>) {
    exists i :: 0 <= i < |bs| && Live(bs[i].addrs)
  }

  // ----- the times of a lease

  /** Half of the expiry that the renewal is based on when the server gives no times. */
  function UseExpire(ia: Ia, requested: nat): (e: int)
    ensures e >= 0
  {
    var lo, hi := RelLo(ia.starts, ia.addrs), RelHi(ia.starts, ia.addrs);
    var use := if lo <= hi / 2 then hi else lo;
    if use == MAX_TIME || use <= 1 then requested / 2 else use / 2
  }

  function RenewOf(ia: Ia, requested: nat): int {
    if ia.renew == 0 then UseExpire(ia, requested) else if ia.renew == INFINITE then MAX_TIME else ia.renew
  }

  function RebindOf(ia: Ia, requested: nat): int {
    if ia.rebind == 0 then UseExpire(ia, requested) + UseExpire(ia, requested) / 2
    else if ia.rebind == INFINITE then MAX_TIME else ia.rebind
  }

  datatype Times = Times(renew: int, rebind: int, maxStarts: int, depref: int, loExpire: int, hiExpire: int)

  function NoTimes(): Times { Times(MAX_TIME, MAX_TIME, 0, MAX_TIME, MAX_TIME, 0) }

  function AddEnds(t: Times, ia: Ia): Times {
    t.(depref := Min(t.depref, MinPref(ia.addrs)),
       loExpire := Min(t.loExpire, RelLo(ia.starts, ia.addrs) + ia.starts),
       hiExpire := Max(t.hiExpire, RelHi(ia.starts, ia.addrs) + ia.starts))
  }

  /** Temporary addresses are not renewed. */
  function AddRefresh(t: Times, ia: Ia, requested: nat): Times {
    if ia.iaType == D6O_IA_TA then t
    else t.(renew := Min(t.renew, RenewOf(ia, requested)), rebind := Min(t.rebind, RebindOf(ia, requested)),
            maxStarts := Max(t.maxStarts, ia.starts))
  }

  function AddIa(t: Times, ia: Ia, requested: nat): Times {
    AddEnds(AddRefresh(t, ia, requested), ia)
  }

  function TimesOf(bs: seq<Ia>, requested: nat): Times {
    if bs == [] then NoTimes() else AddIa(TimesOf(bs[..|bs| - 1], requested), bs[|bs| - 1], requested)
  }

  // ----- what the times mean

  lemma {:induction false} MinPrefIs(addrs: seq<Addr>)
    ensures MinPref(addrs) <= MAX_TIME
    ensures forall k :: 0 <= k < |addrs| && !addrs[k].depreffed ==> MinPref(addrs) <= PrefEnd(addrs[k])
    ensures MinPref(addrs) < MAX_TIME ==>
        exists k :: 0 <= k < |addrs| && !addrs[k].depreffed && PrefEnd(addrs[k]) == MinPref(addrs)
  {
    if addrs != [] {
      var p := addrs[..|addrs| - 1];
      MinPrefIs(p);
      assert forall k :: 0 <= k < |p| ==> p[k] == addrs[k];
    }
  }

  lemma {:induction false} RelLoIs(starts: int, addrs: seq<Addr>)
    ensures RelLo(starts, addrs) <= MAX_TIME
    ensures forall k :: 0 <= k < |addrs| && !addrs[k].expired ==> RelLo(starts, addrs) + starts <= ValidEnd(addrs[k])
    ensures RelLo(starts, addrs) < MAX_TIME
            ==> exists k :: 0 <= k < |addrs| && !addrs[k].expired && ValidEnd(addrs[k]) == RelLo(starts, addrs) + starts
  {
    if addrs != [] {
      var p := addrs[..|addrs| - 1];
      RelLoIs(starts, p);
      assert forall k :: 0 <= k < |p| ==> p[k] == addrs[k];
    }
  }

  lemma {:induction false} RelHiIs(starts: int, addrs: seq<Addr>)
    ensures forall k :: 0 <= k < |addrs| && !addrs[k].expired ==> ValidEnd(addrs[k]) <= RelHi(starts, addrs) + starts
    ensures RelHi(starts, addrs) > 0
            ==> exists k :: 0 <= k < |addrs| && !addrs[k].expired && ValidEnd(addrs[k]) == RelHi(starts, addrs) + starts
  {
    if addrs != [] {
      var p := addrs[..|addrs| - 1];
      RelHiIs(starts, p);
      assert forall k :: 0 <= k < |p| ==> p[k] == addrs[k];
    }
  }

  /** No address that is still in use ends before `t`. */
  predicate NoneEndsBefore(bs: seq<Ia>, t: int) {
    forall i, k :: 0 <= i < |bs| && 0 <= k < |bs[i].addrs| && !bs[i].addrs[k].expired ==> t <= ValidEnd(bs[i].addrs[k])
  }

  predicate SomeEndsAt(bs: seq<Ia>, t: int) {
    exists i, k :: 0 <= i < |bs| && 0 <= k < |bs[i].addrs| && !bs[i].addrs[k].expired && ValidEnd(bs[i].addrs[k]) == t
  }

  predicate SomeEndsBefore(bs: seq<Ia>, t: int) {
    exists i, k :: 0 <= i < |bs| && 0 <= k < |bs[i].addrs| && !bs[i].addrs[k].expired && ValidEnd(bs[i].addrs[k]) < t
  }

  predicate NoneEndsAfter(bs: seq<Ia>, t: int) {
    forall i, k :: 0 <= i < |bs| && 0 <= k < |bs[i].addrs| && !bs[i].addrs[k].expired ==> ValidEnd(bs[i].addrs[k]) <= t
  }

  predicate StartsOk(bs: seq<Ia>) {
    forall i :: 0 <= i < |bs| ==> bs[i].starts >= 0
  }

  /** loExpire is the earliest end of an address in use, or MAX_TIME if that is not before MAX_TIME. */
  lemma {:induction false} LoExpireIs(bs: seq<Ia>, requested: nat)
    requires StartsOk(bs)
    ensures var t := TimesOf(bs, requested).loExpire;
            t <= MAX_TIME && NoneEndsBefore(bs, t) && (t < MAX_TIME ==> SomeEndsAt(bs, t))
  {
    if bs != [] {
      var p, ia := bs[..|bs| - 1], bs[|bs| - 1];
      LoExpireIs(p, requested);
      RelLoIs(ia.starts, ia.addrs);
      assert forall i :: 0 <= i < |p| ==> p[i] == bs[i];
      var t := TimesOf(bs, requested).loExpire;
      var u := TimesOf(p, requested).loExpire;
      if t < MAX_TIME && t == u {
        var i, k :| 0 <= i < |p| && 0 <= k < |p[i].addrs| && !p[i].addrs[k].expired && ValidEnd(p[i].addrs[k]) == t;
        assert bs[i] == p[i];
      }
    }
  }

  predicate NoneDeprefersBefore(bs: seq<Ia>, t: int) {
    forall i, k :: 0 <= i < |bs| && 0 <= k < |bs[i].addrs| && !bs[i].addrs[k].depreffed ==> t <= PrefEnd(bs[i].addrs[k])
  }

  predicate SomeDeprefersBefore(bs: seq<Ia>, t: int) {
    exists i, k :: 0 <= i < |bs| && 0 <= k < |bs[i].addrs| && !bs[i].addrs[k].depreffed && PrefEnd(bs[i].addrs[k]) < t
  }

  predicate SomeDeprefersAt(bs: seq<Ia>, t: int) {
    exists i, k :: 0 <= i < |bs| && 0 <= k < |bs[i].addrs| && !bs[i].addrs[k].depreffed && PrefEnd(bs[i].addrs[k]) == t
  }

  lemma {:induction false} DeprefIs(bs: seq<Ia>, requested: nat)
    ensures var t := TimesOf(bs, requested).depref;
            t <= MAX_TIME && NoneDeprefersBefore(bs, t) && (t < MAX_TIME ==> SomeDeprefersAt(bs, t))
  {
    if bs != [] {
      var p, ia := bs[..|bs| - 1], bs[|bs| - 1];
      DeprefIs(p, requested);
      MinPrefIs(ia.addrs);
      assert forall i :: 0 <= i < |p| ==> p[i] == bs[i];
      var t := TimesOf(bs, requested).depref;
      var u := TimesOf(p, requested).depref;
      if t < MAX_TIME && t == u {
        var i, k :| 0 <= i < |p| && 0 <= k < |p[i].addrs| && !p[i].addrs[k].depreffed && PrefEnd(p[i].addrs[k]) == t;
        assert bs[i] == p[i];
      }
    }
  }

  /** hiExpire is the latest end of an address in use, unless that is before the start of its IA. */
  lemma {:induction false} HiExpireIs(bs: seq<Ia>, requested: nat)
    ensures var t := TimesOf(bs, requested).hiExpire;
            && NoneEndsAfter(bs, t)
            && (t == 0 || SomeEndsAt(bs, t) || exists i :: 0 <= i < |bs| && bs[i].starts == t)
  {
    if bs != [] {
      var p, ia := bs[..|bs| - 1], bs[|bs| - 1];
      HiExpireIs(p, requested);
      RelHiIs(ia.starts, ia.addrs);
      assert forall i :: 0 <= i < |p| ==> p[i] == bs[i];
      var t, u := TimesOf(bs, requested).hiExpire, TimesOf(p, requested).hiExpire;
      if t == u && SomeEndsAt(p, u) {
        var i, k :| 0 <= i < |p| && 0 <= k < |p[i].addrs| && !p[i].addrs[k].expired && ValidEnd(p[i].addrs[k]) == u;
        assert bs[i] == p[i];
      } else if t == u && t != 0 {
        var i :| 0 <= i < |p| && p[i].starts == t;
        assert bs[i].starts == t;
      }
    }
  }

  /** The addresses in use end between `lo` and `hi` seconds after the start of the IA, some at each of the two. */
  predicate EndsWithin(ia: Ia, lo: int, hi: int) {
    && (forall k :: 0 <= k < |ia.addrs| && !ia.addrs[k].expired ==> lo <= ValidEnd(ia.addrs[k]) - ia.starts <= hi)
    && (exists k :: 0 <= k < |ia.addrs| && !ia.addrs[k].expired && ValidEnd(ia.addrs[k]) - ia.starts == lo)
    && (exists k :: 0 <= k < |ia.addrs| && !ia.addrs[k].expired && ValidEnd(ia.addrs[k]) - ia.starts == hi)
  }

  /**
   * Where the server leaves T1 and T2 open, they are a half and three quarters of the lifetime: the shortest one, or
   * the longest one if that is at least twice as long. A lifetime of at most a second, or of MAX_TIME, is replaced by
   * the one that the client asked for.
   */
  lemma DefaultTimes(ia: Ia, requested: nat, lo: int, hi: int)
    requires EndsWithin(ia, lo, hi) && 0 <= lo <= MAX_TIME
    ensures var life := if 2 * lo <= hi then hi else lo;
            var base := if life <= 1 || life == MAX_TIME then requested else life;
            && (ia.renew == 0 ==> 2 * RenewOf(ia, requested) <= base < 2 * RenewOf(ia, requested) + 2)
            && (ia.rebind == 0 ==> 4 * RebindOf(ia, requested) <= 3 * base < 4 * RebindOf(ia, requested) + 6)
  {
    RelLoIs(ia.starts, ia.addrs);
    RelHiIs(ia.starts, ia.addrs);
    assert RelLo(ia.starts, ia.addrs) == lo && RelHi(ia.starts, ia.addrs) == hi;
  }

  /** That replacement is meant for infinite lifetimes too, but gets them only if the IA starts at 0. */
  lemma InfiniteLife(ia: Ia, requested: nat)
    requires 0 <= ia.starts < MAX_TIME - 1 && Live(ia.addrs) && ia.renew == 0
    requires forall k :: 0 <= k < |ia.addrs| && !ia.addrs[k].expired ==> ia.addrs[k].maxLife == INFINITE
    ensures RenewOf(ia, requested) == if ia.starts == 0 then requested / 2 else (MAX_TIME - ia.starts) / 2
  {
    var k :| 0 <= k < |ia.addrs| && !ia.addrs[k].expired;
    assert ValidEnd(ia.addrs[k]) - ia.starts == MAX_TIME - ia.starts;
    DefaultTimes(ia, requested, MAX_TIME - ia.starts, MAX_TIME - ia.starts);
  }

  /** What the server says about T1 and T2 is taken as it is, or as no time at all. */
  lemma GivenTimes(ia: Ia, requested: nat)
    ensures 0 < ia.renew < INFINITE ==> RenewOf(ia, requested) == ia.renew
    ensures 0 < ia.rebind < INFINITE ==> RebindOf(ia, requested) == ia.rebind
    ensures ia.renew == INFINITE ==> !Renews(ia, requested)
    ensures ia.rebind == INFINITE ==> !Rebinds(ia, requested)
  {
  }

  // ----- renewal before rebinding

  /** T1 and T2 are both missing, or both given with T1 no later than T2. */
  predicate TimesOrdered(ia: Ia) {
    ia.iaType == D6O_IA_TA || (ia.renew == ia.rebind == 0) || (0 < ia.renew <= ia.rebind <= INFINITE)
  }

  /** The IA is renewed, and its renewal or rebinding period is finite. */
  predicate Renews(ia: Ia, requested: nat) { ia.iaType != D6O_IA_TA && RenewOf(ia, requested) < MAX_TIME }

  predicate Rebinds(ia: Ia, requested: nat) { ia.iaType != D6O_IA_TA && RebindOf(ia, requested) < MAX_TIME }

  predicate SomeRenews(bs: seq<Ia>, requested: nat) { exists i :: 0 <= i < |bs| && Renews(bs[i], requested) }

  predicate SomeRebinds(bs: seq<Ia>, requested: nat) { exists i :: 0 <= i < |bs| && Rebinds(bs[i], requested) }

  /** Some IA is to be renewed within the period `p`. */
  predicate RenewedBy(bs: seq<Ia>, requested: nat, p: int) {
    exists i :: 0 <= i < |bs| && Renews(bs[i], requested) && RenewOf(bs[i], requested) <= p
  }

  /** `m` is the least renewal period, or MAX_TIME. */
  predicate LeastRenewal(bs: seq<Ia>, requested: nat, m: int) {
    && m <= MAX_TIME && (forall i :: 0 <= i < |bs| && Renews(bs[i], requested) ==> m <= RenewOf(bs[i], requested))
    && (m < MAX_TIME ==> exists i :: 0 <= i < |bs| && Renews(bs[i], requested) && RenewOf(bs[i], requested) == m)
  }

  predicate LeastRebinding(bs: seq<Ia>, requested: nat, m: int) {
    && m <= MAX_TIME && (forall i :: 0 <= i < |bs| && Rebinds(bs[i], requested) ==> m <= RebindOf(bs[i], requested))
    && (m < MAX_TIME ==> exists i :: 0 <= i < |bs| && Rebinds(bs[i], requested) && RebindOf(bs[i], requested) == m)
  }

  lemma {:induction false} RenewIsLeast(bs: seq<Ia>, requested: nat)
    ensures LeastRenewal(bs, requested, TimesOf(bs, requested).renew)
  {
    if bs != [] {
      var p, ia := bs[..|bs| - 1], bs[|bs| - 1];
      RenewIsLeast(p, requested);
      assert forall i :: 0 <= i < |p| ==> p[i] == bs[i];
      var m := TimesOf(p, requested).renew;
      if m < MAX_TIME {
        var i :| 0 <= i < |p| && Renews(p[i], requested) && RenewOf(p[i], requested) == m;
        assert Renews(bs[i], requested) && RenewOf(bs[i], requested) == m;
      }
    }
  }

  lemma {:induction false} RebindIsLeast(bs: seq<Ia>, requested: nat)
    ensures LeastRebinding(bs, requested, TimesOf(bs, requested).rebind)
  {
    if bs != [] {
      var p, ia := bs[..|bs| - 1], bs[|bs| - 1];
      RebindIsLeast(p, requested);
      assert forall i :: 0 <= i < |p| ==> p[i] == bs[i];
      var m := TimesOf(p, requested).rebind;
      if m < MAX_TIME {
        var i :| 0 <= i < |p| && Rebinds(p[i], requested) && RebindOf(p[i], requested) == m;
        assert Rebinds(bs[i], requested) && RebindOf(bs[i], requested) == m;
      }
    }
  }

  /** The start that the scheduled times count from is that of the latest IA that is renewed. */
  lemma {:induction false} MaxStartsIs(bs: seq<Ia>, requested: nat)
    ensures var s := TimesOf(bs, requested).maxStarts;
            && s >= 0 && (forall i :: 0 <= i < |bs| && bs[i].iaType != D6O_IA_TA ==> bs[i].starts <= s)
            && (s > 0 ==> exists i :: 0 <= i < |bs| && bs[i].iaType != D6O_IA_TA && bs[i].starts == s)
  {
    if bs != [] {
      var p := bs[..|bs| - 1];
      MaxStartsIs(p, requested);
      assert forall i :: 0 <= i < |p| ==> p[i] == bs[i];
    }
  }

  /** Every IA that is rebound has one that is renewed no later. */
  predicate RebindingsAnswered(bs: seq<Ia>, requested: nat) {
    forall j :: 0 <= j < |bs| && Rebinds(bs[j], requested) ==> RenewedBy(bs, requested, RebindOf(bs[j], requested))
  }

  /** For all T1, T2 and lifetimes: the renewal period is at most the rebinding period exactly in that case. */
  lemma RenewFirstIff(bs: seq<Ia>, requested: nat)
    ensures var t := TimesOf(bs, requested); t.renew <= t.rebind <==> RebindingsAnswered(bs, requested)
  {
    var t := TimesOf(bs, requested);
    RenewIsLeast(bs, requested);
    RebindIsLeast(bs, requested);
    if t.renew <= t.rebind {
      forall j | 0 <= j < |bs| && Rebinds(bs[j], requested)
        ensures RenewedBy(bs, requested, RebindOf(bs[j], requested))
      {
        var i :| 0 <= i < |bs| && Renews(bs[i], requested) && RenewOf(bs[i], requested) == t.renew;
      }
    } else {
      var j :| 0 <= j < |bs| && Rebinds(bs[j], requested) && RebindOf(bs[j], requested) == t.rebind;
      assert !RenewedBy(bs, requested, RebindOf(bs[j], requested));
    }
  }

  /** With T1 and T2 both missing or in order this holds, so it takes a server that breaks that to break it. */
  lemma OrderedAnswers(bs: seq<Ia>, requested: nat)
    requires forall i :: 0 <= i < |bs| ==> TimesOrdered(bs[i])
    ensures RebindingsAnswered(bs, requested)
  {
    forall j | 0 <= j < |bs| && Rebinds(bs[j], requested)
      ensures RenewedBy(bs, requested, RebindOf(bs[j], requested))
    {
      assert Renews(bs[j], requested) && RenewOf(bs[j], requested) <= RebindOf(bs[j], requested);
    }
  }

  /** The times as they are scheduled, counted from the most recent IA. */
  function RenewAt(t: Times): int { if t.renew != MAX_TIME then t.renew + t.maxStarts else t.renew }

  function RebindAt(t: Times): int { if t.rebind != MAX_TIME then t.rebind + t.maxStarts else t.rebind }

  /**
   * The condition on the IAs under which the renewal is scheduled no later than the rebinding. Where only one of the
   * two is finite, it is the time itself that counts, since the other stands at MAX_TIME.
   */
  predicate ScheduledInOrder(bs: seq<Ia>, requested: nat, latest: int) {
    if SomeRenews(bs, requested) then
      if SomeRebinds(bs, requested) then RebindingsAnswered(bs, requested)
      else RenewedBy(bs, requested, MAX_TIME - latest)
    else
      forall j :: 0 <= j < |bs| && Rebinds(bs[j], requested) ==> RebindOf(bs[j], requested) + latest >= MAX_TIME
  }

  /** For all IAs: the renewal is scheduled no later than the rebinding exactly in that case. */
  lemma RenewBeforeRebindIff(bs: seq<Ia>, requested: nat)
    ensures var t := TimesOf(bs, requested);
            RenewAt(t) <= RebindAt(t) <==> ScheduledInOrder(bs, requested, t.maxStarts)
  {
    var t := TimesOf(bs, requested);
    RenewIsLeast(bs, requested);
    RebindIsLeast(bs, requested);
    RenewFirstIff(bs, requested);
    assert SomeRenews(bs, requested) <==> t.renew < MAX_TIME;
    assert SomeRebinds(bs, requested) <==> t.rebind < MAX_TIME;
    if t.renew < MAX_TIME {
      var i :| 0 <= i < |bs| && Renews(bs[i], requested) && RenewOf(bs[i], requested) == t.renew;
      assert RenewedBy(bs, requested, MAX_TIME - t.maxStarts) <==> t.renew <= MAX_TIME - t.maxStarts;
    } else if t.rebind < MAX_TIME {
      var j :| 0 <= j < |bs| && Rebinds(bs[j], requested) && RebindOf(bs[j], requested) == t.rebind;
    }
  }

  /** Without a T1, or without a T2, or with T1 after T2, the renewal can be scheduled after the rebinding. */
  lemma RebindComesFirst(t1: int, t2: int)
    requires (t1, t2) in {(0, 1), (1000, 0), (2, 1)}
    ensures var a := Addr([1], 0, 0, 100, 100, false, false);
            var t := TimesOf([Ia(D6O_IA_NA, [0], 0, t1, t2, Absent, [a])], 0);
            RenewAt(t) > RebindAt(t)
  {
    var a := Addr([1], 0, 0, 100, 100, false, false);
    var ia := Ia(D6O_IA_NA, [0], 0, t1, t2, Absent, [a]);
    assert [a][..0] == [] && [ia][..0] == [];
    assert RelLo(0, [a]) == 100 && RelHi(0, [a]) == 100;
    assert TimesOf([ia], 0) == AddIa(NoTimes(), ia, 0);
  }

  // ----- expiring and depreferring

  predicate PastValid(a: Addr, now: int) { a.starts + a.maxLife <= now }

  predicate PastPreferred(a: Addr, now: int) { a.starts + a.preferredLife <= now }

  function ExpireAddr(a: Addr, now: int): Addr {
    if !a.expired && PastValid(a, now) then a.(expired := true) else a
  }

  function DeprefAddr(a: Addr, now: int): Addr {
    if !a.depreffed && PastPreferred(a, now) then a.(depreffed := true) else a
  }

  function ExpireAddrs(addrs: seq<Addr>, now: int): (r: seq<Addr>)
    ensures |r| == |addrs| && forall k :: 0 <= k < |r| ==> r[k] == ExpireAddr(addrs[k], now)
  {
    seq(|addrs|, k requires 0 <= k < |addrs| => ExpireAddr(addrs[k], now))
  }

  function DeprefAddrs(addrs: seq<Addr>, now: int): (r: seq<Addr>)
    ensures |r| == |addrs| && forall k :: 0 <= k < |r| ==> r[k] == DeprefAddr(addrs[k], now)
  {
    seq(|addrs|, k requires 0 <= k < |addrs| => DeprefAddr(addrs[k], now))
  }

  /** The bindings after do_expire: addresses past their valid life are marked, IAs without any other are gone. */
  function ExpireIas(bs: seq<Ia>, now: int): seq<Ia> {
    if bs == [] then []
    else
      var ia := bs[|bs| - 1].(addrs := ExpireAddrs(bs[|bs| - 1].addrs, now));
      ExpireIas(bs[..|bs| - 1], now) + (if Live(ia.addrs) then [ia] else [])
  }

  function DeprefIas(bs: seq<Ia>, now: int): (r: seq<Ia>)
    ensures |r| == |bs| && forall i :: 0 <= i < |r| ==> r[i] == bs[i].(addrs := DeprefAddrs(bs[i].addrs, now))
  {
    seq(|bs|, i requires 0 <= i < |bs| => bs[i].(addrs := DeprefAddrs(bs[i].addrs, now)))
  }

  /** Every remaining IA has an address in use, and none that is in use is past its valid life. */
  predicate Current(bs: seq<Ia>, now: int) {
    forall i :: 0 <= i < |bs| ==> Live(bs[i].addrs) && forall k :: 0 <= k < |bs[i].addrs| ==>
      bs[i].addrs[k].expired || !PastValid(bs[i].addrs[k], now)
  }

  predicate Preferred(bs: seq<Ia>, now: int) {
    forall i, k :: 0 <= i < |bs| && 0 <= k < |bs[i].addrs| ==>
      bs[i].addrs[k].depreffed || !PastPreferred(bs[i].addrs[k], now)
  }

  lemma {:induction false} ExpireIasCurrent(bs: seq<Ia>, now: int)
    ensures Current(ExpireIas(bs, now), now) && (StartsOk(bs) ==> StartsOk(ExpireIas(bs, now)))
  {
    if bs != [] { ExpireIasCurrent(bs[..|bs| - 1], now); }
  }

  predicate StemsFrom(bs: seq<Ia>, now: int, e: Ia) {
    exists i :: 0 <= i < |bs| && e == bs[i].(addrs := ExpireAddrs(bs[i].addrs, now))
  }

  /** Exactly the IAs with an address in use are left, unchanged but for the marks. */
  lemma {:induction false} ExpireIasMembers(bs: seq<Ia>, now: int, e: Ia)
    ensures e in ExpireIas(bs, now) <==> Live(e.addrs) && StemsFrom(bs, now, e)
  {
    if bs != [] {
      var p := bs[..|bs| - 1];
      ExpireIasMembers(p, now, e);
      assert forall i :: 0 <= i < |p| ==> p[i] == bs[i];
    }
  }

  /** The addresses in use, with their IA and their lifetimes, and those of all kinds that are still preferred. */
  function InUse(bs: seq<Ia>): set<(int, seq<int>, Addr)> {
    set i, k | 0 <= i < |bs| && 0 <= k < |bs[i].addrs| && !bs[i].addrs[k].expired
      :: (bs[i].iaType, bs[i].iaid, bs[i].addrs[k].(depreffed := false))
  }

  function StillPreferred(bs: seq<Ia>): set<(int, seq<int>, Addr)> {
    set i, k | 0 <= i < |bs| && 0 <= k < |bs[i].addrs| && !bs[i].addrs[k].depreffed
      :: (bs[i].iaType, bs[i].iaid, bs[i].addrs[k].(expired := false))
  }

  predicate AddrStartsOk(bs: seq<Ia>) {
    forall i, k :: 0 <= i < |bs| && 0 <= k < |bs[i].addrs| ==> bs[i].addrs[k].starts >= 0
  }

  /** do_expire takes exactly the addresses out of use whose valid life is over. */
  lemma ExpireTakes(bs: seq<Ia>, now: int)
    requires now < MAX_TIME && AddrStartsOk(bs)
    ensures InUse(ExpireIas(bs, now)) == set u | u in InUse(bs) && now < ValidEnd(u.2)
  {
    var e := ExpireIas(bs, now);
    forall u | u in InUse(e) ensures u in InUse(bs) && now < ValidEnd(u.2) {
      var i, k :| 0 <= i < |e| && 0 <= k < |e[i].addrs| && !e[i].addrs[k].expired
        && u == (e[i].iaType, e[i].iaid, e[i].addrs[k].(depreffed := false));
      ExpireIasMembers(bs, now, e[i]);
      var j :| 0 <= j < |bs| && e[i] == bs[j].(addrs := ExpireAddrs(bs[j].addrs, now));
      assert e[i].addrs[k] == bs[j].addrs[k];
    }
    forall u | u in InUse(bs) && now < ValidEnd(u.2) ensures u in InUse(e) {
      var i, k :| 0 <= i < |bs| && 0 <= k < |bs[i].addrs| && !bs[i].addrs[k].expired
        && u == (bs[i].iaType, bs[i].iaid, bs[i].addrs[k].(depreffed := false));
      var x := bs[i].(addrs := ExpireAddrs(bs[i].addrs, now));
      assert !x.addrs[k].expired && x.addrs[k] == bs[i].addrs[k];
      ExpireIasMembers(bs, now, x);
      var j :| 0 <= j < |e| && e[j] == x;
      assert e[j].addrs[k] == bs[i].addrs[k];
    }
  }

  /** do_depref takes nothing out of use, and exactly those from the preferred ones whose preferred life is over. */
  lemma DeprefTakes(bs: seq<Ia>, now: int)
    requires now < MAX_TIME && AddrStartsOk(bs)
    ensures InUse(DeprefIas(bs, now)) == InUse(bs)
    ensures StillPreferred(DeprefIas(bs, now)) == set u | u in StillPreferred(bs) && now < PrefEnd(u.2)
  {
    var d := DeprefIas(bs, now);
    assert forall i, k :: 0 <= i < |bs| && 0 <= k < |bs[i].addrs| ==>
      d[i].addrs[k].(depreffed := false) == bs[i].addrs[k].(depreffed := false);
    assert forall i, k :: 0 <= i < |bs| && 0 <= k < |bs[i].addrs| ==>
      (!d[i].addrs[k].depreffed <==> !bs[i].addrs[k].depreffed && now < PrefEnd(bs[i].addrs[k]))
      && (!d[i].addrs[k].depreffed ==> d[i].addrs[k] == bs[i].addrs[k]);
    forall u | u in InUse(bs) ensures u in InUse(d) {
      var i, k :| 0 <= i < |bs| && 0 <= k < |bs[i].addrs| && !bs[i].addrs[k].expired
        && u == (bs[i].iaType, bs[i].iaid, bs[i].addrs[k].(depreffed := false));
      assert !d[i].addrs[k].expired && d[i].addrs[k].(depreffed := false) == u.2;
    }
    forall u | u in StillPreferred(bs) && now < PrefEnd(u.2) ensures u in StillPreferred(d) {
      var i, k :| 0 <= i < |bs| && 0 <= k < |bs[i].addrs| && !bs[i].addrs[k].depreffed
        && u == (bs[i].iaType, bs[i].iaid, bs[i].addrs[k].(expired := false));
      assert !d[i].addrs[k].depreffed;
    }
  }

  /** An address in use that is not past its valid life ends in the future, as far as the clock goes. */
  lemma CurrentEnds(bs: seq<Ia>, now: int)
    requires Current(bs, now) && now < MAX_TIME
    ensures NoneEndsBefore(bs, now + 1)
  {
    forall i, k | 0 <= i < |bs| && 0 <= k < |bs[i].addrs| && !bs[i].addrs[k].expired
      ensures now + 1 <= ValidEnd(bs[i].addrs[k])
    {
      assert !PastValid(bs[i].addrs[k], now);
    }
  }

  lemma PreferredEnds(bs: seq<Ia>, now: int)
    requires Preferred(bs, now) && now < MAX_TIME
    ensures NoneDeprefersBefore(bs, now + 1)
  {
    forall i, k | 0 <= i < |bs| && 0 <= k < |bs[i].addrs| && !bs[i].addrs[k].depreffed
      ensures now + 1 <= PrefEnd(bs[i].addrs[k])
    {
      assert !PastPreferred(bs[i].addrs[k], now);
    }
  }

  /** Depreferring leaves every address in use that was. */
  lemma DeprefLives(bs: seq<Ia>, now: int)
    ensures AnyLive(DeprefIas(bs, now)) <==> AnyLive(bs)
    ensures StartsOk(bs) ==> StartsOk(DeprefIas(bs, now))
  {
    var d := DeprefIas(bs, now);
    assert forall i, k :: 0 <= i < |bs| && 0 <= k < |bs[i].addrs| ==> d[i].addrs[k].expired == bs[i].addrs[k].expired;
    forall i | 0 <= i < |bs| ensures Live(d[i].addrs) <==> Live(bs[i].addrs) {
      if Live(bs[i].addrs) {
        var k :| 0 <= k < |bs[i].addrs| && !bs[i].addrs[k].expired;
        assert !d[i].addrs[k].expired;
      }
      if Live(d[i].addrs) {
        var k :| 0 <= k < |d[i].addrs| && !d[i].addrs[k].expired;
        assert !bs[i].addrs[k].expired;
      }
    }
  }

  // ----- the client

  datatype Phase = Init | Bound | Renewing | Rebinding

  datatype Timer = StartRenew | StartRebind | DoDepref | DoExpire

  datatype State = State(phase: Phase, lease: Option<seq<Ia>>, timers: map<Timer, int>, mrd: int, nextMrd: int)

  predicate Using(p: Phase) { p == Bound || p == Renewing || p == Rebinding }

  /** The choice between renewing and rebinding. */
  function Refresh(s: State, t: Times, now: int): State {
    var renew, rebind := RenewAt(t), RebindAt(t);
    if s.phase == Bound && rebind > now && renew < rebind then
      s.(nextMrd := rebind, timers := s.timers[StartRenew := renew])
    else if s.phase == Rebinding then s.(mrd := t.hiExpire - now)
    else if rebind != MAX_TIME then
      s.(mrd := rebind - now, nextMrd := t.hiExpire, timers := s.timers[StartRebind := rebind])
    else s.(mrd := rebind - now)
  }

  function AddIfDue(timers: map<Timer, int>, k: Timer, at: int): map<Timer, int> {
    if at != MAX_TIME then timers[k := at] else timers
  }

  /** dhc6_check_times. */
  function CheckTimes(s: State, now: int, requested: nat): State
    requires s.lease.Some? && Using(s.phase)
  {
    var bs := s.lease.value;
    var s1 := s.(timers := s.timers - {StartRenew, StartRebind, DoDepref, DoExpire});
    if !AnyLive(bs) then s1.(lease := None, phase := Init)
    else
      var t := TimesOf(bs, requested);
      var s2 := Refresh(s1, t, now);
      s2.(timers := AddIfDue(AddIfDue(s2.timers, DoDepref, t.depref), DoExpire, t.loExpire))
  }

  function Expire(s: State, now: int, requested: nat): State
    requires s.lease.Some? ==> Using(s.phase)
  {
    match s.lease
    case None => s
    case Some(bs) =>
      var e := ExpireIas(bs, now);
      if e == [] then s.(lease := None, phase := Init) else CheckTimes(s.(lease := Some(e)), now, requested)
  }

  function Depref(s: State, now: int, requested: nat): State
    requires s.lease.Some? ==> Using(s.phase)
  {
    match s.lease
    case None => s
    case Some(bs) => CheckTimes(s.(lease := Some(DeprefIas(bs, now))), now, requested)
  }

  /** start_renew6 and start_rebind6: MRD is what is left until the time that was recorded for it. */
  function BeginRefresh(s: State, phase: Phase, now: int): State {
    s.(phase := phase, mrd := s.nextMrd - now)
  }

  /** start_bound with the lease of a Reply. */
  function BindLease(s: State, bs: seq<Ia>, now: int, requested: nat): State {
    CheckTimes(s.(phase := Bound, lease := Some(bs)), now, requested)
  }

  predicate StateOk(s: State) { s.lease.Some? ==> StartsOk(s.lease.value) }

  /** The next do_expire is set exactly if an address in use ends before MAX_TIME, and then for the first such end. */
  predicate ExpiryIsSet(s: State, bs: seq<Ia>) {
    && (DoExpire in s.timers <==> SomeEndsBefore(bs, MAX_TIME))
    && (DoExpire in s.timers ==> NoneEndsBefore(bs, s.timers[DoExpire]) && SomeEndsAt(bs, s.timers[DoExpire]))
  }

  predicate DepreferenceIsSet(s: State, bs: seq<Ia>) {
    && (DoDepref in s.timers <==> SomeDeprefersBefore(bs, MAX_TIME))
    && (DoDepref in s.timers ==> NoneDeprefersBefore(bs, s.timers[DoDepref]) && SomeDeprefersAt(bs, s.timers[DoDepref]))
  }

  /** At most one of the two is scheduled, and MRD will end the renewal at the rebinding, and that at the last end. */
  predicate RefreshIsSet(s: State, t: Times) {
    && !(StartRenew in s.timers && StartRebind in s.timers)
    && (StartRenew in s.timers ==> s.timers[StartRenew] == RenewAt(t) < RebindAt(t) && s.nextMrd == RebindAt(t))
    && (StartRebind in s.timers ==> s.timers[StartRebind] == RebindAt(t) && s.nextMrd == t.hiExpire)
  }

  lemma ExpiryIs(s: State, now: int, requested: nat)
    requires s.lease.Some? && Using(s.phase) && StartsOk(s.lease.value) && AnyLive(s.lease.value)
    ensures ExpiryIsSet(CheckTimes(s, now, requested), s.lease.value)
  {
    var r, t := CheckTimes(s, now, requested), TimesOf(s.lease.value, requested);
    LoExpireIs(s.lease.value, requested);
    assert DoExpire in r.timers <==> t.loExpire < MAX_TIME;
  }

  lemma DepreferenceIs(s: State, now: int, requested: nat)
    requires s.lease.Some? && Using(s.phase) && AnyLive(s.lease.value)
    ensures DepreferenceIsSet(CheckTimes(s, now, requested), s.lease.value)
  {
    var r, t := CheckTimes(s, now, requested), TimesOf(s.lease.value, requested);
    DeprefIs(s.lease.value, requested);
    assert DoDepref in r.timers <==> t.depref < MAX_TIME;
  }

  /** Which of renewal and rebinding is scheduled, and how long MRD lets the client try. */
  lemma RefreshIs(s: State, now: int, requested: nat)
    requires s.lease.Some? && Using(s.phase) && AnyLive(s.lease.value)
    ensures var r, t := CheckTimes(s, now, requested), TimesOf(s.lease.value, requested);
            && RefreshIsSet(r, t)
            && (StartRenew in r.timers <==> s.phase == Bound && now < RebindAt(t) && RenewAt(t) < RebindAt(t))
            && (StartRebind in r.timers <==>
                  s.phase != Rebinding && StartRenew !in r.timers && RebindAt(t) != MAX_TIME)
            && (s.phase == Renewing ==> now + r.mrd == RebindAt(t))
            && (s.phase == Rebinding ==> now + r.mrd == t.hiExpire)
  {
  }

  /** dhc6_check_times gives up the lease exactly if no address is in use, and then leaves no timer. */
  lemma CheckTimesKeeps(s: State, now: int, requested: nat)
    requires s.lease.Some? && Using(s.phase)
    ensures var r := CheckTimes(s, now, requested);
            if AnyLive(s.lease.value) then r.lease == s.lease && r.phase == s.phase
            else r.lease == None && r.phase == Init && r.timers == map[]
  {
    var left := s.timers - {StartRenew, StartRebind, DoDepref, DoExpire};
    forall k: Timer ensures k !in left {
      match k
      case StartRenew =>
      case StartRebind =>
      case DoDepref =>
      case DoExpire =>
    }
  }

  /**
   * After do_expire there is no lease, or every IA that is left has an address in use, no address in use is
   * past its valid life, and the next do_expire is in the future.
   */
  lemma ExpireSound(s: State, now: int, requested: nat)
    requires Using(s.phase) && s.lease.Some? && StateOk(s) && now < MAX_TIME
    ensures var r := Expire(s, now, requested);
            && StateOk(r) && (r.lease.Some? <==> ExpireIas(s.lease.value, now) != [])
            && (r.lease.Some? ==> r.phase == s.phase && r.lease.value != [] && Current(r.lease.value, now))
            && (r.lease.Some? ==> ExpiryIsSet(r, r.lease.value) && (DoExpire in r.timers ==> r.timers[DoExpire] > now))
  {
    var e := ExpireIas(s.lease.value, now);
    ExpireIasCurrent(s.lease.value, now);
    if e != [] {
      assert AnyLive(e) by { assert Live(e[0].addrs); }
      CheckTimesKeeps(s.(lease := Some(e)), now, requested);
      ExpiryIs(s.(lease := Some(e)), now, requested);
      CurrentEnds(e, now);
    }
  }

  /** After do_depref no preferred address is past its preferred life, and the next do_depref is in the future. */
  lemma DeprefSound(s: State, now: int, requested: nat)
    requires Using(s.phase) && s.lease.Some? && now < MAX_TIME
    ensures var r := Depref(s, now, requested);
            && (r.lease.Some? <==> AnyLive(s.lease.value))
            && (r.lease.Some? ==> Preferred(r.lease.value, now) && DepreferenceIsSet(r, r.lease.value))
            && (r.lease.Some? && DoDepref in r.timers ==> r.timers[DoDepref] > now)
  {
    var d := DeprefIas(s.lease.value, now);
    assert Preferred(d, now);
    DeprefLives(s.lease.value, now);
    CheckTimesKeeps(s.(lease := Some(d)), now, requested);
    if AnyLive(d) {
      DepreferenceIs(s.(lease := Some(d)), now, requested);
      PreferredEnds(d, now);
    }
  }

  /** The addresses that do_expire runs the script for. */
  function Fired(bs: seq<Ia>, now: int): set<Addr> {
    set i, k | 0 <= i < |bs| && 0 <= k < |bs[i].addrs| && !bs[i].addrs[k].expired && PastValid(bs[i].addrs[k], now)
      :: bs[i].addrs[k]
  }

  /** An address is expired once: later runs only see addresses that were still valid. */
  lemma ExpiredOnce(bs: seq<Ia>, now: int, later: int)
    requires now <= later
    ensures forall a :: a in Fired(ExpireIas(bs, now), later) ==> !PastValid(a, now)
  {
    ExpireIasCurrent(bs, now);
  }

  /** A do_expire that comes no earlier than it was scheduled has an address to expire. */
  lemma DueExpires(bs: seq<Ia>, now: int, requested: nat)
    requires StartsOk(bs) && TimesOf(bs, requested).loExpire <= now < MAX_TIME
    ensures Fired(bs, now) != {}
  {
    LoExpireIs(bs, requested);
    var t := TimesOf(bs, requested).loExpire;
    var i, k :| 0 <= i < |bs| && 0 <= k < |bs[i].addrs| && !bs[i].addrs[k].expired && ValidEnd(bs[i].addrs[k]) == t;
    assert bs[i].addrs[k] in Fired(bs, now);
  }

  /** The addresses that do_depref runs the script for. */
  function Depreferred(bs: seq<Ia>, now: int): set<Addr> {
    set i, k | 0 <= i < |bs| && 0 <= k < |bs[i].addrs| && !bs[i].addrs[k].depreffed
        && PastPreferred(bs[i].addrs[k], now)
      :: bs[i].addrs[k]
  }

  /** An address is depreferred once. */
  lemma DepreferredOnce(bs: seq<Ia>, now: int, later: int)
    requires now <= later
    ensures forall a :: a in Depreferred(DeprefIas(bs, now), later) ==> !PastPreferred(a, now)
  {
  }

  /** One IA further in the list: it stays with its marks, or is cut out. */
  lemma ExpireStep(bs: seq<Ia>, done: nat, now: int)
    requires done < |bs|
    ensures var h, next := ExpireIas(bs[..done], now), ExpireIas(bs[..done + 1], now);
            var cur, ia := h + bs[done..], bs[done].(addrs := ExpireAddrs(bs[done].addrs, now));
            && cur[|h|] == bs[done]
            && (Live(ia.addrs) ==> |next| == |h| + 1 && cur[|h| := ia] == next + bs[done + 1..])
            && (!Live(ia.addrs) ==> next == h && cur[..|h|] + cur[|h| + 1..] == next + bs[done + 1..])
  {
    assert bs[..done + 1][..done] == bs[..done];
  }

  // ----- as the source does it

  class ActiveLease {
    const requested: nat
    var phase: Phase
    var held: bool
    var bindings: seq<Ia>
    var timers: map<Timer, int>
    var mrd: int
    var nextMrd: int

    ghost function Abs(): State
      reads this
    {
      State(phase, if held then Some(bindings) else None, timers, mrd, nextMrd)
    }

    constructor (requested: nat, phase: Phase, bindings: seq<Ia>)
      ensures this.requested == requested && Abs() == State(phase, Some(bindings), map[], 0, 0)
    {
      this.requested, this.phase, held, this.bindings := requested, phase, true, bindings;
      timers, mrd, nextMrd := map[], 0, 0;
    }

    /** The inner loop of dhc6_check_times. */
    method ScanAddrs(starts: int, addrs: seq<Addr>) returns (depref: int, lo: int, hi: int, has: bool)
      ensures depref == MinPref(addrs) && lo == RelLo(starts, addrs) && hi == RelHi(starts, addrs)
      ensures has <==> Live(addrs)
    {
      depref, lo, hi, has := MAX_TIME, MAX_TIME, 0, false;
      for k := 0 to |addrs|
        invariant depref == MinPref(addrs[..k]) && lo == RelLo(starts, addrs[..k]) && hi == RelHi(starts, addrs[..k])
        invariant has <==> exists j :: 0 <= j < k && !addrs[j].expired
      {
        assert addrs[..k + 1][..k] == addrs[..k];
        var a := addrs[k];
        if !a.depreffed {
          var tmp := if a.preferredLife == INFINITE then MAX_TIME else a.starts + a.preferredLife;
          if tmp < depref { depref := tmp; }
        }
        if !a.expired {
          var tmp := if a.maxLife == INFINITE then MAX_TIME else a.starts + a.maxLife;
          tmp := tmp - starts;
          if tmp > hi { hi := tmp; }
          if tmp < lo { lo := tmp; }
          has := true;
        }
      }
      assert addrs[..|addrs|] == addrs;
    }

    method ScanRefresh(t: Times, ia: Ia, lo: int, hi: int) returns (u: Times)
      requires lo == RelLo(ia.starts, ia.addrs) && hi == RelHi(ia.starts, ia.addrs)
      ensures u == AddRefresh(t, ia, requested)
    {
      u := t;
      var use := if lo <= hi / 2 then hi else lo;
      if use == MAX_TIME || use <= 1 {
        use := requested / 2;
      } else {
        use := use / 2;
      }
      if ia.iaType != D6O_IA_TA {
        if ia.starts > u.maxStarts { u := u.(maxStarts := ia.starts); }
        var tmp := if ia.renew == 0 then use else if ia.renew == INFINITE then MAX_TIME else ia.renew;
        if tmp < u.renew { u := u.(renew := tmp); }
        tmp := if ia.rebind == 0 then use + use / 2 else if ia.rebind == INFINITE then MAX_TIME else ia.rebind;
        if tmp < u.rebind { u := u.(rebind := tmp); }
      }
    }

    /** One round of the outer loop. */
    method ScanIa(t: Times, ia: Ia) returns (u: Times, has: bool)
      ensures u == AddIa(t, ia, requested) && (has <==> Live(ia.addrs))
    {
      var depref, lo, hi;
      depref, lo, hi, has := ScanAddrs(ia.starts, ia.addrs);
      u := ScanRefresh(t, ia, lo, hi);
      if depref < u.depref { u := u.(depref := depref); }
      hi, lo := hi + ia.starts, lo + ia.starts;
      if hi > u.hiExpire { u := u.(hiExpire := hi); }
      if lo < u.loExpire { u := u.(loExpire := lo); }
    }

    method ScanBindings() returns (t: Times, has: bool)
      ensures t == TimesOf(bindings, requested) && (has <==> AnyLive(bindings))
    {
      t, has := NoTimes(), false;
      for i := 0 to |bindings|
        invariant t == TimesOf(bindings[..i], requested)
        invariant has <==> exists j :: 0 <= j < i && Live(bindings[j].addrs)
      {
        assert bindings[..i + 1][..i] == bindings[..i];
        var live;
        t, live := ScanIa(t, bindings[i]);
        has := has || live;
      }
      assert bindings[..|bindings|] == bindings;
    }

    method ScheduleRefresh(t: Times, now: int)
      requires Using(phase)
      modifies this`timers, this`mrd, this`nextMrd
      ensures Abs() == Refresh(old(Abs()), t, now)
    {
      var renew, rebind := t.renew, t.rebind;
      if renew != MAX_TIME { renew := renew + t.maxStarts; }
      if rebind != MAX_TIME { rebind := rebind + t.maxStarts; }
      if phase == Bound && rebind > now && renew < rebind {
        nextMrd := rebind;
        timers := timers[StartRenew := renew];
      } else if phase == Rebinding {
        mrd := t.hiExpire - now;
      } else {
        mrd := rebind - now;
        if rebind != MAX_TIME {
          nextMrd := t.hiExpire;
          timers := timers[StartRebind := rebind];
        }
      }
    }

    method Check(now: int)
      requires held && Using(phase)
      modifies this
      ensures Abs() == CheckTimes(old(Abs()), now, requested)
    {
      timers := timers - {StartRenew, StartRebind, DoDepref, DoExpire};
      var t, has := ScanBindings();
      if !has {
        held, bindings, phase := false, [], Init;
        return;
      }
      ScheduleRefresh(t, now);
      if t.depref != MAX_TIME { timers := timers[DoDepref := t.depref]; }
      if t.loExpire != MAX_TIME { timers := timers[DoExpire := t.loExpire]; }
    }

    /** start_renew6. */
    method RunRenew(now: int)
      modifies this`phase, this`mrd
      ensures Abs() == BeginRefresh(old(Abs()), Renewing, now)
    {
      phase := Renewing;
      mrd := nextMrd - now;
    }

    /** start_rebind6. */
    method RunRebind(now: int)
      modifies this`phase, this`mrd
      ensures Abs() == BeginRefresh(old(Abs()), Rebinding, now)
    {
      phase := Rebinding;
      mrd := nextMrd - now;
    }

    /** start_bound. */
    method RunBound(bs: seq<Ia>, now: int)
      modifies this
      ensures Abs() == BindLease(old(Abs()), bs, now, requested)
    {
      held, bindings, phase := true, bs, Bound;
      Check(now);
    }

    /** A timer leaves the list before its function is called. */
    method TakeTimer(k: Timer)
      modifies this`timers
      ensures Abs() == old(Abs()).(timers := old(timers) - {k})
    {
      timers := timers - {k};
    }

    /** The inner loop of do_expire. */
    method ExpireOne(addrs: seq<Addr>, now: int) returns (r: seq<Addr>, has: bool)
      ensures r == ExpireAddrs(addrs, now) && (has <==> Live(r))
    {
      r, has := addrs, false;
      for k := 0 to |addrs|
        invariant |r| == |addrs| && r[k..] == addrs[k..]
        invariant forall j :: 0 <= j < k ==> r[j] == ExpireAddr(addrs[j], now)
        invariant has <==> exists j :: 0 <= j < k && !r[j].expired
      {
        assert r[k] == r[k..][0] && addrs[k] == addrs[k..][0];
        if !r[k].expired {
          if r[k].starts + r[k].maxLife <= now {
            r := r[k := r[k].(expired := true)];
          } else {
            has := true;
          }
        }
      }
    }

    /** The outer loop of do_expire, which edits the IA list in place. */
    method ExpireBindings(now: int)
      modifies this`bindings
      ensures bindings == ExpireIas(old(bindings), now)
    {
      ghost var bs := bindings;
      ghost var done := 0;
      var i := 0;
      while i < |bindings|
        invariant 0 <= done <= |bs| && i == |ExpireIas(bs[..done], now)|
        invariant bindings == ExpireIas(bs[..done], now) + bs[done..]
        decreases |bs| - done
      {
        ExpireStep(bs, done, now);
        var addrs, has := ExpireOne(bindings[i].addrs, now);
        if has {
          bindings := bindings[i := bindings[i].(addrs := addrs)];
          i := i + 1;
        } else {
          bindings := bindings[..i] + bindings[i + 1..];
        }
        done := done + 1;
      }
      assert bs[..|bs|] == bs;
    }

    /** do_expire. */
    method RunExpire(now: int)
      requires held ==> Using(phase)
      modifies this
      ensures Abs() == Expire(old(Abs()), now, requested)
    {
      if !held { return; }
      ExpireBindings(now);
      if bindings == [] {
        held, phase := false, Init;
        return;
      }
      Check(now);
    }

    method DeprefOne(addrs: seq<Addr>, now: int) returns (r: seq<Addr>)
      ensures r == DeprefAddrs(addrs, now)
    {
      r := addrs;
      for k := 0 to |addrs|
        invariant |r| == |addrs| && forall j :: 0 <= j < |r| ==>
            r[j] == if j < k then DeprefAddr(addrs[j], now) else addrs[j]
      {
        if !r[k].depreffed && r[k].starts + r[k].preferredLife <= now {
          r := r[k := r[k].(depreffed := true)];
        }
      }
    }

    /** do_depref. */
    method RunDepref(now: int)
      requires held ==> Using(phase)
      modifies this
      ensures Abs() == Depref(old(Abs()), now, requested)
    {
      if !held { return; }
      ghost var bs := bindings;
      for i := 0 to |bindings|
        invariant held && unchanged(this`phase) && unchanged(this`timers) && unchanged(this`mrd)
            && unchanged(this`nextMrd)
        invariant |bindings| == |bs|
        invariant forall j :: 0 <= j < |bs| ==>
            bindings[j] == if j < i then bs[j].(addrs := DeprefAddrs(bs[j].addrs, now)) else bs[j]
      {
        var addrs := DeprefOne(bindings[i].addrs, now);
        bindings := bindings[i := bindings[i].(addrs := addrs)];
      }
      assert bindings == DeprefIas(bs, now);
      Check(now);
    }
  }
}
