/** The life of a DHCPv6 lease in client/dhc6.c: timers, Replies and the clock over whole runs. */
module Life6 {
  import opened Common
  import opened Lease6
  import opened Expire6

  datatype World = World(s: State, now: int)

  /** Recheck is a do_refresh6 that finds MRD to be over. */
  datatype Event = Tick(time: int) | Fire(timer: Timer) | Reply(bindings: seq<Ia>) | Recheck

  /** Time does not run past a timer that is due, timers do not go off early, and Replies are ignored in BOUND. */
  predicate Enabled(w: World, e: Event) {
    match e
    case Tick(t) => w.now <= t < MAX_TIME && forall k :: k in w.s.timers ==> t <= w.s.timers[k]
    case Fire(k) => k in w.s.timers && w.s.timers[k] <= w.now
    case Reply(bs) => w.s.phase != Bound && StartsOk(bs)
    case Recheck => w.s.lease.Some? && (w.s.phase == Renewing || w.s.phase == Rebinding)
  }

  function OnTimer(s: State, k: Timer, now: int, requested: nat): State
    requires s.lease.Some? ==> Using(s.phase)
  {
    match k
    case StartRenew => BeginRefresh(s, Renewing, now)
    case StartRebind => BeginRefresh(s, Rebinding, now)
    case DoDepref => Depref(s, now, requested)
    case DoExpire => Expire(s, now, requested)
  }

  function Step(w: World, e: Event, requested: nat): World
    requires (w.s.lease.Some? ==> Using(w.s.phase)) && Enabled(w, e)
  {
    match e
    case Tick(t) => w.(now := t)
    case Fire(k) => w.(s := OnTimer(w.s.(timers := w.s.timers - {k}), k, w.now, requested))
    case Reply(bs) => w.(s := BindLease(w.s, bs, w.now, requested))
    case Recheck => w.(s := CheckTimes(w.s, w.now, requested))
  }

  // ----- what every step keeps

  /** A lease has an address in use, and its timers are set for the first depreference and the first end. */
  predicate Watched(s: State, requested: nat) {
    s.lease.Some? ==>
      var bs := s.lease.value;
      && Using(s.phase) && StartsOk(bs) && AnyLive(bs)
      && ExpiryIsSet(s, bs) && DepreferenceIsSet(s, bs) && RefreshIsSet(s, TimesOf(bs, requested))
  }

  /** No address in use has ended, and no preferred one has ceased to be preferred. */
  predicate InTime(bs: seq<Ia>, now: int) { NoneEndsBefore(bs, now) && NoneDeprefersBefore(bs, now) }

  predicate Timely(w: World) { w.s.lease.Some? ==> InTime(w.s.lease.value, w.now) }

  lemma CheckWatched(s: State, now: int, requested: nat)
    requires s.lease.Some? && Using(s.phase) && StartsOk(s.lease.value)
    ensures Watched(CheckTimes(s, now, requested), requested)
  {
    CheckTimesKeeps(s, now, requested);
    if AnyLive(s.lease.value) {
      ExpiryIs(s, now, requested);
      DepreferenceIs(s, now, requested);
      RefreshIs(s, now, requested);
    }
  }

  lemma TimerWatched(s: State, k: Timer, now: int, requested: nat)
    requires Watched(s, requested) && k in s.timers
    ensures Watched(OnTimer(s.(timers := s.timers - {k}), k, now, requested), requested)
  {
    var s1 := s.(timers := s.timers - {k});
    if s.lease.Some? {
      var bs := s.lease.value;
      match k {
        case StartRenew =>
        case StartRebind =>
        case DoDepref =>
          DeprefLives(bs, now);
          CheckWatched(s1.(lease := Some(DeprefIas(bs, now))), now, requested);
        case DoExpire =>
          ExpireIasCurrent(bs, now);
          if ExpireIas(bs, now) != [] { CheckWatched(s1.(lease := Some(ExpireIas(bs, now))), now, requested); }
      }
    }
  }

  lemma StepWatched(w: World, e: Event, requested: nat)
    requires Watched(w.s, requested) && Enabled(w, e)
    ensures Watched(Step(w, e, requested).s, requested)
  {
    match e {
      case Tick(_) =>
      case Fire(k) => TimerWatched(w.s, k, w.now, requested);
      case Reply(bs) => CheckWatched(w.s.(phase := Bound, lease := Some(bs)), w.now, requested);
      case Recheck => CheckWatched(w.s, w.now, requested);
    }
  }

  /** The clock does not move past the end of an address in use. */
  lemma TickTimely(w: World, t: int, requested: nat)
    requires Watched(w.s, requested) && Enabled(w, Tick(t))
    ensures Timely(w.(now := t))
  {
    if w.s.lease.Some? {
      var bs := w.s.lease.value;
      forall i, k | 0 <= i < |bs| && 0 <= k < |bs[i].addrs| && !bs[i].addrs[k].expired
        ensures t <= ValidEnd(bs[i].addrs[k])
      {
        if ValidEnd(bs[i].addrs[k]) < MAX_TIME { assert SomeEndsBefore(bs, MAX_TIME); }
      }
      forall i, k | 0 <= i < |bs| && 0 <= k < |bs[i].addrs| && !bs[i].addrs[k].depreffed
        ensures t <= PrefEnd(bs[i].addrs[k])
      {
        if PrefEnd(bs[i].addrs[k]) < MAX_TIME { assert SomeDeprefersBefore(bs, MAX_TIME); }
      }
    }
  }

  /** Marks do not change when an address ends. */
  lemma DeprefInTime(bs: seq<Ia>, now: int)
    requires InTime(bs, now)
    ensures InTime(DeprefIas(bs, now), now)
  {
    var d := DeprefIas(bs, now);
    assert forall i, k :: 0 <= i < |bs| && 0 <= k < |bs[i].addrs| ==>
      d[i].addrs[k] == DeprefAddr(bs[i].addrs[k], now);
  }

  lemma ExpireInTime(bs: seq<Ia>, now: int)
    requires InTime(bs, now)
    ensures InTime(ExpireIas(bs, now), now)
  {
    var e := ExpireIas(bs, now);
    forall i, k | 0 <= i < |e| && 0 <= k < |e[i].addrs|
      ensures !e[i].addrs[k].expired ==> now <= ValidEnd(e[i].addrs[k])
      ensures !e[i].addrs[k].depreffed ==> now <= PrefEnd(e[i].addrs[k])
    {
      ExpireIasMembers(bs, now, e[i]);
      assert e[i] in e;
      var j :| 0 <= j < |bs| && e[i] == bs[j].(addrs := ExpireAddrs(bs[j].addrs, now));
      assert e[i].addrs[k] == ExpireAddr(bs[j].addrs[k], now);
    }
  }

  /** A Reply brings no address that has ended. */
  predicate Fresh(w: World, e: Event) { e.Reply? ==> InTime(e.bindings, w.now) }

  lemma StepTimely(w: World, e: Event, requested: nat)
    requires Watched(w.s, requested) && Timely(w) && Enabled(w, e) && Fresh(w, e)
    ensures Timely(Step(w, e, requested))
  {
    match e {
      case Tick(t) => TickTimely(w, t, requested);
      case Fire(k) =>
        if w.s.lease.Some? {
          var bs, s1 := w.s.lease.value, w.s.(timers := w.s.timers - {k});
          DeprefInTime(bs, w.now);
          ExpireInTime(bs, w.now);
          if k == DoDepref { CheckTimesKeeps(s1.(lease := Some(DeprefIas(bs, w.now))), w.now, requested); }
          if k == DoExpire && ExpireIas(bs, w.now) != [] {
            CheckTimesKeeps(s1.(lease := Some(ExpireIas(bs, w.now))), w.now, requested);
          }
        }
      case Reply(bs) => CheckTimesKeeps(w.s.(phase := Bound, lease := Some(bs)), w.now, requested);
      case Recheck => CheckTimesKeeps(w.s, w.now, requested);
    }
  }

  // ----- runs

  ghost predicate IsRun(w: World, es: seq<Event>, requested: nat)
    requires Watched(w.s, requested)
    decreases |es|
  {
    es == [] ||
    (Enabled(w, es[0]) &&
     (StepWatched(w, es[0], requested); IsRun(Step(w, es[0], requested), es[1..], requested)))
  }

  ghost function After(w: World, es: seq<Event>, requested: nat): World
    requires Watched(w.s, requested) && IsRun(w, es, requested)
    decreases |es|
  {
    if es == [] then w
    else StepWatched(w, es[0], requested); After(Step(w, es[0], requested), es[1..], requested)
  }

  ghost predicate AllFresh(w: World, es: seq<Event>, requested: nat)
    requires Watched(w.s, requested) && IsRun(w, es, requested)
    decreases |es|
  {
    es == [] ||
    (Fresh(w, es[0]) &&
     (StepWatched(w, es[0], requested); AllFresh(Step(w, es[0], requested), es[1..], requested)))
  }

  /** In every run, a lease has its timers set for the first depreference and the first end of an address. */
  lemma {:induction false} RunWatched(w: World, es: seq<Event>, requested: nat)
    requires Watched(w.s, requested) && IsRun(w, es, requested)
    ensures Watched(After(w, es, requested).s, requested)
    decreases |es|
  {
    if es != [] {
      StepWatched(w, es[0], requested);
      RunWatched(Step(w, es[0], requested), es[1..], requested);
    }
  }

  /** In every run, the clock is never past the valid life of an address in use, if Replies bring no such address. */
  lemma {:induction false} RunTimely(w: World, es: seq<Event>, requested: nat)
    requires Watched(w.s, requested) && Timely(w) && IsRun(w, es, requested) && AllFresh(w, es, requested)
    ensures Timely(After(w, es, requested))
    decreases |es|
  {
    if es != [] {
      StepWatched(w, es[0], requested);
      StepTimely(w, es[0], requested);
      RunTimely(Step(w, es[0], requested), es[1..], requested);
    }
  }

  /** And if they do, the clock does not move before do_expire and do_depref have taken care of it. */
  lemma {:induction false} RunTickTimely(w: World, es: seq<Event>, requested: nat)
    requires Watched(w.s, requested) && IsRun(w, es, requested) && es != [] && es[|es| - 1].Tick?
    ensures Timely(After(w, es, requested))
    decreases |es|
  {
    StepWatched(w, es[0], requested);
    var v := Step(w, es[0], requested);
    if |es| == 1 {
      assert es[1..] == [] && After(v, es[1..], requested) == v;
      TickTimely(w, es[0].time, requested);
    } else {
      RunTickTimely(v, es[1..], requested);
    }
  }

  // ----- addresses in use between Replies

  /** The lease after a step that brings no Reply: expired or depreferred if that was due, otherwise the same. */
  lemma LeaseAfter(w: World, e: Event, requested: nat)
    requires Watched(w.s, requested) && w.s.lease.Some? && Enabled(w, e) && !e.Reply?
    ensures var d, bs := Step(w, e, requested), w.s.lease.value;
            if e == Fire(DoExpire) then
              d.s.lease == (if ExpireIas(bs, w.now) == [] then None else Some(ExpireIas(bs, w.now)))
            else d.s.lease == Some(if e == Fire(DoDepref) then DeprefIas(bs, w.now) else bs)
  {
    var bs := w.s.lease.value;
    if e.Fire? {
      var s1 := w.s.(timers := w.s.timers - {e.timer});
      if e.timer == DoDepref {
        DeprefLives(bs, w.now);
        CheckTimesKeeps(s1.(lease := Some(DeprefIas(bs, w.now))), w.now, requested);
      } else if e.timer == DoExpire {
        var x := ExpireIas(bs, w.now);
        ExpireIasCurrent(bs, w.now);
        if x != [] {
          assert AnyLive(x) by { assert Live(x[0].addrs); }
          CheckTimesKeeps(s1.(lease := Some(x)), w.now, requested);
        }
      }
    } else if e.Recheck? {
      CheckTimesKeeps(w.s, w.now, requested);
    }
  }

  function Used(s: State): set<(int, seq<int>, Addr)> {
    if s.lease.Some? then InUse(s.lease.value) else {}
  }

  predicate LeaseStartsOk(s: State) { s.lease.Some? ==> AddrStartsOk(s.lease.value) }

  lemma ExpireStartsOk(bs: seq<Ia>, now: int)
    requires AddrStartsOk(bs)
    ensures AddrStartsOk(ExpireIas(bs, now)) && AddrStartsOk(DeprefIas(bs, now))
  {
    var x, d := ExpireIas(bs, now), DeprefIas(bs, now);
    forall i, k | 0 <= i < |x| && 0 <= k < |x[i].addrs| ensures x[i].addrs[k].starts >= 0 {
      ExpireIasMembers(bs, now, x[i]);
      var j :| 0 <= j < |bs| && x[i] == bs[j].(addrs := ExpireAddrs(bs[j].addrs, now));
      assert x[i].addrs[k] == ExpireAddr(bs[j].addrs[k], now);
    }
    forall i, k | 0 <= i < |d| && 0 <= k < |d[i].addrs| ensures d[i].addrs[k].starts >= 0 {
      assert d[i].addrs[k] == DeprefAddr(bs[i].addrs[k], now);
    }
  }

  /** A step takes nothing out of use whose valid life is not over, and puts nothing in use. */
  lemma StepSpares(w: World, e: Event, requested: nat)
    requires Watched(w.s, requested) && LeaseStartsOk(w.s) && w.now < MAX_TIME && Enabled(w, e) && !e.Reply?
    ensures var d := Step(w, e, requested);
            && LeaseStartsOk(d.s) && d.now < MAX_TIME && w.now <= d.now
            && Used(d.s) <= Used(w.s)
            && forall u :: u in Used(w.s) && d.now < ValidEnd(u.2) ==> u in Used(d.s)
  {
    if w.s.lease.Some? {
      var bs := w.s.lease.value;
      LeaseAfter(w, e, requested);
      ExpireStartsOk(bs, w.now);
      if e == Fire(DoExpire) {
        ExpireTakes(bs, w.now);
        assert Used(Step(w, e, requested).s) == InUse(ExpireIas(bs, w.now)) by { assert InUse([]) == {}; }
      } else if e == Fire(DoDepref) {
        DeprefTakes(bs, w.now);
      } else {
        assert Used(Step(w, e, requested).s) == InUse(bs);
      }
    }
  }

  /** In a run without a Reply, an address stays in use exactly as long as it is valid, and none is added. */
  lemma {:induction false} RunSpares(w: World, es: seq<Event>, requested: nat)
    requires Watched(w.s, requested) && LeaseStartsOk(w.s) && w.now < MAX_TIME && IsRun(w, es, requested)
    requires forall i :: 0 <= i < |es| ==> !es[i].Reply?
    ensures var d := After(w, es, requested);
            && w.now <= d.now
            && Used(d.s) <= Used(w.s)
            && forall u :: u in Used(w.s) && d.now < ValidEnd(u.2) ==> u in Used(d.s)
    decreases |es|
  {
    if es != [] {
      StepWatched(w, es[0], requested);
      StepSpares(w, es[0], requested);
      RunSpares(Step(w, es[0], requested), es[1..], requested);
    }
  }

  // ----- refresh timers that are left behind

  /** Without a lease the client is in INIT, and no renewal or rebinding is pending. */
  predicate NoStray(s: State) {
    s.lease.None? ==> s.phase == Init && StartRenew !in s.timers && StartRebind !in s.timers
  }

  /** A step breaks this exactly if do_expire gives up the lease while a renewal or rebinding is pending. */
  lemma NoStrayIff(w: World, e: Event, requested: nat)
    requires Watched(w.s, requested) && NoStray(w.s) && Enabled(w, e)
    ensures NoStray(Step(w, e, requested).s)
            <==> !(e == Fire(DoExpire) && w.s.lease.Some? && ExpireIas(w.s.lease.value, w.now) == []
                   && (StartRenew in w.s.timers || StartRebind in w.s.timers))
  {
    match e {
      case Tick(_) =>
      case Fire(k) =>
        if w.s.lease.Some? {
          var bs, s1 := w.s.lease.value, w.s.(timers := w.s.timers - {k});
          if k == DoDepref { CheckTimesKeeps(s1.(lease := Some(DeprefIas(bs, w.now))), w.now, requested); }
          if k == DoExpire && ExpireIas(bs, w.now) != [] {
            CheckTimesKeeps(s1.(lease := Some(ExpireIas(bs, w.now))), w.now, requested);
          }
        }
      case Reply(bs) => CheckTimesKeeps(w.s.(phase := Bound, lease := Some(bs)), w.now, requested);
      case Recheck => CheckTimesKeeps(w.s, w.now, requested);
    }
  }

  /** An IA with one address that ends `life` seconds from now, before its T1. */
  predicate EndsBeforeT1(ia: Ia, life: int) {
    && ia.iaType == D6O_IA_NA && ia.starts == 0 && 0 < life < ia.renew < ia.rebind < MAX_TIME
    && |ia.addrs| == 1 && ia.addrs[0].starts == 0 && ia.addrs[0].preferredLife == ia.addrs[0].maxLife == life
    && !ia.addrs[0].expired && !ia.addrs[0].depreffed
  }

  /** What the Reply with such an IA sets. */
  lemma ReplySets(ia: Ia, life: int, requested: nat)
    requires EndsBeforeT1(ia, life)
    ensures AnyLive([ia]) && StartsOk([ia])
    ensures BindLease(State(Init, None, map[], 0, 0), [ia], 0, requested)
            == State(Bound, Some([ia]), map[StartRenew := ia.renew, DoDepref := life, DoExpire := life], 0, ia.rebind)
  {
    var addrs := ia.addrs;
    assert addrs[..|addrs| - 1] == [] && [ia][..0] == [];
    assert Live([ia][0].addrs) by { assert !addrs[0].expired; }
    assert RelLo(0, addrs) == life by { assert RelLo(0, addrs[..|addrs| - 1]) == MAX_TIME; }
    assert RelHi(0, addrs) == life by { assert RelHi(0, addrs[..|addrs| - 1]) == 0; }
    assert MinPref(addrs) == life by { assert MinPref(addrs[..|addrs| - 1]) == MAX_TIME; }
    assert TimesOf([ia], requested) == AddIa(NoTimes(), ia, requested);
  }

  lemma ExpiresAll(ia: Ia, life: int)
    requires EndsBeforeT1(ia, life)
    ensures ExpireIas([ia], life) == []
  {
    assert [ia][..0] == [];
    assert !Live(ExpireAddrs(ia.addrs, life));
  }

  /** And a client that gets such a Reply gets there. */
  lemma StrayRun(ia: Ia, life: int, requested: nat)
    requires EndsBeforeT1(ia, life)
    ensures var w := World(State(Init, None, map[], 0, 0), 0);
            var es := [Reply([ia]), Tick(life), Fire(DoExpire)];
            && NoStray(w.s) && IsRun(w, es, requested) && AllFresh(w, es, requested)
            && !NoStray(After(w, es, requested).s)
  {
    var w := World(State(Init, None, map[], 0, 0), 0);
    ReplySets(ia, life, requested);
    ExpiresAll(ia, life);
    var s1 := State(Bound, Some([ia]), map[StartRenew := ia.renew, DoDepref := life, DoExpire := life], 0, ia.rebind);
    var w1, w2 := World(s1, 0), World(s1, life);
    StepWatched(w, Reply([ia]), requested);
    StepWatched(w1, Tick(life), requested);
    StepWatched(w2, Fire(DoExpire), requested);
    var w3 := Step(w2, Fire(DoExpire), requested);
    NoStrayIff(w2, Fire(DoExpire), requested);
    OneEvent(w2, Fire(DoExpire), [], w3, requested);
    OneEvent(w1, Tick(life), [Fire(DoExpire)], w2, requested);
    OneEvent(w, Reply([ia]), [Tick(life), Fire(DoExpire)], w1, requested);
    assert [Reply([ia])] + [Tick(life), Fire(DoExpire)] == [Reply([ia]), Tick(life), Fire(DoExpire)];
  }

  /** A run from its first event and the rest. */
  lemma OneEvent(w: World, e: Event, es: seq<Event>, v: World, requested: nat)
    requires Watched(w.s, requested) && Enabled(w, e) && v == Step(w, e, requested)
    ensures Watched(v.s, requested)
    ensures IsRun(v, es, requested) ==> IsRun(w, [e] + es, requested)
    ensures IsRun(v, es, requested) ==> After(w, [e] + es, requested) == After(v, es, requested)
    ensures IsRun(v, es, requested) && AllFresh(v, es, requested) && Fresh(w, e) ==> AllFresh(w, [e] + es, requested)
  {
    StepWatched(w, e, requested);
    assert ([e] + es)[1..] == es;
  }

  /** Then that timer takes the client, which has no lease, from INIT to RENEWING or REBINDING. */
  lemma StrayFires(w: World, k: Timer, requested: nat)
    requires w.s.lease.None? && (k == StartRenew || k == StartRebind) && Enabled(w, Fire(k))
    ensures var d := Step(w, Fire(k), requested).s;
            d.lease.None? && d.phase == if k == StartRenew then Renewing else Rebinding
  {
  }

  /** A renewal runs until the rebinding is due, and a rebinding until the last address ends. */
  lemma RefreshRuns(w: World, k: Timer, requested: nat)
    requires Watched(w.s, requested) && w.s.lease.Some? && Enabled(w, Fire(k)) && (k == StartRenew || k == StartRebind)
    ensures var d, t := Step(w, Fire(k), requested), TimesOf(w.s.lease.value, requested);
            && d.s.lease == w.s.lease
            && d.s.phase == (if k == StartRenew then Renewing else Rebinding)
            && d.now + d.s.mrd == if k == StartRenew then RebindAt(t) else t.hiExpire
  {
  }

  /** A renewal that has run its time makes way for the rebinding, and keeps the lease. */
  lemma RenewalEnds(w: World, requested: nat)
    requires Watched(w.s, requested) && w.s.lease.Some? && w.s.phase == Renewing
    ensures var d, t := Step(w, Recheck, requested), TimesOf(w.s.lease.value, requested);
            && d.s.lease == w.s.lease
            && (StartRebind in d.s.timers <==> RebindAt(t) != MAX_TIME)
            && (StartRebind in d.s.timers ==> d.s.timers[StartRebind] == RebindAt(t) && d.s.nextMrd == t.hiExpire)
  {
    CheckTimesKeeps(w.s, w.now, requested);
    RefreshIs(w.s, w.now, requested);
  }

  // ----- as the source does it

  method Handle(a: ActiveLease, now: int, e: Event)
    requires Watched(a.Abs(), a.requested) && Enabled(World(a.Abs(), now), e)
    modifies a
    ensures a.Abs() == Step(World(old(a.Abs()), now), e, a.requested).s && Watched(a.Abs(), a.requested)
  {
    StepWatched(World(a.Abs(), now), e, a.requested);
    match e {
      case Tick(_) =>
      case Reply(bs) => a.RunBound(bs, now);
      case Recheck => a.Check(now);
      case Fire(k) =>
        a.TakeTimer(k);
        match k {
          case StartRenew => a.RunRenew(now);
          case StartRebind => a.RunRebind(now);
          case DoDepref => a.RunDepref(now);
          case DoExpire => a.RunExpire(now);
        }
    }
  }

  /** A whole run in place: no address in use is past its valid life. */
  method Run(a: ActiveLease, start: int, es: seq<Event>) returns (now: int)
    requires Watched(a.Abs(), a.requested) && Timely(World(a.Abs(), start))
    requires IsRun(World(a.Abs(), start), es, a.requested) && AllFresh(World(a.Abs(), start), es, a.requested)
    modifies a
    ensures World(a.Abs(), now) == After(World(old(a.Abs()), start), es, a.requested)
    ensures a.held ==> NoneEndsBefore(a.bindings, now)
    decreases |es|
  {
    RunTimely(World(a.Abs(), start), es, a.requested);
    now := start;
    if es != [] {
      if es[0].Tick? { now := es[0].time; }
      Handle(a, start, es[0]);
      StepTimely(World(old(a.Abs()), start), es[0], a.requested);
      now := Run(a, now, es[1..]);
    }
  }
}
