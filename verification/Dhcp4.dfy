/** The DHCPv4 client of client/dhclient.c as a state machine: handlers, events and whole runs. */
module Dhcp4 {
  import opened Common
  import opened LeaseTimes

  datatype Lease = Lease(address: seq<int>, expiry: int, renewal: int, rebind: int, isBootp: bool, hasMedium: bool)

  /** The client states that dhclient.c sets for DHCPv4. */
  datatype Phase = Init | Selecting | Requesting | Rebooting | Bound | Renewing

  /** The functions that are scheduled for a client with add_timeout. */
  datatype Timer = SendDiscover | StateSelecting | SendRequest | StateBound | StateInit

  datatype Config = Config(initialInterval: int, timeout: int, rebootTimeout: int, selectInterval: int,
                           backoffCutoff: int, retryInterval: int, width: Width)
  {
    /** The divisors that the handlers use are not zero, and no timeout is negative. */
    predicate Ok() {
      initialInterval >= 0 && timeout >= 0 && rebootTimeout >= 0 && backoffCutoff >= 1 && retryInterval >= 1
    }
  }

  /** What one step leaves open: random numbers and script results; `leaseWorks` are the leases that it accepts. */
  datatype Choice = Choice(r1: nat, r2: nat, nextMedium: bool, mediumFails: bool, bindFails: bool,
                           leaseWorks: set<Lease>)

  /** A DHCPDISCOVER and the address it would like ([] for none); a DHCPREQUEST, broadcast or not; a DHCPDECLINE. */
  datatype Message =
    | Discovers(address: seq<int>)
    | Requests(address: seq<int>, broadcast: bool)
    | Declines(address: seq<int>)

  /** `asking` is the address in the DHCPREQUEST that is being sent, `sent` all messages so far. */
  datatype Client = Client(phase: Phase, active: Option<Lease>, offered: seq<Lease>, leases: seq<Lease>,
                           timers: map<Timer, int>, now: int, firstSending: int, interval: int, mediumSet: bool,
                           asking: seq<int>, sent: seq<Message>)

  // ----- timers

  /** When a timer set for `when` goes off: at once if that is past, never TIME_MAX seconds away. */
  function Deadline(now: int, when: int): (d: int)
    ensures d >= now
  {
    if when <= now then now else if when - now >= TIME_MAX then now + TIME_MAX - 1 else when
  }

  function AddTimer(c: Client, k: Timer, when: int): Client {
    c.(timers := c.timers[k := Deadline(c.now, when)])
  }

  function CancelTimer(c: Client, k: Timer): Client {
    c.(timers := c.timers - {k})
  }

  // ----- handlers

  /** requested_address while the client looks for a lease: the address of the active one. */
  function Wanted(c: Client): seq<int> { if c.active.Some? then c.active.value.address else [] }

  /** The next retransmission interval before it is cut to a deadline. */
  function Backoff(cfg: Config, interval: int, r1: nat, r2: nat): (i: int)
    requires cfg.Ok() && interval >= 0
    ensures i >= 0
  {
    var next := if interval == 0 then cfg.initialInterval else interval + r1 % (2 * interval);
    if next > cfg.backoffCutoff then cfg.backoffCutoff / 2 + r2 % cfg.backoffCutoff else next
  }

  /** The interval grows by less than a factor of three up to the cutoff, and stays around the cutoff from then on. */
  lemma BackoffBounded(cfg: Config, interval: int, r1: nat, r2: nat)
    requires cfg.Ok() && interval > 0
    ensures var i := Backoff(cfg, interval, r1, r2);
            || (interval <= i < 3 * interval && i <= cfg.backoffCutoff)
            || cfg.backoffCutoff / 2 <= i < cfg.backoffCutoff / 2 + cfg.backoffCutoff
    ensures interval + r1 % (2 * interval) <= cfg.backoffCutoff ==>
              Backoff(cfg, interval, r1, r2) == interval + r1 % (2 * interval)
    ensures cfg.initialInterval <= cfg.backoffCutoff ==> Backoff(cfg, 0, r1, r2) == cfg.initialInterval
  {
  }

  /** send_discover up to the panic timeout. */
  function Discover(cfg: Config, c: Client, ch: Choice): Client
    requires cfg.Ok() && c.interval >= 0
  {
    var next := if ch.nextMedium then (if c.interval == 0 then cfg.initialInterval else c.interval)
                else Backoff(cfg, c.interval, ch.r1, ch.r2);
    var last := c.firstSending + cfg.timeout;
    var i := if c.now + next > last then last - c.now + 1 else next;
    AddTimer(c.(interval := i, sent := c.sent + [Discovers(Wanted(c))]), SendDiscover, c.now + i)
  }

  /** The part of send_request that sends a DHCPREQUEST and sets the next timeout. */
  function Retransmit(cfg: Config, c: Client, ch: Choice): Client
    requires cfg.Ok() && c.interval >= 0 && (c.phase != Requesting ==> c.active.Some?)
  {
    var next := Backoff(cfg, c.interval, ch.r1 / 4, ch.r2 / 4);
    var i := if c.phase != Requesting && c.now + next > c.active.value.expiry
             then c.active.value.expiry - c.now + 1 else next;
    var broadcast := c.phase == Requesting || c.phase == Rebooting || c.now > c.active.value.rebind;
    AddTimer(c.(interval := i, sent := c.sent + [Requests(c.asking, broadcast)]), SendRequest, c.now + i)
  }

  /** state_init; its first DHCPDISCOVER is always within the panic timeout. */
  function InitState(cfg: Config, c: Client, ch: Choice): Client
    requires cfg.Ok()
  {
    Discover(cfg, c.(phase := Selecting, firstSending := c.now, interval := cfg.initialInterval), ch)
  }

  function Request(cfg: Config, c: Client, ch: Choice): Client
    requires cfg.Ok() && c.interval >= 0 && (c.phase != Requesting ==> c.active.Some?)
  {
    var elapsed := c.now - c.firstSending;
    var checkMedium := c.phase == Rebooting && !c.mediumSet && c.active.value.hasMedium;
    if (c.phase == Rebooting || c.phase == Requesting) && elapsed > cfg.rebootTimeout then
      InitState(cfg, CancelTimer(c, SendRequest), ch)
    else if checkMedium && ch.mediumFails then
      InitState(cfg, CancelTimer(c, SendRequest), ch)
    else
      var c' := if checkMedium then c.(mediumSet := true) else c;
      if c'.phase != Requesting && c'.now > c'.active.value.expiry then InitState(cfg, c', ch)
      else Retransmit(cfg, c', ch)
  }

  /** A new DHCPREQUEST for `address`, before it is sent for the first time. */
  function Asking(cfg: Config, c: Client, phase: Phase, address: seq<int>): Client {
    c.(phase := phase, firstSending := c.now, interval := cfg.initialInterval, asking := address)
  }

  /** state_bound: the renewal time has come. */
  function BoundState(cfg: Config, c: Client, ch: Choice): Client
    requires cfg.Ok() && c.active.Some?
  {
    Request(cfg, Asking(cfg, c, Renewing, Wanted(c)), ch)
  }

  /** The leases in the order in which state_panic tries them. */
  function Candidates(c: Client): seq<Lease> {
    if c.active.Some? then [c.active.value] + c.leases else c.leases
  }

  predicate Usable(l: Lease, now: int, works: set<Lease>) {
    l.expiry > now && l in works
  }

  /** The first candidate that has not expired and that the script accepts. */
  function FirstUsable(ls: seq<Lease>, now: int, works: set<Lease>): (k: Option<nat>)
    ensures k.Some? ==> k.value < |ls| && Usable(ls[k.value], now, works)
    ensures forall i :: 0 <= i < (if k.Some? then k.value else |ls|) ==> !Usable(ls[i], now, works)
  {
    if ls == [] then None
    else if Usable(ls[0], now, works) then Some(0)
    else
      var r := FirstUsable(ls[1..], now, works);
      assert forall i :: 1 <= i < |ls| ==> ls[i] == ls[1..][i - 1];
      if r.Some? then Some(r.value + 1) else None
  }

  /** What is active, and what is on the list, when state_panic stops at candidate `k`, or at none. */
  function Rotated(c: Client, k: Option<nat>): Client
    requires k.Some? ==> k.value < |Candidates(c)|
  {
    var ls := Candidates(c);
    match k
    case Some(i) => c.(active := Some(ls[i]), leases := ls[i + 1..] + ls[..i])
    case None =>
      if |ls| == 0 then c
      else if |ls| == 1 then c.(active := None, leases := ls)
      else c.(active := Some(ls[0]), leases := ls[1..])
  }

  /** state_panic with a recorded lease that can be used. */
  function Resume(cfg: Config, c: Client, ch: Choice): Client
    requires cfg.Ok() && c.active.Some?
  {
    var b := c.(phase := Bound);
    if b.now < b.active.value.renewal then AddTimer(b, StateBound, b.active.value.renewal) else BoundState(cfg, b, ch)
  }

  /** state_panic: nobody offered a lease, so try the recorded ones. */
  function Panic(cfg: Config, c: Client, ch: Choice): Client
    requires cfg.Ok()
  {
    var k := FirstUsable(Candidates(c), c.now, ch.leaseWorks);
    var c' := Rotated(c, k);
    if k.Some? then Resume(cfg, c', ch)
    else
      AddTimer(c'.(phase := Init), StateInit, c.now + (cfg.retryInterval + 1) / 2 + ch.r1 % cfg.retryInterval)
  }

  function DiscoverOrPanic(cfg: Config, c: Client, ch: Choice): Client
    requires cfg.Ok() && c.interval >= 0
  {
    if c.now - c.firstSending > cfg.timeout then Panic(cfg, c, ch) else Discover(cfg, c, ch)
  }

  /** bind_lease with `l` as the new lease. */
  function Bind(cfg: Config, c: Client, l: Lease, ch: Choice): Client
    requires cfg.Ok()
  {
    if ch.bindFails then InitState(cfg, c.(sent := c.sent + [Declines(l.address)]), ch)
    else AddTimer(c.(active := Some(l), phase := Bound), StateBound, l.renewal)
  }

  /** The second half of state_selecting, for the offer that was picked. */
  function Take(cfg: Config, c: Client, picked: Lease, ch: Choice): Client
    requires cfg.Ok()
  {
    if picked.isBootp then
      var l := picked.(expiry := c.now + 12000, renewal := picked.renewal + c.now + 8000,
                       rebind := picked.rebind + c.now + 10000);
      Bind(cfg, c.(phase := Requesting), l, ch)
    else
      Request(cfg, Asking(cfg, c, Requesting, picked.address), ch)
  }

  /** state_selecting. */
  function Select(cfg: Config, c: Client, ch: Choice): Client
    requires cfg.Ok()
  {
    var c1 := CancelTimer(CancelTimer(c, StateSelecting), SendDiscover).(offered := []);
    if c.offered == [] then InitState(cfg, c1, ch) else Take(cfg, c1, c.offered[0], ch)
  }

  /** The offer that the client asked for goes to the head of the list, any other one to the end. */
  function Ranked(c: Client, l: Lease): seq<Lease> {
    if l.address == Wanted(c) then [l] + c.offered else c.offered + [l]
  }

  /** dhcpoffer, for an offer with the transaction id and the required options. */
  function Offer(cfg: Config, c: Client, l: Lease, ch: Choice): Client
    requires cfg.Ok()
  {
    if c.phase != Selecting || (exists o :: o in c.offered && o.address == l.address) then c
    else
      var c1 := c.(offered := Ranked(c, l));
      var stop := c.firstSending + cfg.selectInterval;
      if stop <= c.now then Select(cfg, c1, ch)
      else CancelTimer(AddTimer(c1, StateSelecting, stop), SendDiscover)
  }

  predicate Expecting(p: Phase) { p == Rebooting || p == Requesting || p == Renewing }

  /** dhcpack, with the lease, renewal and rebinding options of the packet (0 if missing). */
  function Ack(cfg: Config, c: Client, l: Lease, lease: nat, t1: nat, t2: nat, random: nat, ch: Choice): Client
    requires cfg.Ok() && OnWire(lease) && OnWire(t1) && OnWire(t2)
  {
    if !Expecting(c.phase) then c
    else
      var c1 := CancelTimer(c, SendRequest);
      if lease == 0 then AddTimer(c1, StateInit, c.now)
      else
        var t := AckTimes(cfg.width, c.now, lease, t1, t2, random);
        Bind(cfg, c1, l.(expiry := t.expiry, renewal := t.renewal, rebind := t.rebind), ch)
  }

  /** dhcpnak. */
  function Nak(cfg: Config, c: Client, ch: Choice): Client
    requires cfg.Ok()
  {
    if !Expecting(c.phase) || c.active.None? then c
    else InitState(cfg, CancelTimer(c.(active := None), SendRequest), ch)
  }

  /** state_reboot, with which a client starts. */
  function Reboot(cfg: Config, c: Client, ch: Choice): Client
    requires cfg.Ok()
  {
    if c.active.None? || c.active.value.isBootp || c.active.value.expiry <= c.now then InitState(cfg, c, ch)
    else
      Request(cfg, Asking(cfg, c.(mediumSet := false), Rebooting, Wanted(c)), ch)
  }

  // ----- runs

  datatype Event =
    | Tick(time: int)
    | Fire(timer: Timer, ch: Choice)
    | OfferIn(offer: Lease, ch: Choice)
    | AckIn(acked: Lease, lease: nat, t1: nat, t2: nat, random: nat, ch: Choice)
    | NakIn(ch: Choice)

  /** Time does not run past a timer that is due, timers do not go off early, packets come at any time. */
  predicate Enabled(cfg: Config, c: Client, e: Event) {
    match e
    case Tick(t) => c.now <= t && ClockOk(cfg.width, t) && forall k :: k in c.timers ==> t <= c.timers[k]
    case Fire(k, _) => k in c.timers && c.timers[k] <= c.now
    case OfferIn(l, _) => l.expiry == l.renewal == l.rebind == 0
    case AckIn(_, lease, t1, t2, _, _) => OnWire(lease) && OnWire(t1) && OnWire(t2)
    case NakIn(_) => true
  }

  predicate HasActive(c: Client) {
    (c.phase == Bound || c.phase == Renewing || c.phase == Rebooting) ==> c.active.Some?
  }

  function OnTimer(cfg: Config, c: Client, k: Timer, ch: Choice): Client
    requires cfg.Ok() && c.interval >= 0
        && (k == StateBound || (k == SendRequest && c.phase != Requesting) ==> c.active.Some?)
  {
    var c' := CancelTimer(c, k);
    match k
    case SendDiscover => DiscoverOrPanic(cfg, c', ch)
    case StateSelecting => Select(cfg, c', ch)
    case SendRequest => Request(cfg, c', ch)
    case StateBound => BoundState(cfg, c', ch)
    case StateInit => InitState(cfg, c', ch)
  }

  function Step(cfg: Config, c: Client, e: Event): Client
    requires cfg.Ok() && c.interval >= 0 && Enabled(cfg, c, e)
    requires e.Fire? && (e.timer == StateBound || (e.timer == SendRequest && c.phase != Requesting)) ==> c.active.Some?
  {
    match e
    case Tick(t) => c.(now := t)
    case Fire(k, ch) => OnTimer(cfg, c, k, ch)
    case OfferIn(l, ch) => Offer(cfg, c, l, ch)
    case AckIn(l, lease, t1, t2, random, ch) => Ack(cfg, c, l, lease, t1, t2, random, ch)
    case NakIn(ch) => Nak(cfg, c, ch)
  }

  /** The one timer that each state waits for. */
  function Awaited(c: Client): Timer {
    match c.phase
    case Init => StateInit
    case Selecting => if c.offered == [] then SendDiscover else StateSelecting
    case Requesting => SendRequest
    case Rebooting => SendRequest
    case Renewing => SendRequest
    case Bound => StateBound
  }

  /** Exactly one timer is pending and it is the one the state waits for; nothing is overdue. */
  predicate Disciplined(c: Client) {
    && c.timers.Keys == {Awaited(c)}
    && c.now <= c.timers[Awaited(c)]
    && (c.offered != [] ==> c.phase == Selecting)
    && HasActive(c)
    && c.interval >= 0
    && c.firstSending <= c.now
  }

  /** A step whose DHCPACK, if it is one that is accepted, carries a lease time. */
  predicate Timed(c: Client, e: Event) {
    e.AckIn? && Expecting(c.phase) ==> e.lease != 0
  }

  lemma InitStateDisciplined(cfg: Config, c: Client, ch: Choice)
    requires cfg.Ok() && c.offered == [] && c.timers == map[]
    ensures var d := InitState(cfg, c, ch); Disciplined(d) && d.phase == Selecting
  {
  }

  lemma RequestDisciplined(cfg: Config, c: Client, ch: Choice)
    requires cfg.Ok() && c.offered == [] && c.timers == map[] && c.interval >= 0 && c.firstSending <= c.now
    requires Expecting(c.phase) && HasActive(c)
    ensures Disciplined(Request(cfg, c, ch))
  {
    assert c.timers - {SendRequest} == c.timers;
  }

  lemma BindDisciplined(cfg: Config, c: Client, l: Lease, ch: Choice)
    requires cfg.Ok() && c.offered == [] && c.timers == map[] && c.interval >= 0 && c.firstSending <= c.now
    ensures Disciplined(Bind(cfg, c, l, ch))
  {
  }

  lemma SelectDisciplined(cfg: Config, c: Client, ch: Choice)
    requires cfg.Ok() && c.interval >= 0 && c.firstSending <= c.now && c.phase == Selecting
    requires c.timers.Keys <= {SendDiscover, StateSelecting}
    ensures Disciplined(Select(cfg, c, ch))
  {
    var c1 := CancelTimer(CancelTimer(c, StateSelecting), SendDiscover).(offered := []);
    assert c1.timers == map[];
    if c.offered != [] && !c.offered[0].isBootp {
      RequestDisciplined(cfg, Asking(cfg, c1, Requesting, c.offered[0].address), ch);
    }
  }

  lemma PanicDisciplined(cfg: Config, c: Client, ch: Choice)
    requires cfg.Ok() && c.offered == [] && c.timers == map[] && c.interval >= 0 && c.firstSending <= c.now
    ensures Disciplined(Panic(cfg, c, ch))
  {
    var k := FirstUsable(Candidates(c), c.now, ch.leaseWorks);
    if k.Some? {
      var b := Rotated(c, k).(phase := Bound);
      RequestDisciplined(cfg, Asking(cfg, b, Renewing, Wanted(b)), ch);
    }
  }

  lemma TimerDisciplined(cfg: Config, c: Client, ch: Choice)
    requires cfg.Ok() && Disciplined(c)
    ensures Disciplined(OnTimer(cfg, c, Awaited(c), ch))
  {
    var c' := CancelTimer(c, Awaited(c));
    assert c'.timers == map[];
    match Awaited(c) {
      case SendDiscover => PanicDisciplined(cfg, c', ch);
      case StateSelecting => SelectDisciplined(cfg, c', ch);
      case SendRequest => RequestDisciplined(cfg, c', ch);
      case StateBound => RequestDisciplined(cfg, Asking(cfg, c', Renewing, Wanted(c)), ch);
      case StateInit => InitStateDisciplined(cfg, c', ch);
    }
  }

  /** Every step keeps the timer discipline, whatever the packets, random numbers and script results. */
  lemma StepDisciplined(cfg: Config, c: Client, e: Event)
    requires cfg.Ok() && Disciplined(c) && Enabled(cfg, c, e) && Timed(c, e)
    ensures Disciplined(Step(cfg, c, e))
  {
    match e {
      case Tick(t) =>
      case Fire(k, ch) =>
        assert k == Awaited(c);
        TimerDisciplined(cfg, c, ch);
      case OfferIn(l, ch) =>
        if c.phase == Selecting && !(exists o :: o in c.offered && o.address == l.address) {
          var c1 := c.(offered := Ranked(c, l));
          var stop := c.firstSending + cfg.selectInterval;
          if stop <= c.now {
            SelectDisciplined(cfg, c1, ch);
          } else {
            assert CancelTimer(AddTimer(c1, StateSelecting, stop), SendDiscover).timers ==
                map[StateSelecting := Deadline(c.now, stop)];
          }
        }
      case AckIn(l, lease, t1, t2, random, ch) =>
        if Expecting(c.phase) {
          var c1 := CancelTimer(c, SendRequest);
          assert c1.timers == map[];
          var t := AckTimes(cfg.width, c.now, lease, t1, t2, random);
          BindDisciplined(cfg, c1, l.(expiry := t.expiry, renewal := t.renewal, rebind := t.rebind), ch);
        }
      case NakIn(ch) =>
        if Expecting(c.phase) && c.active.Some? {
          var c1 := CancelTimer(c.(active := None), SendRequest);
          assert c1.timers == map[];
          InitStateDisciplined(cfg, c1, ch);
        }
    }
  }

  /** The steps of a run follow one another. */
  predicate IsRun(cfg: Config, c: Client, es: seq<Event>)
    requires cfg.Ok() && Disciplined(c)
    decreases |es|
  {
    if es == [] then true
    else
      && Enabled(cfg, c, es[0]) && Timed(c, es[0])
      && (StepDisciplined(cfg, c, es[0]);
          IsRun(cfg, Step(cfg, c, es[0]), es[1..]))
  }

  function After(cfg: Config, c: Client, es: seq<Event>): Client
    requires cfg.Ok() && Disciplined(c) && IsRun(cfg, c, es)
    decreases |es|
  {
    if es == [] then c
    else
      StepDisciplined(cfg, c, es[0]);
      After(cfg, Step(cfg, c, es[0]), es[1..])
  }

  /** How a client starts: nothing scheduled, nothing offered. */
  predicate Fresh(c: Client) {
    c.phase == Init && c.timers == map[] && c.offered == [] && c.interval == 0
  }

  lemma RebootDisciplined(cfg: Config, c: Client, ch: Choice)
    requires cfg.Ok() && Fresh(c)
    ensures Disciplined(Reboot(cfg, c, ch))
  {
    if c.active.Some? && !c.active.value.isBootp && c.active.value.expiry > c.now {
      RequestDisciplined(cfg, Asking(cfg, c.(mediumSet := false), Rebooting, Wanted(c)), ch);
    } else {
      InitStateDisciplined(cfg, c, ch);
    }
  }

  /** In every run from a start, exactly one timer is pending and it matches the state. */
  lemma {:induction false} RunDisciplined(cfg: Config, c: Client, es: seq<Event>)
    requires cfg.Ok() && Disciplined(c) && IsRun(cfg, c, es)
    ensures Disciplined(After(cfg, c, es))
    decreases |es|
  {
    if es != [] {
      StepDisciplined(cfg, c, es[0]);
      RunDisciplined(cfg, Step(cfg, c, es[0]), es[1..]);
    }
  }

  /** An accepted DHCPACK keeps the discipline exactly if it carries a lease time. */
  lemma AckDisciplineIff(cfg: Config, c: Client, e: Event)
    requires cfg.Ok() && Disciplined(c) && Enabled(cfg, c, e) && e.AckIn? && Expecting(c.phase)
    ensures Disciplined(Step(cfg, c, e)) <==> e.lease != 0
  {
    if e.lease != 0 {
      StepDisciplined(cfg, c, e);
    } else {
      assert StateInit in Step(cfg, c, e).timers;
    }
  }

  /** After a DHCPACK without a lease time and then a good one, two timers run against each other. */
  lemma TwoTimersAfterLeaselessAck(cfg: Config, c: Client, e: Event, f: Event)
    requires cfg.Ok() && Disciplined(c) && Expecting(c.phase)
    requires e.AckIn? && Enabled(cfg, c, e) && e.lease == 0
    requires f.AckIn? && Enabled(cfg, Step(cfg, c, e), f) && f.lease != 0 && !f.ch.bindFails
    ensures var d := Step(cfg, Step(cfg, c, e), f); d.phase == Bound && d.timers.Keys == {StateInit, StateBound}
  {
    var d := Step(cfg, c, e);
    assert d.timers == map[StateInit := c.now];
    assert d.timers - {SendRequest} == d.timers;
  }

  // ----- leases are not used past their end

  /** A lease whose renewal time comes no later than one second after its end. */
  predicate Orderly(l: Lease) { l.renewal <= l.expiry + 1 }

  predicate AllOrderly(c: Client) {
    (c.active.Some? ==> Orderly(c.active.value)) && forall l :: l in c.leases ==> Orderly(l)
  }

  predicate Using(p: Phase) { p == Bound || p == Renewing || p == Rebooting }

  /** While a lease is in use its end is at most one second ago, and a timer is set no later than that. */
  predicate InTime(c: Client)
    requires Disciplined(c)
  {
    Using(c.phase) ==> c.now <= c.timers[Awaited(c)] <= c.active.value.expiry + 1
  }

  predicate Safe(c: Client) {
    && Disciplined(c) && AllOrderly(c) && InTime(c)
    && (forall o :: o in c.offered ==> o.renewal == 0)
  }

  /** An accepted DHCPACK carries a lease time, and no options with which the client overstays its lease. */
  predicate Proper(cfg: Config, c: Client, e: Event) {
    && Timed(c, e)
    && (e.AckIn? && Expecting(c.phase) ==>
          OnWire(e.lease) && OnWire(e.t1) && OnWire(e.t2)
          && !Overstays(cfg.width, c.now, e.lease, e.t1, e.t2, e.random))
    && ClockOk(cfg.width, c.now)
  }

  /** A server that sends no T2, or one within the lease, is proper. */
  lemma ServerIsProper(cfg: Config, c: Client, e: Event)
    requires Enabled(cfg, c, e) && Timed(c, e) && ClockOk(cfg.width, c.now) && (e.AckIn? ==> e.t2 <= e.lease)
    ensures Proper(cfg, c, e)
  {
    if e.AckIn? && Expecting(c.phase) { OverstayNeedsT2(cfg.width, c.now, e.lease, e.t1, e.t2, e.random); }
  }

  lemma RequestInTime(cfg: Config, c: Client, ch: Choice)
    requires cfg.Ok() && c.offered == [] && c.timers == map[] && c.interval >= 0 && c.firstSending <= c.now
    requires Expecting(c.phase) && HasActive(c) && AllOrderly(c)
    ensures Safe(Request(cfg, c, ch))
  {
    RequestDisciplined(cfg, c, ch);
    assert c.timers - {SendRequest} == c.timers;
  }

  lemma InitStateInTime(cfg: Config, c: Client, ch: Choice)
    requires cfg.Ok() && c.offered == [] && c.timers == map[] && AllOrderly(c)
    ensures Safe(InitState(cfg, c, ch))
  {
    InitStateDisciplined(cfg, c, ch);
  }

  lemma BindInTime(cfg: Config, c: Client, l: Lease, ch: Choice)
    requires cfg.Ok() && c.offered == [] && c.timers == map[] && c.interval >= 0 && c.firstSending <= c.now
    requires AllOrderly(c) && Orderly(l) && c.now <= l.expiry + 1
    ensures Safe(Bind(cfg, c, l, ch))
  {
    BindDisciplined(cfg, c, l, ch);
    if ch.bindFails { InitStateInTime(cfg, c, ch); }
  }

  lemma SelectInTime(cfg: Config, c: Client, ch: Choice)
    requires cfg.Ok() && c.interval >= 0 && c.firstSending <= c.now && c.phase == Selecting && AllOrderly(c)
    requires c.timers.Keys <= {SendDiscover, StateSelecting}
    requires forall o :: o in c.offered ==> o.renewal == 0
    ensures Safe(Select(cfg, c, ch))
  {
    var c1 := CancelTimer(CancelTimer(c, StateSelecting), SendDiscover).(offered := []);
    assert c1.timers == map[];
    if c.offered == [] {
      InitStateInTime(cfg, c1, ch);
    } else {
      var p := c.offered[0];
      if p.isBootp {
        var l := p.(expiry := c.now + 12000, renewal := p.renewal + c.now + 8000, rebind := p.rebind + c.now + 10000);
        BindInTime(cfg, c1.(phase := Requesting), l, ch);
      } else {
        RequestInTime(cfg, Asking(cfg, c1, Requesting, c.offered[0].address), ch);
      }
    }
  }

  lemma RotatedOrderly(c: Client, k: Option<nat>)
    requires AllOrderly(c) && (k.Some? ==> k.value < |Candidates(c)|)
    ensures AllOrderly(Rotated(c, k))
  {
    var ls := Candidates(c);
    assert forall l :: l in ls ==> Orderly(l);
  }

  lemma PanicInTime(cfg: Config, c: Client, ch: Choice)
    requires cfg.Ok() && c.offered == [] && c.timers == map[] && c.interval >= 0 && c.firstSending <= c.now
    requires AllOrderly(c)
    ensures Safe(Panic(cfg, c, ch))
  {
    PanicDisciplined(cfg, c, ch);
    var k := FirstUsable(Candidates(c), c.now, ch.leaseWorks);
    RotatedOrderly(c, k);
    if k.Some? {
      var b := Rotated(c, k).(phase := Bound);
      RequestInTime(cfg, Asking(cfg, b, Renewing, Wanted(b)), ch);
    }
  }

  lemma TimerInTime(cfg: Config, c: Client, ch: Choice)
    requires cfg.Ok() && Safe(c)
    ensures Safe(OnTimer(cfg, c, Awaited(c), ch))
  {
    var c' := CancelTimer(c, Awaited(c));
    assert c'.timers == map[];
    match Awaited(c) {
      case SendDiscover =>
        PanicInTime(cfg, c', ch);
        if c'.now - c'.firstSending <= cfg.timeout { TimerDisciplined(cfg, c, ch); }
      case StateSelecting => SelectInTime(cfg, c', ch);
      case SendRequest => RequestInTime(cfg, c', ch);
      case StateBound => RequestInTime(cfg, Asking(cfg, c', Renewing, Wanted(c)), ch);
      case StateInit => InitStateInTime(cfg, c', ch);
    }
  }

  lemma StepInTime(cfg: Config, c: Client, e: Event)
    requires cfg.Ok() && Safe(c) && Enabled(cfg, c, e) && Proper(cfg, c, e)
    ensures Safe(Step(cfg, c, e))
  {
    StepDisciplined(cfg, c, e);
    match e {
      case Tick(t) =>
      case Fire(k, ch) =>
        assert k == Awaited(c);
        TimerInTime(cfg, c, ch);
      case OfferIn(l, ch) =>
        if c.phase == Selecting && !(exists o :: o in c.offered && o.address == l.address) {
          var c1 := c.(offered := Ranked(c, l));
          if c.firstSending + cfg.selectInterval <= c.now { SelectInTime(cfg, c1, ch); }
        }
      case AckIn(l, lease, t1, t2, random, ch) =>
        if Expecting(c.phase) {
          var c1 := CancelTimer(c, SendRequest);
          assert c1.timers == map[];
          var t := AckTimes(cfg.width, c.now, lease, t1, t2, random);
          AckTimesOrdered(cfg.width, c.now, lease, t1, t2, random);
          RenewalPastExpiryIff(cfg.width, c.now, lease, t1, t2, random);
          BindInTime(cfg, c1, l.(expiry := t.expiry, renewal := t.renewal, rebind := t.rebind), ch);
        }
      case NakIn(ch) =>
        if Expecting(c.phase) && c.active.Some? {
          var c1 := CancelTimer(c.(active := None), SendRequest);
          assert c1.timers == map[];
          InitStateInTime(cfg, c1, ch);
        }
    }
  }

  predicate IsProperRun(cfg: Config, c: Client, es: seq<Event>)
    requires cfg.Ok() && Safe(c)
    decreases |es|
  {
    if es == [] then true
    else
      && Enabled(cfg, c, es[0]) && Proper(cfg, c, es[0])
      && (StepInTime(cfg, c, es[0]);
          IsProperRun(cfg, Step(cfg, c, es[0]), es[1..]))
  }

  /** In every run with proper servers, no lease is in use more than one second past its end. */
  lemma {:induction false} RunInTime(cfg: Config, c: Client, es: seq<Event>)
    requires cfg.Ok() && Safe(c) && IsProperRun(cfg, c, es)
    ensures IsRun(cfg, c, es)
    ensures var d := After(cfg, c, es);
            Safe(d) && (Using(d.phase) ==> d.active.Some? && d.now <= d.active.value.expiry + 1)
    decreases |es|
  {
    if es != [] {
      StepInTime(cfg, c, es[0]);
      RunInTime(cfg, Step(cfg, c, es[0]), es[1..]);
    }
  }

  lemma RebootInTime(cfg: Config, c: Client, ch: Choice)
    requires cfg.Ok() && Fresh(c) && AllOrderly(c)
    ensures Safe(Reboot(cfg, c, ch))
  {
    RebootDisciplined(cfg, c, ch);
    if c.active.Some? && !c.active.value.isBootp && c.active.value.expiry > c.now {
      RequestInTime(cfg, Asking(cfg, c.(mediumSet := false), Rebooting, Wanted(c)), ch);
    } else {
      InitStateInTime(cfg, c, ch);
    }
  }

  /** The client starts, and then the events follow one another. */
  predicate IsLife(cfg: Config, c: Client, start: Choice, es: seq<Event>)
    requires cfg.Ok() && Fresh(c)
  {
    RebootDisciplined(cfg, c, start);
    IsRun(cfg, Reboot(cfg, c, start), es)
  }

  function Life(cfg: Config, c: Client, start: Choice, es: seq<Event>): Client
    requires cfg.Ok() && Fresh(c) && IsLife(cfg, c, start, es)
  {
    RebootDisciplined(cfg, c, start);
    After(cfg, Reboot(cfg, c, start), es)
  }

  predicate IsProperLife(cfg: Config, c: Client, start: Choice, es: seq<Event>)
    requires cfg.Ok() && Fresh(c) && AllOrderly(c)
  {
    RebootInTime(cfg, c, start);
    IsProperRun(cfg, Reboot(cfg, c, start), es)
  }

  /** From the start on, a client waits for exactly the timer of its state, and overstays no lease. */
  lemma LifeInTime(cfg: Config, c: Client, start: Choice, es: seq<Event>)
    requires cfg.Ok() && Fresh(c) && IsLife(cfg, c, start, es)
    ensures var d := Life(cfg, c, start, es);
            && Disciplined(d)
            && (AllOrderly(c) && IsProperLife(cfg, c, start, es) && Using(d.phase) ==>
                  d.active.Some? && d.now <= d.active.value.expiry + 1)
  {
    RebootDisciplined(cfg, c, start);
    var s := Reboot(cfg, c, start);
    RunDisciplined(cfg, s, es);
    if AllOrderly(c) && IsProperLife(cfg, c, start, es) {
      RebootInTime(cfg, c, start);
      RunInTime(cfg, s, es);
    }
  }

  // ----- and when they are

  /** The options with which the timer of the new lease comes too late. */
  predicate TooLate(w: Width, now: int, lease: nat, t1: nat, t2: nat, random: nat)
    requires OnWire(lease) && OnWire(t1) && OnWire(t2) && lease != 0
  {
    Overstays(w, now, lease, t1, t2, random) && LeaseLength(w, lease) < TIME_MAX - 2
  }

  lemma LateDeadlineIff(w: Width, now: int, lease: nat, t1: nat, t2: nat, random: nat)
    requires OnWire(lease) && OnWire(t1) && OnWire(t2) && lease != 0 && ClockOk(w, now)
    ensures var t := AckTimes(w, now, lease, t1, t2, random);
            Deadline(now, t.renewal) > t.expiry + 1 <==> TooLate(w, now, lease, t1, t2, random)
  {
    var n, r := LeaseLength(w, lease), RenewalLength(w, lease, t1, t2, random);
    RenewalPastExpiryIff(w, now, lease, t1, t2, random);
    RenewalBounds(w, n, t1, random);
    RebindBounds(w, n, t2);
    AddClockMono(w, n, n, now);
    AddClockMono(w, r, r, now);
  }

  /** What an accepted DHCPACK with a lease time makes of the client, unless the script refuses the lease. */
  lemma AckBinds(cfg: Config, c: Client, e: Event)
    requires cfg.Ok() && Disciplined(c)
    requires e.AckIn? && Expecting(c.phase) && Enabled(cfg, c, e) && e.lease != 0 && !e.ch.bindFails
    ensures var d, t := Step(cfg, c, e), AckTimes(cfg.width, c.now, e.lease, e.t1, e.t2, e.random);
            && d.phase == Bound && d.now == c.now && d.leases == c.leases && d.sent == c.sent
            && d.active == Some(e.acked.(expiry := t.expiry, renewal := t.renewal, rebind := t.rebind))
            && StateBound in d.timers && d.timers[StateBound] == Deadline(c.now, t.renewal)
  {
  }

  /**
   * Of all DHCPACKs with a lease time, exactly those leave a timer more than a second after the end of the lease;
   * for very long leases the limit on timers brings the client back in time.
   */
  lemma AckInTimeIff(cfg: Config, c: Client, e: Event)
    requires cfg.Ok() && Disciplined(c) && ClockOk(cfg.width, c.now)
    requires e.AckIn? && Expecting(c.phase) && Enabled(cfg, c, e) && e.lease != 0
    ensures Disciplined(Step(cfg, c, e))
    ensures InTime(Step(cfg, c, e))
            <==> e.ch.bindFails || !TooLate(cfg.width, c.now, e.lease, e.t1, e.t2, e.random)
  {
    StepDisciplined(cfg, c, e);
    LateDeadlineIff(cfg.width, c.now, e.lease, e.t1, e.t2, e.random);
    if !e.ch.bindFails { AckBinds(cfg, c, e); }
  }

  /** A clock two seconds after the end of the lease of that DHCPACK. */
  predicate TicksPast(cfg: Config, now: int, ack: Event, tick: Event)
    requires ack.AckIn? && OnWire(ack.lease) && OnWire(ack.t1) && OnWire(ack.t2) && ack.lease != 0
  {
    && tick == Tick(AckTimes(cfg.width, now, ack.lease, ack.t1, ack.t2, ack.random).expiry + 2)
    && ClockOk(cfg.width, tick.time)
  }

  /** And then the clock runs past the end of the lease while the client is still bound to it. */
  lemma OverstaysInRun(cfg: Config, c: Client, e: Event, tick: Event)
    requires cfg.Ok() && Disciplined(c) && ClockOk(cfg.width, c.now)
    requires e.AckIn? && Expecting(c.phase) && Enabled(cfg, c, e) && e.lease != 0 && !e.ch.bindFails
    requires TooLate(cfg.width, c.now, e.lease, e.t1, e.t2, e.random) && TicksPast(cfg, c.now, e, tick)
    ensures IsRun(cfg, c, [e, tick])
    ensures var d := After(cfg, c, [e, tick]);
            d.phase == Bound && d.active.Some? && d.now > d.active.value.expiry + 1
  {
    LateDeadlineIff(cfg.width, c.now, e.lease, e.t1, e.t2, e.random);
    AckBinds(cfg, c, e);
    StepDisciplined(cfg, c, e);
    var d := Step(cfg, c, e);
    AckTimesOrdered(cfg.width, c.now, e.lease, e.t1, e.t2, e.random);
    StepDisciplined(cfg, d, tick);
    assert [e, tick][1..] == [tick] && [tick][1..] == [];
    assert IsRun(cfg, Step(cfg, d, tick), []);
    assert IsRun(cfg, d, [tick]) && After(cfg, d, [tick]) == After(cfg, Step(cfg, d, tick), []);
  }

  lemma OfferIsRequested(cfg: Config, c: Client, l: Lease, ch: Choice)
    requires cfg.Ok() && c.phase == Selecting && c.offered == [] && c.firstSending + cfg.selectInterval <= c.now
    requires !l.isBootp
    ensures var d := Offer(cfg, c, l, ch); d.phase == Requesting && d.now == c.now
  {
  }

  ghost predicate Leads(cfg: Config, c: Client, e: Event, d: Client) {
    cfg.Ok() && Disciplined(c) && Enabled(cfg, c, e) && Timed(c, e) && d == Step(cfg, c, e)
  }

  lemma RunCons(cfg: Config, c: Client, d: Client, e: Event, es: seq<Event>)
    requires Leads(cfg, c, e, d) && Disciplined(d) && IsRun(cfg, d, es)
    ensures IsRun(cfg, c, [e] + es) && After(cfg, c, [e] + es) == After(cfg, d, es)
  {
    assert ([e] + es)[1..] == es;
  }

  lemma TakesOffer(cfg: Config, s: Client, offer: Event) returns (r: Client)
    requires cfg.Ok() && cfg.selectInterval <= 0 && Disciplined(s) && s.phase == Selecting && s.offered == []
    requires offer.OfferIn? && Enabled(cfg, s, offer) && !offer.offer.isBootp
    ensures Leads(cfg, s, offer, r) && Disciplined(r) && r.phase == Requesting && r.now == s.now
  {
    r := Step(cfg, s, offer);
    StepDisciplined(cfg, s, offer);
    OfferIsRequested(cfg, s, offer.offer, offer.ch);
  }

  /** A client without a lease starts with a DHCPDISCOVER. */
  lemma StartSelects(cfg: Config, c: Client, ch: Choice)
    requires cfg.Ok() && Fresh(c) && c.active.None?
    ensures var s := Reboot(cfg, c, ch);
            Disciplined(s) && s.phase == Selecting && s.offered == [] && s.now == s.firstSending == c.now
  {
    RebootDisciplined(cfg, c, ch);
  }

  /**
   * Such a run starts wherever a client waits for offers: it takes the first one it gets, and has it acknowledged
   * with those options. StartSelects says that a client without a lease begins there.
   */
  lemma OverstaysFromStart(cfg: Config, s: Client, offer: Event, ack: Event, tick: Event)
    requires cfg.Ok() && cfg.selectInterval <= 0 && ClockOk(cfg.width, s.now)
    requires Disciplined(s) && s.phase == Selecting && s.offered == []
    requires offer.OfferIn? && Enabled(cfg, s, offer) && !offer.offer.isBootp
    requires ack.AckIn? && Enabled(cfg, s, ack) && ack.lease != 0 && !ack.ch.bindFails
    requires TooLate(cfg.width, s.now, ack.lease, ack.t1, ack.t2, ack.random) && TicksPast(cfg, s.now, ack, tick)
    ensures IsRun(cfg, s, [offer] + [ack, tick])
    ensures var d := After(cfg, s, [offer] + [ack, tick]);
            d.phase == Bound && d.active.Some? && d.now > d.active.value.expiry + 1
  {
    var r := TakesOffer(cfg, s, offer);
    OverstaysInRun(cfg, r, ack, tick);
    RunCons(cfg, s, r, offer, [ack, tick]);
  }

  /** A lease of ten seconds with a T1 and a T2 of an hour is one of those. */
  lemma AnHourOverstays(random: nat)
    ensures TooLate(Wide, 0, 10, 3600, 3600, random)
  {
    RenewalBounds(Wide, 10, 3600, random);
  }
}
