/** What a DHCPv4 client does in a run: its moves between states, its leases, its messages and its deadlines. */
module Dhcp4Moves {
  import opened Common
  import opened Dhcp4
  import opened LeaseTimes

  // ----- moves between states

  /** Back to looking for a lease, after the messages `ms` and with a DHCPDISCOVER. */
  predicate StartsOver(c: Client, d: Client, ms: seq<Message>) {
    && d.phase == Selecting && d.offered == [] && d.firstSending == d.now == c.now && d.leases == c.leases
    && d.sent == c.sent + ms + [Discovers(Wanted(d))]
  }

  /** A DHCPNAK takes the active lease away, exactly if the client expects an answer and has one. */
  lemma NakTakesLease(cfg: Config, c: Client, e: Event)
    requires cfg.Ok() && Disciplined(c) && e.NakIn?
    ensures var d := Step(cfg, c, e);
            if Expecting(c.phase) && c.active.Some? then StartsOver(c, d, []) && d.active == None else d == c
  {
  }

  /** A DHCPACK with a lease time replaces the active lease, or is declined if the script refuses it. */
  lemma AckTakesLease(cfg: Config, c: Client, e: Event)
    requires cfg.Ok() && Disciplined(c) && e.AckIn? && Enabled(cfg, c, e) && e.lease != 0
    ensures var d := Step(cfg, c, e);
            if !Expecting(c.phase) then d == c
            else if e.ch.bindFails then StartsOver(c, d, [Declines(e.acked.address)]) && d.active == c.active
            else d.phase == Bound && d.active.Some? && d.active.value.address == e.acked.address && d.leases == c.leases
  {
  }

  /** The renewal time comes: the client asks for its own address, by broadcast once T2 has passed. */
  lemma BoundMoves(cfg: Config, c: Client, ch: Choice)
    requires cfg.Ok() && Disciplined(c) && c.phase == Bound && Enabled(cfg, c, Fire(StateBound, ch))
    ensures var d, a := Step(cfg, c, Fire(StateBound, ch)), c.active.value;
            && d.active == c.active
            && if c.now > a.expiry then StartsOver(c, d, [])
               else d.phase == Renewing && d.firstSending == d.now == c.now && d.leases == c.leases
                    && d.sent == c.sent + [Requests(a.address, c.now > a.rebind)]
  {
  }

  /** The client gives up on its DHCPREQUEST: it took too long, the medium does not work, or the lease is over. */
  predicate GivesUp(cfg: Config, c: Client, ch: Choice)
    requires c.phase != Requesting ==> c.active.Some?
  {
    || (c.phase != Renewing && c.now > c.firstSending + cfg.rebootTimeout)
    || (c.phase == Rebooting && !c.mediumSet && c.active.value.hasMedium && ch.mediumFails)
    || (c.phase != Requesting && c.now > c.active.value.expiry)
  }

  lemma RequestMoves(cfg: Config, c: Client, ch: Choice)
    requires cfg.Ok() && Disciplined(c) && Expecting(c.phase) && Enabled(cfg, c, Fire(SendRequest, ch))
    ensures var d := Step(cfg, c, Fire(SendRequest, ch));
            && d.active == c.active
            && if GivesUp(cfg, c, ch) then StartsOver(c, d, [])
               else d.phase == c.phase && d.firstSending == c.firstSending && d.leases == c.leases
                    && d.asking == c.asking
                    && d.mediumSet == (c.mediumSet || (c.phase == Rebooting && c.active.value.hasMedium))
                    && d.sent == c.sent + [Requests(c.asking, c.phase != Renewing || c.now > c.active.value.rebind)]
  {
  }

  /** What state_panic does: the first recorded lease that works is used, or the client waits before it starts over. */
  predicate Panics(cfg: Config, c: Client, d: Client, ch: Choice)
    requires cfg.Ok()
  {
    var ls := Candidates(c);
    match FirstUsable(ls, c.now, ch.leaseWorks)
    case None =>
      && d.phase == Init && d.sent == c.sent && d.timers.Keys == {StateInit}
      && Candidates(d) == ls && d.active == (if |ls| < 2 then None else Some(ls[0]))
      && (cfg.retryInterval < TIME_MAX / 2 ==>
            c.now + (cfg.retryInterval + 1) / 2 <= d.timers[StateInit]
              < c.now + (cfg.retryInterval + 1) / 2 + cfg.retryInterval)
    case Some(k) =>
      && d.active == Some(ls[k]) && d.leases == ls[k + 1..] + ls[..k]
      && d.phase == (if c.now < ls[k].renewal then Bound else Renewing)
      && d.sent == c.sent + (if d.phase == Bound then [] else [Requests(ls[k].address, c.now > ls[k].rebind)])
  }

  lemma PanicMoves(cfg: Config, c: Client, ch: Choice)
    requires cfg.Ok() && c.timers == map[]
    ensures Panics(cfg, c, Panic(cfg, c, ch), ch)
  {
    var k := FirstUsable(Candidates(c), c.now, ch.leaseWorks);
    if k.Some? {
      var b := Rotated(c, k);
      assert b.active == Some(Candidates(c)[k.value]);
    } else {
      assert 0 <= ch.r1 % cfg.retryInterval < cfg.retryInterval;
    }
  }

  /** Without an offer the client tries again until the timeout, and then panics. */
  lemma DiscoverMoves(cfg: Config, c: Client, ch: Choice)
    requires cfg.Ok() && Disciplined(c) && Awaited(c) == SendDiscover && Enabled(cfg, c, Fire(SendDiscover, ch))
    ensures var d := Step(cfg, c, Fire(SendDiscover, ch));
            if c.now <= c.firstSending + cfg.timeout then
              d == c.(timers := d.timers, interval := d.interval, sent := c.sent + [Discovers(Wanted(c))])
            else Panics(cfg, c, d, ch)
  {
    if c.now > c.firstSending + cfg.timeout {
      var c' := CancelTimer(c, SendDiscover);
      assert c'.timers == map[];
      PanicMoves(cfg, c', ch);
    }
  }

  /** What becomes of the offer that is picked: a BOOTP one is bound, any other one is asked for. */
  predicate Picks(c: Client, d: Client, l: Lease, ch: Choice) {
    && d.leases == c.leases && d.offered == []
    && if !l.isBootp then
         && d.phase == Requesting && d.active == c.active && d.asking == l.address
         && d.firstSending == d.now == c.now && d.sent == c.sent + [Requests(l.address, true)]
       else if ch.bindFails then StartsOver(c, d, [Declines(l.address)]) && d.active == c.active
       else d.phase == Bound && d.active.Some? && d.active.value.address == l.address && d.sent == c.sent
            && d.active.value.expiry == c.now + 12000
  }

  lemma SelectPicks(cfg: Config, c: Client, ch: Choice)
    requires cfg.Ok() && c.offered != []
    ensures Picks(c, Select(cfg, c, ch), c.offered[0], ch)
  {
  }

  lemma SelectMoves(cfg: Config, c: Client, ch: Choice)
    requires cfg.Ok() && Disciplined(c) && c.offered != [] && Enabled(cfg, c, Fire(StateSelecting, ch))
    ensures Picks(c, Step(cfg, c, Fire(StateSelecting, ch)), c.offered[0], ch)
  {
    SelectPicks(cfg, CancelTimer(c, StateSelecting), ch);
  }

  /** An offer counts in SELECTING, once for each address; when time is up it leads to the pick at once. */
  lemma OfferMoves(cfg: Config, c: Client, l: Lease, ch: Choice)
    requires cfg.Ok() && Disciplined(c) && Enabled(cfg, c, OfferIn(l, ch))
    ensures var d := Step(cfg, c, OfferIn(l, ch));
            if c.phase != Selecting || (exists o :: o in c.offered && o.address == l.address) then d == c
            else if c.now < c.firstSending + cfg.selectInterval then
              d == c.(offered := Ranked(c, l), timers := d.timers)
            else Picks(c, d, Ranked(c, l)[0], ch)
  {
    if c.phase == Selecting && c.firstSending + cfg.selectInterval <= c.now {
      SelectPicks(cfg, c.(offered := Ranked(c, l)), ch);
    }
  }

  lemma InitMoves(cfg: Config, c: Client, ch: Choice)
    requires cfg.Ok() && Disciplined(c) && c.phase == Init && Enabled(cfg, c, Fire(StateInit, ch))
    ensures var d := Step(cfg, c, Fire(StateInit, ch)); StartsOver(c, d, []) && d.active == c.active
  {
  }

  // ----- where leases come from

  /** The lease that BOOTP offer `o` becomes when it is bound. */
  function BootpLease(o: Lease, now: int): Lease {
    o.(expiry := now + 12000, renewal := o.renewal + now + 8000, rebind := o.rebind + now + 10000)
  }

  /** The leases that a step can bring: that of an accepted DHCPACK, or that of a BOOTP offer. */
  function Grants(cfg: Config, c: Client, e: Event): set<Lease>
    requires Enabled(cfg, c, e)
  {
    match e
    case AckIn(l, lease, t1, t2, random, ch) =>
      if !Expecting(c.phase) || lease == 0 || ch.bindFails then {}
      else
        var t := AckTimes(cfg.width, c.now, lease, t1, t2, random);
        {l.(expiry := t.expiry, renewal := t.renewal, rebind := t.rebind)}
    case OfferIn(l, ch) =>
      if ch.bindFails then {} else set o | o in c.offered + [l] && o.isBootp :: BootpLease(o, c.now)
    case Fire(StateSelecting, ch) =>
      if ch.bindFails then {} else set o | o in c.offered && o.isBootp :: BootpLease(o, c.now)
    case _ => {}
  }

  predicate Recorded(c: Client, l: Lease) { l in Candidates(c) }

  /** The lease stays with the client, active or on its list. */
  ghost predicate KeepsAll(c: Client, d: Client) {
    forall l :: Recorded(c, l) <==> Recorded(d, l)
  }

  lemma RotatedKeeps(c: Client, k: Option<nat>)
    requires k.Some? ==> k.value < |Candidates(c)|
    ensures KeepsAll(c, Rotated(c, k))
  {
    var ls := Candidates(c);
    if k.Some? {
      assert ls == ls[..k.value] + [ls[k.value]] + ls[k.value + 1..];
    }
  }

  lemma PanicKeeps(cfg: Config, c: Client, ch: Choice)
    requires cfg.Ok()
    ensures KeepsAll(c, Panic(cfg, c, ch))
  {
    var k := FirstUsable(Candidates(c), c.now, ch.leaseWorks);
    RotatedKeeps(c, k);
    var d, r := Panic(cfg, c, ch), Rotated(c, k);
    assert d.active == r.active && d.leases == r.leases;
  }

  lemma TimerKeeps(cfg: Config, c: Client, ch: Choice)
    requires cfg.Ok() && Disciplined(c) && c.offered == []
    ensures KeepsAll(c, OnTimer(cfg, c, Awaited(c), ch))
  {
    var c' := CancelTimer(c, Awaited(c));
    var d := OnTimer(cfg, c, Awaited(c), ch);
    if Awaited(c) == SendDiscover && c.now - c.firstSending > cfg.timeout {
      PanicKeeps(cfg, c', ch);
      assert KeepsAll(c', d) && Candidates(c') == Candidates(c);
    } else {
      assert d.active == c.active && d.leases == c.leases;
    }
  }

  /** The lease that the client picks with an offer list, if that is a BOOTP offer. */
  lemma PickKeeps(cfg: Config, c: Client, ch: Choice)
    requires cfg.Ok() && c.offered != []
    ensures var d, o := Select(cfg, c, ch), c.offered[0];
            && d.leases == c.leases
            && (d.active == c.active || (o.isBootp && !ch.bindFails && d.active == Some(BootpLease(o, c.now))))
  {
  }

  /** Nothing but a grant brings a lease, and nothing but a grant or a DHCPNAK loses one, and that is the active one. */
  ghost predicate Accounts(c: Client, d: Client, grants: set<Lease>, nak: bool) {
    && (forall l :: Recorded(d, l) ==> Recorded(c, l) || l in grants)
    && (forall l :: l in c.leases ==> Recorded(d, l))
    && (!nak && grants == {} ==> KeepsAll(c, d))
  }

  lemma ReplacedAccounts(c: Client, d: Client, grants: set<Lease>, nak: bool)
    requires d.leases == c.leases
    requires d.active == c.active || (d.active.Some? && d.active.value in grants) || (d.active.None? && nak)
    ensures Accounts(c, d, grants, nak)
  {
  }

  lemma StepAccounts(cfg: Config, c: Client, e: Event)
    requires cfg.Ok() && Disciplined(c) && Enabled(cfg, c, e) && Timed(c, e)
    ensures Accounts(c, Step(cfg, c, e), Grants(cfg, c, e), e.NakIn?)
  {
    var d := Step(cfg, c, e);
    match e {
      case Tick(_) => ReplacedAccounts(c, d, {}, false);
      case AckIn(_, _, _, _, _, _) => ReplacedAccounts(c, d, Grants(cfg, c, e), false);
      case NakIn(_) => ReplacedAccounts(c, d, {}, true);
      case OfferIn(l, ch) =>
        if c.phase == Selecting && !(exists o :: o in c.offered && o.address == l.address) {
          PickKeeps(cfg, c.(offered := Ranked(c, l)), ch);
          assert Ranked(c, l)[0] in c.offered + [l];
        }
        ReplacedAccounts(c, d, Grants(cfg, c, e), false);
      case Fire(k, ch) =>
        assert k == Awaited(c);
        if c.offered != [] {
          PickKeeps(cfg, CancelTimer(c, StateSelecting), ch);
          ReplacedAccounts(c, d, Grants(cfg, c, e), false);
        } else {
          TimerKeeps(cfg, c, ch);
        }
    }
  }

  /** All leases that a run brings. */
  function RunGrants(cfg: Config, c: Client, es: seq<Event>): set<Lease>
    requires cfg.Ok() && Disciplined(c) && IsRun(cfg, c, es)
    decreases |es|
  {
    if es == [] then {}
    else
      StepDisciplined(cfg, c, es[0]);
      Grants(cfg, c, es[0]) + RunGrants(cfg, Step(cfg, c, es[0]), es[1..])
  }

  /** In every run, each lease that the client has was recorded at the start, or was granted on the way. */
  lemma {:induction false} RunProvenance(cfg: Config, c: Client, es: seq<Event>)
    requires cfg.Ok() && Disciplined(c) && IsRun(cfg, c, es)
    ensures forall l :: Recorded(After(cfg, c, es), l) ==> Recorded(c, l) || l in RunGrants(cfg, c, es)
    decreases |es|
  {
    if es != [] {
      StepDisciplined(cfg, c, es[0]);
      StepAccounts(cfg, c, es[0]);
      RunProvenance(cfg, Step(cfg, c, es[0]), es[1..]);
    }
  }

  /** A lease that a DHCPNAK takes is not with the client again, in any run, until it is granted anew. */
  lemma NakIsLasting(cfg: Config, c: Client, l: Lease, nak: Event, es: seq<Event>)
    requires cfg.Ok() && Disciplined(c) && Expecting(c.phase) && c.active == Some(l) && l !in c.leases
    requires nak.NakIn? && IsRun(cfg, c, [nak] + es)
    requires l !in RunGrants(cfg, c, [nak] + es)
    ensures !Recorded(After(cfg, c, [nak] + es), l)
  {
    assert ([nak] + es)[0] == nak && ([nak] + es)[1..] == es;
    NakTakesLease(cfg, c, nak);
    StepDisciplined(cfg, c, nak);
    RunProvenance(cfg, Step(cfg, c, nak), es);
  }

  // ----- what a client asks for

  /** The addresses that a packet tells the client about. */
  function Given(e: Event): set<seq<int>> {
    match e
    case OfferIn(l, _) => {l.address}
    case AckIn(l, _, _, _, _, _) => {l.address}
    case _ => {}
  }

  /** All that the client can ask for is known, and it asks for its own lease unless it has just been offered one. */
  ghost predicate AsksKnown(c: Client, known: set<seq<int>>) {
    && (forall l :: Recorded(c, l) ==> l.address in known)
    && (forall o :: o in c.offered ==> o.address in known)
    && (c.phase == Requesting ==> c.asking in known)
    && (c.phase == Renewing || c.phase == Rebooting ==> c.active.Some? && c.asking == c.active.value.address)
  }

  predicate SentKnown(ms: seq<Message>, known: set<seq<int>>) {
    forall i :: 0 <= i < |ms| && ms[i].Requests? ==> ms[i].address in known
  }

  /** The messages that were sent between `c` and `d`. */
  predicate SendsKnown(c: Client, d: Client, known: set<seq<int>>) {
    |c.sent| <= |d.sent| && d.sent[..|c.sent|] == c.sent && SentKnown(d.sent[|c.sent|..], known)
  }

  lemma SendsOne(c: Client, d: Client, ms: seq<Message>, known: set<seq<int>>)
    requires d.sent == c.sent + ms && SentKnown(ms, known)
    ensures SendsKnown(c, d, known)
  {
    assert d.sent[|c.sent|..] == ms;
  }

  lemma PicksKnown(c: Client, d: Client, l: Lease, ch: Choice, known: set<seq<int>>)
    requires AsksKnown(c, known) && Picks(c, d, l, ch) && l.address in known
    ensures AsksKnown(d, known) && SendsKnown(c, d, known)
  {
    SendsOne(c, d, if !l.isBootp then [Requests(l.address, true)]
                   else if ch.bindFails then [Declines(l.address)] + [Discovers(Wanted(d))] else [], known);
  }

  lemma StartsOverKnown(c: Client, d: Client, ms: seq<Message>, known: set<seq<int>>)
    requires AsksKnown(c, known) && StartsOver(c, d, ms) && (d.active == c.active || d.active == None)
    requires SentKnown(ms, known)
    ensures AsksKnown(d, known) && SendsKnown(c, d, known)
  {
    SendsOne(c, d, ms + [Discovers(Wanted(d))], known);
  }

  lemma PanicsKnown(cfg: Config, c: Client, d: Client, ch: Choice, known: set<seq<int>>)
    requires cfg.Ok() && AsksKnown(c, known) && Panics(cfg, c, d, ch) && KeepsAll(c, d) && c.offered == d.offered
    requires d.phase == Renewing ==> d.active.Some? && d.asking == d.active.value.address
    ensures AsksKnown(d, known) && SendsKnown(c, d, known)
  {
    var ls := Candidates(c);
    match FirstUsable(ls, c.now, ch.leaseWorks)
    case None => SendsOne(c, d, [], known);
    case Some(k) =>
      assert Recorded(c, ls[k]);
      SendsOne(c, d, if d.phase == Bound then [] else [Requests(ls[k].address, c.now > ls[k].rebind)], known);
  }

  lemma PanicAsksOwn(cfg: Config, c: Client, ch: Choice)
    requires cfg.Ok()
    ensures var d := Panic(cfg, c, ch);
            d.offered == c.offered && (d.phase == Renewing ==> d.active.Some? && d.asking == d.active.value.address)
  {
  }

  lemma TimerAsks(cfg: Config, c: Client, ch: Choice, known: set<seq<int>>)
    requires cfg.Ok() && Disciplined(c) && AsksKnown(c, known) && Enabled(cfg, c, Fire(Awaited(c), ch))
    ensures var d := Step(cfg, c, Fire(Awaited(c), ch)); AsksKnown(d, known) && SendsKnown(c, d, known)
  {
    var d := Step(cfg, c, Fire(Awaited(c), ch));
    match Awaited(c) {
      case SendDiscover =>
        DiscoverMoves(cfg, c, ch);
        if c.now <= c.firstSending + cfg.timeout {
          SendsOne(c, d, [Discovers(Wanted(c))], known);
          assert Candidates(d) == Candidates(c);
        } else {
          TimerKeeps(cfg, c, ch);
          PanicAsksOwn(cfg, CancelTimer(c, SendDiscover), ch);
          PanicsKnown(cfg, c, d, ch, known);
        }
      case StateSelecting =>
        SelectMoves(cfg, c, ch);
        PicksKnown(c, d, c.offered[0], ch, known);
      case SendRequest =>
        RequestMoves(cfg, c, ch);
        if GivesUp(cfg, c, ch) {
          StartsOverKnown(c, d, [], known);
        } else {
          if c.phase != Requesting { assert Recorded(c, c.active.value); }
          SendsOne(c, d, [Requests(c.asking, c.phase != Renewing || c.now > c.active.value.rebind)], known);
          assert Candidates(d) == Candidates(c);
        }
      case StateBound =>
        BoundMoves(cfg, c, ch);
        assert Recorded(c, c.active.value);
        if c.now > c.active.value.expiry {
          StartsOverKnown(c, d, [], known);
        } else {
          SendsOne(c, d, [Requests(c.active.value.address, c.now > c.active.value.rebind)], known);
          assert Candidates(d) == Candidates(c);
        }
      case StateInit =>
        InitMoves(cfg, c, ch);
        StartsOverKnown(c, d, [], known);
    }
  }

  lemma AckAsks(cfg: Config, c: Client, e: Event, known: set<seq<int>>)
    requires cfg.Ok() && Disciplined(c) && e.AckIn? && Enabled(cfg, c, e) && e.lease != 0
    requires AsksKnown(c, known) && e.acked.address in known
    ensures AsksKnown(Step(cfg, c, e), known) && SendsKnown(c, Step(cfg, c, e), known)
  {
    var d := Step(cfg, c, e);
    AckTakesLease(cfg, c, e);
    if !Expecting(c.phase) {
      SendsOne(c, d, [], known);
    } else if e.ch.bindFails {
      StartsOverKnown(c, d, [Declines(e.acked.address)], known);
    } else {
      AckBinds(cfg, c, e);
      SendsOne(c, d, [], known);
    }
  }

  lemma OfferAsks(cfg: Config, c: Client, l: Lease, ch: Choice, known: set<seq<int>>)
    requires cfg.Ok() && Disciplined(c) && Enabled(cfg, c, OfferIn(l, ch))
    requires AsksKnown(c, known) && l.address in known
    ensures var d := Step(cfg, c, OfferIn(l, ch)); AsksKnown(d, known) && SendsKnown(c, d, known)
  {
    var d := Step(cfg, c, OfferIn(l, ch));
    OfferMoves(cfg, c, l, ch);
    var c1 := c.(offered := Ranked(c, l));
    assert forall o :: o in Ranked(c, l) ==> o in c.offered || o == l;
    if c.phase != Selecting || (exists o :: o in c.offered && o.address == l.address) {
      SendsOne(c, d, [], known);
    } else if c.now < c.firstSending + cfg.selectInterval {
      SendsOne(c, d, [], known);
      assert Candidates(d) == Candidates(c);
    } else {
      assert AsksKnown(c1, known) && Picks(c1, d, Ranked(c, l)[0], ch);
      PicksKnown(c1, d, Ranked(c, l)[0], ch, known);
    }
  }

  lemma StepAsks(cfg: Config, c: Client, e: Event, known: set<seq<int>>)
    requires cfg.Ok() && Disciplined(c) && Enabled(cfg, c, e) && Timed(c, e) && AsksKnown(c, known)
    ensures AsksKnown(Step(cfg, c, e), known + Given(e)) && SendsKnown(c, Step(cfg, c, e), known + Given(e))
  {
    var more := known + Given(e);
    var d := Step(cfg, c, e);
    assert AsksKnown(c, more);
    match e {
      case Tick(_) =>
        SendsOne(c, d, [], more);
        assert Candidates(d) == Candidates(c);
      case OfferIn(l, ch) => OfferAsks(cfg, c, l, ch, more);
      case AckIn(_, _, _, _, _, _) =>
        if Expecting(c.phase) { AckAsks(cfg, c, e, more); } else { SendsOne(c, d, [], more); }
      case NakIn(_) =>
        NakTakesLease(cfg, c, e);
        if d == c { SendsOne(c, d, [], more); } else { StartsOverKnown(c, d, [], more); }
      case Fire(k, ch) =>
        assert k == Awaited(c);
        TimerAsks(cfg, c, ch, more);
    }
  }

  function RunGiven(es: seq<Event>): set<seq<int>> {
    if es == [] then {} else Given(es[0]) + RunGiven(es[1..])
  }

  lemma SendsOn(c: Client, d: Client, f: Client, known: set<seq<int>>, more: set<seq<int>>)
    requires SendsKnown(c, d, known) && SendsKnown(d, f, more) && known <= more
    ensures SendsKnown(c, f, more)
  {
    assert f.sent[|c.sent|..] == d.sent[|c.sent|..] + f.sent[|d.sent|..];
  }

  /** In every run, a DHCPREQUEST asks for an address that the client had a lease for or that it was told about. */
  lemma {:induction false} RunAsks(cfg: Config, c: Client, es: seq<Event>, known: set<seq<int>>)
    requires cfg.Ok() && Disciplined(c) && IsRun(cfg, c, es) && AsksKnown(c, known)
    ensures var d := After(cfg, c, es);
            AsksKnown(d, known + RunGiven(es)) && SendsKnown(c, d, known + RunGiven(es))
    decreases |es|
  {
    if es != [] {
      StepDisciplined(cfg, c, es[0]);
      StepAsks(cfg, c, es[0], known);
      var d := Step(cfg, c, es[0]);
      RunAsks(cfg, d, es[1..], known + Given(es[0]));
      assert known + RunGiven(es) == known + Given(es[0]) + RunGiven(es[1..]);
      SendsOn(c, d, After(cfg, c, es), known + Given(es[0]), known + RunGiven(es));
    } else {
      assert known + RunGiven(es) == known;
      SendsOne(c, c, [], known);
    }
  }

  // ----- how long a client waits, and how long it tries

  /** The client waits for `wait`, or until one second after `end` if that comes first. */
  predicate WaitsUntil(c: Client, d: Client, k: Timer, wait: int, end: int) {
    && k in d.timers && d.timers[k] == Deadline(c.now, c.now + d.interval)
    && c.now + d.interval == if c.now + wait <= end then c.now + wait else end + 1
  }

  /** The next interval is up to three times as long, within the cutoff, or it is around the cutoff. */
  predicate BacksOff(cfg: Config, interval: int, wait: int) {
    || (interval <= wait < 3 * interval && wait <= cfg.backoffCutoff)
    || (cfg.backoffCutoff < 3 * interval
        && cfg.backoffCutoff / 2 <= wait < cfg.backoffCutoff / 2 + cfg.backoffCutoff)
  }

  lemma BackoffIs(cfg: Config, interval: int, r1: nat, r2: nat)
    requires cfg.Ok() && interval > 0
    ensures BacksOff(cfg, interval, Backoff(cfg, interval, r1, r2))
  {
    BackoffBounded(cfg, interval, r1, r2);
    assert 0 <= r1 % (2 * interval) < 2 * interval;
  }

  /** After a DHCPDISCOVER on the same medium the client backs off, but not past the timeout. */
  lemma DiscoverWaits(cfg: Config, c: Client, ch: Choice) returns (wait: int)
    requires cfg.Ok() && c.interval >= 0
    ensures WaitsUntil(c, Discover(cfg, c, ch), SendDiscover, wait, c.firstSending + cfg.timeout)
    ensures if c.interval == 0 then
              ch.nextMedium || cfg.initialInterval <= cfg.backoffCutoff ==> wait == cfg.initialInterval
            else if ch.nextMedium then wait == c.interval
            else BacksOff(cfg, c.interval, wait)
  {
    wait := if !ch.nextMedium then Backoff(cfg, c.interval, ch.r1, ch.r2)
            else if c.interval == 0 then cfg.initialInterval else c.interval;
    if c.interval > 0 { BackoffIs(cfg, c.interval, ch.r1, ch.r2); }
  }

  /** After a DHCPREQUEST it backs off too, but not past the end of its lease. */
  lemma RequestWaits(cfg: Config, c: Client, ch: Choice) returns (wait: int)
    requires cfg.Ok() && c.interval > 0 && (c.phase != Requesting ==> c.active.Some?)
    ensures WaitsUntil(c, Retransmit(cfg, c, ch), SendRequest, wait,
                       if c.phase == Requesting then c.now + wait else c.active.value.expiry)
    ensures BacksOff(cfg, c.interval, wait)
  {
    wait := Backoff(cfg, c.interval, ch.r1 / 4, ch.r2 / 4);
    BackoffIs(cfg, c.interval, ch.r1 / 4, ch.r2 / 4);
  }

  /** A client that starts over begins with the initial interval, counted from now. */
  lemma FirstDiscoverWaits(cfg: Config, c: Client, ch: Choice) returns (wait: int)
    requires cfg.Ok() && cfg.initialInterval > 0
    ensures WaitsUntil(c, InitState(cfg, c, ch), SendDiscover, wait, c.now + cfg.timeout)
    ensures if ch.nextMedium then wait == cfg.initialInterval else BacksOff(cfg, cfg.initialInterval, wait)
  {
    wait := DiscoverWaits(cfg, c.(phase := Selecting, firstSending := c.now, interval := cfg.initialInterval), ch);
  }

  /** So does one that renews its lease. */
  lemma FirstRequestWaits(cfg: Config, c: Client, ch: Choice) returns (wait: int)
    requires cfg.Ok() && cfg.initialInterval > 0 && Disciplined(c) && c.phase == Bound
    requires Enabled(cfg, c, Fire(StateBound, ch)) && c.now <= c.active.value.expiry
    ensures WaitsUntil(c, Step(cfg, c, Fire(StateBound, ch)), SendRequest, wait, c.active.value.expiry)
    ensures BacksOff(cfg, cfg.initialInterval, wait)
  {
    var c' := Asking(cfg, CancelTimer(c, StateBound), Renewing, Wanted(c));
    wait := RequestWaits(cfg, c', ch);
    assert Step(cfg, c, Fire(StateBound, ch)) == Retransmit(cfg, c', ch);
  }

  /** The longest retransmission interval. */
  function Longest(cfg: Config): int { cfg.backoffCutoff / 2 + cfg.backoffCutoff }

  /** How long after first_sending the client is in its state at most. */
  function Limit(cfg: Config, c: Client): int {
    if c.phase == Selecting then (if c.offered == [] then cfg.timeout + 1 else cfg.selectInterval)
    else cfg.rebootTimeout + Longest(cfg)
  }

  /** The next timer of a client without a lease comes before that limit. */
  predicate Limited(cfg: Config, c: Client)
    requires Disciplined(c)
  {
    c.phase == Selecting || c.phase == Requesting || c.phase == Rebooting ==>
      c.timers[Awaited(c)] <= c.firstSending + Limit(cfg, c)
  }

  lemma InitLimited(cfg: Config, c: Client, ch: Choice)
    requires cfg.Ok() && c.offered == [] && c.timers == map[]
    ensures Disciplined(InitState(cfg, c, ch)) && Limited(cfg, InitState(cfg, c, ch))
  {
    InitStateDisciplined(cfg, c, ch);
  }

  lemma RequestLimited(cfg: Config, c: Client, ch: Choice)
    requires cfg.Ok() && c.offered == [] && c.timers == map[] && c.interval >= 0 && c.firstSending <= c.now
    requires Expecting(c.phase) && HasActive(c)
    ensures Disciplined(Request(cfg, c, ch)) && Limited(cfg, Request(cfg, c, ch))
  {
    RequestDisciplined(cfg, c, ch);
    assert c.timers - {SendRequest} == c.timers;
    if c.interval >= 0 { BackoffAtMost(cfg, c.interval, ch.r1 / 4, ch.r2 / 4); }
  }

  lemma BackoffAtMost(cfg: Config, interval: int, r1: nat, r2: nat)
    requires cfg.Ok() && interval >= 0
    ensures Backoff(cfg, interval, r1, r2) <= Longest(cfg)
  {
    assert 0 <= r2 % cfg.backoffCutoff < cfg.backoffCutoff;
  }

  lemma SelectLimited(cfg: Config, c: Client, ch: Choice)
    requires cfg.Ok() && c.interval >= 0 && c.firstSending <= c.now && c.phase == Selecting
    requires c.timers.Keys <= {SendDiscover, StateSelecting}
    ensures Disciplined(Select(cfg, c, ch)) && Limited(cfg, Select(cfg, c, ch))
  {
    SelectDisciplined(cfg, c, ch);
    var c1 := CancelTimer(CancelTimer(c, StateSelecting), SendDiscover).(offered := []);
    assert c1.timers == map[];
    if c.offered == [] {
      InitLimited(cfg, c1, ch);
    } else if !c.offered[0].isBootp {
      RequestLimited(cfg, Asking(cfg, c1, Requesting, c.offered[0].address), ch);
    } else if ch.bindFails {
      InitLimited(cfg, c1.(phase := Requesting, sent := c1.sent + [Declines(c.offered[0].address)]), ch);
    }
  }

  lemma TimerLimited(cfg: Config, c: Client, ch: Choice)
    requires cfg.Ok() && Disciplined(c)
    ensures var d := OnTimer(cfg, c, Awaited(c), ch); Disciplined(d) && Limited(cfg, d)
  {
    TimerDisciplined(cfg, c, ch);
    var c' := CancelTimer(c, Awaited(c));
    assert c'.timers == map[];
    match Awaited(c) {
      case SendDiscover =>
        if c.now - c.firstSending > cfg.timeout {
          PanicMoves(cfg, c', ch);
        }
      case StateSelecting => SelectLimited(cfg, c', ch);
      case SendRequest => RequestLimited(cfg, c', ch);
      case StateBound => RequestLimited(cfg, Asking(cfg, c', Renewing, Wanted(c)), ch);
      case StateInit => InitLimited(cfg, c', ch);
    }
  }

  lemma StepLimited(cfg: Config, c: Client, e: Event)
    requires cfg.Ok() && Disciplined(c) && Limited(cfg, c) && Enabled(cfg, c, e) && Timed(c, e)
    ensures Disciplined(Step(cfg, c, e)) && Limited(cfg, Step(cfg, c, e))
  {
    StepDisciplined(cfg, c, e);
    match e {
      case Tick(_) =>
      case Fire(k, ch) =>
        assert k == Awaited(c);
        TimerLimited(cfg, c, ch);
      case OfferIn(l, ch) =>
        OfferMoves(cfg, c, l, ch);
        if c.phase == Selecting && c.firstSending + cfg.selectInterval <= c.now {
          SelectLimited(cfg, c.(offered := Ranked(c, l)), ch);
        }
      case AckIn(l, _, _, _, _, ch) =>
        if Expecting(c.phase) && ch.bindFails {
          var c1 := CancelTimer(c, SendRequest);
          assert c1.timers == map[];
          InitLimited(cfg, c1.(sent := c1.sent + [Declines(l.address)]), ch);
        }
      case NakIn(ch) =>
        if Expecting(c.phase) && c.active.Some? {
          var c1 := CancelTimer(c.(active := None), SendRequest);
          assert c1.timers == map[];
          InitLimited(cfg, c1, ch);
        }
    }
  }

  /** In every run, the client looks for offers, chooses among them and waits for an answer for a limited time only. */
  lemma {:induction false} RunLimited(cfg: Config, c: Client, es: seq<Event>)
    requires cfg.Ok() && Disciplined(c) && Limited(cfg, c) && IsRun(cfg, c, es)
    ensures var d := After(cfg, c, es);
            d.phase == Selecting || d.phase == Requesting || d.phase == Rebooting ==>
              d.now <= d.firstSending + Limit(cfg, d)
    decreases |es|
  {
    if es != [] {
      StepLimited(cfg, c, es[0]);
      RunLimited(cfg, Step(cfg, c, es[0]), es[1..]);
    }
  }

  lemma RebootLimited(cfg: Config, c: Client, ch: Choice)
    requires cfg.Ok() && Fresh(c)
    ensures Disciplined(Reboot(cfg, c, ch)) && Limited(cfg, Reboot(cfg, c, ch))
  {
    if c.active.Some? && !c.active.value.isBootp && c.active.value.expiry > c.now {
      RequestLimited(cfg, Asking(cfg, c.(mediumSet := false), Rebooting, Wanted(c)), ch);
    } else {
      InitLimited(cfg, c, ch);
    }
  }

  /** How a client starts: it asks for its lease exactly if that is a DHCP lease and has not expired. */
  lemma RebootMoves(cfg: Config, c: Client, ch: Choice)
    requires cfg.Ok() && Fresh(c)
    ensures var d := Reboot(cfg, c, ch);
            && d.active == c.active
            && (d.phase == Rebooting ==> c.active.Some? && d.sent == c.sent + [Requests(c.active.value.address, true)])
            && (d.phase == Rebooting <==>
                  && c.active.Some? && !c.active.value.isBootp && c.now < c.active.value.expiry
                  && !(c.active.value.hasMedium && ch.mediumFails))
            && (d.phase != Rebooting ==> StartsOver(c, d, []))
  {
  }

  // ----- which offer is picked

  /** The offers are for different addresses, and if one is for the address of the active lease it comes first. */
  predicate WellRanked(c: Client) {
    && (forall i, j :: 0 <= i < j < |c.offered| ==> c.offered[i].address != c.offered[j].address)
    && (forall i :: 0 < i < |c.offered| ==> c.offered[i].address != Wanted(c))
  }

  /** The list is empty after a step, or it is the same as before, or an offer has been added to it. */
  lemma OffersAfter(cfg: Config, c: Client, e: Event)
    requires cfg.Ok() && Disciplined(c) && Enabled(cfg, c, e) && Timed(c, e)
    ensures var d := Step(cfg, c, e);
            || d.offered == []
            || (d.offered == c.offered && d.active == c.active)
            || (e.OfferIn? && d.active == c.active && d.offered == Ranked(c, e.offer)
                && forall o :: o in c.offered ==> o.address != e.offer.address)
  {
    match e {
      case Tick(_) =>
      case OfferIn(l, ch) => OfferMoves(cfg, c, l, ch);
      case AckIn(_, _, _, _, _, _) =>
      case NakIn(_) => NakTakesLease(cfg, c, e);
      case Fire(k, ch) =>
        assert k == Awaited(c);
        if c.offered != [] {
          SelectMoves(cfg, c, ch);
        } else if k == SendDiscover {
          PanicAsksOwn(cfg, CancelTimer(c, SendDiscover), ch);
        }
    }
  }

  /** In every run, an offer of the address that the client had is picked before any other (SelectMoves). */
  lemma {:induction false} RunRanks(cfg: Config, c: Client, es: seq<Event>)
    requires cfg.Ok() && Disciplined(c) && WellRanked(c) && IsRun(cfg, c, es)
    ensures WellRanked(After(cfg, c, es))
    decreases |es|
  {
    if es != [] {
      StepDisciplined(cfg, c, es[0]);
      OffersAfter(cfg, c, es[0]);
      RunRanks(cfg, Step(cfg, c, es[0]), es[1..]);
    }
  }

  /** Otherwise it is the one that came first: a later offer does not change which one is picked. */
  lemma FirstStays(cfg: Config, c: Client, l: Lease, ch: Choice)
    requires cfg.Ok() && Disciplined(c) && Enabled(cfg, c, OfferIn(l, ch)) && c.offered != []
    ensures var d := Step(cfg, c, OfferIn(l, ch));
            d.offered != [] ==>
              d.offered[0] == if l.address == Wanted(c) && d != c then l else c.offered[0]
  {
    OfferMoves(cfg, c, l, ch);
  }
}
