/** The handlers of client/dhclient.c as they change a client's state in place, against the state machine. */
module Dhclient {
  import opened Common
  import opened Dhcp4
  import opened LeaseTimes
  import opened LeaseRotation

  class ClientState {
    const cfg: Config
    const recorded: LeaseList
    var phase: Phase
    var offered: seq<Lease>
    var timers: map<Timer, int>
    var now: int
    var firstSending: int
    var interval: int
    var mediumSet: bool
    var asking: seq<int>
    var sent: seq<Message>

    /** The objects that the handlers may change. */
    ghost var repr: set<object>

    ghost predicate Valid()
      reads this`interval, this`repr, recorded, recorded.list, recorded.active
    {
      && cfg.Ok() && interval >= 0 && recorded.Valid()
      && this in repr && recorded in repr && forall n :: n in recorded.Order() ==> n in repr
    }

    /** The state as a value. */
    ghost function State(): Client
      reads this, recorded
    {
      Client(phase, recorded.Active(), offered, LeasesOf(recorded.list), timers, now, firstSending, interval, mediumSet,
             asking, sent)
    }

    constructor (cfg: Config, now: int)
      requires cfg.Ok()
      ensures Valid() && fresh(repr) && Fresh(State()) && State().active == None && State().leases == []
      ensures this.cfg == cfg && this.now == now
    {
      this.cfg := cfg;
      recorded := new LeaseList();
      repr := {this, recorded};
      phase, offered, timers, this.now, firstSending, interval, mediumSet := Init, [], map[], now, now, 0, false;
      asking, sent := [], [];
    }

    method AddTimeout(k: Timer, when: int)
      modifies this`timers
      ensures State() == AddTimer(old(State()), k, when)
    {
      timers := timers[k := Deadline(now, when)];
    }

    method CancelTimeout(k: Timer)
      modifies this`timers
      ensures State() == CancelTimer(old(State()), k)
    {
      timers := timers - {k};
    }

    /** The exponential backoff with its cutoff. */
    method BackOff(r1: nat, r2: nat)
      requires Valid()
      modifies this`interval
      ensures interval == Backoff(cfg, old(interval), r1, r2)
      ensures old(interval) > 0 ==>
                || (old(interval) <= interval < 3 * old(interval) && interval <= cfg.backoffCutoff)
                || cfg.backoffCutoff / 2 <= interval < cfg.backoffCutoff / 2 + cfg.backoffCutoff
    {
      if interval > 0 { BackoffBounded(cfg, interval, r1, r2); }
      if interval == 0 {
        interval := cfg.initialInterval;
      } else {
        interval := interval + r1 % (2 * interval);
      }
      if interval > cfg.backoffCutoff {
        interval := cfg.backoffCutoff / 2 + r2 % cfg.backoffCutoff;
      }
    }

    /** send_discover once it is clear that the panic timeout has not passed. */
    method Transmit(ch: Choice)
      requires Valid() && now - firstSending <= cfg.timeout
      modifies this`interval, this`timers, this`sent
      ensures Valid() && State() == Discover(cfg, old(State()), ch)
    {
      if !ch.nextMedium {
        BackOff(ch.r1, ch.r2);
      } else if interval == 0 {
        interval := cfg.initialInterval;
      }
      if now + interval > firstSending + cfg.timeout {
        interval := firstSending + cfg.timeout - now + 1;
      }
      sent := sent + [Discovers(if recorded.active != null then recorded.active.lease.address else [])];
      AddTimeout(Timer.SendDiscover, now + interval);
    }

    method SendDiscover(ch: Choice)
      requires Valid()
      modifies repr
      ensures Valid() && repr == old(repr) && State() == DiscoverOrPanic(cfg, old(State()), ch)
      decreases if now - firstSending > cfg.timeout then 5 else 0
    {
      if now - firstSending > cfg.timeout {
        StatePanic(ch);
      } else {
        Transmit(ch);
      }
    }

    /** Goes through the recorded leases until one can be used. */
    method TryRecorded(works: set<Lease>) returns (found: bool)
      requires Valid()
      modifies repr
      ensures Valid() && repr == old(repr)
      ensures var k := FirstUsable(Candidates(old(State())), now, works);
              found == k.Some? && State() == Rotated(old(State()), k)
    {
      found := recorded.Rotate(now, works, State());
    }

    method StatePanic(ch: Choice)
      requires Valid()
      modifies repr
      ensures Valid() && repr == old(repr) && State() == Panic(cfg, old(State()), ch)
      decreases 4
    {
      var found := TryRecorded(ch.leaseWorks);
      if found {
        UseRecorded(ch);
      } else {
        phase := Init;
        AddTimeout(Timer.StateInit, now + (cfg.retryInterval + 1) / 2 + ch.r1 % cfg.retryInterval);
      }
    }

    method UseRecorded(ch: Choice)
      requires Valid() && recorded.active != null
      modifies repr
      ensures Valid() && repr == old(repr) && State() == Resume(cfg, old(State()), ch)
      decreases 3, 1
    {
      phase := Bound;
      if now < recorded.active.lease.renewal {
        AddTimeout(Timer.StateBound, recorded.active.lease.renewal);
      } else {
        StateBound(ch);
      }
    }

    method StateBound(ch: Choice)
      requires Valid() && recorded.active != null
      modifies repr
      ensures Valid() && repr == old(repr) && State() == BoundState(cfg, old(State()), ch)
      decreases 3, 0
    {
      asking := recorded.active.lease.address;
      firstSending := now;
      interval := cfg.initialInterval;
      phase := Renewing;
      SendRequest(ch);
    }

    /** The part of send_request that sends, with the backoff cut short at the end of the lease. */
    method Resend(ch: Choice)
      requires Valid() && (phase != Requesting ==> recorded.active != null && now <= recorded.active.lease.expiry)
      modifies this`interval, this`timers, this`sent
      ensures Valid() && State() == Retransmit(cfg, old(State()), ch)
    {
      BackOff(ch.r1 / 4, ch.r2 / 4);
      if phase != Requesting && now + interval > recorded.active.lease.expiry {
        interval := recorded.active.lease.expiry - now + 1;
      }
      var broadcast := phase == Requesting || phase == Rebooting || now > recorded.active.lease.rebind;
      sent := sent + [Requests(asking, broadcast)];
      AddTimeout(Timer.SendRequest, now + interval);
    }

    method SendRequest(ch: Choice)
      requires Valid() && (phase != Requesting ==> recorded.active != null)
      modifies repr
      ensures Valid() && repr == old(repr) && State() == Request(cfg, old(State()), ch)
      decreases 2
    {
      var cancel := (phase == Rebooting || phase == Requesting) && now - firstSending > cfg.rebootTimeout;
      if !cancel && phase == Rebooting && !mediumSet && recorded.active.lease.hasMedium {
        cancel := ch.mediumFails;
        mediumSet := !ch.mediumFails;
      }
      if cancel {
        phase := Init;
        CancelTimeout(Timer.SendRequest);
        StateInit(ch);
      } else if phase != Requesting && now > recorded.active.lease.expiry {
        phase := Init;
        StateInit(ch);
      } else {
        Resend(ch);
      }
    }

    method StateInit(ch: Choice)
      requires Valid()
      modifies repr
      ensures Valid() && repr == old(repr) && State() == InitState(cfg, old(State()), ch)
      decreases 1
    {
      phase := Selecting;
      firstSending := now;
      interval := cfg.initialInterval;
      SendDiscover(ch);
    }

    method BindLease(lease: Lease, ch: Choice)
      requires Valid()
      modifies repr
      ensures Valid() && fresh(repr - old(repr)) && State() == Bind(cfg, old(State()), lease, ch)
    {
      if ch.bindFails {
        sent := sent + [Declines(lease.address)];
        StateInit(ch);
        return;
      }
      recorded.SetActive(lease);
      repr := repr + {recorded.active};
      AddTimeout(Timer.StateBound, lease.renewal);
      phase := Bound;
    }

    /** The first offer is picked and the others are thrown away. */
    method PickOffer() returns (picked: Option<Lease>)
      modifies this`timers, this`offered
      ensures State() == CancelTimer(CancelTimer(old(State()), Timer.StateSelecting),
          Timer.SendDiscover).(offered := [])
      ensures picked == if old(offered) == [] then None else Some(old(offered[0]))
    {
      CancelTimeout(Timer.StateSelecting);
      CancelTimeout(Timer.SendDiscover);
      picked := if offered == [] then None else Some(offered[0]);
      offered := [];
    }

    method TakeOffer(lease: Lease, ch: Choice)
      requires Valid()
      modifies repr
      ensures Valid() && fresh(repr - old(repr)) && State() == Take(cfg, old(State()), lease, ch)
    {
      phase := Requesting;
      if lease.isBootp {
        BindLease(lease.(expiry := now + 12000, renewal := lease.renewal + now + 8000,
                         rebind := lease.rebind + now + 10000), ch);
      } else {
        firstSending := now;
        interval := cfg.initialInterval;
        asking := lease.address;
        SendRequest(ch);
      }
    }

    method StateSelecting(ch: Choice)
      requires Valid()
      modifies repr
      ensures Valid() && fresh(repr - old(repr)) && State() == Select(cfg, old(State()), ch)
    {
      var picked := PickOffer();
      match picked {
        case None =>
          phase := Init;
          StateInit(ch);
        case Some(lease) =>
          TakeOffer(lease, ch);
      }
    }

    /** An offer of this address has been recorded. */
    method AlreadySeen(address: seq<int>) returns (seen: bool)
      ensures seen <==> exists o :: o in offered && o.address == address
    {
      for i := 0 to |offered|
        invariant forall j :: 0 <= j < i ==> offered[j].address != address
      {
        if offered[i].address == address { return true; }
      }
      return false;
    }

    /** The offer goes on the list, in front if it is what the client asked for. */
    method RankOffer(lease: Lease)
      modifies this`offered
      ensures State() == old(State()).(offered := Ranked(old(State()), lease))
    {
      if lease.address == if recorded.active != null then recorded.active.lease.address else [] {
        offered := [lease] + offered;
      } else {
        offered := offered + [lease];
      }
    }

    method DhcpOffer(lease: Lease, ch: Choice)
      requires Valid()
      modifies repr
      ensures Valid() && fresh(repr - old(repr)) && State() == Offer(cfg, old(State()), lease, ch)
    {
      if phase != Selecting { return; }
      var seen := AlreadySeen(lease.address);
      if seen { return; }
      var stop := firstSending + cfg.selectInterval;
      RankOffer(lease);
      if stop <= now {
        StateSelecting(ch);
      } else {
        AddTimeout(Timer.StateSelecting, stop);
        CancelTimeout(Timer.SendDiscover);
      }
    }

    method DhcpAck(lease: Lease, length: nat, t1: nat, t2: nat, random: nat, ch: Choice)
      requires Valid() && OnWire(length) && OnWire(t1) && OnWire(t2)
      modifies repr
      ensures Valid() && fresh(repr - old(repr))
      ensures State() == Ack(cfg, old(State()), lease, length, t1, t2, random, ch)
    {
      if !Expecting(phase) { return; }
      CancelTimeout(Timer.SendRequest);
      if length == 0 {
        AddTimeout(Timer.StateInit, now);
        return;
      }
      var t := ComputeTimes(cfg.width, now, length, t1, t2, random);
      BindLease(lease.(expiry := t.expiry, renewal := t.renewal, rebind := t.rebind), ch);
    }

    method DhcpNak(ch: Choice)
      requires Valid()
      modifies repr
      ensures Valid() && fresh(repr - old(repr)) && State() == Nak(cfg, old(State()), ch)
      ensures old(Expecting(phase)) ==> recorded.active == null
    {
      if !Expecting(phase) || recorded.active == null { return; }
      recorded.DropActive();
      CancelTimeout(Timer.SendRequest);
      phase := Init;
      StateInit(ch);
    }

    method StateReboot(ch: Choice)
      requires Valid()
      modifies repr
      ensures Valid() && repr == old(repr) && State() == Reboot(cfg, old(State()), ch)
    {
      if recorded.active == null || recorded.active.lease.isBootp || recorded.active.lease.expiry <= now {
        StateInit(ch);
        return;
      }
      phase := Rebooting;
      asking := recorded.active.lease.address;
      firstSending := now;
      interval := cfg.initialInterval;
      mediumSet := false;
      SendRequest(ch);
    }

    /** The dispatch of one event: timers are taken off the queue before their function is called. */
    method Handle(e: Event)
      requires Valid() && Disciplined(State()) && Enabled(cfg, State(), e)
      modifies repr
      ensures Valid() && fresh(repr - old(repr)) && State() == Step(cfg, old(State()), e)
      ensures Timed(old(State()), e) ==> Disciplined(State())
      ensures old(Safe(State())) && Proper(cfg, old(State()), e) ==> Safe(State())
    {
      ghost var was := State();
      Dispatch(e);
      if Timed(was, e) { StepDisciplined(cfg, was, e); }
      if Safe(was) && Proper(cfg, was, e) { StepInTime(cfg, was, e); }
    }

    method Dispatch(e: Event)
      requires Valid() && Disciplined(State()) && Enabled(cfg, State(), e)
      modifies repr
      ensures Valid() && fresh(repr - old(repr)) && State() == Step(cfg, old(State()), e)
    {
      match e {
        case Tick(t) => now := t;
        case OfferIn(l, ch) => DhcpOffer(l, ch);
        case AckIn(l, length, t1, t2, random, ch) => DhcpAck(l, length, t1, t2, random, ch);
        case NakIn(ch) => DhcpNak(ch);
        case Fire(k, ch) =>
          CancelTimeout(k);
          match k {
            case SendDiscover => SendDiscover(ch);
            case StateSelecting => StateSelecting(ch);
            case SendRequest => SendRequest(ch);
            case StateBound => StateBound(ch);
            case StateInit => StateInit(ch);
          }
      }
    }

    /** The events of a run, one after the other. */
    method Run(es: seq<Event>)
      requires Valid() && Disciplined(State()) && IsRun(cfg, State(), es)
      modifies repr
      ensures Valid() && fresh(repr - old(repr)) && Disciplined(State()) && State() == After(cfg, old(State()), es)
    {
      for i := 0 to |es|
        invariant Valid() && fresh(repr - old(repr)) && Disciplined(State())
        invariant IsRun(cfg, State(), es[i..]) && After(cfg, State(), es[i..]) == After(cfg, old(State()), es)
      {
        assert es[i..][0] == es[i] && es[i..][1..] == es[i + 1..];
        Handle(es[i]);
      }
    }

    /**
     * A whole life of a client: state_reboot, then any events. In the end exactly the awaited timer is pending, and
     * with proper servers no lease is in use more than a second past its end.
     */
    method Live(start: Choice, es: seq<Event>)
      requires Valid() && Fresh(State()) && IsLife(cfg, State(), start, es)
      modifies repr
      ensures Valid() && State() == Life(cfg, old(State()), start, es) && Disciplined(State())
      ensures old(AllOrderly(State()) && IsProperLife(cfg, State(), start, es)) && Using(phase) ==>
                recorded.active != null && now <= recorded.active.lease.expiry + 1
    {
      LifeInTime(cfg, State(), start, es);
      StateReboot(start);
      Run(es);
    }
  }
}
