/** The life of DDNS control blocks in the client (client/dhclient.c, common/dns.c). */
module DdnsBlocks {
  import opened Common

  /** The results that the code tells apart. */
  datatype Code = Success | YxRrset | TimedOut | Canceled | BadZone | Failure

  datatype Stage = AddNxDomain | AddYxDhcid | RemYxDhcid | RemNxRr

  datatype Block = Block(lease: Option<nat>, abort: bool, stage: Stage, timeout: nat) {
    /** The block belongs to a removal, and its cur_func is client_dns_remove_action. */
    predicate Removal() { stage.RemYxDhcid? || stage.RemNxRr? }
  }

  /** All blocks ever allocated, the pending timers, the transactions in flight, the calls of ddns_cb_free, and
   *  the ddns_cb pointers of the clients that have one. */
  datatype World = World(blocks: map<nat, Block>, timers: set<nat>, flight: set<nat>, freed: multiset<nat>,
                         holds: map<nat, nat>)

  // ----- the steps

  /** ddns_cancel: the block is marked and forgets its client; a transaction will still complete. */
  function Cancel(w: World, b: nat): World
    requires b in w.blocks
  {
    w.(blocks := w.blocks[b := w.blocks[b].(abort := true, lease := None)])
  }

  /** What Schedule and Remove do about the client's old block. */
  function Forget(w: World, c: nat): World
    requires c in w.holds ==> w.holds[c] in w.blocks
  {
    if c in w.holds then Cancel(w, w.holds[c]).(holds := w.holds - {c}) else w
  }

  /** ddns_cb_free. */
  function RawFree(w: World, b: nat): World {
    w.(freed := w.freed + multiset{b})
  }

  /** dhclient_ddns_cb_free. */
  function Free(w: World, b: nat): World
    requires b in w.blocks
  {
    var l := w.blocks[b].lease;
    RawFree(if l.Some? then w.(holds := w.holds - {l.value}) else w, b)
  }

  /** ddns_modify_fwd with result `m`: on success a transaction is under way. */
  function Modify(w: World, b: nat, m: Code): World {
    if m == Success then w.(flight := w.flight + {b}) else w
  }

  /** What one step leaves open: whether an update is wanted, and the results of ddns_modify_fwd. */
  datatype Choice = Choice(wanted: bool, named: bool, first: Code, again: Code)

  /** client_dns_update: its result, which is TimedOut when the update has been started. */
  function UpdateResult(ch: Choice): Code {
    if !ch.wanted then Success
    else if !ch.named then Failure
    else if ch.first == Success then TimedOut else ch.first
  }

  function Update(w: World, b: nat, ch: Choice): World {
    if ch.wanted && ch.named then Modify(w, b, ch.first) else w
  }

  function FreeUnlessStarted(w: World, b: nat, result: Code): World
    requires b in w.blocks
  {
    if result != TimedOut then Free(w, b) else w
  }

  /** A new block for client `c`, with its first timer. */
  function Record(v: World, c: nat, b: nat): World {
    v.(blocks := v.blocks[b := Block(Some(c), false, AddNxDomain, 1)], holds := v.holds[c := b],
        timers := v.timers + {b})
  }

  /** dhclient_schedule_updates with a new block `b`, unless there is no memory for it. */
  function Schedule(w: World, c: nat, b: nat, memory: bool): World
    requires c in w.holds ==> w.holds[c] in w.blocks
  {
    if memory then Record(Forget(w, c), c, b) else Forget(w, c)
  }

  /** client_dns_remove: the block is not recorded in the client. */
  function Remove(w: World, c: nat, b: nat, memory: bool, ch: Choice): World
    requires c in w.holds ==> w.holds[c] in w.blocks
  {
    var v := Forget(w, c);
    if !memory then v
    else
      var u := v.(blocks := v.blocks[b := Block(None, false, RemYxDhcid, 0)]);
      FreeUnlessStarted(Update(u, b, ch), b, UpdateResult(ch))
  }

  /** client_dns_update_timeout, called by the timer of block `b`. */
  function TimerFires(w: World, b: nat, hasLease: bool, ch: Choice): World
    requires b in w.blocks
  {
    var v := w.(timers := w.timers - {b});
    if v.blocks[b].lease.Some? && hasLease then FreeUnlessStarted(Update(v, b, ch), b, UpdateResult(ch))
    else Free(v, b)
  }

  /** client_dns_remove_action. */
  function RemoveAction(w: World, b: nat, e: Code, m: Code): World
    requires b in w.blocks
  {
    if e == Success && w.blocks[b].stage == RemYxDhcid then
      var v := Modify(w.(blocks := w.blocks[b := w.blocks[b].(stage := RemNxRr)]), b, m);
      if m == Success then v else Free(v, b)
    else Free(w, b)
  }

  /** client_dns_update_action. */
  function UpdateAction(w: World, b: nat, e: Code, m: Code): World
    requires b in w.blocks
  {
    var blk := w.blocks[b];
    if e == YxRrset && blk.stage == AddNxDomain then
      var v := Modify(w.(blocks := w.blocks[b := blk.(stage := AddYxDhcid)]), b, m);
      if m == Success then v else Free(v, b)
    else if e == TimedOut then
      var t := if blk.timeout < 3600 then blk.timeout * 10 else blk.timeout;
      w.(blocks := w.blocks[b := blk.(stage := AddNxDomain, timeout := t)], timers := w.timers + {b})
    else Free(w, b)
  }

  function CurFunc(w: World, b: nat, e: Code, m: Code): World
    requires b in w.blocks
  {
    if w.blocks[b].Removal() then RemoveAction(w, b, e, m) else UpdateAction(w, b, e, m)
  }

  /** ddns_interlude, when the transaction of block `b` completes with `e`. */
  function Completes(w: World, b: nat, e: Code, ch: Choice): World
    requires b in w.blocks
  {
    var v := w.(flight := w.flight - {b});
    if v.blocks[b].abort then RawFree(v, b)
    else if e == BadZone then
      if ch.first == Success then Modify(v, b, Success) else CurFunc(v, b, ch.first, ch.again)
    else CurFunc(v, b, e, ch.again)
  }

  datatype Event =
    | ScheduleEvent(c: nat, b: nat, memory: bool)
    | RemoveEvent(c: nat, b: nat, memory: bool, ch: Choice)
    | TimerEvent(b: nat, hasLease: bool, ch: Choice)
    | CompleteEvent(b: nat, e: Code, ch: Choice)

  /** New blocks are new, only pending timers go off, only transactions in flight complete. */
  predicate Enabled(w: World, e: Event) {
    match e
    case ScheduleEvent(_, b, _) => b !in w.blocks
    case RemoveEvent(_, b, _, _) => b !in w.blocks
    case TimerEvent(b, _, _) => b in w.timers
    case CompleteEvent(b, _, _) => b in w.flight
  }

  // ----- what every step keeps

  /** In how many places a block is: waiting for its timer, in flight, freed. */
  function Places(w: World, b: nat): nat {
    (if b in w.timers then 1 else 0) + (if b in w.flight then 1 else 0) + w.freed[b]
  }

  predicate Live(w: World, b: nat) { b in w.blocks && w.freed[b] == 0 }

  /** A client points to a live block exactly if that points back, and a cancelled block points to no client. */
  predicate Linked(w: World) {
    && (forall c :: c in w.holds ==> Live(w, w.holds[c]) && w.blocks[w.holds[c]].lease == Some(c))
    && (forall b :: b in w.blocks && Live(w, b) && w.blocks[b].lease.Some? ==>
          w.blocks[b].lease.value in w.holds && w.holds[w.blocks[b].lease.value] == b)
    && (forall b :: b in w.blocks && Live(w, b) && w.blocks[b].abort ==> w.blocks[b].lease.None?)
  }

  /** Every block that was allocated is in exactly one place, and nothing else is in any. */
  ghost predicate OnePlace(w: World) {
    && (forall b :: b in w.blocks ==> Places(w, b) == 1)
    && (forall b :: b in w.timers || b in w.flight || b in w.freed ==> b in w.blocks)
  }

  ghost predicate Inv(w: World) { OnePlace(w) && Linked(w) }

  function Step(w: World, e: Event): World
    requires Inv(w) && Enabled(w, e)
  {
    match e
    case ScheduleEvent(c, b, memory) => Schedule(w, c, b, memory)
    case RemoveEvent(c, b, memory, ch) => Remove(w, c, b, memory, ch)
    case TimerEvent(b, hasLease, ch) => TimerFires(w, b, hasLease, ch)
    case CompleteEvent(b, e, ch) => Completes(w, b, e, ch)
  }

  /** The step starts an update with a ddns_modify_fwd that itself fails with a timeout. */
  predicate FalseStart(w: World, e: Event) {
    match e
    case RemoveEvent(_, _, memory, ch) => memory && ch.wanted && ch.named && ch.first == TimedOut
    case TimerEvent(b, hasLease, ch) =>
      b in w.blocks && w.blocks[b].lease.Some? && hasLease && ch.wanted && ch.named && ch.first == TimedOut
    case _ => false
  }

  /** Everything is in place but block `b`, which is in none: it is being worked on. */
  ghost predicate Held(w: World, b: nat) {
    && b in w.blocks && Places(w, b) == 0 && Linked(w)
    && (forall x :: x in w.blocks && x != b ==> Places(w, x) == 1)
    && (forall x :: x in w.timers || x in w.flight || x in w.freed ==> x in w.blocks)
  }

  lemma ForgetInv(w: World, c: nat)
    requires Inv(w)
    ensures Inv(Forget(w, c)) && c !in Forget(w, c).holds && Forget(w, c).blocks.Keys == w.blocks.Keys
  {
  }

  lemma FreeLinked(w: World, b: nat)
    requires Held(w, b)
    ensures Linked(Free(w, b))
  {
    var v := Free(w, b);
    assert forall x :: Live(v, x) <==> Live(w, x) && x != b;
    forall c | c in v.holds ensures Live(v, v.holds[c]) && v.blocks[v.holds[c]].lease == Some(c) {
      assert w.blocks[w.holds[c]].lease == Some(c);
    }
  }

  lemma FreeInv(w: World, b: nat)
    requires Held(w, b)
    ensures Inv(Free(w, b))
  {
    FreeLinked(w, b);
    assert OnePlace(Free(w, b));
  }

  lemma ModifyInv(w: World, b: nat)
    requires Held(w, b)
    ensures Inv(Modify(w, b, Success))
  {
  }

  /** A change of stage or timeout does not matter to the links. */
  lemma RestageHeld(w: World, b: nat, stage: Stage, timeout: nat)
    requires Held(w, b)
    ensures Held(w.(blocks := w.blocks[b := w.blocks[b].(stage := stage, timeout := timeout)]), b)
  {
  }

  lemma FreeUnlessStartedInv(w: World, b: nat, ch: Choice)
    requires Held(w, b)
    ensures Inv(FreeUnlessStarted(Update(w, b, ch), b, UpdateResult(ch)))
            <==> !(ch.wanted && ch.named && ch.first == TimedOut)
  {
    if ch.wanted && ch.named && ch.first == Success {
      ModifyInv(w, b);
    } else if !(ch.wanted && ch.named && ch.first == TimedOut) {
      FreeInv(w, b);
    } else {
      assert Places(FreeUnlessStarted(Update(w, b, ch), b, UpdateResult(ch)), b) == 0;
    }
  }

  /** The next message of the block, or the end of it. */
  lemma NextStageInv(w: World, b: nat, stage: Stage, m: Code)
    requires Held(w, b)
    ensures var v := Modify(w.(blocks := w.blocks[b := w.blocks[b].(stage := stage)]), b, m);
            Inv(if m == Success then v else Free(v, b))
  {
    RestageHeld(w, b, stage, w.blocks[b].timeout);
    var u := w.(blocks := w.blocks[b := w.blocks[b].(stage := stage)]);
    if m == Success { ModifyInv(u, b); } else { FreeInv(u, b); }
  }

  lemma RetryInv(w: World, b: nat, timeout: nat)
    requires Held(w, b)
    ensures Inv(w.(blocks := w.blocks[b := w.blocks[b].(stage := AddNxDomain, timeout := timeout)],
        timers := w.timers + {b}))
  {
    RestageHeld(w, b, AddNxDomain, timeout);
  }

  lemma RemoveActionInv(w: World, b: nat, e: Code, m: Code)
    requires Held(w, b)
    ensures Inv(RemoveAction(w, b, e, m))
  {
    if e == Success && w.blocks[b].stage == RemYxDhcid {
      NextStageInv(w, b, RemNxRr, m);
    } else {
      FreeInv(w, b);
    }
  }

  lemma UpdateActionInv(w: World, b: nat, e: Code, m: Code)
    requires Held(w, b)
    ensures Inv(UpdateAction(w, b, e, m))
  {
    var blk := w.blocks[b];
    if e == YxRrset && blk.stage == AddNxDomain {
      NextStageInv(w, b, AddYxDhcid, m);
    } else if e == TimedOut {
      RetryInv(w, b, if blk.timeout < 3600 then blk.timeout * 10 else blk.timeout);
    } else {
      FreeInv(w, b);
    }
  }

  lemma CurFuncInv(w: World, b: nat, e: Code, m: Code)
    requires Held(w, b)
    ensures Inv(CurFunc(w, b, e, m))
  {
    RemoveActionInv(w, b, e, m);
    UpdateActionInv(w, b, e, m);
  }

  lemma TakenHeld(w: World, b: nat)
    requires Inv(w)
    ensures b in w.timers ==> Held(w.(timers := w.timers - {b}), b)
    ensures b in w.flight ==> Held(w.(flight := w.flight - {b}), b)
  {
  }

  /** A block that is new to the world, and points to no client. */
  lemma NewHeld(w: World, b: nat)
    requires Inv(w) && b !in w.blocks
    ensures Held(w.(blocks := w.blocks[b := Block(None, false, RemYxDhcid, 0)]), b)
  {
    assert b !in w.timers && b !in w.flight && b !in w.freed;
  }

  lemma RecordOnePlace(v: World, c: nat, b: nat)
    requires OnePlace(v) && b !in v.blocks
    ensures OnePlace(Record(v, c, b))
  {
    assert b !in v.timers && b !in v.flight && b !in v.freed;
  }

  lemma RecordLinked(v: World, c: nat, b: nat)
    requires Inv(v) && c !in v.holds && b !in v.blocks
    ensures Linked(Record(v, c, b))
  {
    var u := Record(v, c, b);
    assert b !in v.freed;
    assert forall x :: Live(u, x) <==> Live(v, x) || x == b;
  }

  lemma ScheduleInv(w: World, c: nat, b: nat, memory: bool)
    requires Inv(w) && b !in w.blocks
    ensures Inv(Schedule(w, c, b, memory))
  {
    ForgetInv(w, c);
    if memory {
      RecordOnePlace(Forget(w, c), c, b);
      RecordLinked(Forget(w, c), c, b);
    }
  }

  lemma RemoveInv(w: World, c: nat, b: nat, memory: bool, ch: Choice)
    requires Inv(w) && b !in w.blocks
    ensures Inv(Remove(w, c, b, memory, ch)) <==> !(memory && ch.wanted && ch.named && ch.first == TimedOut)
  {
    ForgetInv(w, c);
    if memory {
      NewHeld(Forget(w, c), b);
      FreeUnlessStartedInv(Forget(w, c).(blocks := Forget(w, c).blocks[b := Block(None, false, RemYxDhcid, 0)]), b, ch);
    }
  }

  lemma AbortInv(w: World, b: nat)
    requires Held(w, b) && w.blocks[b].abort
    ensures Inv(RawFree(w, b))
  {
    FreeInv(w, b);
  }

  lemma CompletesInv(w: World, b: nat, e: Code, ch: Choice)
    requires Inv(w) && b in w.flight
    ensures Inv(Completes(w, b, e, ch))
  {
    TakenHeld(w, b);
    var v := w.(flight := w.flight - {b});
    if v.blocks[b].abort {
      AbortInv(v, b);
    } else if e == BadZone && ch.first == Success {
      ModifyInv(v, b);
    } else {
      CurFuncInv(v, b, if e == BadZone then ch.first else e, ch.again);
    }
  }

  lemma TimerFiresInv(w: World, b: nat, hasLease: bool, ch: Choice)
    requires Inv(w) && b in w.timers
    ensures Inv(TimerFires(w, b, hasLease, ch))
            <==> !(w.blocks[b].lease.Some? && hasLease && ch.wanted && ch.named && ch.first == TimedOut)
  {
    TakenHeld(w, b);
    var v := w.(timers := w.timers - {b});
    if v.blocks[b].lease.Some? && hasLease {
      FreeUnlessStartedInv(v, b, ch);
    } else {
      FreeInv(v, b);
    }
  }

  /** A step keeps every block in one place exactly if it does not start an update that times out at once. */
  lemma StepInvIff(w: World, e: Event)
    requires Inv(w) && Enabled(w, e)
    ensures Inv(Step(w, e)) <==> !FalseStart(w, e)
  {
    match e {
      case ScheduleEvent(c, b, memory) => ScheduleInv(w, c, b, memory);
      case RemoveEvent(c, b, memory, ch) => RemoveInv(w, c, b, memory, ch);
      case TimerEvent(b, hasLease, ch) => TimerFiresInv(w, b, hasLease, ch);
      case CompleteEvent(b, code, ch) => CompletesInv(w, b, code, ch);
    }
  }

  /** `v` has every block that `w` has, and those that are freed in `w` are freed in `v`. */
  predicate Later(w: World, v: World) { w.freed <= v.freed && w.blocks.Keys <= v.blocks.Keys }

  lemma CurFuncLater(w: World, b: nat, e: Code, m: Code)
    requires b in w.blocks
    ensures Later(w, CurFunc(w, b, e, m))
  {
  }

  lemma UpdateLater(w: World, b: nat, ch: Choice)
    requires b in w.blocks
    ensures Later(w, FreeUnlessStarted(Update(w, b, ch), b, UpdateResult(ch)))
  {
  }

  /** Freed blocks stay freed. */
  lemma StepLater(w: World, e: Event)
    requires Inv(w) && Enabled(w, e)
    ensures Later(w, Step(w, e))
  {
    match e {
      case ScheduleEvent(c, b, memory) =>
      case RemoveEvent(c, b, memory, ch) =>
        var v := Forget(w, c);
        UpdateLater(v.(blocks := v.blocks[b := Block(None, false, RemYxDhcid, 0)]), b, ch);
      case TimerEvent(b, hasLease, ch) =>
        UpdateLater(w.(timers := w.timers - {b}), b, ch);
      case CompleteEvent(b, code, ch) =>
        CurFuncLater(w.(flight := w.flight - {b}), b, if code == BadZone then ch.first else code, ch.again);
    }
  }

  /** A block that has been cancelled is freed by its next event. */
  lemma CancelledIsFreed(w: World, e: Event)
    requires Inv(w) && Enabled(w, e) && (e.TimerEvent? || e.CompleteEvent?) && w.blocks[e.b].abort
    ensures Step(w, e).freed[e.b] == 1
  {
    assert w.freed[e.b] == 0 by { assert Places(w, e.b) == 1; }
  }

  // ----- which message comes next

  /** The result that the action of a block gets to see; none if the message is sent again after a bad zone. */
  function Answer(e: Code, ch: Choice): Option<Code> {
    if e == BadZone then (if ch.first == Success then None else Some(ch.first)) else Some(e)
  }

  /** Block `b` is in flight with the message of that stage. */
  predicate Sends(w: World, b: nat, stage: Stage) {
    b in w.flight && b in w.blocks && w.blocks[b].stage == stage
  }

  /**
   * The second add message is sent exactly after a YXRRSET to the first, and a timeout leads back to the first one
   * after a wait that is ten times as long as long as it is below an hour.
   */
  lemma AddStageIff(w: World, b: nat, e: Code, ch: Choice)
    requires Inv(w) && b in w.flight && !w.blocks[b].Removal()
    ensures var v, blk := Completes(w, b, e, ch), w.blocks[b];
            && (Sends(v, b, AddYxDhcid) <==>
                  && !blk.abort
                  && if blk.stage == AddNxDomain then Answer(e, ch) == Some(YxRrset) && ch.again == Success
                     else Answer(e, ch) == None)
            && (Sends(v, b, AddNxDomain) <==> !blk.abort && blk.stage == AddNxDomain && Answer(e, ch) == None)
            && (b in v.timers <==> !blk.abort && Answer(e, ch) == Some(TimedOut))
            && (b in v.timers ==> v.blocks[b] == Block(blk.lease, false, AddNxDomain,
                                                       if blk.timeout < 3600 then 10 * blk.timeout else blk.timeout))
            && !v.blocks[b].Removal()
  {
    TakenHeld(w, b);
    assert b !in w.timers by { assert Places(w, b) == 1; }
  }

  /** The second remove message is sent exactly after a success of the first, and nothing is tried again later. */
  lemma RemoveStageIff(w: World, b: nat, e: Code, ch: Choice)
    requires Inv(w) && b in w.flight && w.blocks[b].Removal()
    ensures var v, blk := Completes(w, b, e, ch), w.blocks[b];
            && (Sends(v, b, RemNxRr) <==>
                  && !blk.abort
                  && if blk.stage == RemYxDhcid then Answer(e, ch) == Some(Success) && ch.again == Success
                     else Answer(e, ch) == None)
            && (Sends(v, b, RemYxDhcid) <==> !blk.abort && blk.stage == RemYxDhcid && Answer(e, ch) == None)
            && b !in v.timers
            && v.blocks[b].Removal()
  {
    TakenHeld(w, b);
    assert b !in w.timers by { assert Places(w, b) == 1; }
  }

  /** Blocks that wait are about to send their first add message, with a wait of at most ten thousand seconds. */
  predicate Staged(w: World) {
    && (forall b :: b in w.timers ==> b in w.blocks && w.blocks[b].stage == AddNxDomain)
    && (forall b :: b in w.blocks && !w.blocks[b].Removal() ==> w.blocks[b].timeout in {1, 10, 100, 1000, 10000})
  }

  /** The blocks of `w` other than `b` have kept their stage and their wait. */
  predicate KeepsStages(w: World, v: World, b: nat) {
    && (forall x :: x in w.blocks && x != b ==>
          x in v.blocks && v.blocks[x].stage == w.blocks[x].stage && v.blocks[x].timeout == w.blocks[x].timeout)
    && (forall x :: x in v.blocks && x != b ==> x in w.blocks)
    && (forall x :: x in v.timers && x != b ==> x in w.timers)
  }

  lemma ForgetStages(w: World, c: nat, b: nat)
    requires Inv(w)
    ensures KeepsStages(w, Forget(w, c), b) && Forget(w, c).timers == w.timers
    ensures Forget(w, c).blocks.Keys == w.blocks.Keys
  {
  }

  lemma UpdateStages(w: World, b: nat, ch: Choice)
    requires b in w.blocks
    ensures var v := FreeUnlessStarted(Update(w, b, ch), b, UpdateResult(ch));
            v.blocks == w.blocks && v.timers == w.timers
  {
  }

  lemma RemoveActionStages(w: World, b: nat, e: Code, m: Code)
    requires b in w.blocks
    ensures KeepsStages(w, RemoveAction(w, b, e, m), b) && b in RemoveAction(w, b, e, m).blocks
  {
  }

  lemma UpdateActionStages(w: World, b: nat, e: Code, m: Code)
    requires b in w.blocks
    ensures KeepsStages(w, UpdateAction(w, b, e, m), b) && b in UpdateAction(w, b, e, m).blocks
  {
  }

  lemma ScheduleStages(w: World, c: nat, b: nat, memory: bool)
    requires Inv(w) && b !in w.blocks
    ensures var v := Schedule(w, c, b, memory);
            && KeepsStages(w, v, b)
            && (b in v.blocks <==> memory) && (memory ==> v.blocks[b] == Block(Some(c), false, AddNxDomain, 1))
            && (b in v.timers <==> memory)
  {
    ForgetStages(w, c, b);
  }

  lemma RemoveStages(w: World, c: nat, b: nat, memory: bool, ch: Choice)
    requires Inv(w) && b !in w.blocks
    ensures var v := Remove(w, c, b, memory, ch);
            && KeepsStages(w, v, b)
            && (b in v.blocks <==> memory) && (memory ==> v.blocks[b].stage == RemYxDhcid)
            && b !in v.timers
  {
    ForgetStages(w, c, b);
    var v := Forget(w, c);
    if memory { UpdateStages(v.(blocks := v.blocks[b := Block(None, false, RemYxDhcid, 0)]), b, ch); }
  }

  lemma TimerStages(w: World, b: nat, hasLease: bool, ch: Choice)
    requires b in w.blocks
    ensures var v := TimerFires(w, b, hasLease, ch); v.blocks == w.blocks && v.timers == w.timers - {b}
  {
  }

  lemma CompletesStages(w: World, b: nat, e: Code, ch: Choice)
    requires b in w.blocks
    ensures KeepsStages(w, Completes(w, b, e, ch), b) && b in Completes(w, b, e, ch).blocks
  {
    var v, result := w.(flight := w.flight - {b}), if e == BadZone then ch.first else e;
    RemoveActionStages(v, b, result, ch.again);
    UpdateActionStages(v, b, result, ch.again);
  }

  /** What the completion of a transaction does to the stage of its block. */
  lemma CompletedStage(w: World, b: nat, e: Code, ch: Choice)
    requires Inv(w) && b in w.flight
    ensures var s, t := w.blocks[b].stage, Completes(w, b, e, ch).blocks[b].stage;
            && (t == AddYxDhcid && s != AddYxDhcid ==> Answer(e, ch) == Some(YxRrset))
            && (t == RemNxRr && s != RemNxRr ==> Answer(e, ch) == Some(Success))
            && (t in {RemYxDhcid, RemNxRr} <==> s in {RemYxDhcid, RemNxRr})
  {
  }

  /** What a step does to the stage of a block that is there. */
  lemma StepStage(w: World, e: Event, b: nat)
    requires Inv(w) && Enabled(w, e) && b in w.blocks
    ensures var v := Step(w, e);
            && b in v.blocks && (v.blocks[b].Removal() <==> w.blocks[b].Removal())
            && (v.blocks[b].stage == AddYxDhcid && w.blocks[b].stage != AddYxDhcid ==>
                  e.CompleteEvent? && e.b == b && Answer(e.e, e.ch) == Some(YxRrset))
            && (v.blocks[b].stage == RemNxRr && w.blocks[b].stage != RemNxRr ==>
                  e.CompleteEvent? && e.b == b && Answer(e.e, e.ch) == Some(Success))
  {
    match e {
      case ScheduleEvent(c, x, memory) => ScheduleStages(w, c, x, memory);
      case RemoveEvent(c, x, memory, ch) => RemoveStages(w, c, x, memory, ch);
      case TimerEvent(x, hasLease, ch) => TimerStages(w, x, hasLease, ch);
      case CompleteEvent(x, code, ch) =>
        CompletesStages(w, x, code, ch);
        CompletedStage(w, x, code, ch);
    }
  }

  lemma StagedBut(w: World, v: World, b: nat)
    requires Staged(w) && KeepsStages(w, v, b)
    requires b in v.timers ==> b in v.blocks && v.blocks[b].stage == AddNxDomain
    requires b in v.blocks && !v.blocks[b].Removal() ==> v.blocks[b].timeout in {1, 10, 100, 1000, 10000}
    ensures Staged(v)
  {
    forall x | x in v.blocks && !v.blocks[x].Removal() ensures v.blocks[x].timeout in {1, 10, 100, 1000, 10000} {
      if x != b { assert !w.blocks[x].Removal(); }
    }
  }

  /** The wait of the block whose transaction has completed. */
  lemma CompletedWait(w: World, b: nat, e: Code, ch: Choice)
    requires Inv(w) && b in w.flight && !w.blocks[b].Removal()
    ensures var v := Completes(w, b, e, ch).blocks[b].timeout;
            v == w.blocks[b].timeout || (v == 10 * w.blocks[b].timeout && w.blocks[b].timeout < 3600)
  {
  }

  lemma StepStaged(w: World, e: Event)
    requires Inv(w) && Staged(w) && Enabled(w, e)
    ensures Staged(Step(w, e))
  {
    match e {
      case ScheduleEvent(c, b, memory) =>
        ScheduleStages(w, c, b, memory);
        StagedBut(w, Step(w, e), b);
      case RemoveEvent(c, b, memory, ch) =>
        RemoveStages(w, c, b, memory, ch);
        StagedBut(w, Step(w, e), b);
      case TimerEvent(b, hasLease, ch) =>
        TimerStages(w, b, hasLease, ch);
      case CompleteEvent(b, code, ch) =>
        CompletesStages(w, b, code, ch);
        if w.blocks[b].Removal() {
          RemoveStageIff(w, b, code, ch);
        } else {
          AddStageIff(w, b, code, ch);
          CompletedWait(w, b, code, ch);
        }
        StagedBut(w, Step(w, e), b);
    }
  }

  // ----- runs

  ghost predicate IsRun(w: World, es: seq<Event>)
    requires Inv(w)
    decreases |es|
  {
    if es == [] then true
    else
      && Enabled(w, es[0]) && !FalseStart(w, es[0])
      && (StepInvIff(w, es[0]);
          IsRun(Step(w, es[0]), es[1..]))
  }

  ghost function After(w: World, es: seq<Event>): World
    requires Inv(w) && IsRun(w, es)
    decreases |es|
  {
    if es == [] then w
    else
      StepInvIff(w, es[0]);
      After(Step(w, es[0]), es[1..])
  }

  function Start(): World { World(map[], {}, {}, multiset{}, map[]) }

  /**
   * In every run each block is waiting, in flight or freed, never two of these; it is freed at most once and
   * stays freed; and clients and live blocks point to each other.
   */
  lemma {:induction false} RunInv(w: World, es: seq<Event>)
    requires Inv(w) && IsRun(w, es)
    ensures var v := After(w, es);
            Inv(v) && w.freed <= v.freed && (forall b :: b in v.blocks ==> v.freed[b] <= 1)
    decreases |es|
  {
    if es != [] {
      StepInvIff(w, es[0]);
      StepLater(w, es[0]);
      RunInv(Step(w, es[0]), es[1..]);
    } else {
      forall b | b in w.blocks ensures w.freed[b] <= 1 { assert Places(w, b) == 1; }
    }
  }

  /** Some completion of block `b` in the run gave its action that result. */
  predicate Answered(es: seq<Event>, b: nat, code: Code) {
    exists i :: 0 <= i < |es| && es[i].CompleteEvent? && es[i].b == b && Answer(es[i].e, es[i].ch) == Some(code)
  }

  lemma AnsweredLater(es: seq<Event>, b: nat, code: Code)
    requires es != [] && Answered(es[1..], b, code)
    ensures Answered(es, b, code)
  {
    var i :| 0 <= i < |es[1..]| && es[1..][i].CompleteEvent? && es[1..][i].b == b
      && Answer(es[1..][i].e, es[1..][i].ch) == Some(code);
    assert es[i + 1] == es[1..][i];
  }

  /**
   * In every run a block stays an update or a removal, whichever it was. It is at the second add message only after
   * a YXRRSET to the first, and at the second remove message only after a success of the first.
   */
  lemma {:induction false} RunStages(w: World, es: seq<Event>, b: nat)
    requires Inv(w) && IsRun(w, es) && b in w.blocks
    ensures var v := After(w, es);
            && b in v.blocks && (v.blocks[b].Removal() <==> w.blocks[b].Removal())
            && (v.blocks[b].stage == AddYxDhcid ==> w.blocks[b].stage == AddYxDhcid || Answered(es, b, YxRrset))
            && (v.blocks[b].stage == RemNxRr ==> w.blocks[b].stage == RemNxRr || Answered(es, b, Success))
    decreases |es|
  {
    if es != [] {
      StepInvIff(w, es[0]);
      StepStage(w, es[0], b);
      RunStages(Step(w, es[0]), es[1..], b);
      if Answered(es[1..], b, YxRrset) { AnsweredLater(es, b, YxRrset); }
      if Answered(es[1..], b, Success) { AnsweredLater(es, b, Success); }
    }
  }

  /** A block that dhclient_schedule_updates made only ever adds, and one that client_dns_remove made only removes. */
  lemma {:induction false} RunKinds(w: World, es: seq<Event>, i: nat)
    requires Inv(w) && IsRun(w, es) && i < |es|
    ensures var v, e := After(w, es), es[i];
            && (e.ScheduleEvent? && e.memory ==> e.b in v.blocks && !v.blocks[e.b].Removal())
            && (e.RemoveEvent? && e.memory ==> e.b in v.blocks && v.blocks[e.b].Removal())
    decreases |es|
  {
    StepInvIff(w, es[0]);
    var v := Step(w, es[0]);
    if i > 0 {
      assert es[1..][i - 1] == es[i];
      RunKinds(v, es[1..], i - 1);
    } else if es[0].ScheduleEvent? && es[0].memory {
      ScheduleStages(w, es[0].c, es[0].b, true);
      RunStages(v, es[1..], es[0].b);
    } else if es[0].RemoveEvent? && es[0].memory {
      RemoveStages(w, es[0].c, es[0].b, true, es[0].ch);
      RunStages(v, es[1..], es[0].b);
    }
  }

  /** In every run, what waits is about to send a first add message. */
  lemma {:induction false} RunStaged(w: World, es: seq<Event>)
    requires Inv(w) && Staged(w) && IsRun(w, es)
    ensures Staged(After(w, es))
    decreases |es|
  {
    if es != [] {
      StepInvIff(w, es[0]);
      StepStaged(w, es[0]);
      RunStaged(Step(w, es[0]), es[1..]);
    }
  }

  /** The retry timer of a block sends its first add message exactly if its client still wants that; or it is freed. */
  lemma TimerSendsIff(w: World, b: nat, hasLease: bool, ch: Choice)
    requires Inv(w) && Staged(w) && b in w.timers && !FalseStart(w, TimerEvent(b, hasLease, ch))
    ensures var v := TimerFires(w, b, hasLease, ch);
            && (Sends(v, b, AddNxDomain) <==>
                  w.blocks[b].lease.Some? && hasLease && ch.wanted && ch.named && ch.first == Success)
            && (!Sends(v, b, AddNxDomain) ==> v.freed[b] == 1)
  {
    TimerFiresInv(w, b, hasLease, ch);
    TimerStages(w, b, hasLease, ch);
    assert Places(w, b) == 1 && Places(TimerFires(w, b, hasLease, ch), b) == 1;
  }

  /** A new update or removal cancels the block that the client had, and no other. */
  lemma SupersedesIff(w: World, e: Event, b: nat)
    requires Inv(w) && Enabled(w, e) && (e.ScheduleEvent? || e.RemoveEvent?) && b in w.blocks
    ensures b in Step(w, e).blocks && (Step(w, e).blocks[b].abort <==>
              w.blocks[b].abort || (e.c in w.holds && w.holds[e.c] == b))
  {
    if e.RemoveEvent? && e.memory {
      var v := Forget(w, e.c);
      UpdateStages(v.(blocks := v.blocks[e.b := Block(None, false, RemYxDhcid, 0)]), e.b, e.ch);
    }
  }

  lemma CompletesOthers(w: World, x: nat, e: Code, ch: Choice, b: nat)
    requires x in w.blocks && b in w.blocks && b != x
    ensures var v := Completes(w, x, e, ch);
            b in v.blocks && v.blocks[b] == w.blocks[b] && (b in v.flight <==> b in w.flight)
  {
  }

  lemma TimerAborted(w: World, x: nat, hasLease: bool, ch: Choice, b: nat)
    requires Inv(w) && x in w.timers && b in w.blocks && w.blocks[b].abort
    ensures b in TimerFires(w, x, hasLease, ch).flight ==> b in w.flight
  {
    if x == b { assert Places(w, b) == 1 && Live(w, b); }
  }

  lemma StartAborted(w: World, e: Event, b: nat)
    requires Inv(w) && Enabled(w, e) && (e.ScheduleEvent? || e.RemoveEvent?) && b in w.blocks
    ensures b in Step(w, e).flight ==> b in w.flight
  {
  }

  lemma StepAborted(w: World, e: Event, b: nat)
    requires Inv(w) && Enabled(w, e) && b in w.blocks && w.blocks[b].abort
    ensures var v := Step(w, e); b in v.blocks && v.blocks[b].abort && (b in v.flight ==> b in w.flight)
  {
    match e {
      case ScheduleEvent(_, _, _) =>
        SupersedesIff(w, e, b);
        StartAborted(w, e, b);
      case RemoveEvent(_, _, _, _) =>
        SupersedesIff(w, e, b);
        StartAborted(w, e, b);
      case TimerEvent(x, hasLease, ch) =>
        TimerStages(w, x, hasLease, ch);
        TimerAborted(w, x, hasLease, ch, b);
      case CompleteEvent(x, code, ch) =>
        if x != b { CompletesOthers(w, x, code, ch, b); }
    }
  }

  /** In every run, a block that has been cancelled sends nothing any more. */
  lemma {:induction false} RunAborted(w: World, es: seq<Event>, b: nat)
    requires Inv(w) && IsRun(w, es) && b in w.blocks && w.blocks[b].abort
    ensures var v := After(w, es); b in v.blocks && v.blocks[b].abort && (b in v.flight ==> b in w.flight)
    decreases |es|
  {
    if es != [] {
      StepInvIff(w, es[0]);
      StepAborted(w, es[0], b);
      RunAborted(Step(w, es[0]), es[1..], b);
    }
  }

  /** What a new block starts with: a wait for its first add message, or its first remove message right away. */
  lemma FirstStage(w: World, e: Event)
    requires Inv(w) && Enabled(w, e) && (e.ScheduleEvent? || e.RemoveEvent?) && e.memory
    ensures var v := Step(w, e);
            if e.ScheduleEvent? then
              e.b in v.timers && v.blocks[e.b].stage == AddNxDomain && e.c in v.holds && v.holds[e.c] == e.b
            else
              (Sends(v, e.b, RemYxDhcid) <==> e.ch.wanted && e.ch.named && e.ch.first == Success) && e.c !in v.holds
  {
  }

  lemma StartInv()
    ensures Inv(Start()) && Staged(Start())
  {
  }

  /** A first update that times out at once leaves a block that is not waiting, not in flight and not freed. */
  lemma FalseStartLoses()
    ensures var w := Schedule(Start(), 1, 7, true);
            var e := TimerEvent(7, true, Choice(true, true, TimedOut, Failure));
            Inv(w) && Enabled(w, e) && Places(Step(w, e), 7) == 0 && !Inv(Step(w, e))
  {
    StartInv();
    ScheduleInv(Start(), 1, 7, true);
    var w := Schedule(Start(), 1, 7, true);
    StepInvIff(w, TimerEvent(7, true, Choice(true, true, TimedOut, Failure)));
  }

  // ----- as the source does it

  class Updater {
    var blocks: map<nat, Block>
    var timers: set<nat>
    var flight: set<nat>
    var holds: map<nat, nat>
    ghost var freed: multiset<nat>

    ghost function Abs(): World
      reads this
    {
      World(blocks, timers, flight, freed, holds)
    }

    constructor ()
      ensures Abs() == Start()
    {
      blocks, timers, flight, holds, freed := map[], {}, {}, map[], multiset{};
    }

    method CancelBlock(b: nat)
      requires b in blocks
      modifies this`blocks
      ensures Abs() == Cancel(old(Abs()), b)
    {
      blocks := blocks[b := blocks[b].(abort := true)];
      blocks := blocks[b := blocks[b].(lease := None)];
    }

    method FreeBlock(b: nat)
      requires b in blocks
      modifies this`holds, this`freed
      ensures Abs() == Free(old(Abs()), b)
      ensures old(Held(Abs(), b)) ==> Inv(Abs())
    {
      if Held(Abs(), b) { FreeInv(Abs(), b); }
      if blocks[b].lease.Some? {
        holds := holds - {blocks[b].lease.value};
      }
      freed := freed + multiset{b};
    }

    method ModifyFwd(b: nat, m: Code) returns (result: Code)
      modifies this`flight
      ensures result == m && Abs() == Modify(old(Abs()), b, m)
    {
      if m == Success {
        flight := flight + {b};
      }
      return m;
    }

    method DnsUpdate(b: nat, ch: Choice) returns (rcode: Code)
      modifies this`flight
      ensures rcode == UpdateResult(ch) && Abs() == Update(old(Abs()), b, ch)
    {
      if !ch.wanted { return Success; }
      if ch.named {
        rcode := ModifyFwd(b, ch.first);
      } else {
        rcode := Failure;
      }
      if rcode == Success {
        rcode := TimedOut;
      }
    }

    method ForgetOld(c: nat)
      requires c in holds ==> holds[c] in blocks
      modifies this`blocks, this`holds
      ensures Abs() == Forget(old(Abs()), c)
    {
      if c in holds {
        CancelBlock(holds[c]);
        holds := holds - {c};
      }
    }

    method ScheduleUpdates(c: nat, b: nat, memory: bool)
      requires Inv(Abs()) && b !in blocks
      modifies this`blocks, this`holds, this`timers
      ensures Abs() == Schedule(old(Abs()), c, b, memory) && Inv(Abs())
    {
      ScheduleInv(Abs(), c, b, memory);
      ForgetOld(c);
      if memory {
        blocks := blocks[b := Block(Some(c), false, AddNxDomain, 1)];
        holds := holds[c := b];
        timers := timers + {b};
      }
    }

    method DnsRemove(c: nat, b: nat, memory: bool, ch: Choice)
      requires Inv(Abs()) && b !in blocks
      modifies this`blocks, this`holds, this`flight, this`freed
      ensures Abs() == Remove(old(Abs()), c, b, memory, ch)
      ensures Inv(Abs()) <==> !FalseStart(old(Abs()), RemoveEvent(c, b, memory, ch))
    {
      RemoveInv(Abs(), c, b, memory, ch);
      ForgetOld(c);
      if memory {
        blocks := blocks[b := Block(None, false, RemYxDhcid, 0)];
        var result := DnsUpdate(b, ch);
        if result != TimedOut {
          FreeBlock(b);
        }
      }
    }

    /** The timer of block `b` has been taken off the queue. */
    method DnsUpdateTimeout(b: nat, hasLease: bool, ch: Choice)
      requires Inv(Abs()) && b in timers
      modifies this
      ensures Abs() == TimerFires(old(Abs()), b, hasLease, ch)
      ensures Inv(Abs()) <==> !FalseStart(old(Abs()), TimerEvent(b, hasLease, ch))
    {
      TimerFiresInv(Abs(), b, hasLease, ch);
      timers := timers - {b};
      var status := Failure;
      if blocks[b].lease.Some? && hasLease {
        status := DnsUpdate(b, ch);
      }
      if status != TimedOut {
        FreeBlock(b);
      }
    }

    method DnsRemoveAction(b: nat, e: Code, m: Code)
      requires b in blocks
      modifies this
      ensures Abs() == RemoveAction(old(Abs()), b, e, m)
      ensures old(Held(Abs(), b)) ==> Inv(Abs())
    {
      if Held(Abs(), b) { RemoveActionInv(Abs(), b, e, m); }
      if e == Success && blocks[b].stage == RemYxDhcid {
        blocks := blocks[b := blocks[b].(stage := RemNxRr)];
        var result := ModifyFwd(b, m);
        if result == Success { return; }
      }
      FreeBlock(b);
    }

    /** Back to the first stage, after a wait that is ten times as long. */
    method ScheduleRetry(b: nat)
      requires b in blocks
      modifies this`blocks, this`timers
      ensures Abs() == UpdateAction(old(Abs()), b, TimedOut, Failure)
    {
      blocks := blocks[b := blocks[b].(stage := AddNxDomain)];
      if blocks[b].timeout < 3600 {
        blocks := blocks[b := blocks[b].(timeout := blocks[b].timeout * 10)];
      }
      timers := timers + {b};
    }

    method DnsUpdateAction(b: nat, e: Code, m: Code)
      requires b in blocks
      modifies this
      ensures Abs() == UpdateAction(old(Abs()), b, e, m)
      ensures old(Held(Abs(), b)) ==> Inv(Abs())
    {
      if Held(Abs(), b) { UpdateActionInv(Abs(), b, e, m); }
      match e {
        case YxRrset =>
          if blocks[b].stage == AddNxDomain {
            blocks := blocks[b := blocks[b].(stage := AddYxDhcid)];
            var result := ModifyFwd(b, m);
            if result == Success { return; }
          }
        case TimedOut =>
          ScheduleRetry(b);
          return;
        case _ =>
      }
      FreeBlock(b);
    }

    method CallCurFunc(b: nat, e: Code, m: Code)
      requires b in blocks
      modifies this
      ensures Abs() == CurFunc(old(Abs()), b, e, m)
      ensures old(Held(Abs(), b)) ==> Inv(Abs())
    {
      if blocks[b].Removal() {
        DnsRemoveAction(b, e, m);
      } else {
        DnsUpdateAction(b, e, m);
      }
    }

    method Interlude(b: nat, e: Code, ch: Choice)
      requires Inv(Abs()) && b in flight
      modifies this
      ensures Abs() == Completes(old(Abs()), b, e, ch) && Inv(Abs())
    {
      CompletesInv(Abs(), b, e, ch);
      flight := flight - {b};
      if e == Canceled || blocks[b].abort {
        if !blocks[b].abort {
          CallCurFunc(b, e, ch.again);
          return;
        }
        freed := freed + multiset{b};
        return;
      }
      if e == BadZone {
        var result := ModifyFwd(b, ch.first);
        if result != Success {
          CallCurFunc(b, result, ch.again);
        }
      } else {
        CallCurFunc(b, e, ch.again);
      }
    }
  }
}
