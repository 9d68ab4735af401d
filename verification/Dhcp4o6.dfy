/** The POLL, START and STOP handshake of DHCPv4 over DHCPv6 between two client processes (client/dhclient.c). */
module Dhcp4o6 {
  import opened Common

  datatype Message = Poll | Start | Stop | Query | Response

  datatype Pending = Nothing | Reboot | Release

  /** dhcp4o6_state: -1 stopped, 0 polling, 1 started. */
  const STOPPED := -1
  const POLLING := 0
  const STARTED := 1

  /** The DHCPv4 process. `heard` is the last START or STOP that it received. */
  datatype Side4 = Side4(state: int, armed: bool, pending: seq<Pending>, finished: bool, heard: Message)

  // ----- the DHCPv4 side

  /** dhcp4o6_poll, which also sends a POLL. */
  function Polled(s: Side4): Side4 {
    s.(state := if s.state < 0 then POLLING else s.state, armed := true)
  }

  /** state_reboot and do_release while the DHCPv6 side is not ready: the operation is put off. */
  function PutOff(s: Side4, c: nat, p: Pending): Side4
    requires c < |s.pending|
  {
    (if s.state < 0 then Polled(s) else s).(pending := s.pending[c := p])
  }

  /** state_reboot for client `c`, up to the point where it goes on. */
  function RebootClient(s: Side4, c: nat): Side4
    requires c < |s.pending|
  {
    if s.state <= 0 then PutOff(s, c, Reboot) else s.(pending := s.pending[c := Nothing])
  }

  /** do_release, which ends the process once it has been done. */
  function ReleaseClient(s: Side4, c: nat): Side4
    requires c < |s.pending|
  {
    if s.state <= 0 then PutOff(s, c, Release) else s.(finished := true)
  }

  /** dhcp4o6_resume for the clients from `c` on. */
  function Resume(s: Side4, c: nat): Side4
    requires c <= |s.pending|
    decreases |s.pending| - c
  {
    if c == |s.pending| || s.finished then s
    else
      match s.pending[c]
      case Nothing => Resume(s, c + 1)
      case Release => Resume(ReleaseClient(s, c), c + 1)
      case Reboot => Resume(RebootClient(s, c), c + 1)
  }

  /** A START or a STOP arrives. */
  function Hear(s: Side4, m: Message): Side4 {
    match m
    case Stop =>
      var t := s.(heard := Stop);
      if s.state > 0 then Polled(t.(state := POLLING)) else t
    case Start =>
      Resume(s.(heard := Start, state := STARTED, armed := if s.state == 0 then false else s.armed), 0)
    case _ => s
  }

  /** The poll timer is armed exactly while polling, and what is put off is put off only while polling. */
  predicate Sound(s: Side4) {
    && -1 <= s.state <= 1
    && (s.armed <==> s.state == POLLING)
    && (s.state == STARTED <==> s.heard == Start)
    && (!s.finished && (exists c :: 0 <= c < |s.pending| && s.pending[c] != Nothing) ==> s.state == POLLING)
  }

  predicate WantsRelease(s: Side4, c: nat) {
    exists i :: c <= i < |s.pending| && s.pending[i] == Release
  }

  /** Resuming does every operation that was put off, or ends the process with a release. */
  lemma {:induction false} ResumeDoesAll(s: Side4, c: nat)
    requires c <= |s.pending| && s.state == STARTED && !s.finished
    ensures var r := Resume(s, c);
            && r == s.(pending := r.pending, finished := r.finished) && |r.pending| == |s.pending|
            && (r.finished <==> WantsRelease(s, c))
            && (!r.finished ==> forall i :: c <= i < |r.pending| ==> r.pending[i] == Nothing)
            && (forall i :: 0 <= i < c ==> r.pending[i] == s.pending[i])
    decreases |s.pending| - c
  {
    if c < |s.pending| {
      match s.pending[c] {
        case Nothing =>
          ResumeDoesAll(s, c + 1);
        case Reboot =>
          var t := RebootClient(s, c);
          assert forall i :: c < i < |s.pending| ==> t.pending[i] == s.pending[i];
          ResumeDoesAll(t, c + 1);
        case Release =>
      }
    }
  }

  lemma HearSound(s: Side4, m: Message)
    requires Sound(s) && !s.finished
    ensures Sound(Hear(s, m)) && |Hear(s, m).pending| == |s.pending|
    ensures m == Start && !Hear(s, m).finished ==> forall i :: 0 <= i < |s.pending| ==> Hear(s, m).pending[i] == Nothing
  {
    if m == Start {
      var t := s.(heard := Start, state := STARTED, armed := if s.state == 0 then false else s.armed);
      ResumeDoesAll(t, 0);
    }
  }

  // ----- the DHCPv6 side

  /** What the DHCPv6 side looks at of a client: its state, its lease, and the length of the server address option. */
  datatype Client6 = Client6(bound: bool, leased: bool, option: Option<nat>)

  /** The addresses to which a query is sent for one client; an empty option stands for the multicast address. */
  function AttemptsFor(c: Client6): nat {
    if c.bound && c.leased && c.option.Some? && c.option.value % 16 == 0 then
      if c.option.value == 0 then 1 else c.option.value / 16
    else 0
  }

  function Attempts(cs: seq<Client6>): nat {
    if cs == [] then 0 else Attempts(cs[..|cs| - 1]) + AttemptsFor(cs[|cs| - 1])
  }

  /** dhcp4o6_start finds a client with a usable server address option. */
  predicate Found(cs: seq<Client6>) {
    exists i :: 0 <= i < |cs| && cs[i].bound && cs[i].leased && cs[i].option.Some? && cs[i].option.value % 16 == 0
  }

  /** dhcp4o6_start goes up exactly if a query would be sent to somebody. */
  lemma {:induction false} FoundIff(cs: seq<Client6>)
    ensures Found(cs) <==> Attempts(cs) > 0
  {
    if cs != [] {
      var p := cs[..|cs| - 1];
      FoundIff(p);
      assert forall i :: 0 <= i < |p| ==> p[i] == cs[i];
    }
  }

  // ----- both sides and the channels between them

  /**
   * Messages can be lost and overtake each other. `sent` counts the queries that the DHCPv4 side sent, `forwarded`
   * those that went to a server.
   */
  datatype World = World(four: Side4, six: int, clients6: seq<Client6>, to6: multiset<Message>, to4: multiset<Message>,
                         sent: nat, forwarded: nat)

  datatype Event =
    | RebootEvent(c: nat)
    | ReleaseEvent(c: nat)
    | PollTimer
    | QueryEvent
    | LeasesChange(cs: seq<Client6>)
    | SixStart
    | ServerReply
    | Arrive6(m: Message)
    | Arrive4(m: Message)
    | Lose6(m: Message)
    | Lose4(m: Message)

  predicate Enabled(w: World, e: Event) {
    match e
    case RebootEvent(c) => c < |w.four.pending| && !w.four.finished
    case ReleaseEvent(c) => c < |w.four.pending| && !w.four.finished
    case PollTimer => w.four.armed && !w.four.finished
    case QueryEvent => !w.four.finished
    case LeasesChange(_) => true
    case SixStart => true
    case ServerReply => true
    case Arrive6(m) => m in w.to6
    case Arrive4(m) => m in w.to4 && !w.four.finished
    case Lose6(m) => m in w.to6
    case Lose4(m) => m in w.to4
  }

  /** The DHCPv4 side starts to poll with this step. */
  function PollsNow(s: Side4): multiset<Message> {
    if s.state < 0 then multiset{Poll} else multiset{}
  }

  /** dhcp4o6_stop. */
  function StopSix(w: World): World {
    if w.six == STOPPED then w else w.(six := STOPPED, to4 := w.to4 + multiset{Stop})
  }

  /** dhcp4o6_start, which is called when the DHCPv6 leases have changed. */
  function StartSix(w: World): World {
    if !Found(w.clients6) then StopSix(w)
    else if w.six == STARTED then w
    else w.(six := STARTED, to4 := w.to4 + multiset{Start})
  }

  /** forw_dhcpv4_query: whatever its own state, the DHCPv6 side sends the query on if it knows a server. */
  function Forward(w: World): World {
    if Attempts(w.clients6) > 0 then w.(forwarded := w.forwarded + 1) else StopSix(w)
  }

  function Step(w: World, e: Event): World
    requires Enabled(w, e)
  {
    match e
    case RebootEvent(c) => w.(four := RebootClient(w.four, c), to6 := w.to6 + PollsNow(w.four))
    case ReleaseEvent(c) => w.(four := ReleaseClient(w.four, c), to6 := w.to6 + PollsNow(w.four))
    case PollTimer => w.(four := Polled(w.four), to6 := w.to6 + multiset{Poll})
    case QueryEvent => if w.four.state <= 0 then w else w.(to6 := w.to6 + multiset{Query}, sent := w.sent + 1)
    case LeasesChange(cs) => w.(clients6 := cs)
    case SixStart => StartSix(w)
    case ServerReply => if w.six == STOPPED then w else w.(to4 := w.to4 + multiset{Response})
    case Arrive6(m) =>
      var v := w.(to6 := w.to6 - multiset{m});
      if m == Poll then v.(to4 := v.to4 + (if w.six < 0 then multiset{Stop} else multiset{Start}))
      else if m == Query then Forward(v)
      else v
    case Arrive4(m) =>
      var v := w.(to4 := w.to4 - multiset{m}, four := Hear(w.four, m));
      if m == Stop && w.four.state > 0 then v.(to6 := v.to6 + multiset{Poll}) else v
    case Lose6(m) => w.(to6 := w.to6 - multiset{m})
    case Lose4(m) => w.(to4 := w.to4 - multiset{m})
  }

  predicate Fine(w: World) { Sound(w.four) && (w.six == STOPPED || w.six == STARTED) }

  /** Every step keeps the two sides sound, and a query is sent only while the last message heard is a START. */
  lemma StepFine(w: World, e: Event)
    requires Fine(w) && Enabled(w, e)
    ensures Fine(Step(w, e))
    ensures Step(w, e).sent > w.sent ==> w.four.heard == Start
  {
    if e.Arrive4? { HearSound(w.four, e.m); }
  }

  // ----- no query without a START

  /** The queries that are under way or have been sent on are among those that were sent. */
  predicate Accounted(w: World) { w.to6[Query] + w.forwarded <= w.sent }

  lemma StepAccounted(w: World, e: Event)
    requires Fine(w) && Enabled(w, e) && Accounted(w)
    ensures Accounted(Step(w, e))
  {
    match e {
      case QueryEvent =>
      case Arrive6(m) =>
      case Lose6(m) =>
      case _ => assert Step(w, e).to6[Query] == w.to6[Query];
    }
  }

  predicate IsRun(w: World, es: seq<Event>)
    decreases |es|
  {
    es == [] || (Enabled(w, es[0]) && IsRun(Step(w, es[0]), es[1..]))
  }

  function After(w: World, es: seq<Event>): World
    requires IsRun(w, es)
    decreases |es|
  {
    if es == [] then w else After(Step(w, es[0]), es[1..])
  }

  function Initial(clients: nat): World {
    World(Side4(STOPPED, false, seq(clients, _ => Nothing), false, Stop), STOPPED, [], multiset{}, multiset{}, 0, 0)
  }

  /** The last START or STOP that arrives on the DHCPv4 side in a run; STOP if there is none. */
  function LastHeard(es: seq<Event>, start: Message): Message
    decreases |es|
  {
    if es == [] then start
    else LastHeard(es[1..], if es[0].Arrive4? && (es[0].m == Start || es[0].m == Stop) then es[0].m else start)
  }

  lemma StepHeard(w: World, e: Event)
    requires Fine(w) && Enabled(w, e)
    ensures Step(w, e).four.heard == if e.Arrive4? && (e.m == Start || e.m == Stop) then e.m else w.four.heard
  {
    if e.Arrive4? && e.m == Start {
      var s := w.four;
      ResumeDoesAll(s.(heard := Start, state := STARTED, armed := if s.state == 0 then false else s.armed), 0);
    }
  }

  /**
   * In every run over a channel that loses and reorders messages: the poll timer is armed exactly while polling,
   * operations that were put off keep the polling going, and the DHCPv4 side takes itself for started (and sends
   * queries) exactly if the last START or STOP that arrived is a START. No query is sent on that it did not send.
   */
  lemma {:induction false} RunFine(w: World, es: seq<Event>)
    requires Fine(w) && IsRun(w, es) && Accounted(w)
    ensures var v := After(w, es);
            Fine(v) && v.four.heard == LastHeard(es, w.four.heard) && Accounted(v)
    decreases |es|
  {
    if es != [] {
      assert Fine(Step(w, es[0])) by { StepFine(w, es[0]); }
      StepAccounted(w, es[0]);
      StepHeard(w, es[0]);
      RunFine(Step(w, es[0]), es[1..]);
    }
  }

  lemma InitialFine(clients: nat)
    ensures Fine(Initial(clients)) && Accounted(Initial(clients))
  {
  }

  lemma ThreeSteps(w: World, a: Event, b: Event, c: Event)
    requires Enabled(w, a) && Enabled(Step(w, a), b) && Enabled(Step(Step(w, a), b), c)
    ensures IsRun(w, [a, b, c]) && After(w, [a, b, c]) == Step(Step(Step(w, a), b), c)
  {
    var es, v := [a, b, c], Step(w, a);
    assert es[1..] == [b, c] && [b, c][1..] == [c] && [c][1..] == [];
    var u := Step(v, b);
    assert After(u, [c]) == After(Step(u, c), []) == Step(u, c);
    assert IsRun(v, [b, c]) && After(v, [b, c]) == After(u, [c]);
  }

  /** One poll that gets through while the DHCPv6 side is up gets everything that was put off going again. */
  lemma PollGetsThrough(w: World)
    requires Fine(w) && w.four.state == POLLING && !w.four.finished && w.six == STARTED
    ensures var es := [PollTimer, Arrive6(Poll), Arrive4(Start)];
            IsRun(w, es) &&
            var v := After(w, es).four;
            v.state == STARTED && !v.armed
                && (v.finished || forall c :: 0 <= c < |v.pending| ==> v.pending[c] == Nothing)
  {
    var w1 := Step(w, PollTimer);
    var w2 := Step(w1, Arrive6(Poll));
    assert Start in w2.to4;
    ThreeSteps(w, PollTimer, Arrive6(Poll), Arrive4(Start));
    ResumeDoesAll(w2.four.(heard := Start, state := STARTED, armed := false), 0);
  }

  /** In a run from the beginning, a query is sent exactly if the last START or STOP that arrived is a START. */
  lemma QueryOnlyAfterStart(clients: nat, es: seq<Event>)
    requires IsRun(Initial(clients), es) && Enabled(After(Initial(clients), es), QueryEvent)
    ensures var w := After(Initial(clients), es);
            Step(w, QueryEvent).sent > w.sent <==> LastHeard(es, Stop) == Start
  {
    InitialFine(clients);
    RunFine(Initial(clients), es);
  }

  // ----- a STOP that gets lost

  lemma HearState(s: Side4, m: Message)
    requires Sound(s)
    ensures Hear(s, m).state
            == if m == Start then STARTED else if m == Stop && s.state == STARTED then POLLING else s.state
  {
    if m == Start && !s.finished {
      ResumeDoesAll(s.(heard := Start, state := STARTED, armed := if s.state == 0 then false else s.armed), 0);
    }
  }

  /** What the step from `w` to `v` adds to the channel to the DHCPv6 side, and what it takes from it. */
  predicate Carries(w: World, e: Event, v: World) {
    var polls := e == PollTimer || (w.four.state != POLLING && v.four.state == POLLING);
    var queries := e == QueryEvent && w.four.heard == Start;
    if e.Arrive6? || e.Lose6? then v.to6 == w.to6 - multiset{e.m} && v.sent == w.sent && !polls
    else if queries then v.to6 == w.to6 + multiset{Query} && v.sent == w.sent + 1
    else v.to6 == w.to6 + (if polls then multiset{Poll} else multiset{}) && v.sent == w.sent
  }

  lemma OperationCarries(w: World, e: Event)
    requires Fine(w) && Enabled(w, e) && (e.RebootEvent? || e.ReleaseEvent?)
    ensures Carries(w, e, Step(w, e))
  {
    PutOffIff(w, e);
    assert Step(w, e).to6 == w.to6 + PollsNow(w.four) && Step(w, e).sent == w.sent;
  }

  lemma ArrivalCarries(w: World, m: Message)
    requires Fine(w) && Enabled(w, Arrive4(m))
    ensures Carries(w, Arrive4(m), Step(w, Arrive4(m)))
  {
    HearState(w.four, m);
    var v := w.(to4 := w.to4 - multiset{m}, four := Hear(w.four, m));
    assert Step(w, Arrive4(m))
           == if m == Stop && w.four.state > 0 then v.(to6 := v.to6 + multiset{Poll}) else v;
  }

  lemma SixCarries(w: World, m: Message)
    requires Fine(w) && Enabled(w, Arrive6(m))
    ensures Carries(w, Arrive6(m), Step(w, Arrive6(m)))
  {
    var v := Step(w, Arrive6(m));
    assert v.to6 == w.to6 - multiset{m} && v.four == w.four && v.sent == w.sent;
  }

  /** A POLL is sent exactly when its timer goes off and when polling begins, a query exactly after a START. */
  lemma SendsIff(w: World, e: Event)
    requires Fine(w) && Enabled(w, e)
    ensures Carries(w, e, Step(w, e))
  {
    match e {
      case RebootEvent(_) => OperationCarries(w, e);
      case ReleaseEvent(_) => OperationCarries(w, e);
      case Arrive4(m) => ArrivalCarries(w, m);
      case Arrive6(m) => SixCarries(w, m);
      case _ =>
    }
  }

  /** The answer of a server goes to the DHCPv4 side exactly if the DHCPv6 side is up. */
  lemma ResponsesIff(w: World)
    requires Fine(w)
    ensures var v := Step(w, ServerReply);
            v == w.(to4 := v.to4) && v.to4 == w.to4 + (if w.six == STARTED then multiset{Response} else multiset{})
  {
  }

  /** A reboot or a release is put off exactly if the last START or STOP heard is not a START. */
  lemma PutOffIff(w: World, e: Event)
    requires Fine(w) && Enabled(w, e) && (e.RebootEvent? || e.ReleaseEvent?)
    ensures var v := Step(w, e).four;
            if w.four.heard == Start then
              if e.ReleaseEvent? then v == w.four.(finished := true)
              else v == w.four.(pending := w.four.pending[e.c := Nothing])
            else
              && v.pending == w.four.pending[e.c := if e.ReleaseEvent? then Release else Reboot]
              && v.state == POLLING && v.armed && !v.finished
  {
  }

  /** A POLL is answered with the state of the DHCPv6 side. */
  lemma PollIsAnswered(w: World)
    requires Fine(w) && Poll in w.to6
    ensures var v := Step(w, Arrive6(Poll));
            && v == w.(to6 := v.to6, to4 := v.to4) && v.to6 == w.to6 - multiset{Poll}
            && v.to4[Start] == w.to4[Start] + (if w.six == STARTED then 1 else 0)
            && v.to4[Stop] == w.to4[Stop] + (if w.six == STARTED then 0 else 1)
  {
  }

  /** A START is sent only by a side that is up, and a STOP only by one that is down. */
  lemma AnnouncesTruth(w: World, e: Event)
    requires Fine(w) && Enabled(w, e)
    ensures Step(w, e).to4[Start] > w.to4[Start] ==> Step(w, e).six == STARTED
    ensures Step(w, e).to4[Stop] > w.to4[Stop] ==> Step(w, e).six == STOPPED
    ensures Step(w, e).six != w.six ==> Step(w, e).to4 == w.to4 + multiset{if w.six == STARTED then Stop else Start}
  {
  }

  /** The DHCPv6 side is up in some state of the run. */
  predicate EverUp(w: World, es: seq<Event>)
    requires IsRun(w, es)
    decreases |es|
  {
    w.six == STARTED || (es != [] && EverUp(Step(w, es[0]), es[1..]))
  }

  /** In every run, the DHCPv4 side hears a START only if the DHCPv6 side has been up. */
  lemma {:induction false} StartMeansUp(w: World, es: seq<Event>)
    requires Fine(w) && IsRun(w, es) && w.four.heard == Stop && Start !in w.to4
    ensures var v := After(w, es); v.four.state == STARTED || Start in v.to4 ==> EverUp(w, es)
    decreases |es|
  {
    if w.six == STOPPED && es != [] {
      var v := Step(w, es[0]);
      StepFine(w, es[0]);
      StepHeard(w, es[0]);
      AnnouncesTruth(w, es[0]);
      if v.six == STOPPED {
        assert Start !in v.to4;
        StartMeansUp(v, es[1..]);
      }
    }
  }

  /** A query that finds no server makes the DHCPv6 side say so, exactly if it has not said so before. */
  lemma QueryIsAnswered(w: World)
    requires Fine(w) && Query in w.to6 && Attempts(w.clients6) == 0
    ensures var v := Step(w, Arrive6(Query));
            v.six == STOPPED && v.to4 == w.to4 + (if w.six == STARTED then multiset{Stop} else multiset{})
  {
  }

  /** A DHCPv4 side that takes itself for started although the DHCPv6 side is stopped is about to be told. */
  predicate Told(w: World) { w.four.state == STARTED && w.six == STOPPED ==> Stop in w.to4 }

  /** A step breaks this exactly if it loses the last STOP, or delivers a START after the last STOP. */
  lemma ToldIff(w: World, e: Event)
    requires Fine(w) && Enabled(w, e) && Told(w)
    ensures Told(Step(w, e))
            <==> !(w.six == STOPPED && (if e == Arrive4(Start) then Stop !in w.to4
                                        else e == Lose4(Stop) && w.four.state == STARTED && w.to4[Stop] == 1))
  {
    StepFine(w, e);
    StepHeard(w, e);
  }

  /**
   * The DHCPv4 side takes itself for started, the DHCPv6 side is stopped, and no message that could tell either
   * side is under way.
   */
  predicate Deaf(w: World) {
    && Fine(w) && w.four.state == STARTED && w.six == STOPPED
    && Start !in w.to4 && Stop !in w.to4 && Poll !in w.to6
  }

  lemma StepDeaf(w: World, e: Event)
    requires Deaf(w) && Enabled(w, e) && (e == SixStart ==> !Found(w.clients6))
    ensures Deaf(Step(w, e))
  {
    var v := Step(w, e);
    assert Fine(v) by { StepFine(w, e); }
    assert v.four.heard == Start by { StepHeard(w, e); }
    match e {
      case Arrive6(m) =>
      case Arrive4(m) => assert m == Response || m == Query || m == Poll;
      case _ =>
    }
  }

  /** No step of the run finds the DHCPv6 side with a server again. */
  predicate NeverFound(w: World, es: seq<Event>)
    requires IsRun(w, es)
    decreases |es|
  {
    es == [] || ((es[0] == SixStart ==> !Found(w.clients6)) && NeverFound(Step(w, es[0]), es[1..]))
  }

  /** Then the DHCPv4 side stays started, and does not poll, until the DHCPv6 side finds a server and starts anew. */
  lemma {:induction false} DeafForever(w: World, es: seq<Event>)
    requires Deaf(w) && IsRun(w, es) && NeverFound(w, es)
    ensures Deaf(After(w, es)) && !After(w, es).four.armed
    decreases |es|
  {
    if es != [] {
      StepDeaf(w, es[0]);
      DeafForever(Step(w, es[0]), es[1..]);
    }
  }

  /** Both sides are up and no message is under way that says otherwise. */
  predicate Up(w: World) {
    && Fine(w) && w.four.state == STARTED && w.six == STARTED
    && Start !in w.to4 && Stop !in w.to4 && Poll !in w.to6
  }

  /** From there, the end of the lease and one lost STOP lead to that state. */
  lemma LostStopDeafens(w: World)
    requires Up(w)
    ensures var es := [LeasesChange([]), SixStart, Lose4(Stop)]; IsRun(w, es) && Deaf(After(w, es))
  {
    ThreeSteps(w, LeasesChange([]), SixStart, Lose4(Stop));
  }

  /** And the two sides come up from the beginning. */
  lemma ComesUp(clients: nat, up: seq<Client6>)
    requires Found(up)
    ensures var es := [LeasesChange(up), SixStart, Arrive4(Start)];
            IsRun(Initial(clients), es) && Up(After(Initial(clients), es))
  {
    var w := Initial(clients);
    var v := Step(Step(w, LeasesChange(up)), SixStart);
    assert v.to4 == multiset{Start};
    ThreeSteps(w, LeasesChange(up), SixStart, Arrive4(Start));
    HearSound(v.four, Start);
    ResumeDoesAll(v.four.(heard := Start, state := STARTED), 0);
  }

  // ----- as the source does it

  class Process4 {
    var state: int
    var armed: bool
    var pending: seq<Pending>
    var finished: bool
    ghost var heard: Message

    ghost function Abs(): Side4
      reads this
    {
      Side4(state, armed, pending, finished, heard)
    }

    constructor (clients: nat)
      ensures Abs() == Initial(clients).four
    {
      state, armed, finished, heard := STOPPED, false, false, Stop;
      pending := seq(clients, _ => Nothing);
    }

    method DoPoll()
      modifies this`state, this`armed
      ensures Abs() == Polled(old(Abs()))
      ensures old(Sound(Abs())) && old(state) <= 0 ==> Sound(Abs()) && armed
    {
      if state < 0 {
        state := POLLING;
      }
      armed := true;
    }

    method StateReboot(c: nat)
      requires c < |pending|
      modifies this`state, this`armed, this`pending
      ensures Abs() == RebootClient(old(Abs()), c)
      ensures old(Sound(Abs())) && !finished ==> Sound(Abs()) && (pending[c] == Reboot <==> heard != Start)
    {
      if state <= 0 {
        if state < 0 { DoPoll(); }
        pending := pending[c := Reboot];
        return;
      }
      pending := pending[c := Nothing];
    }

    method DoRelease(c: nat)
      requires c < |pending|
      modifies this`state, this`armed, this`pending, this`finished
      ensures Abs() == ReleaseClient(old(Abs()), c)
      ensures old(Sound(Abs())) && !old(finished) ==> Sound(Abs()) && (finished <==> heard == Start)
    {
      if state <= 0 {
        if state < 0 { DoPoll(); }
        pending := pending[c := Release];
        return;
      }
      finished := true;
    }

    method DoResume()
      modifies this
      ensures Abs() == Resume(old(Abs()), 0)
    {
      var c := 0;
      while c < |pending| && !finished
        invariant c <= |pending| && Resume(Abs(), c) == Resume(old(Abs()), 0)
        decreases |pending| - c, !finished
      {
        if pending[c] == Release {
          DoRelease(c);
        } else if pending[c] == Reboot {
          StateReboot(c);
        }
        c := c + 1;
      }
    }

    /** The DHCPv4 part of dhcpv4o6_handler. */
    method Receive(m: Message)
      requires Sound(Abs()) && !finished
      modifies this
      ensures Abs() == Hear(old(Abs()), m) && Sound(Abs())
    {
      HearSound(Abs(), m);
      if m == Stop {
        heard := Stop;
        if state > 0 {
          state := POLLING;
          DoPoll();
        }
      } else if m == Start {
        heard := Start;
        if state == 0 {
          armed := false;
        }
        state := STARTED;
        DoResume();
      }
    }

    /** send_dhcpv4_query: nothing is sent unless the DHCPv6 side is known to be up. */
    method SendQuery() returns (sent: bool)
      requires Sound(Abs())
      ensures sent <==> heard == Start
    {
      return !(state <= 0);
    }
  }
  /** The DHCPv6 process, with the messages that it sends to the other one. */
  class Process6 {
    var state: int
    var clients: seq<Client6>
    var outbox: multiset<Message>

    /** This side in a world whose other parts are those of `w`. */
    ghost function In(w: World): World
      reads this
    {
      w.(six := state, clients6 := clients, to4 := w.to4 + outbox)
    }

    constructor ()
      ensures state == STOPPED && clients == [] && outbox == multiset{}
    {
      state, clients, outbox := STOPPED, [], multiset{};
    }

    method DoStop(ghost w: World)
      modifies this`state, this`outbox
      ensures In(w) == StopSix(old(In(w)))
    {
      if state == STOPPED { return; }
      state := STOPPED;
      outbox := outbox + multiset{Stop};
    }

    /** The search of dhcp4o6_start. */
    method FindServer() returns (found: bool)
      ensures found <==> Found(clients)
    {
      for i := 0 to |clients|
        invariant !Found(clients[..i])
      {
        assert forall j :: 0 <= j < i ==> clients[..i + 1][j] == clients[..i][j];
        var c := clients[i];
        if !c.bound || !c.leased || c.option.None? || c.option.value % 16 != 0 { continue; }
        return true;
      }
      assert clients[..|clients|] == clients;
      return false;
    }

    /** dhcp4o6_start: the state follows what a query would find. */
    method DoStart(ghost w: World)
      modifies this`state, this`outbox
      ensures In(w) == StartSix(old(In(w)))
      ensures state == if Attempts(clients) > 0 then STARTED else STOPPED
    {
      FoundIff(clients);
      var found := FindServer();
      if !found {
        DoStop(w);
        return;
      }
      if state == STARTED { return; }
      state := STARTED;
      outbox := outbox + multiset{Start};
    }

    /** The loops of forw_dhcpv4_query, which send to every address of every option. */
    method SendToServers() returns (attempt: nat)
      ensures attempt == Attempts(clients)
    {
      attempt := 0;
      for i := 0 to |clients|
        invariant attempt == Attempts(clients[..i])
      {
        assert clients[..i + 1][..i] == clients[..i];
        var c := clients[i];
        if !c.bound || !c.leased || c.option.None? || c.option.value % 16 != 0 { continue; }
        if c.option.value == 0 {
          attempt := attempt + 1;
          continue;
        }
        var k := 0;
        while k < c.option.value
          invariant k % 16 == 0 && k <= c.option.value && attempt == Attempts(clients[..i]) + k / 16
        {
          attempt := attempt + 1;
          k := k + 16;
        }
      }
      assert clients[..|clients|] == clients;
    }

    /** The answer to a POLL. */
    method AnswerPoll(ghost w: World)
      requires Fine(In(w)) && Poll in w.to6
      modifies this`outbox
      ensures In(w.(to6 := w.to6 - multiset{Poll})) == Step(old(In(w)), Arrive6(Poll))
      ensures outbox == old(outbox) + multiset{if state == STARTED then Start else Stop}
    {
      outbox := outbox + if state < 0 then multiset{Stop} else multiset{Start};
    }

    method ForwardQuery(ghost w: World) returns (sentOn: bool)
      modifies this`state, this`outbox
      ensures In(w).(forwarded := w.forwarded + if sentOn then 1 else 0) == Forward(old(In(w)))
      ensures !sentOn ==> state == STOPPED
    {
      var attempt := SendToServers();
      sentOn := attempt > 0;
      if !sentOn {
        DoStop(w);
      }
    }
  }
}
