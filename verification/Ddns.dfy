/**
 * The forward-record DNS updates of common/dns.c: the four UPDATE messages and what a server that
 * follows sections 3.2 and 3.4 of RFC 2136 does with them, for any number of updaters.
 */
module Ddns {
  import opened Common

  type Data = seq<int>

  datatype RType = A | AAAA | DhcidRR | Txt | AnyType

  /** The CLASS field, which in an UPDATE also says what an entry asks for. */
  datatype RRClass = In | NoneClass | AnyClass

  /** One prerequisite or update entry; `data` is `None` where the source passes a null pointer. */
  datatype Entry = Entry(cls: RRClass, rtype: RType, data: Option<Data>)

  datatype Message = Message(prereqs: seq<Entry>, updates: seq<Entry>)

  /** The control-block fields that the message builders read. */
  datatype Block = Block(addrType: RType, address: Data, dhcidClass: RType, dhcid: Data,
                         includeRRset: bool, conflictOverride: bool)

  ghost predicate WellFormed(b: Block) {
    (b.addrType == A || b.addrType == AAAA) && (b.dhcidClass == DhcidRR || b.dhcidClass == Txt)
  }

  // ----- the messages

  /** ddns_modify_fwd_add1: the name (or only the address type) must be unused; add address and DHCID. */
  method BuildAdd1(b: Block) returns (m: Message)
    ensures m == Add1(b)
    ensures |m.prereqs| + |m.updates| <= 4
  {
    var pname, uname: seq<Entry> := [], [];
    if b.includeRRset {
      pname := pname + [Entry(NoneClass, b.addrType, None)];
    } else {
      pname := pname + [Entry(NoneClass, AnyType, None)];
    }
    uname := uname + [Entry(In, b.addrType, Some(b.address))];
    uname := uname + [Entry(In, b.dhcidClass, Some(b.dhcid))];
    m := Message(pname, uname);
  }

  function Add1(b: Block): Message {
    Message([Entry(NoneClass, if b.includeRRset then b.addrType else AnyType, None)],
            [Entry(In, b.addrType, Some(b.address)), Entry(In, b.dhcidClass, Some(b.dhcid))])
  }

  /** ddns_modify_fwd_add2: take the name over if the DHCID is ours, or by force on conflict override. */
  method BuildAdd2(b: Block) returns (m: Message)
    ensures m == Add2(b)
    ensures |m.prereqs| + |m.updates| <= 4
  {
    var pname, uname: seq<Entry> := [], [];
    if !b.conflictOverride {
      pname := pname + [Entry(In, b.dhcidClass, Some(b.dhcid))];
    } else {
      uname := uname + [Entry(AnyClass, b.dhcidClass, None)];
      uname := uname + [Entry(In, b.dhcidClass, Some(b.dhcid))];
    }
    uname := uname + [Entry(AnyClass, b.addrType, None)];
    uname := uname + [Entry(In, b.addrType, Some(b.address))];
    m := Message(pname, uname);
  }

  function Add2(b: Block): Message {
    var replace := [Entry(AnyClass, b.addrType, None), Entry(In, b.addrType, Some(b.address))];
    if b.conflictOverride
    then Message([], [Entry(AnyClass, b.dhcidClass, None), Entry(In, b.dhcidClass, Some(b.dhcid))] + replace)
    else Message([Entry(In, b.dhcidClass, Some(b.dhcid))], replace)
  }

  /** ddns_modify_fwd_rem1: drop our address if the DHCID is ours. */
  method BuildRem1(b: Block) returns (m: Message)
    ensures m == Rem1(b)
    ensures |m.prereqs| + |m.updates| <= 4
  {
    var pname, uname: seq<Entry> := [], [];
    pname := pname + [Entry(In, b.dhcidClass, Some(b.dhcid))];
    uname := uname + [Entry(NoneClass, b.addrType, Some(b.address))];
    m := Message(pname, uname);
  }

  function Rem1(b: Block): Message {
    Message([Entry(In, b.dhcidClass, Some(b.dhcid))], [Entry(NoneClass, b.addrType, Some(b.address))])
  }

  /** ddns_modify_fwd_rem2: drop our DHCID once the name has no address of either type. */
  method BuildRem2(b: Block) returns (m: Message)
    ensures m == Rem2(b)
    ensures |m.prereqs| + |m.updates| <= 4
  {
    var pname, uname: seq<Entry> := [], [];
    pname := pname + [Entry(NoneClass, A, None)];
    pname := pname + [Entry(NoneClass, AAAA, None)];
    uname := uname + [Entry(NoneClass, b.dhcidClass, Some(b.dhcid))];
    m := Message(pname, uname);
  }

  function Rem2(b: Block): Message {
    Message([Entry(NoneClass, A, None), Entry(NoneClass, AAAA, None)],
            [Entry(NoneClass, b.dhcidClass, Some(b.dhcid))])
  }

  datatype Kind = AddFirst | AddSecond | RemFirst | RemSecond

  function Build(k: Kind, b: Block): Message {
    match k
    case AddFirst => Add1(b)
    case AddSecond => Add2(b)
    case RemFirst => Rem1(b)
    case RemSecond => Rem2(b)
  }

  // ----- the server

  datatype RR = RR(rtype: RType, data: Data)

  /**
   * The records at one name. The map's values are bookkeeping that the server does not look at:
   * the clients, named by their DHCID data, that added the record since it was last absent.
   */
  type Node = map<RR, set<Data>>

  ghost function RRset(node: Node, t: RType): set<RR> {
    set r | r in node && r.rtype == t
  }

  /** Section 3.2.3 of RFC 2136: the records that the IN prerequisites list for one type. */
  ghost function Listed(prereqs: seq<Entry>, t: RType): set<RR> {
    set e | e in prereqs && e.cls == In && e.rtype == t && e.data.Some? :: RR(t, e.data.value)
  }

  /** Section 3.2 of RFC 2136: does the node meet one prerequisite of the message? */
  ghost predicate Meets(node: Node, e: Entry, prereqs: seq<Entry>) {
    match e.cls
    case AnyClass => if e.rtype == AnyType then node != map[] else RRset(node, e.rtype) != {}
    case NoneClass => if e.rtype == AnyType then node == map[] else RRset(node, e.rtype) == {}
    case In => RRset(node, e.rtype) == Listed(prereqs, e.rtype)
  }

  ghost predicate Accepts(node: Node, m: Message) {
    forall e :: e in m.prereqs ==> Meets(node, e, m.prereqs)
  }

  /** Section 3.4.2 of RFC 2136: one entry of the update section. */
  ghost function Apply(node: Node, e: Entry, sender: Data): Node {
    match (e.cls, e.data)
    case (In, Some(d)) =>
      var r := RR(e.rtype, d);
      node[r := (if r in node then node[r] else {}) + {sender}]
    case (NoneClass, Some(d)) => map r | r in node && r != RR(e.rtype, d) :: node[r]
    case (AnyClass, None) =>
      if e.rtype == AnyType then map[] else map r | r in node && r.rtype != e.rtype :: node[r]
    case _ => node
  }

  ghost function ApplyAll(node: Node, es: seq<Entry>, sender: Data): Node
    decreases |es|
  {
    if es == [] then node else ApplyAll(Apply(node, es[0], sender), es[1..], sender)
  }

  /** A message is applied as a whole if all its prerequisites hold, and otherwise not at all. */
  ghost function Deliver(node: Node, m: Message, sender: Data): Node {
    if Accepts(node, m) then ApplyAll(node, m.updates, sender) else node
  }

  // ----- what each message does, in closed form

  ghost predicate IsAddress(r: RR) { r.rtype == A || r.rtype == AAAA }

  ghost function Own(b: Block): RR { RR(b.dhcidClass, b.dhcid) }

  ghost function Addr(b: Block): RR { RR(b.addrType, b.address) }

  ghost function With(node: Node, r: RR, c: Data): Node {
    node[r := (if r in node then node[r] else {}) + {c}]
  }

  ghost function Without(node: Node, t: RType): Node {
    map r | r in node && r.rtype != t :: node[r]
  }

  lemma ApplyTwo(node: Node, e: Entry, f: Entry, c: Data)
    ensures ApplyAll(node, [e], c) == Apply(node, e, c)
    ensures ApplyAll(node, [e, f], c) == Apply(Apply(node, e, c), f, c)
  {
    assert [e][1..] == [] && [f][1..] == [] && [e, f][1..] == [f];
    assert ApplyAll(Apply(node, e, c), [f], c) == ApplyAll(Apply(Apply(node, e, c), f, c), [], c);
  }

  lemma NoAddress(node: Node)
    requires RRset(node, A) == {} && RRset(node, AAAA) == {}
    ensures forall r :: r in node ==> !IsAddress(r)
  {
    forall r | r in node ensures !IsAddress(r) { assert r in RRset(node, r.rtype); }
  }

  lemma Add1Effect(node: Node, b: Block)
    requires WellFormed(b)
    ensures Accepts(node, Add1(b)) <==> if b.includeRRset then RRset(node, b.addrType) == {} else node == map[]
    ensures Accepts(node, Add1(b)) ==>
        Deliver(node, Add1(b), b.dhcid) == With(With(node, Addr(b), b.dhcid), Own(b), b.dhcid)
  {
    var m := Add1(b);
    assert m.prereqs[0] in m.prereqs;
    ApplyTwo(node, m.updates[0], m.updates[1], b.dhcid);
  }

  lemma ListedOne(t: RType, d: Data)
    ensures Listed([Entry(In, t, Some(d))], t) == {RR(t, d)}
  {
    var ps := [Entry(In, t, Some(d))];
    assert ps[0] in ps;
  }

  /** add2 without override takes effect exactly when the DHCID RRset is the updater's own DHCID. */
  lemma Add2Effect(node: Node, b: Block)
    requires WellFormed(b) && !b.conflictOverride
    ensures Accepts(node, Add2(b)) <==> RRset(node, b.dhcidClass) == {Own(b)}
    ensures Accepts(node, Add2(b)) ==>
        Deliver(node, Add2(b), b.dhcid) == With(Without(node, b.addrType), Addr(b), b.dhcid)
  {
    var m := Add2(b);
    assert m.prereqs[0] in m.prereqs;
    ListedOne(b.dhcidClass, b.dhcid);
    ApplyTwo(node, m.updates[0], m.updates[1], b.dhcid);
  }

  /** rem1 takes effect exactly when the DHCID RRset is the updater's own DHCID. */
  lemma Rem1Effect(node: Node, b: Block)
    requires WellFormed(b)
    ensures Accepts(node, Rem1(b)) <==> RRset(node, b.dhcidClass) == {Own(b)}
    ensures Accepts(node, Rem1(b)) ==> Deliver(node, Rem1(b), b.dhcid) == node - {Addr(b)}
  {
    var m := Rem1(b);
    assert m.prereqs[0] in m.prereqs;
    ListedOne(b.dhcidClass, b.dhcid);
    ApplyTwo(node, m.updates[0], m.updates[0], b.dhcid);
  }

  lemma Rem2Effect(node: Node, b: Block)
    requires WellFormed(b)
    ensures Accepts(node, Rem2(b)) <==> RRset(node, A) == {} && RRset(node, AAAA) == {}
    ensures Accepts(node, Rem2(b)) ==> Deliver(node, Rem2(b), b.dhcid) == node - {Own(b)}
  {
    var m := Rem2(b);
    assert m.prereqs[0] in m.prereqs && m.prereqs[1] in m.prereqs;
    ApplyTwo(node, m.updates[0], m.updates[0], b.dhcid);
  }

  // ----- safety of every interleaving

  /** Every client that added an address record of the node has its DHCID in the node's DHCID RRset. */
  ghost predicate Owned(node: Node, cls: RType) {
    forall r, c :: r in node && IsAddress(r) && c in node[r] ==> RR(cls, c) in node
  }

  /** No other client's address record is lost between two states of a node. */
  ghost predicate KeepsOthers(before: Node, after: Node, sender: Data) {
    forall r, c :: r in before && IsAddress(r) && c in before[r] && c != sender ==> r in after && c in after[r]
  }

  /** An update without conflict override that uses the DHCID record type `cls`. */
  ghost predicate Fair(b: Block, cls: RType) {
    WellFormed(b) && b.dhcidClass == cls && !b.conflictOverride
  }

  /** With an exact-match prerequisite met, every address record of the node is the updater's own. */
  lemma OnlyMine(node: Node, b: Block)
    requires WellFormed(b) && Owned(node, b.dhcidClass) && RRset(node, b.dhcidClass) == {Own(b)}
    ensures forall r, c :: r in node && IsAddress(r) && c in node[r] ==> c == b.dhcid
  {
    forall r, c | r in node && IsAddress(r) && c in node[r] ensures c == b.dhcid {
      assert RR(b.dhcidClass, c) in RRset(node, b.dhcidClass);
    }
  }

  lemma StepSafe(node: Node, k: Kind, b: Block)
    requires Fair(b, b.dhcidClass) && Owned(node, b.dhcidClass)
    ensures Owned(Deliver(node, Build(k, b), b.dhcid), b.dhcidClass)
    ensures KeepsOthers(node, Deliver(node, Build(k, b), b.dhcid), b.dhcid)
  {
    match k {
      case AddFirst => Add1Effect(node, b);
      case AddSecond =>
        Add2Effect(node, b);
        if Accepts(node, Add2(b)) {
          assert Own(b) in RRset(node, b.dhcidClass);
          OnlyMine(node, b);
        }
      case RemFirst =>
        Rem1Effect(node, b);
        if Accepts(node, Rem1(b)) { OnlyMine(node, b); }
      case RemSecond =>
        Rem2Effect(node, b);
        if Accepts(node, Rem2(b)) { NoAddress(node); }
    }
  }

  /** A message as it reaches the server: some updater's `kind` message for `name`. */
  datatype Arrival = Arrival(name: string, kind: Kind, block: Block)

  type Zone = map<string, Node>

  ghost function At(z: Zone, name: string): Node { if name in z then z[name] else map[] }

  ghost function Receive(z: Zone, a: Arrival): Zone {
    z[a.name := Deliver(At(z, a.name), Build(a.kind, a.block), a.block.dhcid)]
  }

  ghost function Run(z: Zone, arrivals: seq<Arrival>): Zone
    decreases |arrivals|
  {
    if arrivals == [] then z else Run(Receive(z, arrivals[0]), arrivals[1..])
  }

  ghost predicate AllFair(arrivals: seq<Arrival>, cls: RType) {
    forall i :: 0 <= i < |arrivals| ==> Fair(arrivals[i].block, cls)
  }

  ghost predicate ZoneOwned(z: Zone, cls: RType) {
    forall n :: n in z ==> Owned(z[n], cls)
  }

  /** In any interleaving, lost or repeated messages included, the ownership invariant holds throughout. */
  lemma {:induction false} RunOwned(z: Zone, arrivals: seq<Arrival>, cls: RType)
    requires ZoneOwned(z, cls) && AllFair(arrivals, cls)
    ensures ZoneOwned(Run(z, arrivals), cls)
    decreases |arrivals|
  {
    if arrivals != [] {
      var a := arrivals[0];
      assert Owned(At(z, a.name), cls);
      StepSafe(At(z, a.name), a.kind, a.block);
      RunOwned(Receive(z, a), arrivals[1..], cls);
    }
  }

  /** No message of a run takes away an address record that another client added, at any name. */
  lemma RunKeepsOthers(z: Zone, arrivals: seq<Arrival>, cls: RType, i: nat, name: string)
    requires ZoneOwned(z, cls) && AllFair(arrivals, cls) && i < |arrivals|
    ensures var before := Run(z, arrivals[..i]);
            KeepsOthers(At(before, name), At(Receive(before, arrivals[i]), name), arrivals[i].block.dhcid)
  {
    RunOwned(z, arrivals[..i], cls);
    var before, a := Run(z, arrivals[..i]), arrivals[i];
    assert Owned(At(before, a.name), cls);
    StepSafe(At(before, a.name), a.kind, a.block);
  }

  /** A client's address record survives any run in which that client sends nothing. */
  lemma {:induction false} RecordSurvives(z: Zone, arrivals: seq<Arrival>, cls: RType, name: string, r: RR, c: Data)
    requires ZoneOwned(z, cls) && AllFair(arrivals, cls) && IsAddress(r)
    requires forall i :: 0 <= i < |arrivals| ==> arrivals[i].block.dhcid != c
    requires r in At(z, name) && c in At(z, name)[r]
    ensures r in At(Run(z, arrivals), name) && c in At(Run(z, arrivals), name)[r]
    decreases |arrivals|
  {
    if arrivals != [] {
      var a := arrivals[0];
      assert Owned(At(z, a.name), cls);
      StepSafe(At(z, a.name), a.kind, a.block);
      RecordSurvives(Receive(z, a), arrivals[1..], cls, name, r, c);
    }
  }

  // ----- when the name is the unit of ownership

  /** One DHCID and nothing at the name that some other client added. */
  ghost predicate Exclusive(node: Node, cls: RType) {
    node == map[] || exists d :: RRset(node, cls) == {RR(cls, d)} && SoleOwner(node, cls, d)
  }

  ghost predicate SoleOwner(node: Node, cls: RType, d: Data) {
    forall r :: r in node ==> node[r] == {d} && (IsAddress(r) || r == RR(cls, d))
  }

  /** Without DDNS_INCLUDE_RRSET the first client to take an unused name has it alone. */
  lemma StepExclusive(node: Node, k: Kind, b: Block)
    requires Fair(b, b.dhcidClass) && !b.includeRRset && Exclusive(node, b.dhcidClass)
    ensures Exclusive(Deliver(node, Build(k, b), b.dhcid), b.dhcidClass)
  {
    var cls, after := b.dhcidClass, Deliver(node, Build(k, b), b.dhcid);
    match k {
      case AddFirst =>
        Add1Effect(node, b);
        if Accepts(node, Add1(b)) {
          assert RRset(after, cls) == {Own(b)} && SoleOwner(after, cls, b.dhcid);
        }
      case AddSecond =>
        Add2Effect(node, b);
        if Accepts(node, Add2(b)) {
          assert Own(b) in RRset(node, cls);
          assert RRset(after, cls) == RRset(node, cls) && SoleOwner(after, cls, b.dhcid);
        }
      case RemFirst =>
        Rem1Effect(node, b);
        if Accepts(node, Rem1(b)) {
          assert Own(b) in RRset(node, cls);
          assert RRset(after, cls) == RRset(node, cls) && SoleOwner(after, cls, b.dhcid);
        }
      case RemSecond =>
        Rem2Effect(node, b);
        if Accepts(node, Rem2(b)) && node != map[] {
          var d :| RRset(node, cls) == {RR(cls, d)} && SoleOwner(node, cls, d);
          NoAddress(node);
          if d == b.dhcid {
            assert after == map[];
          } else {
            assert after == node;
          }
        }
    }
  }

  lemma {:induction false} RunExclusive(z: Zone, arrivals: seq<Arrival>, cls: RType)
    requires AllFair(arrivals, cls) && (forall i :: 0 <= i < |arrivals| ==> !arrivals[i].block.includeRRset)
    requires forall n :: n in z ==> Exclusive(z[n], cls)
    ensures forall n :: n in Run(z, arrivals) ==> Exclusive(Run(z, arrivals)[n], cls)
    decreases |arrivals|
  {
    if arrivals != [] {
      var a := arrivals[0];
      assert Exclusive(At(z, a.name), cls);
      StepExclusive(At(z, a.name), a.kind, a.block);
      RunExclusive(Receive(z, a), arrivals[1..], cls);
    }
  }

  // ----- with DDNS_INCLUDE_RRSET a shared name can no longer be cleaned up

  /** Two DHCIDs and an address: no exact-match prerequisite, and no address-free one, can hold. */
  ghost predicate Stuck(node: Node, cls: RType) {
    && (exists r :: r in node && IsAddress(r))
    && (exists d, e :: d != e && RR(cls, d) in node && RR(cls, e) in node)
  }

  ghost predicate Grows(before: Node, after: Node) {
    forall r :: r in before ==> r in after && before[r] <= after[r]
  }

  lemma StepStuck(node: Node, k: Kind, b: Block)
    requires Fair(b, b.dhcidClass) && Stuck(node, b.dhcidClass)
    ensures Grows(node, Deliver(node, Build(k, b), b.dhcid))
    ensures k != AddFirst ==> Deliver(node, Build(k, b), b.dhcid) == node
  {
    var cls := b.dhcidClass;
    var a :| a in node && IsAddress(a);
    var d, e :| d != e && RR(cls, d) in node && RR(cls, e) in node;
    assert a in RRset(node, a.rtype);
    assert RR(cls, d) in RRset(node, cls) && RR(cls, e) in RRset(node, cls);
    match k {
      case AddFirst => Add1Effect(node, b);
      case AddSecond => Add2Effect(node, b);
      case RemFirst => Rem1Effect(node, b);
      case RemSecond => Rem2Effect(node, b);
    }
  }

  /** From then on nothing at that name is ever deleted again, by anyone, in any run. */
  lemma {:induction false} StuckForever(z: Zone, arrivals: seq<Arrival>, cls: RType, name: string)
    requires AllFair(arrivals, cls) && Stuck(At(z, name), cls)
    ensures Stuck(At(Run(z, arrivals), name), cls) && Grows(At(z, name), At(Run(z, arrivals), name))
    decreases |arrivals|
  {
    if arrivals != [] {
      var a := arrivals[0];
      var z' := Receive(z, a);
      if a.name == name { StepStuck(At(z, name), a.kind, a.block); }
      GrowingStaysStuck(At(z, name), At(z', name), cls);
      StuckForever(z', arrivals[1..], cls, name);
    }
  }

  lemma GrowingStaysStuck(before: Node, after: Node, cls: RType)
    requires Stuck(before, cls) && Grows(before, after)
    ensures Stuck(after, cls)
  {
    var a :| a in before && IsAddress(a);
    var d, e :| d != e && RR(cls, d) in before && RR(cls, e) in before;
    assert a in after && RR(cls, d) in after && RR(cls, e) in after;
  }

  /** Two clients reach that state by taking one name for one address family each. */
  lemma SharedNameIsStuck(first: Block, second: Block)
    requires Fair(first, DhcidRR) && Fair(second, DhcidRR) && first.dhcid != second.dhcid
    requires first.addrType == AAAA && second.addrType == A && second.includeRRset
    ensures var n1 := Deliver(map[], Add1(first), first.dhcid);
            Stuck(Deliver(n1, Add1(second), second.dhcid), DhcidRR)
  {
    var n1 := Deliver(map[], Add1(first), first.dhcid);
    assert RRset(map[], AAAA) == {};
    Add1Effect(map[], first);
    assert RRset(n1, A) == {};
    Add1Effect(n1, second);
    var n2 := Deliver(n1, Add1(second), second.dhcid);
    assert Addr(first) in n2 && Own(first) in n2 && Own(second) in n2;
  }

  // ----- adding and then removing

  /** The driver's removal: the second message is sent only if the first one succeeded. */
  ghost function Remove(node: Node, b: Block): Node {
    var n1 := Deliver(node, Rem1(b), b.dhcid);
    if Accepts(node, Rem1(b)) then Deliver(n1, Rem2(b), b.dhcid) else n1
  }

  /**
   * The driver's update: the second message is sent only if the first one failed with YXRRSET, that is, if its
   * prerequisite was about the address type; a name that is in use at all fails with YXDOMAIN and ends the update.
   */
  ghost function Update(node: Node, b: Block): Node {
    if Accepts(node, Add1(b)) then Deliver(node, Add1(b), b.dhcid)
    else if b.includeRRset then Deliver(node, Add2(b), b.dhcid)
    else node
  }

  lemma FreshNode(b: Block)
    requires WellFormed(b)
    ensures With(With(map[], Addr(b), b.dhcid), Own(b), b.dhcid) == map[Addr(b) := {b.dhcid}, Own(b) := {b.dhcid}]
  {
    assert {} + {b.dhcid} == {b.dhcid};
  }

  /** On an unused name, an update followed by a removal of the same address leaves no trace. */
  lemma UpdateThenRemove(b: Block)
    requires Fair(b, b.dhcidClass)
    ensures Remove(Update(map[], b), b) == map[]
  {
    assert RRset(map[], b.addrType) == {};
    Add1Effect(map[], b);
    var n1 := Update(map[], b);
    FreshNode(b);
    assert RRset(n1, b.dhcidClass) == {Own(b)};
    Rem1Effect(n1, b);
    var n2 := Deliver(n1, Rem1(b), b.dhcid);
    assert n2 == map[Own(b) := {b.dhcid}];
    assert RRset(n2, A) == {} && RRset(n2, AAAA) == {};
    Rem2Effect(n2, b);
  }

  /** A renewal that moved to another address replaces the old one exactly if the updates carry DDNS_INCLUDE_RRSET. */
  lemma UpdateReplacesIff(b: Block, address: Data)
    requires Fair(b, b.dhcidClass)
    ensures Update(Update(map[], b), b.(address := address)) == Update(map[], b.(address := address))
            <==> b.includeRRset || address == b.address
  {
    var b' := b.(address := address);
    assert RRset(map[], b.addrType) == {};
    Add1Effect(map[], b);
    Add1Effect(map[], b');
    var n1 := Update(map[], b);
    FreshNode(b);
    assert Addr(b) in RRset(n1, b.addrType);
    Add1Effect(n1, b');
    assert RRset(n1, b.dhcidClass) == {Own(b)};
    Add2Effect(n1, b');
    FreshNode(b');
    assert address != b.address ==> Addr(b') !in n1;
  }

  // ----- the two conditions of safety are needed

  lemma OverrideEffect(node: Node, b: Block)
    requires WellFormed(b) && b.conflictOverride
    ensures Accepts(node, Add2(b))
    ensures Deliver(node, Add2(b), b.dhcid)
            == With(Without(With(Without(node, b.dhcidClass), Own(b), b.dhcid), b.addrType), Addr(b), b.dhcid)
  {
    var es, c := Add2(b).updates, b.dhcid;
    var n2 := Apply(Apply(node, es[0], c), es[1], c);
    assert es[1..][1..] == es[2..] == [es[2], es[3]] && es[1..][0] == es[1];
    assert ApplyAll(Apply(node, es[0], c), es[1..], c) == ApplyAll(n2, es[2..], c);
    ApplyTwo(n2, es[2], es[3], c);
  }

  /** Every record of the type, if there is one at the name, was added by the client alone. */
  ghost predicate Alone(node: Node, t: RType, c: Data) {
    forall r, d :: r in node && r.rtype == t && d in node[r] ==> d == c
  }

  /** With conflict override, add2 spares the others exactly when none of them has a record of the type. */
  lemma OverrideSafeIff(node: Node, b: Block)
    requires WellFormed(b) && b.conflictOverride
    ensures KeepsOthers(node, Deliver(node, Add2(b), b.dhcid), b.dhcid)
            <==> Alone(node, b.addrType, b.dhcid)
  {
    OverrideEffect(node, b);
    var after := Deliver(node, Add2(b), b.dhcid);
    forall r, c | r in node && r.rtype == b.addrType && c in node[r] && c != b.dhcid
      ensures !KeepsOthers(node, after, b.dhcid)
    {
      assert IsAddress(r) && !(r in after && c in after[r]);
    }
  }

  /** A client that finds another one at a name of the same family, and forces its update, takes the name. */
  lemma OverrideTakesOver(first: Block, second: Block)
    requires Fair(first, first.dhcidClass) && WellFormed(second) && second.conflictOverride
    requires first.dhcid != second.dhcid && first.addrType == second.addrType
    ensures var n1 := Deliver(map[], Add1(first), first.dhcid);
            Owned(n1, first.dhcidClass) && !KeepsOthers(n1, Deliver(n1, Add2(second), second.dhcid), second.dhcid)
  {
    var n1 := Deliver(map[], Add1(first), first.dhcid);
    assert RRset(map[], first.addrType) == {};
    Add1Effect(map[], first);
    FreshNode(first);
    assert Addr(first) in n1 && first.dhcid in n1[Addr(first)];
    OverrideSafeIff(n1, second);
  }

  /** Whoever else uses whatever DHCID record type: add2 spares the others exactly in this case. */
  lemma Add2SafeIff(node: Node, b: Block)
    requires WellFormed(b) && !b.conflictOverride
    ensures KeepsOthers(node, Deliver(node, Add2(b), b.dhcid), b.dhcid)
            <==> (RRset(node, b.dhcidClass) == {Own(b)} ==> Alone(node, b.addrType, b.dhcid))
  {
    Add2Effect(node, b);
    var after := Deliver(node, Add2(b), b.dhcid);
    if RRset(node, b.dhcidClass) == {Own(b)} {
      forall r, d | r in node && r.rtype == b.addrType && d in node[r] && d != b.dhcid
        ensures !KeepsOthers(node, after, b.dhcid)
      {
        assert IsAddress(r) && !(r in after && d in after[r]);
      }
    }
  }

  /** And rem1 exactly in this one. */
  lemma Rem1SafeIff(node: Node, b: Block)
    requires WellFormed(b)
    ensures KeepsOthers(node, Deliver(node, Rem1(b), b.dhcid), b.dhcid)
            <==> (RRset(node, b.dhcidClass) == {Own(b)} && Addr(b) in node ==>
                forall d :: d in node[Addr(b)] ==> d == b.dhcid)
  {
    Rem1Effect(node, b);
    var after := Deliver(node, Rem1(b), b.dhcid);
    if RRset(node, b.dhcidClass) == {Own(b)} && Addr(b) in node {
      forall d | d in node[Addr(b)] && d != b.dhcid ensures !KeepsOthers(node, after, b.dhcid) {
        assert IsAddress(Addr(b)) && Addr(b) !in after;
      }
    }
  }

  /** The other two messages never touch another client's address. */
  lemma Add1Rem2Safe(node: Node, b: Block)
    requires WellFormed(b)
    ensures KeepsOthers(node, Deliver(node, Add1(b), b.dhcid), b.dhcid)
    ensures KeepsOthers(node, Deliver(node, Rem2(b), b.dhcid), b.dhcid)
  {
    Add1Effect(node, b);
    Rem2Effect(node, b);
  }

  /**
   * Updaters that keep identities in different record types do not see each other's claims. In a run from an unused
   * name, one client adds and drops its address, another one takes the name, and the first one's next update deletes
   * the other's address.
   */
  lemma MixedStylesTakeOver(first: Block, second: Block, address: Data)
    requires Fair(first, Txt) && Fair(second, DhcidRR) && first.dhcid != second.dhcid
    requires first.addrType == second.addrType && second.includeRRset
    ensures var n1 := Deliver(map[], Add1(first), first.dhcid);
            var n2 := Deliver(n1, Rem1(first), first.dhcid);
            var n3 := Deliver(n2, Add1(second), second.dhcid);
            var n4 := Deliver(n3, Add2(first.(address := address)), first.dhcid);
            Addr(second) in n3 && !KeepsOthers(n3, n4, first.dhcid)
  {
    var n1 := Deliver(map[], Add1(first), first.dhcid);
    assert RRset(map[], first.addrType) == {};
    Add1Effect(map[], first);
    FreshNode(first);
    assert RRset(n1, Txt) == {Own(first)};
    Rem1Effect(n1, first);
    var n2 := Deliver(n1, Rem1(first), first.dhcid);
    assert n2 == map[Own(first) := {first.dhcid}];
    assert RRset(n2, second.addrType) == {};
    Add1Effect(n2, second);
    var n3 := Deliver(n2, Add1(second), second.dhcid);
    var again := first.(address := address);
    assert RRset(n3, Txt) == {Own(first)} && Own(first) == Own(again);
    assert second.dhcid in n3[Addr(second)] && Addr(second).rtype == again.addrType;
    Add2SafeIff(n3, again);
  }
}
