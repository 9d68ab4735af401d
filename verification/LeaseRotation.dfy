/** state_panic on its linked list of leases (client/dhclient.c), against the rotation it should perform. */
module LeaseRotation {
  import opened Common
  import opened Dhcp4

  /** A `struct client_lease` as the list code sees it. */
  class LeaseNode {
    const lease: Lease
    var next: LeaseNode?

    constructor (lease: Lease)
      ensures this.lease == lease && next == null
    {
      this.lease := lease;
      this.next := null;
    }
  }

  ghost predicate Distinct(s: seq<LeaseNode>) {
    forall i, j :: 0 <= i < j < |s| ==> s[i] != s[j]
  }

  /** `head` is the first node of a list that holds exactly the nodes of `s` in that order. */
  ghost predicate Linked(head: LeaseNode?, s: seq<LeaseNode>)
    reads s
  {
    && (if s == [] then head == null else head == s[0])
    && (forall i :: 0 <= i < |s| - 1 ==> s[i].next == s[i + 1])
    && (s != [] ==> s[|s| - 1].next == null)
  }

  ghost function LeasesOf(s: seq<LeaseNode>): (ls: seq<Lease>)
    ensures |ls| == |s|
  {
    seq(|s|, i requires 0 <= i < |s| => s[i].lease)
  }

  /** The nodes among `s` that the script is asked about: those that have not expired. */
  ghost function Unexpired(s: seq<LeaseNode>, now: int): seq<LeaseNode> {
    if s == [] then []
    else Unexpired(s[..|s| - 1], now) + (if s[|s| - 1].lease.expiry > now then [s[|s| - 1]] else [])
  }

  lemma UnexpiredNext(s: seq<LeaseNode>, k: nat, now: int)
    requires k < |s|
    ensures Unexpired(s[..k + 1], now) == Unexpired(s[..k], now) + (if s[k].lease.expiry > now then [s[k]] else [])
  {
    assert s[..k + 1][..k] == s[..k];
  }

  /** The script is asked about no lease twice. */
  lemma {:induction false} UnexpiredDistinct(s: seq<LeaseNode>, now: int)
    requires Distinct(s)
    ensures Distinct(Unexpired(s, now))
    ensures forall n :: n in Unexpired(s, now) <==> n in s && n.lease.expiry > now
  {
    if s != [] {
      var p, last := s[..|s| - 1], s[|s| - 1];
      UnexpiredDistinct(p, now);
      assert s == p + [last];
      forall i | 0 <= i < |p| ensures p[i] != last { assert p[i] == s[i]; }
    }
  }

  /** The list and the active node after the first `k` candidates of `order` have been passed over. */
  ghost function RotatedList(order: seq<LeaseNode>, k: nat): seq<LeaseNode>
    requires k < |order|
  {
    order[k + 1..] + order[..k]
  }

  class LeaseList {
    var active: LeaseNode?
    var leases: LeaseNode?
    ghost var list: seq<LeaseNode>

    /** The active node is off the list; its own link may be stale, but not when the list is empty. */
    ghost predicate Valid()
      reads this, list, active
    {
      && Distinct(list) && Linked(leases, list)
      && (active != null ==> active !in list)
      && (active != null && list == [] ==> active.next == null)
    }

    /** The candidates in the order in which they are tried. */
    ghost function Order(): seq<LeaseNode>
      reads this
    {
      (if active != null then [active] else []) + list
    }

    /** The active lease as a value. */
    ghost function Active(): Option<Lease>
      reads this
    {
      if active == null then None else Some(active.lease)
    }

    constructor ()
      ensures Valid() && active == null && list == []
    {
      active, leases, list := null, null, [];
    }

    /** A new lease takes the place of the active one. */
    method SetActive(lease: Lease)
      requires Valid()
      modifies this
      ensures Valid() && list == old(list) && Active() == Some(lease) && fresh(active)
    {
      active := new LeaseNode(lease);
    }

    method DropActive()
      requires Valid()
      modifies this
      ensures Valid() && list == old(list) && active == null
    {
      active := null;
    }

    /** The last node of a list that is not empty. */
    method FindLast() returns (lp: LeaseNode)
      requires Valid() && list != []
      ensures lp == list[|list| - 1]
    {
      lp := leases;
      ghost var i := 0;
      while lp.next != null
        invariant Valid() && 0 <= i < |list| && lp == list[i]
        invariant i < |list| - 1 ==> lp.next == list[i + 1]
        decreases |list| - i
      {
        lp := lp.next;
        i := i + 1;
      }
    }

    /** activate_next: the active node goes to the end of the list and the first node becomes active. */
    method ActivateNext()
      requires Valid() && list != []
      modifies this, list, active
      ensures Valid()
      ensures active == old(list[0])
      ensures list == old(list[1..]) + (if old(active) != null then [old(active)] else [])
    {
      var lp := FindLast();
      lp.next := active;
      if lp.next != null {
        lp.next.next := null;
      }
      ghost var was := list;
      ghost var whole := list + (if active != null then [active] else []);
      assert Linked(leases, whole);
      active := leases;
      leases := leases.next;
      list := whole[1..];
    }

    /** Candidate `k` of `order` is active and the others are on the list, in the order they come next. */
    ghost predicate At(order: seq<LeaseNode>, k: nat)
      reads this, list, active
    {
      && Valid() && Distinct(order)
      && k < |order| && active == order[k] && list == RotatedList(order, k)
    }

    /** Every candidate has been passed over. */
    ghost predicate Exhausted(order: seq<LeaseNode>)
      reads this, list, active
    {
      && Valid()
      && if |order| <= 1 then active == null && list == order else active == order[0] && list == order[1..]
    }

    /** After a candidate that cannot be used: give up if it was the only or the last one, or go on. */
    method PassOver(loop: LeaseNode, ghost order: seq<LeaseNode>, ghost k: nat) returns (done: bool)
      requires At(order, k) && loop == order[0]
      modifies this, order
      ensures done <==> k + 1 == |order|
      ensures done ==> Exhausted(order)
      ensures !done ==> At(order, k + 1)
    {
      if leases == null {
        assert |order| == 1 && order == [active];
        active, leases, list := null, active, order;
        return true;
      }
      assert |list| >= 1 && |order| >= 2;
      RotateOnce(order, k);
      ActivateNext();
      if k + 1 < |order| { assert order[k + 1] != order[0]; }
      return active == loop;
    }

    /** Runs the script on the active lease if that has not expired; `asked` records it. */
    method Consult(now: int, works: set<Lease>, ghost order: seq<LeaseNode>, ghost k: nat, ghost tried: seq<LeaseNode>)
      returns (ok: bool, ghost asked: seq<LeaseNode>)
      requires k < |order| && active == order[k] && tried == Unexpired(order[..k], now)
      ensures ok == Usable(order[k].lease, now, works)
      ensures asked == Unexpired(order[..k + 1], now)
    {
      UnexpiredNext(order, k, now);
      ok, asked := false, tried;
      if active.lease.expiry > now {
        asked := asked + [active];
        ok := active.lease in works;
      }
    }

    /** Makes the first candidate active. */
    method Begin(ghost order: seq<LeaseNode>) returns (loop: LeaseNode)
      requires Valid() && order == Order() && order != []
      modifies this, order
      ensures At(order, 0) && loop == order[0]
    {
      if active == null {
        ActivateNext();
      }
      assert order[1..] + order[..0] == order[1..];
      loop := active;
    }

    /** How the loop ended, in terms of the candidates it started with. */
    ghost predicate Ended(order: seq<LeaseNode>, now: int, works: set<Lease>, found: bool, tried: seq<LeaseNode>)
      reads this, list, active
    {
      var k := FirstUsable(LeasesOf(order), now, works);
      && found == k.Some?
      && (found ==> At(order, k.value))
      && (!found ==> Exhausted(order))
      && tried == Unexpired(order[..if found then k.value + 1 else |order|], now)
    }

    /** The loop of state_panic, from candidate `k` on. */
    method TryFrom(now: int, works: set<Lease>, loop: LeaseNode, ghost order: seq<LeaseNode>)
      returns (found: bool, ghost tried: seq<LeaseNode>)
      requires At(order, 0) && loop == order[0]
      modifies this, order
      ensures Ended(order, now, works, found, tried)
    {
      ghost var k := 0;
      tried := [];
      while true
        modifies this, order
        invariant At(order, k) && NoneBefore(order, k, now, works)
        invariant tried == Unexpired(order[..k], now)
        decreases |order| - k
      {
        found, tried := Consult(now, works, order, k, tried);
        if found {
          UsableFirst(order, k, now, works);
          return;
        }
        var done := PassOver(loop, order, k);
        k := k + 1;
        if done {
          NoneUsable(order, now, works);
          return;
        }
      }
    }

    /**
     * state_panic on the leases. `works` are the leases that the script accepts; `tried` records for which
     * leases the script was run.
     */
    method TryLeases(now: int, works: set<Lease>) returns (found: bool, ghost tried: seq<LeaseNode>)
      requires Valid()
      modifies this, list, active
      ensures Ended(old(Order()), now, works, found, tried)
    {
      ghost var order := Order();
      found, tried := false, [];
      if active != null || leases != null {
        var loop := Begin(order);
        found, tried := TryFrom(now, works, loop, order);
      }
    }

    /** The same in terms of the leases alone, for a client `c` whose leases these are. */
    method Rotate(now: int, works: set<Lease>, ghost c: Client) returns (found: bool)
      requires Valid() && c.active == Active() && c.leases == LeasesOf(list)
      modifies this, list, active
      ensures Valid() && forall n :: n in Order() <==> n in old(Order())
      ensures var k := FirstUsable(Candidates(c), now, works);
              var r := Rotated(c, k);
              found == k.Some? && Active() == r.active && LeasesOf(list) == r.leases
    {
      ghost var order := Order();
      assert Candidates(c) == LeasesOf(order);
      ghost var tried;
      found, tried := TryLeases(now, works);
      EndedIsRotated(this, order, now, works, found, tried, c);
      EndedConserves(this, order, now, works, found, tried);
    }
  }

  lemma LeasesOfRotated(order: seq<LeaseNode>, k: nat)
    requires k < |order|
    ensures LeasesOf(RotatedList(order, k)) == LeasesOf(order)[k + 1..] + LeasesOf(order)[..k]
  {
  }

  /** The loop ends with the leases rotated as the value-level state_panic says. */
  lemma EndedIsRotated(l: LeaseList, order: seq<LeaseNode>, now: int, works: set<Lease>, found: bool,
                       tried: seq<LeaseNode>, c: Client)
    requires l.Ended(order, now, works, found, tried) && Candidates(c) == LeasesOf(order)
    ensures var r := Rotated(c, FirstUsable(Candidates(c), now, works));
            l.Active() == r.active && LeasesOf(l.list) == r.leases
  {
    var k := FirstUsable(LeasesOf(order), now, works);
    if k.Some? {
      LeasesOfRotated(order, k.value);
    } else if |order| >= 2 {
      assert LeasesOf(order[1..]) == LeasesOf(order)[1..];
    }
  }

  /** However the loop ends, the nodes are the ones it started with. */
  lemma EndedConserves(l: LeaseList, order: seq<LeaseNode>, now: int, works: set<Lease>, found: bool,
      tried: seq<LeaseNode>)
    requires l.Ended(order, now, works, found, tried)
    ensures multiset(l.Order()) == multiset(order)
    ensures forall n :: n in l.Order() <==> n in order
  {
    if found {
      var k := FirstUsable(LeasesOf(order), now, works).value;
      assert order == order[..k] + [order[k]] + order[k + 1..];
      assert l.Order() == [order[k]] + (order[k + 1..] + order[..k]);
    } else {
      assert l.Order() == order;
    }
  }

  /** None of the first `k` candidates can be used. */
  ghost predicate NoneBefore(order: seq<LeaseNode>, k: nat, now: int, works: set<Lease>) {
    forall i :: 0 <= i < |order| && i < k ==> !Usable(order[i].lease, now, works)
  }

  lemma UsableFirst(order: seq<LeaseNode>, k: nat, now: int, works: set<Lease>)
    requires k < |order| && Usable(order[k].lease, now, works)
    requires NoneBefore(order, k, now, works)
    ensures FirstUsable(LeasesOf(order), now, works) == Some(k)
  {
    var ls := LeasesOf(order);
    assert forall i :: 0 <= i < |order| ==> ls[i] == order[i].lease;
    var r := FirstUsable(ls, now, works);
    assert r.Some? ==> !(r.value > k);
  }

  lemma NoneUsable(order: seq<LeaseNode>, now: int, works: set<Lease>)
    requires NoneBefore(order, |order|, now, works)
    ensures FirstUsable(LeasesOf(order), now, works) == None
  {
    assert forall i :: 0 <= i < |order| ==> LeasesOf(order)[i] == order[i].lease;
  }

  /** One activation moves the rotation on by one, and from the last candidate back to the first. */
  lemma RotateOnce(order: seq<LeaseNode>, k: nat)
    requires k < |order| && |order| >= 2
    ensures var l := RotatedList(order, k);
            && l[0] == order[if k + 1 < |order| then k + 1 else 0]
            && l[1..] + [order[k]] == (if k + 1 < |order| then RotatedList(order, k + 1) else order[1..])
  {
  }
}
