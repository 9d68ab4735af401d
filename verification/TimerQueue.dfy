/** The timer list of common/dispatch.c. */
module TimerQueue {
  import opened Common

  // ----- the interval of a timer

  /** The period that add_timeout works out from the time it is given. */
  function Interval(when: Timeval, now: Timeval): Timeval {
    var borrow := when.usec != 0 && when.usec - now.usec < 0;
    var sec := when.sec - now.sec - (if borrow then 1 else 0);
    var usec := when.usec - now.usec + (if borrow then SECOND else 0);
    if sec < 0 then Timeval(0, 0)
    else if sec >= TIME_MAX then Timeval(TIME_MAX - 1, 0)
    else if usec < 0 then Timeval(sec, 0)
    else if usec >= SECOND then Timeval(sec, SECOND - 1)
    else Timeval(sec, usec)
  }

  /** How far away a time is; for a time in whole seconds the microseconds of the clock do not count. */
  function Distance(when: Timeval, now: Timeval): int {
    if when.usec == 0 then (when.sec - now.sec) * SECOND else when.Micros() - now.Micros()
  }

  /** The interval is that distance, but nothing for times that are past, and less than TIME_MAX seconds for others. */
  lemma IntervalIs(when: Timeval, now: Timeval)
    requires when.Ok() && now.Ok()
    ensures var i, d := Interval(when, now), Distance(when, now);
            && i.Ok()
            && i.Micros() == if d < 0 then 0 else if d >= TIME_MAX * SECOND then (TIME_MAX - 1) * SECOND else d
  {
  }

  /** The deadline that is stored: whole seconds from now, and the microseconds of the interval. */
  function Deadline(when: Timeval, now: Timeval): Timeval {
    var i := Interval(when, now);
    Timeval(now.sec + i.sec, i.usec)
  }

  /** What is stored is the time at which the timer goes off exactly if the clock shows a whole second. */
  lemma DeadlineExactIff(when: Timeval, now: Timeval)
    ensures Deadline(when, now).Micros() == now.Micros() + Interval(when, now).Micros() <==> now.usec == 0
  {
  }

  /** The arithmetic of add_timeout. */
  method StoredDeadline(when: Timeval, now: Timeval) returns (at: Timeval)
    ensures at == Deadline(when, now)
  {
    var sec := when.sec - now.sec;
    var usec := when.usec - now.usec;
    if when.usec != 0 && usec < 0 {
      sec := sec - 1;
      usec := usec + SECOND;
    }
    if sec < 0 {
      sec, usec := 0, 0;
    } else if sec >= TIME_MAX {
      sec, usec := TIME_MAX - 1, 0;
    } else if usec < 0 {
      usec := 0;
    } else if usec >= SECOND {
      usec := SECOND - 1;
    }
    at := Timeval(now.sec + sec, usec);
  }

  // ----- the list as a value

  /** A NULL callback. */
  const NULL: int := 0

  datatype Rec = Rec(func: int, what: int, when: Timeval)

  function Key(r: Rec): (int, int) { (r.func, r.what) }

  /** What add_timeout takes for the same timer. */
  predicate Supersedes(func: int, what: int, r: Rec) { (func == NULL || r.func == func) && r.what == what }

  function FindSuperseded(rs: seq<Rec>, func: int, what: int): (i: nat)
    ensures i <= |rs| && (i < |rs| ==> Supersedes(func, what, rs[i]))
    ensures forall j :: 0 <= j < i ==> !Supersedes(func, what, rs[j])
  {
    if rs == [] then 0
    else if Supersedes(func, what, rs[0]) then 0
    else
      assert forall j :: 1 <= j < |rs| ==> rs[j] == rs[1..][j - 1];
      1 + FindSuperseded(rs[1..], func, what)
  }

  function FindExact(rs: seq<Rec>, func: int, what: int): (i: nat)
    ensures i <= |rs| && (i < |rs| ==> Key(rs[i]) == (func, what))
    ensures forall j :: 0 <= j < i ==> Key(rs[j]) != (func, what)
  {
    if rs == [] then 0
    else if Key(rs[0]) == (func, what) then 0
    else
      assert forall j :: 1 <= j < |rs| ==> rs[j] == rs[1..][j - 1];
      1 + FindExact(rs[1..], func, what)
  }

  function InsertAt<T>(s: seq<T>, k: nat, x: T): seq<T>
    requires k <= |s|
  {
    s[..k] + [x] + s[k..]
  }

  /** The first position whose deadline is later, or the end. */
  function Place(rs: seq<Rec>, when: Timeval): (k: nat)
    ensures k <= |rs| && (k < |rs| ==> rs[k].when.Later(when))
    ensures forall j :: 0 <= j < k ==> !rs[j].when.Later(when)
  {
    if rs == [] then 0
    else if rs[0].when.Later(when) then 0
    else
      assert forall j :: 1 <= j < |rs| ==> rs[j] == rs[1..][j - 1];
      1 + Place(rs[1..], when)
  }

  /** Where a record goes: in order of deadlines when playing back a trace, in front otherwise. */
  function Position(rs: seq<Rec>, when: Timeval, playback: bool): (k: nat)
    ensures k <= |rs|
  {
    if playback then Place(rs, when) else 0
  }

  /** add_timeout on the list. */
  function Added(rs: seq<Rec>, func: int, what: int, when: Timeval, playback: bool): seq<Rec> {
    var i := FindSuperseded(rs, func, what);
    var rest := Without(rs, i);
    var r := if i < |rs| then rs[i].(when := when) else Rec(func, what, when);
    InsertAt(rest, Position(rest, when, playback), r)
  }

  /** cancel_timeout on the list. */
  function Cancelled(rs: seq<Rec>, func: int, what: int): seq<Rec> {
    Without(rs, FindExact(rs, func, what))
  }

  // ----- the list as a map

  predicate Unique(rs: seq<Rec>) {
    forall i, j :: 0 <= i < j < |rs| ==> Key(rs[i]) != Key(rs[j])
  }

  function MapOf(rs: seq<Rec>): map<(int, int), Timeval> {
    if rs == [] then map[] else MapOf(rs[1..])[Key(rs[0]) := rs[0].when]
  }

  lemma {:induction false} KeysOf(rs: seq<Rec>, key: (int, int))
    ensures key in MapOf(rs) <==> exists i :: 0 <= i < |rs| && Key(rs[i]) == key
  {
    if rs != [] {
      var t := rs[1..];
      KeysOf(t, key);
      if i :| 0 <= i < |rs| && Key(rs[i]) == key {
        if i > 0 { assert t[i - 1] == rs[i]; }
      }
      assert forall i :: 0 <= i < |t| ==> t[i] == rs[i + 1];
    }
  }

  lemma UniqueCons(rs: seq<Rec>)
    requires rs != []
    ensures Unique(rs) <==> Unique(rs[1..]) && Key(rs[0]) !in MapOf(rs[1..])
  {
    var t := rs[1..];
    KeysOf(t, Key(rs[0]));
    assert forall i :: 1 <= i < |rs| ==> rs[i] == t[i - 1];
    assert forall i :: 0 <= i < |t| ==> t[i] == rs[i + 1];
  }

  lemma UpdateThenRemove(m: map<(int, int), Timeval>, k: (int, int), when: Timeval, gone: (int, int))
    ensures gone != k ==> m[k := when] - {gone} == (m - {gone})[k := when]
    ensures k !in m ==> m[k := when] - {k} == m
  {
  }

  lemma {:induction false} WithoutIs(rs: seq<Rec>, i: nat)
    requires Unique(rs) && i < |rs|
    ensures Unique(Without(rs, i)) && MapOf(Without(rs, i)) == MapOf(rs) - {Key(rs[i])}
  {
    var t, x := rs[1..], Without(rs, i);
    UniqueCons(rs);
    UpdateThenRemove(MapOf(t), Key(rs[0]), rs[0].when, Key(rs[i]));
    if i == 0 {
      assert x == t;
    } else {
      WithoutIs(t, i - 1);
      assert t[i - 1] == rs[i] && x[1..] == Without(t, i - 1) && x[0] == rs[0];
      UniqueCons(x);
    }
  }

  lemma {:induction false} InsertIs(rs: seq<Rec>, k: nat, r: Rec)
    requires Unique(rs) && k <= |rs| && Key(r) !in MapOf(rs)
    ensures Unique(InsertAt(rs, k, r)) && MapOf(InsertAt(rs, k, r)) == MapOf(rs)[Key(r) := r.when]
  {
    var x := InsertAt(rs, k, r);
    if k == 0 {
      assert x[1..] == rs && x[0] == r;
    } else {
      var t := rs[1..];
      UniqueCons(rs);
      InsertIs(t, k - 1, r);
      assert x[1..] == InsertAt(t, k - 1, r) && x[0] == rs[0];
    }
    UniqueCons(x);
  }

  /** The key that add_timeout sets: that of the timer it supersedes (of any function, if func is null). */
  function KeySet(rs: seq<Rec>, func: int, what: int): (int, int) {
    var i := FindSuperseded(rs, func, what);
    if i < |rs| then Key(rs[i]) else (func, what)
  }

  /** It has the argument that was given, and the function too unless that is null. */
  lemma KeySetIs(rs: seq<Rec>, func: int, what: int)
    ensures KeySet(rs, func, what).1 == what && (func != NULL ==> KeySet(rs, func, what) == (func, what))
    ensures KeySet(rs, func, what) in MapOf(rs) <==> FindSuperseded(rs, func, what) < |rs|
    ensures func == NULL ==> (KeySet(rs, func, what) in MapOf(rs) <==> exists k :: k in MapOf(rs) && k.1 == what)
  {
    var i := FindSuperseded(rs, func, what);
    KeysOf(rs, KeySet(rs, func, what));
    forall k | k in MapOf(rs) && k.1 == what && func == NULL ensures i < |rs| { KeysOf(rs, k); }
  }

  /** add_timeout sets the timer of that key and leaves all others alone; keys stay unique. */
  lemma AddedIsUpdate(rs: seq<Rec>, func: int, what: int, when: Timeval, playback: bool)
    requires Unique(rs)
    ensures Unique(Added(rs, func, what, when, playback))
    ensures MapOf(Added(rs, func, what, when, playback)) == MapOf(rs)[KeySet(rs, func, what) := when]
  {
    var i := FindSuperseded(rs, func, what);
    KeySetIs(rs, func, what);
    var rest := Without(rs, i);
    var r := if i < |rs| then rs[i].(when := when) else Rec(func, what, when);
    if i < |rs| { WithoutIs(rs, i); }
    InsertIs(rest, Position(rest, when, playback), r);
  }

  /** cancel_timeout removes the timer of its key, if there is one, and leaves all others alone. */
  lemma CancelledIsRemoval(rs: seq<Rec>, func: int, what: int)
    requires Unique(rs)
    ensures Unique(Cancelled(rs, func, what))
    ensures MapOf(Cancelled(rs, func, what)) == MapOf(rs) - {(func, what)}
  {
    var i := FindExact(rs, func, what);
    if i < |rs| {
      WithoutIs(rs, i);
    } else {
      KeysOf(rs, (func, what));
    }
  }

  // ----- order of deadlines

  predicate Sorted(rs: seq<Rec>) {
    forall i, j :: 0 <= i < j < |rs| ==> !rs[i].when.Later(rs[j].when)
  }

  /** Position `k` holds a timer for `when`, after all that are due no later and before all that are due later. */
  predicate Stable(t: seq<Rec>, k: nat, when: Timeval) {
    && k < |t| && t[k].when == when
    && (forall j :: 0 <= j < k ==> !t[j].when.Later(when))
    && (forall j :: k < j < |t| ==> t[j].when.Later(when))
  }

  lemma WithoutSorted(rs: seq<Rec>, i: nat)
    requires Sorted(rs)
    ensures Sorted(Without(rs, i))
  {
  }

  lemma PlaceSplits(rs: seq<Rec>, when: Timeval)
    requires Sorted(rs)
    ensures forall j :: Place(rs, when) <= j < |rs| ==> rs[j].when.Later(when)
  {
    var k := Place(rs, when);
    forall j | k <= j < |rs| ensures rs[j].when.Later(when) {
      if j > k { assert !rs[k].when.Later(rs[j].when); }
    }
  }

  lemma InsertSorted(rs: seq<Rec>, r: Rec)
    requires Sorted(rs)
    ensures var k := Place(rs, r.when); Sorted(InsertAt(rs, k, r)) && Stable(InsertAt(rs, k, r), k, r.when)
  {
    var k := Place(rs, r.when);
    PlaceSplits(rs, r.when);
    var t := InsertAt(rs, k, r);
    assert forall j :: 0 <= j < k ==> t[j] == rs[j];
    assert forall j :: k < j < |t| ==> t[j] == rs[j - 1];
  }

  /** Playing back a trace, the list stays sorted, and a new timer comes after all that are due no later. */
  lemma AddedSorted(rs: seq<Rec>, func: int, what: int, when: Timeval)
    requires Sorted(rs)
    ensures var t := Added(rs, func, what, when, true); Sorted(t) && exists k: nat :: Stable(t, k, when)
  {
    var i := FindSuperseded(rs, func, what);
    WithoutSorted(rs, i);
    InsertSorted(Without(rs, i), if i < |rs| then rs[i].(when := when) else Rec(func, what, when));
  }

  /** When the first timer of a sorted list is not due, none is. */
  lemma HeadDecides(rs: seq<Rec>, now: Timeval)
    requires Sorted(rs) && rs != [] && rs[0].when.Later(now)
    ensures forall i :: 0 <= i < |rs| ==> rs[i].when.Later(now)
  {
  }

  // ----- the lists of timeout structures

  class Timeout {
    var func: int
    var what: int
    var when: Timeval

    constructor (func: int, what: int)
      ensures this.func == func && this.what == what
    {
      this.func, this.what, this.when := func, what, Timeval(0, 0);
    }

    ghost function Abs(): Rec
      reads this
    {
      Rec(func, what, when)
    }
  }

  /** `rs` are the contents of the structures of `ns`. */
  ghost predicate Describes(rs: seq<Rec>, ns: seq<Timeout>)
    reads ns
  {
    |rs| == |ns| && forall i :: 0 <= i < |ns| ==> rs[i] == ns[i].Abs()
  }

  ghost predicate NoneTwice(ns: seq<Timeout>) {
    forall i, j :: 0 <= i < j < |ns| ==> ns[i] != ns[j]
  }

  lemma InsertMembers(ns: seq<Timeout>, k: nat, q: Timeout)
    requires k <= |ns|
    ensures InsertAt(ns, k, q)[k] == q && forall n :: n in InsertAt(ns, k, q) <==> n in ns || n == q
  {
    assert ns == ns[..k] + ns[k..];
  }

  lemma WithoutMembers(ns: seq<Timeout>, i: nat)
    requires i < |ns| && NoneTwice(ns)
    ensures NoneTwice(Without(ns, i)) && forall n :: n in Without(ns, i) <==> n in ns && n != ns[i]
  {
    assert ns == ns[..i] + [ns[i]] + ns[i + 1..];
  }

  lemma UniqueNoneTwice(rs: seq<Rec>, ns: seq<Timeout>)
    requires Describes(rs, ns) && Unique(rs)
    ensures NoneTwice(ns)
  {
    forall i, j | 0 <= i < j < |ns| ensures ns[i] != ns[j] { assert Key(rs[i]) != Key(rs[j]); }
  }

  class Queue {
    /** trace_playback(). */
    const playback: bool
    var timeouts: seq<Timeout>
    var free: seq<Timeout>
    /** The structures whose callback is being called. */
    ghost var dispatching: set<Timeout>
    /** All structures that have been allocated. */
    ghost var all: set<Timeout>
    /** The contents of the list. */
    ghost var recs: seq<Rec>

    /** Every structure is in exactly one place; `held` is in none, because it is being moved. */
    ghost predicate Placed(held: set<Timeout>)
      reads this
    {
      && (forall n :: n in timeouts ==> n in all && n !in free && n !in dispatching && n !in held)
      && (forall n :: n in free ==> n in all && n !in dispatching && n !in held)
      && dispatching !! held && dispatching + held <= all && NoneTwice(free)
      && (forall n :: n in all ==> n in timeouts || n in free || n in dispatching || n in held)
    }

    /** Every structure is in one place, no timer is there twice, and in playback the list is sorted. */
    ghost predicate Valid()
      reads this, timeouts
    {
      Placed({}) && Describes(recs, timeouts) && Unique(recs) && (playback ==> Sorted(recs))
    }

    constructor (playback: bool)
      ensures Valid() && recs == [] && all == {} && this.playback == playback
    {
      this.playback := playback;
      timeouts, free, dispatching, recs, all := [], [], {}, [], {};
    }

    method FindTimer(func: int, what: int) returns (i: nat)
      requires Describes(recs, timeouts)
      ensures i == FindSuperseded(recs, func, what)
    {
      i := 0;
      while i < |timeouts| && !((func == NULL || timeouts[i].func == func) && timeouts[i].what == what)
        invariant i <= |timeouts| && forall j :: 0 <= j < i ==> !Supersedes(func, what, recs[j])
      {
        i := i + 1;
      }
    }

    /** Unlinks a structure from the list. */
    method Unlink(i: nat) returns (q: Timeout)
      requires Valid() && i < |timeouts|
      modifies this`timeouts, this`recs
      ensures q == old(timeouts)[i] && timeouts == Without(old(timeouts), i) && recs == Without(old(recs), i)
      ensures Describes(recs, timeouts) && Placed({q})
    {
      q := timeouts[i];
      UniqueNoneTwice(recs, timeouts);
      WithoutMembers(timeouts, i);
      timeouts, recs := Without(timeouts, i), Without(recs, i);
    }

    /** A structure for a new timer: a free one, or a new one. */
    method Allocate(func: int, what: int) returns (q: Timeout)
      requires Valid()
      modifies this`free, this`all, free
      ensures Describes(recs, timeouts) && Placed({q}) && q.func == func && q.what == what
      ensures all == old(all) + {q} && (q in old(free) || fresh(q))
    {
      if free != [] {
        q := free[0];
        WithoutMembers(free, 0);
        assert free[1..] == Without(free, 0);
        free := free[1..];
        q.func, q.what := func, what;
      } else {
        q := new Timeout(func, what);
        all := all + {q};
      }
    }

    method FindPosition(when: Timeval) returns (k: nat)
      requires Describes(recs, timeouts)
      ensures k == Position(recs, when, playback)
    {
      k := 0;
      if playback {
        while k < |timeouts| && !timeouts[k].when.Later(when)
          invariant k <= |timeouts| && forall j :: 0 <= j < k ==> !recs[j].when.Later(when)
        {
          k := k + 1;
        }
      }
    }

    /** Links a structure into the list. */
    method Link(k: nat, q: Timeout)
      requires k <= |timeouts| && Describes(recs, timeouts) && Placed({q})
      modifies this`timeouts, this`recs
      ensures timeouts == InsertAt(old(timeouts), k, q) && recs == InsertAt(old(recs), k, q.Abs())
      ensures Describes(recs, timeouts) && Placed({}) && q in timeouts
    {
      InsertMembers(timeouts, k, q);
      timeouts, recs := InsertAt(timeouts, k, q), InsertAt(recs, k, q.Abs());
    }

    /** The structure for a timer, taken off the lists. */
    method Take(func: int, what: int) returns (q: Timeout)
      requires Valid()
      modifies this`timeouts, this`recs, this`free, this`all, free
      ensures var i := FindSuperseded(old(recs), func, what);
              recs == Without(old(recs), i) && q.Abs().(when := Timeval(0, 0)) ==
                (if i < |old(recs)| then old(recs)[i] else Rec(func, what, Timeval(0, 0))).(when := Timeval(0, 0))
      ensures Describes(recs, timeouts) && Placed({q})
      ensures all == old(all) + {q} && (q in old(all) || fresh(q))
    {
      var i := FindTimer(func, what);
      if i < |timeouts| {
        q := Unlink(i);
      } else {
        q := Allocate(func, what);
      }
    }

    /** The list work of add_timeout. */
    method Enter(func: int, what: int, at: Timeval) returns (q: Timeout)
      requires Valid()
      modifies this`timeouts, this`recs, this`free, this`all, timeouts, free
      ensures recs == Added(old(recs), func, what, at, playback)
      ensures Describes(recs, timeouts) && Placed({}) && q in timeouts
      ensures all == old(all) + {q} && (q in old(all) || fresh(q))
    {
      q := Take(func, what);
      q.when := at;
      var k := FindPosition(at);
      Link(k, q);
    }

    method SetTimer(func: int, what: int, at: Timeval) returns (q: Timeout)
      requires Valid()
      modifies this`timeouts, this`recs, this`free, this`all, timeouts, free
      ensures Valid() && recs == Added(old(recs), func, what, at, playback)
      ensures MapOf(recs) == MapOf(old(recs))[KeySet(old(recs), func, what) := at]
      ensures q in timeouts && all == old(all) + {q} && (q in old(all) || fresh(q))
    {
      AddedIsUpdate(recs, func, what, at, playback);
      if playback { AddedSorted(recs, func, what, at); }
      q := Enter(func, what, at);
    }

    /** add_timeout. */
    method AddTimeout(func: int, what: int, when: Timeval, now: Timeval) returns (q: Timeout)
      requires Valid()
      modifies this`timeouts, this`recs, this`free, this`all, timeouts, free
      ensures Valid() && recs == Added(old(recs), func, what, Deadline(when, now), playback)
      ensures MapOf(recs) == MapOf(old(recs))[KeySet(old(recs), func, what) := Deadline(when, now)]
      ensures q in timeouts && all == old(all) + {q} && (q in old(all) || fresh(q))
    {
      var at := StoredDeadline(when, now);
      q := SetTimer(func, what, at);
    }

    /** Puts a structure on the free list. */
    method Release(q: Timeout)
      requires Placed({q}) && Describes(recs, timeouts)
      modifies this`free
      ensures free == [q] + old(free) && Placed({}) && Describes(recs, timeouts)
    {
      free := [q] + free;
    }

    /** The search of cancel_timeout. */
    method FindTimeout(func: int, what: int) returns (i: nat)
      requires Describes(recs, timeouts)
      ensures i == FindExact(recs, func, what)
    {
      i := 0;
      while i < |timeouts| && !(timeouts[i].func == func && timeouts[i].what == what)
        invariant i <= |timeouts| && forall j :: 0 <= j < i ==> Key(recs[j]) != (func, what)
      {
        i := i + 1;
      }
    }

    /** cancel_timeout. */
    method CancelTimeout(func: int, what: int)
      requires Valid()
      modifies this`timeouts, this`recs, this`free
      ensures Valid() && recs == Cancelled(old(recs), func, what)
      ensures MapOf(recs) == MapOf(old(recs)) - {(func, what)}
    {
      CancelledIsRemoval(recs, func, what);
      if playback { WithoutSorted(recs, FindExact(recs, func, what)); }
      var i := FindTimeout(func, what);
      if i < |timeouts| {
        var q := Unlink(i);
        Release(q);
      }
    }

    /** The first half of isclib_timer_callback: the structure, found by its address, comes off the list. */
    method BeginCallback(t: Timeout) returns (found: bool)
      requires Valid()
      modifies this`timeouts, this`recs, this`dispatching
      ensures Valid() && found == (t in old(timeouts))
      ensures found ==> dispatching == old(dispatching) + {t} && MapOf(recs) == MapOf(old(recs)) - {(t.func, t.what)}
      ensures !found ==> dispatching == old(dispatching) && recs == old(recs)
    {
      var i := 0;
      while i < |timeouts| && timeouts[i] != t
        invariant i <= |timeouts| && t !in timeouts[..i]
      {
        i := i + 1;
      }
      found := i < |timeouts|;
      if found {
        TakeHead(i);
      }
    }

    /** The structure at `i` comes off the list to be dispatched. */
    method TakeHead(i: nat)
      requires Valid() && i < |timeouts|
      modifies this`timeouts, this`recs, this`dispatching
      ensures Valid() && recs == Without(old(recs), i) && dispatching == old(dispatching) + {old(timeouts)[i]}
      ensures MapOf(recs) == MapOf(old(recs)) - {Key(old(recs)[i])}
    {
      WithoutIs(recs, i);
      if playback { WithoutSorted(recs, i); }
      var q := Unlink(i);
      dispatching := dispatching + {q};
    }

    /** The second half, after the callback has returned. */
    method EndCallback(t: Timeout)
      requires Valid() && t in dispatching
      modifies this`free, this`dispatching
      ensures Valid() && dispatching == old(dispatching) - {t} && free == [t] + old(free)
    {
      dispatching := dispatching - {t};
      Release(t);
    }

    /**
     * One round of process_outstanding_timeouts: the first timer if it is due. When there is none, no timer of
     * the list is due.
     */
    method PopDue(now: Timeval) returns (t: Timeout?)
      requires Valid() && playback
      modifies this`timeouts, this`recs, this`dispatching
      ensures Valid()
      ensures t != null ==> old(timeouts) != [] && t == old(timeouts)[0] && !old(recs)[0].when.Later(now)
                            && recs == old(recs)[1..] && dispatching == old(dispatching) + {t}
      ensures t == null ==> recs == old(recs) && forall i :: 0 <= i < |recs| ==> recs[i].when.Later(now)
    {
      t := null;
      if timeouts != [] {
        if timeouts[0].when.sec < now.sec || (timeouts[0].when.sec == now.sec && timeouts[0].when.usec <= now.usec) {
          t := timeouts[0];
          assert Without(recs, 0) == recs[1..];
          TakeHead(0);
        } else {
          HeadDecides(recs, now);
        }
      }
    }
  }
}
