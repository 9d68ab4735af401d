/** The lease database: loading it (client/clparse.c) and writing it again (client/dhclient.c). */
module LeaseFile {
  import opened Common
  import opened Dhcp4

  datatype Entry = Entry(lease: Lease, isStatic: bool)

  /** The leases that a client knows: the active one, and the others in the order of its list. */
  datatype Store = Store(active: Option<Entry>, leases: seq<Entry>)

  function Address(e: Entry): seq<int> { e.lease.address }

  // ----- one lease statement

  /** The list without its first entry for that address. */
  function Drop(es: seq<Entry>, address: seq<int>): seq<Entry> {
    if es == [] then []
    else if Address(es[0]) == address then es[1..]
    else [es[0]] + Drop(es[1..], address)
  }

  /** parse_client_lease_statement once the lease has been read. */
  function Parse(s: Store, e: Entry, now: int): Store {
    var leases := Drop(s.leases, Address(e));
    if e.isStatic then s.(leases := [e] + leases)
    else
      match s.active
      case None => Store(Some(e), leases)
      case Some(a) =>
        if a.lease.expiry < now || Address(a) == Address(e) then Store(Some(e), leases)
        else Store(Some(e), [a] + leases)
  }

  /** read_client_leases: all statements of a file, in order. */
  function Load(s: Store, es: seq<Entry>, now: int): Store {
    if es == [] then s else Parse(Load(s, es[..|es| - 1], now), es[|es| - 1], now)
  }

  // ----- addresses stay apart

  predicate DistinctList(es: seq<Entry>) {
    forall i, j :: 0 <= i < j < |es| ==> Address(es[i]) != Address(es[j])
  }

  predicate Absent(es: seq<Entry>, address: seq<int>) {
    forall i :: 0 <= i < |es| ==> Address(es[i]) != address
  }

  predicate Distinct(s: Store) {
    DistinctList(s.leases) && (s.active.Some? ==> Absent(s.leases, Address(s.active.value)))
  }

  lemma {:induction false} DropIs(es: seq<Entry>, address: seq<int>)
    requires DistinctList(es)
    ensures DistinctList(Drop(es, address)) && Absent(Drop(es, address), address)
    ensures forall e :: e in Drop(es, address) <==> e in es && Address(e) != address
  {
    if es != [] {
      var t := es[1..];
      assert es == [es[0]] + t;
      if Address(es[0]) == address {
        forall e | e in t ensures Address(e) != address {
          var i :| 0 <= i < |t| && t[i] == e;
          assert es[i + 1] == e;
        }
      } else {
        DropIs(t, address);
        forall e | e in t ensures Address(e) != Address(es[0]) {
          var i :| 0 <= i < |t| && t[i] == e;
          assert es[i + 1] == e;
        }
      }
    }
  }

  lemma AbsentIff(es: seq<Entry>, address: seq<int>)
    ensures Absent(es, address) <==> forall e :: e in es ==> Address(e) != address
  {
  }

  /** A statement from the lease file keeps addresses apart, whatever it says. */
  lemma ParseDynamicDistinct(s: Store, e: Entry, now: int)
    requires Distinct(s) && !e.isStatic
    ensures Distinct(Parse(s, e, now)) && Parse(s, e, now).active == Some(e)
  {
    DropIs(s.leases, Address(e));
    if s.active.Some? {
      AbsentIff(s.leases, Address(s.active.value));
      AbsentIff(Drop(s.leases, Address(e)), Address(s.active.value));
    }
  }

  /** A preloaded lease keeps addresses apart exactly if it is not for the active address. */
  lemma ParseStaticDistinctIff(s: Store, e: Entry, now: int)
    requires Distinct(s) && e.isStatic
    ensures Distinct(Parse(s, e, now)) <==> s.active.None? || Address(s.active.value) != Address(e)
  {
    DropIs(s.leases, Address(e));
    var r := Parse(s, e, now);
    assert r.leases[0] == e;
    if s.active.Some? {
      AbsentIff(s.leases, Address(s.active.value));
      AbsentIff(Drop(s.leases, Address(e)), Address(s.active.value));
    }
  }

  predicate StaticsFirst(es: seq<Entry>) {
    forall i, j :: 0 <= i < j < |es| && es[j].isStatic ==> es[i].isStatic
  }

  /** With preloaded leases first, addresses stay apart and the last lease of the file is the active one. */
  lemma {:induction false} LoadDistinct(es: seq<Entry>, now: int)
    requires StaticsFirst(es)
    ensures var s := Load(Store(None, []), es, now);
            && Distinct(s)
            && s.active == if es == [] || es[|es| - 1].isStatic then None else Some(es[|es| - 1])
  {
    if es != [] {
      var p, e := es[..|es| - 1], es[|es| - 1];
      LoadDistinct(p, now);
      if e.isStatic {
        ParseStaticDistinctIff(Load(Store(None, []), p, now), e, now);
      } else {
        ParseDynamicDistinct(Load(Store(None, []), p, now), e, now);
      }
    }
  }

  // ----- what a lease file loads as

  /** Statement `i` ends up on the list; a dynamic one only once another one is active, and if it has not expired. */
  predicate Listed(es: seq<Entry>, i: nat, now: int) {
    && i < |es| && (es[i].isStatic || (i < |es| - 1 && es[i].lease.expiry >= now))
    && forall j :: i < j < |es| ==> Address(es[j]) != Address(es[i])
  }

  /** The statements before `n` that end up on the list, latest first. */
  function Collect(es: seq<Entry>, n: nat, now: int): seq<Entry>
    requires n <= |es|
  {
    if n == 0 then [] else (if Listed(es, n - 1, now) then [es[n - 1]] else []) + Collect(es, n - 1, now)
  }

  lemma {:induction false} CollectMembers(es: seq<Entry>, n: nat, now: int)
    requires n <= |es|
    ensures forall e :: e in Collect(es, n, now) ==> exists i :: 0 <= i < n && Listed(es, i, now) && es[i] == e
  {
    if n > 0 { CollectMembers(es, n - 1, now); }
  }

  lemma {:induction false} DropAbsent(es: seq<Entry>, address: seq<int>)
    requires Absent(es, address)
    ensures Drop(es, address) == es
  {
    if es != [] { DropAbsent(es[1..], address); }
  }

  lemma ListedAppend(p: seq<Entry>, e: Entry, i: nat, now: int)
    requires i < |p| && (i == |p| - 1 ==> p[i].isStatic)
    ensures Listed(p + [e], i, now) <==> Listed(p, i, now) && Address(e) != Address(p[i])
  {
    var es := p + [e];
    assert es[|p|] == e && forall j :: 0 <= j < |p| ==> es[j] == p[j];
  }

  lemma CollectAbsent(p: seq<Entry>, i: nat, now: int)
    requires i < |p|
    ensures Absent(Collect(p, i, now), Address(p[i]))
  {
    CollectMembers(p, i, now);
    forall x | x in Collect(p, i, now) ensures Address(x) != Address(p[i]) {
      var j :| 0 <= j < i && Listed(p, j, now) && p[j] == x;
    }
    AbsentIff(Collect(p, i, now), Address(p[i]));
  }

  lemma {:induction false} DropAt(es: seq<Entry>, i: nat, address: seq<int>)
    requires i < |es| && Address(es[i]) == address && forall j :: 0 <= j < i ==> Address(es[j]) != address
    ensures Drop(es, address) == es[..i] + es[i + 1..]
  {
    if i > 0 { DropAt(es[1..], i - 1, address); }
  }

  /** One more statement takes those for its address off the list. */
  lemma {:induction false} CollectDrops(p: seq<Entry>, e: Entry, n: nat, now: int)
    requires n <= |p| && (n == |p| > 0 ==> p[n - 1].isStatic)
    ensures Collect(p + [e], n, now) == Drop(Collect(p, n, now), Address(e))
  {
    if n > 0 {
      var i, c := n - 1, Collect(p, n - 1, now);
      CollectDrops(p, e, i, now);
      ListedAppend(p, e, i, now);
      assert (p + [e])[i] == p[i];
      if Listed(p, i, now) {
        assert ([p[i]] + c)[1..] == c;
        if Address(e) == Address(p[i]) {
          CollectAbsent(p, i, now);
          DropAbsent(c, Address(e));
        }
      } else {
        assert [] + c == c;
      }
    }
  }

  /** What one more statement puts in front of the list: itself, or the lease that was active, or nothing. */
  function Pushed(p: seq<Entry>, e: Entry, now: int): seq<Entry> {
    if e.isStatic then [e]
    else if p == [] || p[|p| - 1].isStatic then []
    else
      var a := p[|p| - 1];
      if a.lease.expiry >= now && Address(a) != Address(e) then [a] else []
  }

  lemma CollectStep(p: seq<Entry>, e: Entry, now: int)
    requires StaticsFirst(p + [e])
    ensures Collect(p + [e], |p| + 1, now) == Pushed(p, e, now) + Drop(Collect(p, |p|, now), Address(e))
  {
    var es, n := p + [e], |p|;
    assert es[n] == e;
    assert Collect(es, n + 1, now) == (if e.isStatic then [e] else []) + Collect(es, n, now);
    if n == 0 || p[n - 1].isStatic {
      CollectDrops(p, e, n, now);
    } else {
      assert es[n - 1] == p[n - 1] && !e.isStatic;
      CollectDrops(p, e, n - 1, now);
      assert Collect(p, n, now) == Collect(p, n - 1, now);
      assert Listed(es, n - 1, now) <==> p[n - 1].lease.expiry >= now && Address(e) != Address(p[n - 1]);
      assert Collect(es, n, now) == (if Listed(es, n - 1, now) then [p[n - 1]] else []) + Collect(es, n - 1, now);
    }
  }

  /**
   * Whatever the configuration and then the file say, the last lease of the file is active, and the list holds, latest
   * first, the preloaded leases and the earlier ones that have not expired, as far as no later statement replaces them.
   */
  lemma {:induction false} LoadIs(es: seq<Entry>, now: int)
    requires StaticsFirst(es)
    ensures var s := Load(Store(None, []), es, now);
            && s.active == (if es == [] || es[|es| - 1].isStatic then None else Some(es[|es| - 1]))
            && s.leases == Collect(es, |es|, now)
  {
    if es != [] {
      var p, e := es[..|es| - 1], es[|es| - 1];
      LoadIs(p, now);
      assert es == p + [e];
      CollectStep(p, e, now);
    }
  }

  // ----- writing the database and reading it back

  function Dynamic(es: seq<Entry>): seq<Entry> {
    if es == [] then [] else Dynamic(es[..|es| - 1]) + (if es[|es| - 1].isStatic then [] else [es[|es| - 1]])
  }

  /** rewrite_client_leases for one client. */
  function Written(s: Store): seq<Entry> {
    Dynamic(s.leases) + (if s.active.Some? && !s.active.value.isStatic then [s.active.value] else [])
  }

  /** The entries that have not expired, in reverse. */
  function UnexpiredReversed(es: seq<Entry>, now: int): seq<Entry> {
    if es == [] then []
    else (if es[|es| - 1].lease.expiry >= now then [es[|es| - 1]] else []) + UnexpiredReversed(es[..|es| - 1], now)
  }

  lemma {:induction false} DynamicIs(es: seq<Entry>)
    ensures forall e :: e in Dynamic(es) <==> e in es && !e.isStatic
    ensures DistinctList(es) ==> DistinctList(Dynamic(es))
  {
    if es != [] {
      var p, e := es[..|es| - 1], es[|es| - 1];
      DynamicIs(p);
      assert es == p + [e];
      if DistinctList(es) {
        forall x | x in Dynamic(p) ensures Address(x) != Address(e) {
          var i :| 0 <= i < |p| && p[i] == x;
          assert es[i] == x;
        }
      }
    }
  }

  lemma {:induction false} CollectDistinct(es: seq<Entry>, n: nat, now: int)
    requires n < |es| && DistinctList(es) && forall i :: 0 <= i < |es| ==> !es[i].isStatic
    ensures Collect(es, n, now) == UnexpiredReversed(es[..n], now)
  {
    if n > 0 {
      CollectDistinct(es, n - 1, now);
      assert es[..n][..n - 1] == es[..n - 1];
    }
  }

  /**
   * Reading back what was written gives the same active lease, and the other leases of the file that have not
   * expired in the reverse order.
   */
  lemma RoundTrip(s: Store, now: int)
    requires Distinct(s) && s.active.Some? && !s.active.value.isStatic
    ensures Load(Store(None, []), Written(s), now) == Store(s.active, UnexpiredReversed(Dynamic(s.leases), now))
  {
    var d, a := Dynamic(s.leases), s.active.value;
    var w := Written(s);
    DynamicIs(s.leases);
    AbsentIff(s.leases, Address(a));
    assert w == d + [a] && w[..|d|] == d;
    assert DistinctList(w) by {
      forall i | 0 <= i < |d| ensures Address(d[i]) != Address(a) { assert d[i] in d; }
    }
    assert forall i :: 0 <= i < |w| ==> !w[i].isStatic by {
      forall i | 0 <= i < |d| ensures !d[i].isStatic { assert d[i] in d; }
    }
    LoadIs(w, now);
    assert !Listed(w, |d|, now);
    CollectDistinct(w, |d|, now);
  }

  function Unexpired(es: seq<Entry>, now: int): seq<Entry> {
    if es == [] then []
    else Unexpired(es[..|es| - 1], now) + (if es[|es| - 1].lease.expiry >= now then [es[|es| - 1]] else [])
  }

  lemma Associative(x: seq<Entry>, y: seq<Entry>, z: seq<Entry>)
    ensures x + (y + z) == (x + y) + z
  {
  }

  lemma {:induction false} ReversedAppend(x: seq<Entry>, y: seq<Entry>, z: seq<Entry>, now: int)
    requires z == x + y
    ensures UnexpiredReversed(z, now) == UnexpiredReversed(y, now) + UnexpiredReversed(x, now)
  {
    if y == [] {
      assert z == x;
    } else {
      var q, r, e := y[..|y| - 1], z[..|z| - 1], y[|y| - 1];
      var h := if e.lease.expiry >= now then [e] else [];
      assert UnexpiredReversed(z, now) == h + UnexpiredReversed(r, now) by { assert z[|z| - 1] == e; }
      assert UnexpiredReversed(y, now) == h + UnexpiredReversed(q, now);
      assert r == x + q;
      ReversedAppend(x, q, r, now);
      Associative(h, UnexpiredReversed(q, now), UnexpiredReversed(x, now));
    }
  }

  /** Two rewrites restore the order of the list. */
  lemma {:induction false} ReversedTwice(es: seq<Entry>, now: int)
    ensures UnexpiredReversed(UnexpiredReversed(es, now), now) == Unexpired(es, now)
  {
    if es != [] {
      var p, e := es[..|es| - 1], es[|es| - 1];
      ReversedTwice(p, now);
      if e.lease.expiry >= now {
        ReversedAppend([e], UnexpiredReversed(p, now), UnexpiredReversed(es, now), now);
        assert [e][..0] == [];
        assert UnexpiredReversed([e], now) == [e];
      } else {
        assert [] + UnexpiredReversed(p, now) == UnexpiredReversed(p, now);
      }
    }
  }

  // ----- as the source does it

  class Database {
    var active: Option<Entry>
    var leases: seq<Entry>

    ghost function Abs(): Store
      reads this
    {
      Store(active, leases)
    }

    constructor ()
      ensures Abs() == Store(None, [])
    {
      active, leases := None, [];
    }

    /** The scan that tosses a lease with the same address. */
    method Toss(address: seq<int>)
      modifies this`leases
      ensures leases == Drop(old(leases), address)
    {
      for i := 0 to |leases|
        invariant leases == old(leases) && forall j :: 0 <= j < i ==> Address(leases[j]) != address
      {
        if Address(leases[i]) == address {
          DropAt(leases, i, address);
          leases := leases[..i] + leases[i + 1..];
          return;
        }
      }
      DropAbsent(leases, address);
    }

    method ParseLease(e: Entry, now: int)
      modifies this
      ensures Abs() == Parse(old(Abs()), e, now)
    {
      Toss(Address(e));
      if e.isStatic {
        leases := [e] + leases;
        return;
      }
      if active.Some? && !(active.value.lease.expiry < now) && Address(active.value) != Address(e) {
        leases := [active.value] + leases;
      }
      active := Some(e);
    }

    method ReadFile(file: seq<Entry>, now: int)
      modifies this
      ensures Abs() == Load(old(Abs()), file, now)
    {
      for i := 0 to |file|
        invariant Abs() == Load(old(Abs()), file[..i], now)
      {
        assert file[..i + 1][..i] == file[..i];
        ParseLease(file[i], now);
      }
      assert file[..|file|] == file;
    }

    method Rewrite() returns (file: seq<Entry>)
      ensures file == Written(Abs())
    {
      file := [];
      for i := 0 to |leases|
        invariant file == Dynamic(leases[..i])
      {
        assert leases[..i + 1][..i] == leases[..i];
        if !leases[i].isStatic {
          file := file + [leases[i]];
        }
      }
      assert leases[..|leases|] == leases;
      if active.Some? && !active.value.isStatic {
        file := file + [active.value];
      }
    }
  }
}
