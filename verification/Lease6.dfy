/** DHCPv6 leases of client/dhc6.c: their scores, and the merging of an older lease into a newer one. */
module Lease6 {
  const D6O_IA_NA := 3
  const D6O_IA_TA := 4
  const D6O_IA_PD := 25

  const SCORE_BINDING := 10000
  const SCORE_ADDRESS := 100
  const SCORE_OPTION := 1
  const SCORE_MIN := SCORE_BINDING + SCORE_ADDRESS

  datatype Addr = Addr(address: seq<int>, plen: int, starts: int, preferredLife: int, maxLife: int,
                       depreffed: bool, expired: bool)

  /** The status code option of a message or an IA. */
  datatype Status = Absent | Code(code: int) | Malformed

  datatype Ia = Ia(iaType: int, iaid: seq<int>, starts: int, renew: int, rebind: int, status: Status, addrs: seq<Addr>)

  /** The options that the client requires and those that it asks for, in the order of its configuration. */
  datatype Wishes = Wishes(required: seq<int>, requested: seq<int>)

  // ----- scores

  function CountPresent(codes: seq<int>, options: set<int>): (n: nat)
    ensures n <= |codes|
  {
    if codes == [] then 0
    else CountPresent(codes[..|codes| - 1], options) + (if codes[|codes| - 1] in options then 1 else 0)
  }

  function BindingScore(bindings: seq<Ia>): (n: nat)
    ensures n >= SCORE_BINDING * |bindings|
  {
    if bindings == [] then 0
    else BindingScore(bindings[..|bindings| - 1]) + SCORE_BINDING + SCORE_ADDRESS * |bindings[|bindings| - 1].addrs|
  }

  predicate Lacks(required: seq<int>, options: set<int>) {
    exists i :: 0 <= i < |required| && required[i] !in options
  }

  /** The score that a lease is worth, whatever has been cached. */
  function FreshScore(w: Wishes, options: set<int>, bindings: seq<Ia>): (n: nat) {
    if Lacks(w.required, options) then 0
    else SCORE_OPTION + SCORE_OPTION * CountPresent(w.requested, options) + BindingScore(bindings)
  }

  lemma {:induction false} BindingScoreOf(bindings: seq<Ia>, i: nat)
    requires i < |bindings|
    ensures BindingScore(bindings) >= SCORE_BINDING + SCORE_ADDRESS * |bindings[i].addrs|
  {
    var p := bindings[..|bindings| - 1];
    if i < |p| { BindingScoreOf(p, i); }
  }

  /** The places in the list of requested options whose option is there. */
  function PresentAt(codes: seq<int>, options: set<int>): set<nat> {
    set i: nat | i < |codes| && codes[i] in options
  }

  /** The places of all addresses. */
  function AddressesAt(bindings: seq<Ia>): set<(nat, nat)> {
    set i: nat, k: nat | i < |bindings| && k < |bindings[i].addrs| :: (i, k)
  }

  lemma {:induction false} CountPresentIs(codes: seq<int>, options: set<int>)
    ensures CountPresent(codes, options) == |PresentAt(codes, options)|
  {
    if codes != [] {
      var p, n := codes[..|codes| - 1], |codes| - 1;
      CountPresentIs(p, options);
      assert PresentAt(codes, options) == PresentAt(p, options) + (if codes[n] in options then {n} else {});
    }
  }

  lemma {:induction false} RowOf(i: nat, n: nat)
    ensures |set k: nat | k < n :: (i, k)| == n
  {
    if n > 0 {
      RowOf(i, n - 1);
      assert (set k: nat | k < n :: (i, k)) == (set k: nat | k < n - 1 :: (i, k)) + {(i, n - 1)};
    } else {
      assert (set k: nat | k < n :: (i, k)) == {};
    }
  }

  lemma {:induction false} BindingScoreIs(bindings: seq<Ia>)
    ensures BindingScore(bindings) == SCORE_BINDING * |bindings| + SCORE_ADDRESS * |AddressesAt(bindings)|
  {
    if bindings == [] {
      assert AddressesAt(bindings) == {};
    } else {
      var p, n := bindings[..|bindings| - 1], |bindings| - 1;
      BindingScoreIs(p);
      var row := set k: nat | k < |bindings[n].addrs| :: (n, k);
      RowOf(n, |bindings[n].addrs|);
      assert AddressesAt(bindings) == AddressesAt(p) + row && AddressesAt(p) !! row;
    }
  }

  /** A lease without a required option is worth nothing; otherwise every IA, address and requested option counts. */
  lemma ScoreIs(w: Wishes, options: set<int>, bindings: seq<Ia>)
    ensures Lacks(w.required, options) ==> FreshScore(w, options, bindings) == 0
    ensures !Lacks(w.required, options) ==>
        FreshScore(w, options, bindings)
        == 1 + |PresentAt(w.requested, options)| + 10000 * |bindings| + 100 * |AddressesAt(bindings)|
  {
    CountPresentIs(w.requested, options);
    BindingScoreIs(bindings);
  }

  // ----- merging

  /** What identifies an address, or a prefix, within an IA. */
  function Key(iaType: int, a: Addr): (seq<int>, int) {
    (a.address, if iaType == D6O_IA_PD then a.plen else 0)
  }

  /** An address is told apart by itself, a prefix by itself and its length. */
  lemma SameKeyIff(iaType: int, a: Addr, b: Addr)
    ensures Key(iaType, a) == Key(iaType, b)
            <==> a.address == b.address && (iaType == D6O_IA_PD ==> a.plen == b.plen)
  {
  }

  predicate Has(iaType: int, addrs: seq<Addr>, key: (seq<int>, int)) {
    exists a :: a in addrs && Key(iaType, a) == key
  }

  /** `d` after the addresses of `s` that it lacks have been put in front of it, one by one. */
  function MergeAddrs(iaType: int, d: seq<Addr>, s: seq<Addr>): seq<Addr> {
    if s == [] then d
    else
      var m := MergeAddrs(iaType, d, s[..|s| - 1]);
      var a := s[|s| - 1];
      if Has(iaType, m, Key(iaType, a)) then m else [a] + m
  }

  predicate Same(ia: Ia, iaType: int, iaid: seq<int>) {
    ia.iaType == iaType && ia.iaid == iaid
  }

  /** The first IA of that type and identifier, or the length if there is none. */
  function FindIa(bs: seq<Ia>, iaType: int, iaid: seq<int>): (i: nat)
    ensures i <= |bs| && (i < |bs| ==> Same(bs[i], iaType, iaid))
    ensures forall j :: 0 <= j < i ==> !Same(bs[j], iaType, iaid)
  {
    if bs == [] then 0
    else if Same(bs[0], iaType, iaid) then 0
    else
      assert forall j :: 1 <= j < |bs| ==> bs[j] == bs[1..][j - 1];
      1 + FindIa(bs[1..], iaType, iaid)
  }

  /** `d` after one IA has been merged into it. */
  function MergeIa(d: seq<Ia>, ia: Ia): seq<Ia> {
    var i := FindIa(d, ia.iaType, ia.iaid);
    if i == |d| then d + [ia] else d[i := d[i].(addrs := MergeAddrs(ia.iaType, d[i].addrs, ia.addrs))]
  }

  function Merge(d: seq<Ia>, s: seq<Ia>): seq<Ia> {
    if s == [] then d else MergeIa(Merge(d, s[..|s| - 1]), s[|s| - 1])
  }

  // what an IA list holds

  predicate HasIa(bs: seq<Ia>, iaType: int, iaid: seq<int>) {
    exists b :: b in bs && Same(b, iaType, iaid)
  }

  predicate HasEntry(bs: seq<Ia>, iaType: int, iaid: seq<int>, key: (seq<int>, int)) {
    exists b :: b in bs && Same(b, iaType, iaid) && Has(iaType, b.addrs, key)
  }

  lemma {:induction false} MergeAddrsUnion(iaType: int, d: seq<Addr>, s: seq<Addr>, key: (seq<int>, int))
    ensures Has(iaType, MergeAddrs(iaType, d, s), key) <==> Has(iaType, d, key) || Has(iaType, s, key)
  {
    if s != [] {
      var p, a := s[..|s| - 1], s[|s| - 1];
      MergeAddrsUnion(iaType, d, p, key);
      assert s == p + [a];
      var m := MergeAddrs(iaType, d, p);
      assert MergeAddrs(iaType, d, s) == if Has(iaType, m, Key(iaType, a)) then m else [a] + m;
      assert Has(iaType, s, key) <==> Has(iaType, p, key) || Key(iaType, a) == key;
      assert a in [a] + m && forall x :: x in m ==> x in [a] + m;
    }
  }

  lemma MergeIaUnion(d: seq<Ia>, ia: Ia, iaType: int, iaid: seq<int>, key: (seq<int>, int))
    ensures HasIa(MergeIa(d, ia), iaType, iaid) <==> HasIa(d, iaType, iaid) || Same(ia, iaType, iaid)
    ensures HasEntry(MergeIa(d, ia), iaType, iaid, key)
            <==> HasEntry(d, iaType, iaid, key) || (Same(ia, iaType, iaid) && Has(iaType, ia.addrs, key))
  {
    var i, m := FindIa(d, ia.iaType, ia.iaid), MergeIa(d, ia);
    if i == |d| {
      assert m == d + [ia];
      assert forall b :: b in m <==> b in d || b == ia;
    } else {
      MergeAddrsUnion(ia.iaType, d[i].addrs, ia.addrs, key);
      assert m[i] in m && d[i] in d;
      assert Same(m[i], ia.iaType, ia.iaid);
      forall b | b in d && b != d[i] ensures b in m {
        var j :| 0 <= j < |d| && d[j] == b;
        assert m[j] == b;
      }
      assert forall b :: b in m && b != m[i] ==> b in d;
    }
  }

  /** Merging gives exactly the union, by IA and by address or prefix. */
  lemma {:induction false} MergeUnion(d: seq<Ia>, s: seq<Ia>, iaType: int, iaid: seq<int>, key: (seq<int>, int))
    ensures HasIa(Merge(d, s), iaType, iaid) <==> HasIa(d, iaType, iaid) || HasIa(s, iaType, iaid)
    ensures HasEntry(Merge(d, s), iaType, iaid, key)
            <==> HasEntry(d, iaType, iaid, key) || HasEntry(s, iaType, iaid, key)
  {
    if s != [] {
      var p, ia := s[..|s| - 1], s[|s| - 1];
      MergeUnion(d, p, iaType, iaid, key);
      MergeIaUnion(Merge(d, p), ia, iaType, iaid, key);
      assert forall b :: b in s <==> b in p || b == ia;
    }
  }

  // what was there is kept

  predicate EndsWith(r: seq<Addr>, d: seq<Addr>) {
    |d| <= |r| && r[|r| - |d|..] == d
  }

  /** Every IA of `d` is still in its place, with its own times, and its addresses are the last ones of its list. */
  predicate Kept(d: seq<Ia>, r: seq<Ia>) {
    && |d| <= |r|
    && forall i :: 0 <= i < |d| ==> r[i] == d[i].(addrs := r[i].addrs) && EndsWith(r[i].addrs, d[i].addrs)
  }

  lemma {:induction false} MergeAddrsKeeps(iaType: int, d: seq<Addr>, s: seq<Addr>)
    ensures EndsWith(MergeAddrs(iaType, d, s), d)
    ensures forall a :: a in MergeAddrs(iaType, d, s) ==> a in d || (a in s && !Has(iaType, d, Key(iaType, a)))
  {
    if s != [] {
      var p, a := s[..|s| - 1], s[|s| - 1];
      MergeAddrsKeeps(iaType, d, p);
      MergeAddrsUnion(iaType, d, p, Key(iaType, a));
      assert s == p + [a];
    }
  }

  lemma MergeIaKeeps(d: seq<Ia>, ia: Ia)
    ensures Kept(d, MergeIa(d, ia))
  {
    var i := FindIa(d, ia.iaType, ia.iaid);
    if i < |d| { MergeAddrsKeeps(ia.iaType, d[i].addrs, ia.addrs); }
  }

  lemma KeptTrans(d: seq<Ia>, m: seq<Ia>, r: seq<Ia>)
    requires Kept(d, m) && Kept(m, r)
    ensures Kept(d, r)
  {
    forall i | 0 <= i < |d| ensures EndsWith(r[i].addrs, d[i].addrs) {
      var x, y, z := d[i].addrs, m[i].addrs, r[i].addrs;
      assert y == z[|z| - |y|..] && x == y[|y| - |x|..];
      assert z[|z| - |x|..] == x;
    }
  }

  /** The destination's entries keep their places, times and lifetimes. */
  lemma {:induction false} MergeKeeps(d: seq<Ia>, s: seq<Ia>)
    ensures Kept(d, Merge(d, s))
  {
    if s != [] {
      var p := s[..|s| - 1];
      MergeKeeps(d, p);
      MergeIaKeeps(Merge(d, p), s[|s| - 1]);
      KeptTrans(d, Merge(d, p), Merge(d, s));
    }
  }

  /** Nothing is made up: an address of the result, with its lifetimes, is one of `d` or of `s` for the same IA. */
  predicate FromEither(r: seq<Ia>, d: seq<Ia>, s: seq<Ia>) {
    forall b, a :: b in r && a in b.addrs ==> Contains(d, b, a) || Contains(s, b, a)
  }

  predicate Contains(bs: seq<Ia>, ia: Ia, a: Addr) {
    exists b :: b in bs && Same(b, ia.iaType, ia.iaid) && a in b.addrs
  }

  lemma MergeIaFrom(m: seq<Ia>, ia: Ia, b: Ia, a: Addr)
    requires b in MergeIa(m, ia) && a in b.addrs
    ensures Contains(m, b, a) || (Same(ia, b.iaType, b.iaid) && a in ia.addrs)
  {
    var i := FindIa(m, ia.iaType, ia.iaid);
    if b !in m && i < |m| {
      MergeAddrsKeeps(ia.iaType, m[i].addrs, ia.addrs);
      assert m[i] in m;
    }
  }

  lemma {:induction false} MergeFromEither(d: seq<Ia>, s: seq<Ia>)
    ensures FromEither(Merge(d, s), d, s)
  {
    if s != [] {
      var p, ia := s[..|s| - 1], s[|s| - 1];
      MergeFromEither(d, p);
      forall b, a | b in Merge(d, s) && a in b.addrs ensures Contains(d, b, a) || Contains(s, b, a) {
        MergeIaFrom(Merge(d, p), ia, b, a);
        if Contains(Merge(d, p), b, a) {
          var c :| c in Merge(d, p) && Same(c, b.iaType, b.iaid) && a in c.addrs;
          assert Contains(d, c, a) || Contains(p, c, a);
        } else {
          assert ia in s;
        }
      }
    }
  }

  // keys stay unique

  predicate UniqueKeys(iaType: int, addrs: seq<Addr>) {
    forall i, j :: 0 <= i < j < |addrs| ==> Key(iaType, addrs[i]) != Key(iaType, addrs[j])
  }

  predicate Unique(bs: seq<Ia>) {
    && (forall i, j :: 0 <= i < j < |bs| ==> !Same(bs[i], bs[j].iaType, bs[j].iaid))
    && (forall i :: 0 <= i < |bs| ==> UniqueKeys(bs[i].iaType, bs[i].addrs))
  }

  lemma {:induction false} MergeAddrsUnique(iaType: int, d: seq<Addr>, s: seq<Addr>)
    requires UniqueKeys(iaType, d)
    ensures UniqueKeys(iaType, MergeAddrs(iaType, d, s))
  {
    if s != [] { MergeAddrsUnique(iaType, d, s[..|s| - 1]); }
  }

  lemma MergeIaUnique(d: seq<Ia>, ia: Ia)
    requires Unique(d) && UniqueKeys(ia.iaType, ia.addrs)
    ensures Unique(MergeIa(d, ia))
  {
    var i := FindIa(d, ia.iaType, ia.iaid);
    if i < |d| { MergeAddrsUnique(ia.iaType, d[i].addrs, ia.addrs); }
  }

  lemma {:induction false} MergeUnique(d: seq<Ia>, s: seq<Ia>)
    requires Unique(d) && forall i :: 0 <= i < |s| ==> UniqueKeys(s[i].iaType, s[i].addrs)
    ensures Unique(Merge(d, s))
  {
    if s != [] {
      MergeUnique(d, s[..|s| - 1]);
      MergeIaUnique(Merge(d, s[..|s| - 1]), s[|s| - 1]);
    }
  }

  // merging twice

  predicate Covered(m: seq<Ia>, ia: Ia) {
    var i := FindIa(m, ia.iaType, ia.iaid);
    i < |m| && forall a :: a in ia.addrs ==> Has(ia.iaType, m[i].addrs, Key(ia.iaType, a))
  }

  lemma {:induction false} MergeAddrsAbsorbed(iaType: int, d: seq<Addr>, s: seq<Addr>)
    requires forall a :: a in s ==> Has(iaType, d, Key(iaType, a))
    ensures MergeAddrs(iaType, d, s) == d
  {
    if s != [] {
      assert s[|s| - 1] in s;
      MergeAddrsAbsorbed(iaType, d, s[..|s| - 1]);
    }
  }

  lemma FindIaIs(bs: seq<Ia>, iaType: int, iaid: seq<int>, i: nat)
    requires i < |bs| && Same(bs[i], iaType, iaid) && forall j :: 0 <= j < i ==> !Same(bs[j], iaType, iaid)
    ensures FindIa(bs, iaType, iaid) == i
  {
  }

  lemma CoveredAfter(d: seq<Ia>, ia: Ia)
    ensures Covered(MergeIa(d, ia), ia)
  {
    var i := FindIa(d, ia.iaType, ia.iaid);
    var m := MergeIa(d, ia);
    FindIaIs(m, ia.iaType, ia.iaid, i);
    forall a | a in ia.addrs ensures Has(ia.iaType, m[i].addrs, Key(ia.iaType, a)) {
      if i < |d| { MergeAddrsUnion(ia.iaType, d[i].addrs, ia.addrs, Key(ia.iaType, a)); }
    }
  }

  lemma CoveredStays(m: seq<Ia>, ia: Ia, x: Ia)
    requires Covered(m, x)
    ensures Covered(MergeIa(m, ia), x)
  {
    var r := MergeIa(m, ia);
    MergeIaKeeps(m, ia);
    var i := FindIa(m, x.iaType, x.iaid);
    FindIaIs(r, x.iaType, x.iaid, i);
    forall a | a in x.addrs ensures Has(x.iaType, r[i].addrs, Key(x.iaType, a)) {
      assert Has(x.iaType, m[i].addrs, Key(x.iaType, a));
      assert forall y :: y in m[i].addrs ==> y in r[i].addrs;
    }
  }

  lemma {:induction false} MergeCovers(d: seq<Ia>, s: seq<Ia>, x: Ia)
    requires x in s
    ensures Covered(Merge(d, s), x)
  {
    var p, ia := s[..|s| - 1], s[|s| - 1];
    if x in p {
      MergeCovers(d, p, x);
      CoveredStays(Merge(d, p), ia, x);
    } else {
      assert x == ia;
      CoveredAfter(Merge(d, p), ia);
    }
  }

  lemma {:induction false} MergeAbsorbed(m: seq<Ia>, s: seq<Ia>)
    requires forall x :: x in s ==> Covered(m, x)
    ensures Merge(m, s) == m
  {
    if s != [] {
      var ia := s[|s| - 1];
      assert ia in s;
      MergeAbsorbed(m, s[..|s| - 1]);
      MergeAddrsAbsorbed(ia.iaType, m[FindIa(m, ia.iaType, ia.iaid)].addrs, ia.addrs);
    }
  }

  /** Merging twice is merging once. */
  lemma MergeIdempotent(d: seq<Ia>, s: seq<Ia>)
    ensures Merge(Merge(d, s), s) == Merge(d, s)
  {
    forall x | x in s ensures Covered(Merge(d, s), x) { MergeCovers(d, s, x); }
    MergeAbsorbed(Merge(d, s), s);
  }

  lemma KeptAntisymmetric(d: seq<Ia>, m: seq<Ia>)
    requires Kept(d, m) && Kept(m, d)
    ensures d == m
  {
    forall i | 0 <= i < |d| ensures d[i] == m[i] {
      assert EndsWith(m[i].addrs, d[i].addrs) && EndsWith(d[i].addrs, m[i].addrs);
    }
  }

  /** A merge that has changed something is not undone by a later one. */
  lemma ChangeStays(d: seq<Ia>, p: seq<Ia>, ia: Ia)
    ensures var m := Merge(d, p); MergeIa(m, ia) == d <==> m == d && MergeIa(m, ia) == m
  {
    var m := Merge(d, p);
    MergeKeeps(d, p);
    MergeIaKeeps(m, ia);
    if MergeIa(m, ia) == d { KeptAntisymmetric(d, m); }
  }

  // ----- the lease object

  method FindAddr(iaType: int, addrs: seq<Addr>, key: (seq<int>, int)) returns (found: bool)
    ensures found <==> Has(iaType, addrs, key)
  {
    for i := 0 to |addrs|
      invariant forall j :: 0 <= j < i ==> Key(iaType, addrs[j]) != key
    {
      if Key(iaType, addrs[i]) == key { return true; }
    }
    return false;
  }

  method FindIaIn(bs: seq<Ia>, iaType: int, iaid: seq<int>) returns (i: nat)
    ensures i == FindIa(bs, iaType, iaid)
  {
    i := 0;
    while i < |bs|
      invariant i <= |bs| && forall j :: 0 <= j < i ==> !Same(bs[j], iaType, iaid)
    {
      if Same(bs[i], iaType, iaid) {
        FindIaIs(bs, iaType, iaid, i);
        return;
      }
      i := i + 1;
    }
  }

  /** The inner loop of dhc6_merge_lease. */
  method AddMissing(iaType: int, d: seq<Addr>, s: seq<Addr>) returns (r: seq<Addr>, changed: bool)
    ensures r == MergeAddrs(iaType, d, s) && (changed <==> r != d)
  {
    r, changed := d, false;
    for i := 0 to |s|
      invariant r == MergeAddrs(iaType, d, s[..i]) && |r| >= |d| && (if changed then |r| > |d| else r == d)
    {
      assert s[..i + 1][..i] == s[..i];
      var found := FindAddr(iaType, r, Key(iaType, s[i]));
      if !found {
        r, changed := [s[i]] + r, true;
      }
    }
    assert s[..|s|] == s;
  }

  /** The outer loop of dhc6_merge_lease for one IA. */
  method MergeOne(d: seq<Ia>, ia: Ia) returns (r: seq<Ia>, changed: bool)
    ensures r == MergeIa(d, ia) && (changed <==> r != d)
  {
    var i := FindIaIn(d, ia.iaType, ia.iaid);
    if i == |d| {
      return d + [ia], true;
    }
    var addrs, added := AddMissing(ia.iaType, d[i].addrs, ia.addrs);
    r, changed := d[i := d[i].(addrs := addrs)], added;
    assert r[i].addrs == addrs;
  }

  /** The loops of dhc6_merge_lease. */
  method MergeAll(d: seq<Ia>, s: seq<Ia>) returns (r: seq<Ia>, changes: bool)
    ensures r == Merge(d, s) && (changes <==> r != d)
  {
    r, changes := d, false;
    for i := 0 to |s|
      invariant r == Merge(d, s[..i]) && (changes <==> r != d)
    {
      assert s[..i + 1][..i] == s[..i];
      ChangeStays(d, s[..i], s[i]);
      var changed;
      r, changed := MergeOne(r, s[i]);
      if changed { changes := true; }
    }
    assert s[..|s|] == s;
  }

  class Lease {
    const serverId: seq<int>
    const pref: int
    const options: set<int>
    const status: Status
    var bindings: seq<Ia>
    var score: int

    constructor (serverId: seq<int>, pref: int, options: set<int>, status: Status, bindings: seq<Ia>)
      ensures this.serverId == serverId && this.pref == pref && this.options == options && this.status == status
      ensures this.bindings == bindings && score == 0
    {
      this.serverId, this.pref, this.options, this.status := serverId, pref, options, status;
      this.bindings, score := bindings, 0;
    }

    ghost function Fresh(w: Wishes): nat
      reads this`bindings
    {
      FreshScore(w, options, bindings)
    }

    /** A score that has been cached is the one that would be computed now. */
    ghost predicate CacheOk(w: Wishes)
      reads this
    {
      score != 0 ==> score == Fresh(w)
    }

    method MissesRequired(w: Wishes) returns (missing: bool)
      ensures missing <==> Lacks(w.required, options)
    {
      for i := 0 to |w.required|
        invariant forall j :: 0 <= j < i ==> w.required[j] in options
      {
        if w.required[i] !in options { return true; }
      }
      return false;
    }

    /** dhc6_score_lease. */
    method ScoreLease(w: Wishes) returns (n: int)
      modifies this`score
      ensures n == score == if old(score) != 0 then old(score) else Fresh(w)
      ensures old(CacheOk(w)) ==> CacheOk(w) && n == Fresh(w)
    {
      if score != 0 { return score; }
      score := SCORE_OPTION;
      var missing := MissesRequired(w);
      if missing {
        score := 0;
        return score;
      }
      for i := 0 to |w.requested|
        invariant score == SCORE_OPTION + SCORE_OPTION * CountPresent(w.requested[..i], options)
      {
        assert w.requested[..i + 1][..i] == w.requested[..i];
        if w.requested[i] in options {
          score := score + SCORE_OPTION;
        }
      }
      assert w.requested[..|w.requested|] == w.requested;
      ghost var base := score;
      for i := 0 to |bindings|
        invariant score == base + BindingScore(bindings[..i])
      {
        assert bindings[..i + 1][..i] == bindings[..i];
        score := score + SCORE_BINDING;
        for k := 0 to |bindings[i].addrs|
          invariant score == base + BindingScore(bindings[..i]) + SCORE_BINDING + SCORE_ADDRESS * k
        {
          score := score + SCORE_ADDRESS;
        }
      }
      assert bindings[..|bindings|] == bindings;
      return score;
    }

    /** dhc6_dup_lease: a copy that has not been scored. */
    method Dup() returns (copy: Lease)
      ensures fresh(copy) && copy.serverId == serverId && copy.pref == pref && copy.options == options
      ensures copy.bindings == bindings && copy.score == 0
    {
      copy := new Lease(serverId, pref, options, status, bindings);
    }

    /** dhc6_merge_lease with this lease as the destination. */
    method MergeFrom(src: Lease)
      modifies this`bindings, this`score
      ensures bindings == Merge(old(bindings), old(src.bindings))
      ensures score == if bindings == old(bindings) then old(score) else 0
      ensures forall w :: old(CacheOk(w)) ==> CacheOk(w)
    {
      var changes;
      bindings, changes := MergeAll(bindings, src.bindings);
      if changes {
        score := 0;
      }
    }
  }
}
