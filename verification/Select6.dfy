/** Collecting DHCPv6 Advertise messages and selecting among them (client/dhc6.c). */
module Select6 {
  import opened Common
  import opened Lease6

  // ----- what the selection compares

  datatype Advert = Advert(id: seq<int>, pref: int, score: int)

  /** memcmp on byte strings of the same length. */
  predicate BytesLess(a: seq<int>, b: seq<int>)
    requires |a| == |b|
  {
    a != [] && (a[0] < b[0] || (a[0] == b[0] && BytesLess(a[1..], b[1..])))
  }

  predicate LowerId(a: seq<int>, b: seq<int>) {
    |a| < |b| || (|a| == |b| && BytesLess(a, b))
  }

  /** dhc6_best_lease lets candidate `c` replace the present choice `r`. */
  predicate Replaces(c: Advert, r: Advert) {
    if r.score < SCORE_MIN && c.score >= SCORE_MIN then true
    else if c.pref < r.pref then false
    else if c.pref > r.pref then true
    else if c.score > r.score then true
    else if c.score < r.score then false
    else LowerId(c.id, r.id)
  }

  /** The order that is meant: higher preference, then higher score, then lower server identifier. */
  predicate Before(a: Advert, b: Advert) {
    || a.pref > b.pref
    || (a.pref == b.pref && (a.score > b.score || (a.score == b.score && LowerId(a.id, b.id))))
  }

  lemma {:induction false} BytesTotal(a: seq<int>, b: seq<int>)
    requires |a| == |b|
    ensures a == b || BytesLess(a, b) || BytesLess(b, a)
    ensures !(BytesLess(a, b) && BytesLess(b, a))
  {
    if a != [] {
      BytesTotal(a[1..], b[1..]);
      assert a == [a[0]] + a[1..] && b == [b[0]] + b[1..];
    }
  }

  lemma {:induction false} BytesTransitive(a: seq<int>, b: seq<int>, c: seq<int>)
    requires |a| == |b| == |c| && BytesLess(a, b) && BytesLess(b, c)
    ensures BytesLess(a, c)
  {
    if a[0] == b[0] == c[0] { BytesTransitive(a[1..], b[1..], c[1..]); }
  }

  lemma BeforeTotal(a: Advert, b: Advert)
    ensures a.id == b.id || Before(a, b) || Before(b, a)
    ensures !(Before(a, b) && Before(b, a))
  {
    if |a.id| == |b.id| { BytesTotal(a.id, b.id); }
  }

  lemma BeforeTransitive(a: Advert, b: Advert, c: Advert)
    requires Before(a, b) && Before(b, c)
    ensures Before(a, c)
  {
    if |a.id| == |b.id| == |c.id| && BytesLess(a.id, b.id) && BytesLess(b.id, c.id) {
      BytesTransitive(a.id, b.id, c.id);
    }
  }

  /** A lease without bindings that is preferred to one with bindings. */
  predicate Conflict(a: Advert, b: Advert) {
    a.score < SCORE_MIN && b.score >= SCORE_MIN && a.pref > b.pref
  }

  lemma ReplacesIsBefore(c: Advert, r: Advert)
    requires !Conflict(r, c)
    ensures Replaces(c, r) <==> Before(c, r)
  {
  }

  // ----- picking and draining

  /** The choice after the first `n` candidates have been considered. */
  function Best(s: seq<Advert>, n: nat): (k: nat)
    requires 1 <= n <= |s|
    ensures k < n
  {
    if n == 1 then 0
    else
      var r := Best(s, n - 1);
      if Replaces(s[n - 1], s[r]) then n - 1 else r
  }

  /** The leases in the order in which repeated calls of dhc6_best_lease take them. */
  function Drain(s: seq<Advert>): seq<Advert>
    decreases |s|
  {
    if s == [] then []
    else
      var k := Best(s, |s|);
      [s[k]] + Drain(Without(s, k))
  }

  lemma WithoutMultiset<T>(s: seq<T>, k: nat)
    requires k < |s|
    ensures multiset(Without(s, k)) == multiset(s) - multiset{s[k]}
  {
    assert s == s[..k] + [s[k]] + s[k + 1..];
  }

  lemma {:induction false} DrainPermutes(s: seq<Advert>)
    ensures multiset(Drain(s)) == multiset(s)
    decreases |s|
  {
    if s != [] {
      var k := Best(s, |s|);
      WithoutMultiset(s, k);
      DrainPermutes(Without(s, k));
      assert s[k] in multiset(s);
    }
  }

  /** No two leases of the same server. */
  predicate Unique(m: multiset<Advert>) {
    forall a, b :: a in m && b in m && a.id == b.id ==> a == b
  }

  predicate Agreeable(m: multiset<Advert>) {
    forall a, b :: a in m && b in m ==> !Conflict(a, b)
  }

  predicate Top(m: multiset<Advert>, x: Advert) {
    x in m && forall y :: y in m ==> y == x || Before(x, y)
  }

  lemma {:induction false} BestIsTop(s: seq<Advert>, n: nat)
    requires 1 <= n <= |s| && Unique(multiset(s)) && Agreeable(multiset(s))
    ensures forall j :: 0 <= j < n ==> s[j] == s[Best(s, n)] || Before(s[Best(s, n)], s[j])
  {
    if n > 1 {
      BestIsTop(s, n - 1);
      var r := Best(s, n - 1);
      assert s[n - 1] in multiset(s) && s[r] in multiset(s);
      ReplacesIsBefore(s[n - 1], s[r]);
      BeforeTotal(s[n - 1], s[r]);
      forall j | 0 <= j < n ensures s[j] == s[Best(s, n)] || Before(s[Best(s, n)], s[j]) {
        if Replaces(s[n - 1], s[r]) && j < n - 1 && s[j] != s[r] { BeforeTransitive(s[n - 1], s[r], s[j]); }
      }
    }
  }

  lemma PickIsTop(s: seq<Advert>)
    requires s != [] && Unique(multiset(s)) && Agreeable(multiset(s))
    ensures Top(multiset(s), s[Best(s, |s|)])
  {
    BestIsTop(s, |s|);
    var x := s[Best(s, |s|)];
    forall y | y in multiset(s) ensures y == x || Before(x, y) {
      var j :| 0 <= j < |s| && s[j] == y;
    }
  }

  lemma TopIsOne(m: multiset<Advert>, x: Advert, y: Advert)
    requires Top(m, x) && Top(m, y)
    ensures x == y
  {
    if x != y { BeforeTotal(x, y); }
  }

  /** What is left after a pick. */
  lemma RestIsFine(s: seq<Advert>, k: nat)
    requires k < |s| && Unique(multiset(s)) && Agreeable(multiset(s))
    ensures Unique(multiset(Without(s, k))) && Agreeable(multiset(Without(s, k)))
    ensures forall y :: y in multiset(Without(s, k)) ==> y in multiset(s)
  {
    WithoutMultiset(s, k);
  }

  lemma TopOfRest(s: seq<Advert>, k: nat, x: Advert, y: Advert)
    requires k < |s| && Top(multiset(s), x) && y in multiset(Without(s, k))
    ensures y == x || Before(x, y)
  {
    WithoutMultiset(s, k);
  }

  predicate Sorted(d: seq<Advert>) {
    forall i, j :: 0 <= i < j < |d| ==> d[i] == d[j] || Before(d[i], d[j])
  }

  /** The rest of a drained list comes after its first element. */
  lemma TopThenRest(s: seq<Advert>, k: nat)
    requires k < |s| && Top(multiset(s), s[k])
    ensures forall y :: y in Drain(Without(s, k)) ==> y == s[k] || Before(s[k], y)
  {
    var e := Drain(Without(s, k));
    DrainPermutes(Without(s, k));
    forall y | y in e ensures y == s[k] || Before(s[k], y) {
      assert y in multiset(e);
      TopOfRest(s, k, s[k], y);
    }
  }

  lemma SortedCons(x: Advert, e: seq<Advert>)
    requires Sorted(e) && forall y :: y in e ==> y == x || Before(x, y)
    ensures Sorted([x] + e)
  {
  }

  /** The leases are taken in descending order of preference and score, lower server identifiers first. */
  lemma {:induction false} DrainSorted(s: seq<Advert>)
    requires Unique(multiset(s)) && Agreeable(multiset(s))
    ensures Sorted(Drain(s))
    decreases |s|
  {
    if s != [] {
      var k := Best(s, |s|);
      PickIsTop(s);
      TopThenRest(s, k);
      assert Sorted(Drain(Without(s, k))) by {
        RestIsFine(s, k);
        DrainSorted(Without(s, k));
      }
      SortedCons(s[k], Drain(Without(s, k)));
    }
  }

  /** The order in which the Advertise messages came does not matter. */
  lemma {:induction false} DrainIndependent(s: seq<Advert>, t: seq<Advert>)
    requires multiset(s) == multiset(t) && Unique(multiset(s)) && Agreeable(multiset(s))
    ensures Drain(s) == Drain(t)
    decreases |s|
  {
    assert |s| == |multiset(s)| == |multiset(t)| == |t|;
    if s != [] {
      var k, m := Best(s, |s|), Best(t, |t|);
      assert s[k] == t[m] by {
        PickIsTop(s);
        PickIsTop(t);
        TopIsOne(multiset(s), s[k], t[m]);
      }
      RestIsFine(s, k);
      assert multiset(Without(s, k)) == multiset(Without(t, m)) by {
        WithoutMultiset(s, k);
        WithoutMultiset(t, m);
      }
      DrainIndependent(Without(s, k), Without(t, m));
    }
  }

  // ----- when it does matter

  lemma {:induction false} BestPrefix(s: seq<Advert>, t: seq<Advert>, n: nat)
    requires 1 <= n <= |s| && n <= |t| && forall j :: 0 <= j < n ==> s[j] == t[j]
    ensures Best(s, n) == Best(t, n)
  {
    if n > 1 { BestPrefix(s, t, n - 1); }
  }

  /** The last two candidates conflict: the pick is the later of them, or neither of them in both orders. */
  lemma ConflictPicks(ys: seq<Advert>, a: Advert, b: Advert)
    requires Conflict(a, b)
    ensures var s, t := ys + [a, b], ys + [b, a];
            var k, m := Best(s, |s|), Best(t, |t|);
            (s[k] == b && t[m] == a) || k == m < |ys|
  {
    var s, t, n := ys + [a, b], ys + [b, a], |ys|;
    if n == 0 {
      assert Best(s, 1) == 0 && Best(t, 1) == 0;
    } else {
      BestPrefix(s, t, n);
      var w := Best(s, n);
      assert Best(s, n + 1) == if Replaces(a, ys[w]) then n else w;
      assert Best(t, n + 1) == if Replaces(b, ys[w]) then n else w;
    }
  }

  lemma WithoutAppend(ys: seq<Advert>, zs: seq<Advert>, k: nat)
    requires k < |ys|
    ensures Without(ys + zs, k) == Without(ys, k) + zs
  {
  }

  lemma {:induction false} ConflictMatters(ys: seq<Advert>, a: Advert, b: Advert)
    requires Conflict(a, b)
    ensures Drain(ys + [a, b]) != Drain(ys + [b, a])
    decreases |ys|
  {
    var s, t := ys + [a, b], ys + [b, a];
    ConflictPicks(ys, a, b);
    var k, m := Best(s, |s|), Best(t, |t|);
    assert Drain(s)[0] == s[k] && Drain(t)[0] == t[m];
    if k == m < |ys| {
      WithoutAppend(ys, [a, b], k);
      WithoutAppend(ys, [b, a], k);
      ConflictMatters(Without(ys, k), a, b);
      assert Drain(s)[1..] == Drain(Without(s, k)) && Drain(t)[1..] == Drain(Without(t, k));
    }
  }

  ghost predicate Independent(m: multiset<Advert>) {
    forall t, u :: multiset(t) == m && multiset(u) == m ==> Drain(t) == Drain(u)
  }

  lemma AppendTwo(ys: seq<Advert>, a: Advert, b: Advert)
    ensures multiset(ys + [a, b]) == multiset(ys) + multiset{a} + multiset{b}
  {
    assert ys + [a, b] == ys + [a] + [b];
  }

  lemma PutBack(m: multiset<Advert>, a: Advert, b: Advert)
    requires a in m && b in m - multiset{a}
    ensures m - multiset{a} - multiset{b} + multiset{a} + multiset{b} == m
    ensures m - multiset{a} - multiset{b} + multiset{b} + multiset{a} == m
  {
  }

  /** The other leases, with two of them put last in either order. */
  lemma TwoLast(s: seq<Advert>, a: Advert, b: Advert) returns (ys: seq<Advert>)
    requires a in s && b in s && a != b
    ensures multiset(ys + [a, b]) == multiset(s) && multiset(ys + [b, a]) == multiset(s)
  {
    var i :| 0 <= i < |s| && s[i] == a;
    WithoutMultiset(s, i);
    var r := Without(s, i);
    assert b in multiset(s);
    assert b in multiset(r);
    var j :| 0 <= j < |r| && r[j] == b;
    WithoutMultiset(r, j);
    ys := Without(r, j);
    PutBack(multiset(s), a, b);
    AppendTwo(ys, a, b);
    AppendTwo(ys, b, a);
  }

  lemma ConflictBreaksIndependence(s: seq<Advert>, a: Advert, b: Advert)
    requires a in s && b in s && Conflict(a, b)
    ensures !Independent(multiset(s))
  {
    var ys := TwoLast(s, a, b);
    ConflictMatters(ys, a, b);
  }

  /**
   * Whatever was received, the order of arrival is irrelevant exactly if no lease that lacks bindings is
   * preferred to one that has them.
   */
  lemma IndependentIff(s: seq<Advert>)
    requires Unique(multiset(s))
    ensures Independent(multiset(s)) <==> Agreeable(multiset(s))
  {
    if Agreeable(multiset(s)) {
      forall t, u | multiset(t) == multiset(s) && multiset(u) == multiset(s) ensures Drain(t) == Drain(u) {
        DrainIndependent(t, u);
      }
    } else {
      var a, b :| a in multiset(s) && b in multiset(s) && Conflict(a, b);
      ConflictBreaksIndependence(s, a, b);
    }
  }

  /** With bindings in every lease there is nothing to disagree about. */
  lemma BoundIsAgreeable(m: multiset<Advert>)
    requires forall a :: a in m ==> a.score >= SCORE_MIN
    ensures Agreeable(m)
  {
  }

  /** A lease that lacks a required option, and so scores 0, can win or lose by its time of arrival. */
  lemma ArrivalCanMatter()
    ensures var a, b := Advert([1], 1, 0), Advert([2], 0, SCORE_MIN);
            Drain([a, b]) != Drain([b, a]) && Unique(multiset([a, b]))
  {
    var a, b := Advert([1], 1, 0), Advert([2], 0, SCORE_MIN);
    ConflictMatters([], a, b);
    assert [] + [a, b] == [a, b] && [] + [b, a] == [b, a];
  }

  // ----- which Advertise messages are considered

  datatype Verdict = Success | Failure | FormErr | AddrNotAvail

  /** How many IAs of each type the client wants, and whether it insists on all of them. */
  datatype Wanted = Wanted(na: nat, ta: nat, pd: nat, all: bool)

  function CheckStatus(rval: Verdict, s: Status): Verdict {
    match s
    case Absent => rval
    case Code(c) => if c != 0 then Failure else rval
    case Malformed => FormErr
  }

  predicate Fine(s: Status) { s == Absent || s == Code(0) }

  function CountType(bs: seq<Ia>, iaType: int): nat {
    if bs == [] then 0
    else CountType(bs[..|bs| - 1], iaType) + (if bs[|bs| - 1].iaType == iaType then 1 else 0)
  }

  /** The places of the IAs of that type. */
  function TypeAt(bs: seq<Ia>, iaType: int): set<nat> {
    set i: nat | i < |bs| && bs[i].iaType == iaType
  }

  lemma TypeAtLast(bs: seq<Ia>, iaType: int)
    requires bs != []
    ensures var n := |bs| - 1;
            TypeAt(bs, iaType) == TypeAt(bs[..n], iaType) + (if bs[n].iaType == iaType then {n} else {})
    ensures |bs| - 1 !in TypeAt(bs[..|bs| - 1], iaType)
  {
  }

  lemma {:induction false} CountTypeIs(bs: seq<Ia>, iaType: int)
    ensures CountType(bs, iaType) == |TypeAt(bs, iaType)|
  {
    if bs == [] {
      assert TypeAt(bs, iaType) == {};
    } else {
      CountTypeIs(bs[..|bs| - 1], iaType);
      TypeAtLast(bs, iaType);
    }
  }

  predicate KnownType(t: int) { t == D6O_IA_NA || t == D6O_IA_TA || t == D6O_IA_PD }

  /** What an Advertise message needs to be considered. */
  predicate Acceptable(status: Status, bs: seq<Ia>, wanted: Wanted) {
    && Fine(status)
    && (forall i :: 0 <= i < |bs| ==> KnownType(bs[i].iaType) && Fine(bs[i].status))
    && (exists i :: 0 <= i < |bs| && bs[i].addrs != [])
    && (wanted.all ==> CountType(bs, D6O_IA_NA) >= wanted.na && CountType(bs, D6O_IA_TA) >= wanted.ta
                       && CountType(bs, D6O_IA_PD) >= wanted.pd)
  }

  /** dhc6_check_advertise. */
  method CheckAdvertise(status: Status, bs: seq<Ia>, wanted: Wanted) returns (rval: Verdict)
    ensures rval == Success <==> Acceptable(status, bs, wanted)
  {
    rval := CheckStatus(Success, status);
    var haveAddrs, na, ta, pd := false, 0, 0, 0;
    for i := 0 to |bs|
      invariant rval == Success <==> Fine(status) && forall j :: 0 <= j < i ==> Fine(bs[j].status)
      invariant forall j :: 0 <= j < i ==> KnownType(bs[j].iaType)
      invariant rval == Success ==> (haveAddrs <==> exists j :: 0 <= j < i && bs[j].addrs != [])
      invariant na == CountType(bs[..i], D6O_IA_NA) && ta == CountType(bs[..i], D6O_IA_TA)
          && pd == CountType(bs[..i], D6O_IA_PD)
    {
      assert bs[..i + 1][..i] == bs[..i];
      if bs[i].iaType == D6O_IA_NA {
        na := na + 1;
      } else if bs[i].iaType == D6O_IA_TA {
        ta := ta + 1;
      } else if bs[i].iaType == D6O_IA_PD {
        pd := pd + 1;
      } else {
        return Failure;
      }
      rval := CheckStatus(rval, bs[i].status);
      if rval == Success && bs[i].addrs != [] {
        haveAddrs := true;
      }
    }
    assert bs[..|bs|] == bs;
    if !haveAddrs || (wanted.all && (na < wanted.na || ta < wanted.ta || pd < wanted.pd)) {
      rval := AddrNotAvail;
    }
  }

  /** A considered lease scores more than the minimum, unless it lacks a required option and scores nothing. */
  lemma AcceptableScores(w: Wishes, options: set<int>, status: Status, bs: seq<Ia>, wanted: Wanted)
    requires Acceptable(status, bs, wanted)
    ensures if Lacks(w.required, options) then FreshScore(w, options, bs) == 0
        else FreshScore(w, options, bs) > SCORE_MIN
  {
    var i :| 0 <= i < |bs| && bs[i].addrs != [];
    BindingScoreOf(bs, i);
  }

  // ----- the list of advertised leases

  ghost function AdvertOf(w: Wishes, l: Lease): Advert
    reads l`bindings
  {
    Advert(l.serverId, l.pref, l.Fresh(w))
  }

  ghost function AdvertsOf(w: Wishes, ls: seq<Lease>): (r: seq<Advert>)
    reads ls`bindings
    ensures |r| == |ls| && forall i :: 0 <= i < |ls| ==> r[i] == AdvertOf(w, ls[i])
  {
    if ls == [] then [] else AdvertsOf(w, ls[..|ls| - 1]) + [AdvertOf(w, ls[|ls| - 1])]
  }

  ghost predicate Describes(ads: seq<Advert>, w: Wishes, ls: seq<Lease>)
    reads ls`bindings
  {
    |ads| == |ls| && forall i :: 0 <= i < |ls| ==> ads[i] == AdvertOf(w, ls[i])
  }

  ghost predicate UniqueIds(ls: seq<Lease>) {
    forall i, j :: 0 <= i < j < |ls| ==> ls[i].serverId != ls[j].serverId
  }

  /** The position of the lease from that server, or the length if there is none. */
  ghost predicate IsPlace(ls: seq<Lease>, id: seq<int>, k: nat) {
    && k <= |ls| && (forall j :: 0 <= j < k ==> ls[j].serverId != id)
    && (k < |ls| ==> ls[k].serverId == id)
  }

  /** Taking the place of the lease from the same server keeps the servers apart. */
  lemma InsertedUnique(ls: seq<Lease>, added: Lease, k: nat)
    requires UniqueIds(ls) && IsPlace(ls, added.serverId, k)
    ensures UniqueIds(if k == |ls| then ls + [added] else ls[k := added])
  {
  }

  /** Leases of different servers are different to the selection. */
  lemma UniqueAdverts(w: Wishes, ls: seq<Lease>)
    requires UniqueIds(ls)
    ensures Unique(multiset(AdvertsOf(w, ls)))
  {
    var ads := AdvertsOf(w, ls);
    forall a: Advert, b: Advert | a in multiset(ads) && b in multiset(ads) && a.id == b.id ensures a == b {
      var i :| 0 <= i < |ads| && ads[i] == a;
      var j :| 0 <= j < |ads| && ads[j] == b;
    }
  }

  /** Taking a lease off the list takes its description off, so repeated picks are those of Drain. */
  lemma AdvertsWithout(w: Wishes, ls: seq<Lease>, k: nat)
    requires k < |ls|
    ensures AdvertsOf(w, Without(ls, k)) == Without(AdvertsOf(w, ls), k)
  {
  }

  lemma WithoutUnique(ls: seq<Lease>, k: nat)
    requires UniqueIds(ls) && k < |ls|
    ensures UniqueIds(Without(ls, k)) && forall l :: l in Without(ls, k) ==> l in ls
  {
  }

  class Collector {
    const w: Wishes
    const wanted: Wanted
    /** ENFORCE_DHCPV6_CLIENT_REQUIRE. */
    const enforce: bool
    var advertised: seq<Lease>

    constructor (w: Wishes, wanted: Wanted, enforce: bool)
      ensures Valid() && advertised == [] && this.w == w && this.wanted == wanted && this.enforce == enforce
    {
      this.w, this.wanted, this.enforce := w, wanted, enforce;
      advertised := [];
    }

    ghost predicate Fit(l: Lease)
      reads l
    {
      l.CacheOk(w) && (l.Fresh(w) > SCORE_MIN || (!enforce && l.Fresh(w) == 0 && Lacks(w.required, l.options)))
    }

    ghost predicate Valid()
      reads this, advertised
    {
      UniqueIds(advertised) && forall l :: l in advertised ==> Fit(l)
    }

    /** Where insert_lease puts a lease. */
    method FindPlace(id: seq<int>) returns (k: nat)
      ensures IsPlace(advertised, id, k)
    {
      k := 0;
      while k < |advertised| && advertised[k].serverId != id
        invariant k <= |advertised| && forall j :: 0 <= j < k ==> advertised[j].serverId != id
      {
        k := k + 1;
      }
    }

    /** insert_lease: a later lease from a server takes the place of the earlier one. */
    method InsertLease(lease: Lease) returns (k: nat)
      requires Valid() && Fit(lease)
      modifies this`advertised
      ensures Valid()
      ensures IsPlace(old(advertised), lease.serverId, k)
      ensures advertised == if k == |old(advertised)| then old(advertised) + [lease] else old(advertised)[k := lease]
    {
      k := FindPlace(lease.serverId);
      InsertedUnique(advertised, lease, k);
      if k < |advertised| {
        advertised := advertised[k := lease];
      } else {
        advertised := advertised + [lease];
      }
    }

    /** init_handler up to the decision whether to go on waiting. */
    method ReceiveAdvertise(lease: Lease) returns (recorded: bool)
      requires Valid() && lease !in advertised && lease.score == 0
      modifies this`advertised, lease`score
      ensures Valid()
      ensures recorded
          <==> Acceptable(lease.status, lease.bindings, wanted) && (enforce ==> !Lacks(w.required, lease.options))
      ensures if recorded then lease in advertised else advertised == old(advertised)
    {
      var verdict := CheckAdvertise(lease.status, lease.bindings, wanted);
      if verdict != Success { return false; }
      AcceptableScores(w, lease.options, lease.status, lease.bindings, wanted);
      var score := lease.ScoreLease(w);
      if enforce && score == 0 { return false; }
      var k := InsertLease(lease);
      assert advertised[k] == lease;
      return true;
    }

    /** Scoring an advertised lease changes no more than its cache. */
    method Rate(l: Lease) returns (score: int)
      requires Valid() && l in advertised
      modifies l`score
      ensures Valid() && score == AdvertOf(w, l).score
    {
      score := l.ScoreLease(w);
    }

    /** One round of the loop: candidate `c` against the present choice `r`. */
    method Consider(c: nat, r: nat, rscore: int, ghost ads: seq<Advert>) returns (k: nat, kscore: int)
      requires Valid() && c < |advertised| && r < |advertised|
      requires Describes(ads, w, advertised) && rscore == ads[r].score
      modifies advertised`score
      ensures Valid() && Describes(ads, w, advertised)
      ensures k == (if Replaces(ads[c], ads[r]) then c else r) && kscore == ads[k].score
    {
      var cand, cur := advertised[c], advertised[r];
      var cscore := Rate(cand);
      if Replaces(Advert(cand.serverId, cand.pref, cscore), Advert(cur.serverId, cur.pref, rscore)) {
        k, kscore := c, cscore;
      } else {
        k, kscore := r, rscore;
      }
    }

    /** The loop of dhc6_best_lease. */
    method PickBest(ghost ads: seq<Advert>) returns (r: nat)
      requires Valid() && advertised != [] && Describes(ads, w, advertised)
      modifies advertised`score
      ensures Valid() && r == Best(ads, |advertised|)
    {
      r := 0;
      var rscore := Rate(advertised[0]);
      for c := 1 to |advertised|
        invariant Valid() && Describes(ads, w, advertised)
        invariant r == Best(ads, c) && rscore == ads[r].score
      {
        r, rscore := Consider(c, r, rscore, ads);
      }
    }

    /** The selected lease is removed from the chain. */
    method TakeOff(r: nat) returns (best: Lease)
      requires Valid() && r < |advertised|
      modifies this`advertised
      ensures Valid() && best == old(advertised)[r] && Fit(best) && advertised == Without(old(advertised), r)
      ensures AdvertsOf(w, advertised) == Without(old(AdvertsOf(w, advertised)), r)
    {
      AdvertsWithout(w, advertised, r);
      WithoutUnique(advertised, r);
      best := advertised[r];
      advertised := Without(advertised, r);
    }

    /** dhc6_best_lease. */
    method BestLease() returns (best: Lease?)
      requires Valid()
      modifies this`advertised, advertised`score
      ensures Valid()
      ensures if old(advertised) == [] then best == null && advertised == []
              else
                var k := Best(old(AdvertsOf(w, advertised)), |old(advertised)|);
                && best == old(advertised)[k] && Fit(best) && advertised == Without(old(advertised), k)
                && AdvertsOf(w, advertised) == Without(old(AdvertsOf(w, advertised)), k)
    {
      if advertised == [] { return null; }
      ghost var ads := AdvertsOf(w, advertised);
      var r := PickBest(ads);
      assert AdvertsOf(w, advertised) == ads;
      best := TakeOff(r);
    }
  }

  /** If required options are enforced, or never missing, the order of arrival is irrelevant to a collector. */
  lemma CollectedIndependent(c: Collector)
    requires c.Valid()
        && (c.enforce || forall i :: 0 <= i < |c.advertised| ==> !Lacks(c.w.required, c.advertised[i].options))
    ensures var ads := AdvertsOf(c.w, c.advertised); Independent(multiset(ads)) && Sorted(Drain(ads))
  {
    var ads := AdvertsOf(c.w, c.advertised);
    UniqueAdverts(c.w, c.advertised);
    forall a: Advert | a in multiset(ads) ensures a.score >= SCORE_MIN {
      var i :| 0 <= i < |ads| && ads[i] == a;
      assert c.Fit(c.advertised[i]);
    }
    BoundIsAgreeable(multiset(ads));
    IndependentIff(ads);
    DrainSorted(ads);
  }
}
