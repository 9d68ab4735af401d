/** range2cidr (common/inet.c): address ranges as CIDR networks. */
module Cidr {
  import opened Common
  import opened Bits
  import opened Address

  /** An aligned-block candidate: `2^bits` consecutive numbers from `start`. */
  datatype Block = Block(start: nat, bits: nat) {
    function Limit(): nat { start + Pow2(bits) }

    predicate Aligned() { start % Pow2(bits) == 0 }

    predicate Holds(x: nat) { start <= x < Limit() }

    predicate Inside(lo: nat, hi: nat) { lo <= start && Limit() <= hi + 1 }
  }

  /** A CIDR network as the source records it: first address and prefix length. */
  datatype CidrNet = CidrNet(loAddr: Addr, bits: int) {
    ghost predicate Valid(len: nat) { |loAddr| == len && 0 <= bits <= 8 * len }

    ghost function AsBlock(len: nat): Block
      requires Valid(len)
    {
      Block(Value(loAddr), 8 * len - bits)
    }
  }

  datatype Error = InvalidArg | NoMemory

  datatype Outcome = Nets(nets: seq<CidrNet>) | Fails(error: Error)

  // ----- what a decomposition of a range should be

  ghost predicate AllAligned(bs: seq<Block>) {
    forall i :: 0 <= i < |bs| ==> bs[i].Aligned()
  }

  /** Neither block reaches into the other. */
  ghost predicate Apart(b: Block, c: Block) {
    b.Limit() <= c.start || c.Limit() <= b.start
  }

  ghost predicate PairwiseDisjoint(bs: seq<Block>) {
    forall i, j :: 0 <= i < |bs| && 0 <= j < |bs| && i != j ==> Apart(bs[i], bs[j])
  }

  ghost predicate InSome(bs: seq<Block>, x: nat) {
    exists i :: 0 <= i < |bs| && bs[i].Holds(x)
  }

  /** The blocks hold the numbers from `lo` to `hi` and no others. */
  ghost predicate CoversExactly(bs: seq<Block>, lo: nat, hi: nat) {
    forall x: nat :: InSome(bs, x) <==> lo <= x <= hi
  }

  ghost predicate InCover(cover: set<Block>, x: nat) {
    exists b :: b in cover && b.Holds(x)
  }

  /** Any set of aligned blocks that together fill the range without leaving it. */
  ghost predicate IsCover(cover: set<Block>, lo: nat, hi: nat) {
    && (forall b :: b in cover ==> b.Aligned() && b.Inside(lo, hi))
    && (forall x: nat :: lo <= x <= hi ==> InCover(cover, x))
  }

  // ----- the decomposition computed by the source, on numbers

  /** Grow the block at `v` from `b` bits while it stays aligned and inside the range. */
  function MaxBits(v: nat, hi: nat, width: nat, b: nat): (r: nat)
    requires b <= width
    ensures b <= r <= width
    ensures v % Pow2(b) == 0 && v + Pow2(b) <= hi + 1 ==> v % Pow2(r) == 0 && v + Pow2(r) <= hi + 1
    ensures r < width ==> v % Pow2(r + 1) != 0 || v + Pow2(r + 1) > hi + 1
    decreases width - b
  {
    if b < width && v % Pow2(b + 1) == 0 && v + Pow2(b + 1) <= hi + 1
    then MaxBits(v, hi, width, b + 1)
    else b
  }

  function First(v: nat, hi: nat, width: nat): (b: Block)
    requires v <= hi
    ensures b.start == v && b.Aligned() && b.Inside(v, hi) && b.bits <= width
  {
    assert v % Pow2(0) == 0;
    Block(v, MaxBits(v, hi, width, 0))
  }

  /** The largest block that fits at the start, then the same for the rest of the range. */
  function Greedy(v: nat, hi: nat, width: nat): seq<Block>
    decreases hi + 1 - v
  {
    if v > hi then []
    else var b := First(v, hi, width); [b] + Greedy(b.Limit(), hi, width)
  }

  // ----- properties of the greedy decomposition

  lemma {:induction false} GreedyAligned(v: nat, hi: nat, width: nat)
    ensures AllAligned(Greedy(v, hi, width))
    decreases hi + 1 - v
  {
    if v <= hi { GreedyAligned(First(v, hi, width).Limit(), hi, width); }
  }

  lemma {:induction false} GreedyCovers(v: nat, hi: nat, width: nat)
    ensures CoversExactly(Greedy(v, hi, width), v, hi)
    decreases hi + 1 - v
  {
    if v <= hi {
      var b := First(v, hi, width);
      var rest := Greedy(b.Limit(), hi, width);
      GreedyCovers(b.Limit(), hi, width);
      forall x: nat ensures InSome([b] + rest, x) <==> b.Holds(x) || InSome(rest, x) {
        InSomeCons(b, rest, x);
      }
    }
  }

  lemma InSomeCons(b: Block, rest: seq<Block>, x: nat)
    ensures InSome([b] + rest, x) <==> b.Holds(x) || InSome(rest, x)
  {
    var bs := [b] + rest;
    if InSome(bs, x) {
      var i :| 0 <= i < |bs| && bs[i].Holds(x);
      if i > 0 { assert rest[i - 1].Holds(x); }
    }
    if b.Holds(x) { assert bs[0].Holds(x); }
    if InSome(rest, x) {
      var i :| 0 <= i < |rest| && rest[i].Holds(x);
      assert bs[i + 1].Holds(x);
    }
  }

  lemma {:induction false} GreedyDisjoint(v: nat, hi: nat, width: nat)
    ensures PairwiseDisjoint(Greedy(v, hi, width))
    decreases hi + 1 - v
  {
    if v <= hi {
      var b := First(v, hi, width);
      var rest := Greedy(b.Limit(), hi, width);
      GreedyDisjoint(b.Limit(), hi, width);
      GreedyCovers(b.Limit(), hi, width);
      forall i | 0 <= i < |rest| ensures Apart(b, rest[i]) {
        assert rest[i].Holds(rest[i].start) && InSome(rest, rest[i].start);
      }
    }
  }

  /** A multiple of a power of two is a multiple of every smaller one. */
  lemma AlignedDown(v: nat, k: nat, big: nat)
    requires k <= big && v % Pow2(big) == 0
    ensures v % Pow2(k) == 0
  {
    Pow2Add(k, big - k);
    var q := Quotient(v, Pow2(big));
    MulThree(Pow2(k), Pow2(big - k), q);
    MulMod(Pow2(big - k) * q, Pow2(k));
  }

  /** No aligned block that starts at `v` inside the range is larger than the first one. */
  lemma FirstIsLargest(v: nat, hi: nat, width: nat, d: Block)
    requires v <= hi < Pow2(width)
    requires d.start == v && d.Aligned() && d.Inside(v, hi)
    ensures d.bits <= First(v, hi, width).bits
  {
    var r := First(v, hi, width).bits;
    if d.bits > width { Pow2Mono(width + 1, d.bits); }
    if d.bits > r {
      AlignedDown(v, r + 1, d.bits);
      Pow2Mono(r + 1, d.bits);
    }
  }

  /** Stretches of a grid of step `p`: one step from `i` against `m` steps from `j`. */
  lemma GridStretches(p: nat, i: int, j: int, m: int)
    requires m >= 1
    ensures || p * (i + 1) <= p * j || p * (j + m) <= p * i
            || (p * j <= p * i && p * (i + 1) <= p * (j + m))
  {
    if i + 1 <= j {
      MulLe(p, i + 1, j);
    } else if j + m <= i {
      MulLe(p, j + m, i);
    } else {
      MulLe(p, j, i);
      MulLe(p, i + 1, j + m);
    }
  }

  lemma MulLe(p: nat, x: int, y: int)
    requires x <= y
    ensures p * x <= p * y
  {
  }

  lemma MulSum(p: nat, x: int, y: int)
    ensures p * (x + y) == p * x + p * y
    ensures p * (x + 1) == p * x + p
  {
  }

  /** Aligned blocks do not partly overlap: the smaller lies inside the larger or apart from it. */
  lemma NestedOrApart(small: Block, large: Block)
    requires small.Aligned() && large.Aligned() && small.bits <= large.bits
    ensures || small.Limit() <= large.start || large.Limit() <= small.start
            || (large.start <= small.start && small.Limit() <= large.Limit())
  {
    Pow2Add(small.bits, large.bits - small.bits);
    AlignedDown(large.start, small.bits, large.bits);
    var i := Quotient(small.start, Pow2(small.bits));
    var j := Quotient(large.start, Pow2(small.bits));
    Stretches(Pow2(small.bits), i, j, Pow2(large.bits - small.bits));
  }

  lemma Stretches(p: nat, i: int, j: int, m: int)
    requires m >= 1
    ensures || p * i + p <= p * j || p * j + p * m <= p * i
            || (p * j <= p * i && p * i + p <= p * j + p * m)
  {
    GridStretches(p, i, j, m);
    MulSum(p, j, m);
    MulSum(p, i, 1);
  }

  lemma ProperSubsetSmaller<T>(a: set<T>, b: set<T>)
    requires a < b
    ensures |a| < |b|
  {
    assert b == a + (b - a);
    assert b - a != {};
  }

  /** Dropping from a cover the blocks inside the first greedy block leaves a cover of the rest. */
  lemma RestOfCover(v: nat, hi: nat, width: nat, cover: set<Block>) returns (rest: set<Block>)
    requires v <= hi < Pow2(width) && IsCover(cover, v, hi)
    ensures IsCover(rest, First(v, hi, width).Limit(), hi) && |rest| < |cover|
  {
    var b := First(v, hi, width);
    rest := set d | d in cover && d.start >= b.Limit();
    forall d | d in cover && d.start < b.Limit() ensures d.Limit() <= b.Limit() {
      if d.bits <= b.bits {
        NestedOrApart(d, b);
      } else {
        NestedOrApart(b, d);
        FirstIsLargest(v, hi, width, d);
      }
    }
    assert InCover(cover, v);
    var d0 :| d0 in cover && d0.Holds(v);
    assert d0 !in rest;
    ProperSubsetSmaller(rest, cover);
    forall x: nat | b.Limit() <= x <= hi ensures InCover(rest, x) {
      assert InCover(cover, x);
      var d :| d in cover && d.Holds(x);
      assert d in rest;
    }
  }

  /** Every set of aligned blocks that fills the range has at least as many blocks. */
  lemma {:induction false} GreedyIsFewest(v: nat, hi: nat, width: nat, cover: set<Block>)
    requires hi < Pow2(width) && IsCover(cover, v, hi)
    ensures |Greedy(v, hi, width)| <= |cover|
    decreases hi + 1 - v
  {
    if v <= hi {
      var rest := RestOfCover(v, hi, width, cover);
      GreedyIsFewest(First(v, hi, width).Limit(), hi, width, rest);
    }
  }

  // ----- the byte-level algorithm

  ghost function Blocks(nets: seq<CidrNet>, len: nat): (bs: seq<Block>)
    requires forall i :: 0 <= i < |nets| ==> nets[i].Valid(len)
    ensures |bs| == |nets|
  {
    seq(|nets|, i requires 0 <= i < |nets| => nets[i].AsBlock(len))
  }

  ghost function Reversed<T>(s: seq<T>): (r: seq<T>)
    ensures |r| == |s|
    ensures forall i :: 0 <= i < |s| ==> r[i] == s[|s| - 1 - i]
  {
    if s == [] then [] else Reversed(s[1..]) + [s[0]]
  }

  lemma ReversedCons<T>(x: T, s: seq<T>)
    ensures Reversed([x] + s) == Reversed(s) + [x]
  {
    assert ([x] + s)[1..] == s;
  }

  /** What adding `c` at byte `o` of `s` should give. */
  ghost function SumAt(s: Addr, o: nat, c: nat): nat
    requires o < |s|
  {
    Value(s) + c * Pow256(|s| - 1 - o)
  }

  /** A byte that overflows keeps its low part and passes one on to the byte before it. */
  lemma CarryStep(s: Addr, o: nat, c: nat)
    requires o < |s| && c < 256 && s[o] + c > 255
    ensures Value(s[o := s[o] + c - 256]) + Pow256(|s| - o) == SumAt(s, o, c)
  {
    var w := Pow256(|s| - 1 - o);
    ValueUpdate(s, o, s[o] + c - 256);
    Pow256Step(|s| - 1 - o);
    MulSub(c, w);
  }

  lemma StoreStep(s: Addr, o: nat, c: nat)
    requires o < |s| && s[o] + c < 256
    ensures Value(s[o := s[o] + c]) == SumAt(s, o, c)
  {
    ValueUpdate(s, o, s[o] + c);
  }

  lemma MulSub(c: int, w: int)
    ensures (c - 256) * w + 256 * w == c * w
  {
  }

  /** The carry loop: add `val` at byte `ofs`; `past` when the sum leaves the address space. */
  method AddAt(addr: array<Byte>, ofs: int, val: int) returns (past: bool)
    requires -1 <= ofs < addr.Length && 0 < val < 256
    modifies addr
    ensures ofs >= 0 ==> past == (SumAt(old(addr[..]), ofs, val) >= Pow256(addr.Length))
    ensures ofs >= 0 && !past ==> Value(addr[..]) == SumAt(old(addr[..]), ofs, val)
    ensures ofs == -1 ==> past && addr[..] == old(addr[..])
  {
    if ofs < 0 {
      return true;
    }
    var o: int, tmp: int := ofs, addr[ofs] + val;
    ghost var c, sum := val, SumAt(addr[..], ofs, val);
    while o >= 0 && tmp > 255
      invariant -1 <= o <= ofs
      invariant o >= 0 ==> tmp == addr[o] + c && 0 < c < 256 && SumAt(addr[..], o, c) == sum
      invariant o == -1 ==> Value(addr[..]) + Pow256(addr.Length) == sum
    {
      ghost var s := addr[..];
      CarryStep(s, o, c);
      var b: Byte := tmp - 256;
      addr[o] := b;
      assert addr[..] == s[o := b];
      o, c := o - 1, 1;
      // The source reads the byte before the buffer here when o is -1, and does not use it.
      if o >= 0 {
        tmp := addr[o];
        tmp := tmp + 1;
      }
    }
    if o < 0 {
      return true;
    }
    ghost var s := addr[..];
    StoreStep(s, o, c);
    var b: Byte := tmp;
    addr[o] := b;
    assert addr[..] == s[o := b];
    ValueBound(addr[..]);
    return false;
  }

  /** The weight of bit `bit` in an address of `n` bytes, as byte weight times bit weight. */
  lemma BitWeight(n: nat, bit: nat)
    requires bit < 8 * n
    ensures Pow2(bit) == Pow2(bit % 8) * Pow256(bit / 8)
  {
    Pow2Add(bit % 8, 8 * (bit / 8));
  }

  /** Or-ing the grown mask into the address gives the last number of the grown block. */
  lemma GrownBlock(addr: Addr, bit: nat)
    requires bit <= 8 * |addr|
    ensures var m := LowMask(|addr|, bit);
            && Value(AndBytes(addr, m)) == Value(addr) % Pow2(bit)
            && (Value(addr) % Pow2(bit) == 0 ==> Value(OrBytes(addr, m)) == Value(addr) + Pow2(bit) - 1)
  {
    AndLowMask(addr, bit);
    LowMaskValue(|addr|, bit);
    OrAndValues(addr, LowMask(|addr|, bit));
  }

  ghost predicate Sound(nets: seq<CidrNet>, len: nat, lo: nat, hi: nat) {
    && (forall i :: 0 <= i < |nets| ==> nets[i].Valid(len))
    && AllAligned(Blocks(nets, len))
    && PairwiseDisjoint(Blocks(nets, len))
    && CoversExactly(Blocks(nets, len), lo, hi)
    && (forall cover: set<Block> :: IsCover(cover, lo, hi) ==> |nets| <= |cover|)
  }

  /** The order of the blocks does not matter to what they cover, nor to their being apart. */
  lemma ReversedKeeps(bs: seq<Block>, lo: nat, hi: nat)
    requires AllAligned(Reversed(bs)) && PairwiseDisjoint(Reversed(bs)) && CoversExactly(Reversed(bs), lo, hi)
    ensures AllAligned(bs) && PairwiseDisjoint(bs) && CoversExactly(bs, lo, hi)
  {
    forall x: nat ensures InSome(bs, x) <==> InSome(Reversed(bs), x) {
      InSomeReversed(bs, x);
    }
    forall i, j | 0 <= i < |bs| && 0 <= j < |bs| && i != j ensures Apart(bs[i], bs[j]) {
      assert Apart(Reversed(bs)[|bs| - 1 - i], Reversed(bs)[|bs| - 1 - j]);
    }
    forall i | 0 <= i < |bs| ensures bs[i].Aligned() {
      assert Reversed(bs)[|bs| - 1 - i].Aligned();
    }
  }

  lemma InSomeReversed(bs: seq<Block>, x: nat)
    ensures InSome(bs, x) <==> InSome(Reversed(bs), x)
  {
    var n, g := |bs|, Reversed(bs);
    if InSome(bs, x) {
      var i :| 0 <= i < n && bs[i].Holds(x);
      assert g[n - 1 - i].Holds(x);
    }
    if InSome(g, x) {
      var i :| 0 <= i < n && g[i].Holds(x);
      assert bs[n - 1 - i].Holds(x);
    }
  }

  lemma GreedyIsSound(nets: seq<CidrNet>, len: nat, lo: nat, hi: nat)
    requires hi < Pow256(len)
    requires forall i :: 0 <= i < |nets| ==> nets[i].Valid(len)
    requires Reversed(Blocks(nets, len)) == Greedy(lo, hi, 8 * len)
    ensures Sound(nets, len, lo, hi)
  {
    GreedyAligned(lo, hi, 8 * len);
    GreedyCovers(lo, hi, 8 * len);
    GreedyDisjoint(lo, hi, 8 * len);
    ReversedKeeps(Blocks(nets, len), lo, hi);
    forall cover: set<Block> | IsCover(cover, lo, hi) ensures |nets| <= |cover| {
      GreedyIsFewest(lo, hi, 8 * len, cover);
    }
  }

  /**
   * range2cidr. `result` is the list the caller passes in (it must be empty), `memory` the number of
   * list cells that can still be allocated. The networks come out last block first.
   */
  method Range2Cidr(result: Option<seq<CidrNet>>, lo: Option<Addr>, hi: Option<Addr>, memory: nat)
    returns (r: Outcome)
    ensures r == Fails(InvalidArg) <==>
            result.None? || result.value != [] || lo.None? || hi.None? || |lo.value| != |hi.value|
    ensures r != Fails(InvalidArg) ==>
              var len, first, last := |lo.value|, Min(Value(lo.value), Value(hi.value)),
                  Max(Value(lo.value), Value(hi.value));
              && (r.Nets? <==> |Greedy(first, last, 8 * len)| <= memory)
              && (r.Nets? ==> Sound(r.nets, len, first, last))
  {
    if result.None? || result.value != [] {
      return Fails(InvalidArg);
    }
    if lo.None? || hi.None? || |lo.value| != |hi.value| {
      return Fails(InvalidArg);
    }
    var low, high := lo.value, hi.value;
    var order := AddrCmp(low, high);
    if order > 0 {
      low, high := high, low;
    }
    r := Decompose(low, high, memory);
  }

  /** `mask |= 1 << bit`, on the byte that holds the bit; no byte does when `bit` is the address width. */
  method SetMaskBit(mask: array<Byte>, bit: nat)
    requires bit <= 8 * mask.Length && mask[..] == LowMask(mask.Length, bit)
    modifies mask
    ensures mask[..] == LowMask(mask.Length, if bit < 8 * mask.Length then bit + 1 else bit)
  {
    var ofs := mask.Length - bit / 8 - 1;
    if ofs >= 0 {
      LowMaskSetBit(mask.Length, bit);
      ghost var m := mask[..];
      mask[ofs] := OrByte(mask[ofs], Pow2(bit % 8));
      assert mask[..] == m[ofs := OrByte(m[ofs], Pow2(bit % 8))];
    }
  }

  /** The grown block is too big if no bit is left, or it is unaligned, or it runs past `high`. */
  method TooBig(addr: Addr, mask: Addr, high: Addr, bit: nat) returns (tooBig: bool)
    requires |addr| == |high| && bit <= 8 * |addr|
    requires mask == LowMask(|addr|, if bit < 8 * |addr| then bit + 1 else bit)
    ensures !tooBig <==> bit < 8 * |addr| && Value(addr) % Pow2(bit + 1) == 0
                         && Value(addr) + Pow2(bit + 1) <= Value(high) + 1
  {
    var ofs := |addr| - bit / 8 - 1;
    if ofs >= 0 { GrownBlock(addr, bit + 1); }
    var endAddr, _ := AddrOr(addr, mask);
    var over := AddrCmp(endAddr, high);
    var _, clash := AddrAnd(addr, mask);
    return ofs < 0 || over > 0 || clash;
  }

  method ZeroMask(n: nat) returns (mask: array<Byte>)
    ensures fresh(mask) && mask.Length == n && mask[..] == LowMask(n, 0)
  {
    mask := new Byte[n](i => 0);
    NoMask(n);
  }

  /** The address after the block of `2^bit` addresses at the current one. */
  method NextAddr(addr: array<Byte>, bit: nat) returns (past: bool)
    requires bit <= 8 * addr.Length && Value(addr[..]) + Pow2(bit) <= Pow256(addr.Length)
    modifies addr
    ensures past == (Value(old(addr[..])) + Pow2(bit) == Pow256(addr.Length))
    ensures !past ==> Value(addr[..]) == Value(old(addr[..])) + Pow2(bit)
  {
    var ofs := addr.Length - bit / 8 - 1;
    LowOnesByte(bit % 8 + 1);
    if ofs >= 0 {
      BitWeight(addr.Length, bit);
    }
    past := AddAt(addr, ofs, Pow2(bit % 8));
  }

  /** The blocks emitted so far and the greedy blocks still to come make up the whole decomposition. */
  ghost predicate Progress(whole: seq<Block>, nets: seq<CidrNet>, n: nat, v: nat, h: nat) {
    && (forall i :: 0 <= i < |nets| ==> nets[i].Valid(n))
    && whole == Reversed(Blocks(nets, n)) + Greedy(v, h, 8 * n)
  }

  /** The block of `2^bit` numbers at `v` fits, and growing on from it gives the first block. */
  ghost predicate Searching(v: nat, h: nat, width: nat, bit: nat) {
    && v <= h && bit <= width
    && v % Pow2(bit) == 0 && v + Pow2(bit) <= h + 1
    && First(v, h, width).bits == MaxBits(v, h, width, bit)
  }

  lemma SearchStart(v: nat, h: nat, width: nat)
    requires v <= h
    ensures Searching(v, h, width, 0)
  {
  }

  lemma SearchStep(v: nat, h: nat, width: nat, bit: nat)
    requires Searching(v, h, width, bit)
    ensures if bit < width && v % Pow2(bit + 1) == 0 && v + Pow2(bit + 1) <= h + 1
            then Searching(v, h, width, bit + 1) else First(v, h, width).bits == bit
  {
  }

  /** The loop invariant of range2cidr: networks found, current address, mask and bit. */
  ghost predicate Looping(nets: seq<CidrNet>, low: Addr, high: Addr, addr: Addr, mask: Addr, bit: nat) {
    && |low| == |high| == |addr| && bit <= 8 * |low|
    && mask == LowMask(|low|, bit)
    && Progress(Greedy(Value(low), Value(high), 8 * |low|), nets, |low|, Value(addr), Value(high))
    && (Value(addr) <= Value(high) ==> Searching(Value(addr), Value(high), 8 * |low|, bit))
  }

  lemma LoopStart(low: Addr, high: Addr)
    requires |low| == |high|
    ensures Looping([], low, high, low, LowMask(|low|, 0), 0)
  {
    if Value(low) <= Value(high) { SearchStart(Value(low), Value(high), 8 * |low|); }
  }

  lemma LoopDone(nets: seq<CidrNet>, low: Addr, high: Addr, v: nat)
    requires |low| == |high| && v > Value(high)
    requires Progress(Greedy(Value(low), Value(high), 8 * |low|), nets, |low|, v, Value(high))
    ensures Complete(nets, low, high)
  {
    ValueBound(high);
    assert Greedy(v, Value(high), 8 * |low|) == [];
    GreedyIsSound(nets, |low|, Value(low), Value(high));
  }

  lemma Emit(whole: seq<Block>, nets: seq<CidrNet>, net: CidrNet, bit: nat, h: nat, n: nat)
    requires |net.loAddr| == n && net.bits == 8 * n - bit
    requires Value(net.loAddr) <= h && bit == First(Value(net.loAddr), h, 8 * n).bits
    requires Progress(whole, nets, n, Value(net.loAddr), h)
    ensures Progress(whole, [net] + nets, n, Value(net.loAddr) + Pow2(bit), h)
    ensures |nets| < |whole|
  {
    var b := First(Value(net.loAddr), h, 8 * n);
    assert net.AsBlock(n) == b;
    assert Blocks([net] + nets, n) == [b] + Blocks(nets, n);
    ReversedCons(b, Blocks(nets, n));
  }

  /** The block of `2^bit` addresses at `addr` is the next one to record. */
  ghost predicate Ready(nets: seq<CidrNet>, low: Addr, high: Addr, addr: Addr, bit: nat) {
    && |low| == |high| == |addr| && Value(addr) <= Value(high)
    && Progress(Greedy(Value(low), Value(high), 8 * |low|), nets, |low|, Value(addr), Value(high))
    && bit == First(Value(addr), Value(high), 8 * |low|).bits
  }

  lemma MoreToCome(nets: seq<CidrNet>, low: Addr, high: Addr, addr: Addr, bit: nat)
    requires Ready(nets, low, high, addr, bit)
    ensures |nets| < |Greedy(Value(low), Value(high), 8 * |low|)|
  {
  }

  lemma LoopEmit(nets: seq<CidrNet>, low: Addr, high: Addr, addr: Addr, bit: nat) returns (v: nat)
    requires Ready(nets, low, high, addr, bit)
    ensures v == Value(addr) + Pow2(bit) <= Value(high) + 1 <= Pow256(|low|)
    ensures var nets' := [CidrNet(addr, |low| * 8 - bit)] + nets;
            && Progress(Greedy(Value(low), Value(high), 8 * |low|), nets', |low|, v, Value(high))
            && (v == Pow256(|low|) ==> Complete(nets', low, high))
  {
    v := Value(addr) + Pow2(bit);
    var net := CidrNet(addr, |low| * 8 - bit);
    ValueBound(high);
    Emit(Greedy(Value(low), Value(high), 8 * |low|), nets, net, bit, Value(high), |low|);
    if v == Pow256(|low|) { LoopDone([net] + nets, low, high, v); }
  }

  lemma LoopNext(nets: seq<CidrNet>, low: Addr, high: Addr, addr: Addr)
    requires |low| == |high| == |addr|
    requires Progress(Greedy(Value(low), Value(high), 8 * |low|), nets, |low|, Value(addr), Value(high))
    ensures Looping(nets, low, high, addr, LowMask(|low|, 0), 0)
  {
    if Value(addr) <= Value(high) { SearchStart(Value(addr), Value(high), 8 * |low|); }
  }

  /** Growing the mask either keeps the invariant one bit on, or finds the block to record. */
  lemma LoopGrow(nets: seq<CidrNet>, low: Addr, high: Addr, addr: Addr, mask: Addr, bit: nat)
    requires Looping(nets, low, high, addr, mask, bit) && Value(addr) <= Value(high)
    ensures if bit < 8 * |low| && Value(addr) % Pow2(bit + 1) == 0 && Value(addr) + Pow2(bit + 1) <= Value(high) + 1
            then Looping(nets, low, high, addr, LowMask(|low|, bit + 1), bit + 1)
            else Ready(nets, low, high, addr, bit)
  {
    SearchStep(Value(addr), Value(high), 8 * |low|, bit);
  }

  method GrowOrStop(ghost nets: seq<CidrNet>, ghost low: Addr, high: Addr, addr: Addr, mask: array<Byte>, bit: nat)
    returns (tooBig: bool)
    requires Looping(nets, low, high, addr, mask[..], bit) && Value(addr) <= Value(high)
    modifies mask
    ensures !tooBig ==> bit < 8 * |low| && Looping(nets, low, high, addr, mask[..], bit + 1)
    ensures tooBig ==> Ready(nets, low, high, addr, bit)
  {
    LoopGrow(nets, low, high, addr, mask[..], bit);
    SetMaskBit(mask, bit);
    tooBig := TooBig(addr, mask[..], high, bit);
  }

  /** Record the block at the current address and move past it. */
  method EmitNext(nets: seq<CidrNet>, ghost low: Addr, ghost high: Addr, addr: array<Byte>, bit: nat)
    returns (nets': seq<CidrNet>, past: bool)
    requires Ready(nets, low, high, addr[..], bit)
    modifies addr
    ensures |nets'| == |nets| + 1
    ensures past ==> Complete(nets', low, high)
    ensures !past ==>
        Looping(nets', low, high, addr[..], LowMask(|low|, 0), 0) && Value(addr[..]) > Value(old(addr[..]))
  {
    nets' := [CidrNet(addr[..], addr.Length * 8 - bit)] + nets;
    ghost var v := LoopEmit(nets, low, high, addr[..], bit);
    past := NextAddr(addr, bit);
    if !past {
      assert Looping(nets', low, high, addr[..], LowMask(|low|, 0), 0) by { LoopNext(nets', low, high, addr[..]); }
    }
  }

  ghost predicate Complete(nets: seq<CidrNet>, low: Addr, high: Addr) {
    && Sound(nets, |low|, Value(low), Value(high))
    && |nets| == |Greedy(Value(low), Value(high), 8 * |low|)|
  }

  /** The loop of range2cidr on an ordered pair of addresses of one length. */
  method Decompose(low: Addr, high: Addr, memory: nat) returns (r: Outcome)
    requires |low| == |high| && Value(low) <= Value(high)
    ensures r != Fails(InvalidArg)
    ensures r.Nets? <==> |Greedy(Value(low), Value(high), 8 * |low|)| <= memory
    ensures r.Nets? ==> Sound(r.nets, |low|, Value(low), Value(high))
  {
    var nets: seq<CidrNet> := [];
    var addr := new Byte[|low|](i requires 0 <= i < |low| => low[i]);
    var mask := ZeroMask(|low|);
    assert addr[..] == low;
    LoopStart(low, high);
    var bit := 0;
    while true
      invariant fresh(addr) && fresh(mask) && addr != mask
      invariant addr.Length == |low| && mask.Length == |low| && |nets| <= memory
      invariant Looping(nets, low, high, addr[..], mask[..], bit)
      decreases Value(high) + 1 - Value(addr[..]), 8 * |low| + 1 - bit
    {
      var a := addr[..];
      var order := AddrCmp(a, high);
      if order > 0 {
        LoopDone(nets, low, high, Value(a));
        break;
      }
      var tooBig := GrowOrStop(nets, low, high, a, mask, bit);
      assert addr[..] == a;
      if tooBig {
        if |nets| == memory {
          MoreToCome(nets, low, high, a, bit);
          return Fails(NoMemory);
        }
        var past;
        nets, past := EmitNext(nets, low, high, addr, bit);
        if past {
          break;
        }
        mask := ZeroMask(addr.Length);
        bit := 0;
      } else {
        bit := bit + 1;
      }
    }
    assert Complete(nets, low, high);
    r := Nets(nets);
  }

  lemma {:induction false} NoMask(n: nat)
    ensures forall i :: 0 <= i < n ==> LowMask(n, 0)[i] == 0
  {
    if n != 0 { NoMask(n - 1); }
  }
}
