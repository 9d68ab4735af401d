/** Subnets, hosts and netmasks (common/inet.c), stated on the numbers the addresses stand for. */
module Subnet {
  import opened Bits
  import opened Address
  import Cidr

  /** The netmask of `n` bytes that leaves `hostBits` low bits to hosts. */
  function PrefixMask(n: nat, hostBits: nat): (m: Addr)
    requires hostBits <= 8 * n
    ensures |m| == n
  {
    seq(n, i requires 0 <= i < n => 255 - LowMask(n, hostBits)[i])
  }

  function Complement(m: Addr): (c: Addr)
    ensures |c| == |m|
  {
    seq(|m|, i requires 0 <= i < |m| => 255 - m[i])
  }

  lemma ComplementPrefix(n: nat, hostBits: nat)
    requires hostBits <= 8 * n
    ensures Complement(PrefixMask(n, hostBits)) == LowMask(n, hostBits)
    ensures PrefixMask(n, hostBits) == Complement(LowMask(n, hostBits))
  {
  }

  /** What a mask keeps and what its complement keeps make up the address. */
  lemma {:induction false} MaskSplits(a: Addr, m: Addr)
    requires |a| == |m|
    ensures Value(AndBytes(a, m)) + Value(AndBytes(a, Complement(m))) == Value(a)
  {
    var n := |a|;
    if n != 0 {
      ValueLast(a);
      ValueLast(AndBytes(a, m));
      ValueLast(AndBytes(a, Complement(m)));
      MaskSplits(a[..n - 1], m[..n - 1]);
      Pow2Of8();
      AndComplement(a[n - 1], m[n - 1], 8);
      assert AndBytes(a, m)[..n - 1] == AndBytes(a[..n - 1], m[..n - 1]);
      assert Complement(m)[..n - 1] == Complement(m[..n - 1]);
      assert AndBytes(a, Complement(m))[..n - 1] == AndBytes(a[..n - 1], Complement(m[..n - 1]));
    }
  }

  /** A prefix mask keeps the multiple of `2^hostBits`, its complement the remainder. */
  lemma PrefixSplits(a: Addr, hostBits: nat)
    requires hostBits <= 8 * |a|
    ensures Value(AndBytes(a, PrefixMask(|a|, hostBits))) == Value(a) - Value(a) % Pow2(hostBits)
    ensures Value(AndBytes(a, Complement(PrefixMask(|a|, hostBits)))) == Value(a) % Pow2(hostBits)
  {
    MaskSplits(a, PrefixMask(|a|, hostBits));
    ComplementPrefix(|a|, hostBits);
    AndLowMask(a, hostBits);
  }

  /** subnet_number; `hostBits` names the width of the mask when it is a prefix mask. */
  method SubnetNumber(addr: Addr, mask: Addr, ghost hostBits: nat) returns (rv: Addr)
    requires |addr| == |mask|
    ensures rv == AndBytes(addr, mask)
    ensures hostBits <= 8 * |addr| && mask == PrefixMask(|addr|, hostBits) ==>
              Value(rv) == Value(addr) - Value(addr) % Pow2(hostBits)
  {
    rv := [];
    for i := 0 to |addr|
      invariant |rv| == i && forall k :: 0 <= k < i ==> rv[k] == AndByte(addr[k], mask[k])
    {
      rv := rv + [AndByte(addr[i], mask[i])];
    }
    if hostBits <= 8 * |addr| { PrefixSplits(addr, hostBits); }
  }

  /** broadcast_addr: the last address of the subnet. */
  method BroadcastAddr(subnet: Addr, mask: Addr, ghost hostBits: nat) returns (rv: Addr)
    requires |subnet| == |mask|
    ensures rv == OrBytes(subnet, Complement(mask))
    ensures (hostBits <= 8 * |subnet| && mask == PrefixMask(|subnet|, hostBits)
            && Value(subnet) % Pow2(hostBits) == 0) ==>
        Value(rv) == Value(subnet) + Pow2(hostBits) - 1
  {
    rv := [];
    for i := 0 to |subnet|
      invariant |rv| == i && forall k :: 0 <= k < i ==> rv[k] == OrByte(subnet[k], 255 - mask[k])
    {
      rv := rv + [OrByte(subnet[i], 255 - mask[i])];
    }
    if hostBits <= 8 * |subnet| {
      ComplementPrefix(|subnet|, hostBits);
      Cidr.GrownBlock(subnet, hostBits);
    }
  }

  /** host_addr: the low 32 bits of the host part. */
  method HostAddr(addr: Addr, mask: Addr, ghost hostBits: nat) returns (host: nat)
    requires |addr| == |mask| && |addr| >= 4
    ensures host == Value(AndBytes(addr, Complement(mask))[|addr| - 4..]) < Pow256(4)
    ensures hostBits <= 32 && mask == PrefixMask(|addr|, hostBits) ==> host == Value(addr) % Pow2(hostBits)
  {
    var rv: Addr := [];
    for i := 0 to |addr|
      invariant |rv| == i && forall k :: 0 <= k < i ==> rv[k] == AndByte(addr[k], 255 - mask[k])
    {
      rv := rv + [AndByte(addr[i], 255 - mask[i])];
    }
    assert rv == AndBytes(addr, Complement(mask));
    host := Value(rv[|addr| - 4..]);
    ValueBound(rv[|addr| - 4..]);
    if hostBits <= 32 && mask == PrefixMask(|addr|, hostBits) { HostPart(addr, hostBits, 4); }
  }

  lemma HostPart(addr: Addr, hostBits: nat, k: nat)
    requires k <= |addr| && hostBits <= 8 * k
    ensures Value(AndBytes(addr, Complement(PrefixMask(|addr|, hostBits)))[|addr| - k..]) ==
        Value(addr) % Pow2(hostBits)
  {
    var rv := AndBytes(addr, Complement(PrefixMask(|addr|, hostBits)));
    assert Value(rv) == Value(addr) % Pow2(hostBits) by { PrefixSplits(addr, hostBits); }
    assert Value(rv) < Pow256(k) by { Pow2Mono(hostBits, 8 * k); }
    SmallValue(rv, k);
  }

  /** A value that fits in the last `k` bytes is the value of those bytes. */
  lemma SmallValue(a: Addr, k: nat)
    requires k <= |a|
    ensures Value(a) < Pow256(k) ==> Value(a[|a| - k..]) == Value(a)
    ensures Value(a) < Pow256(k) <==> Value(a[..|a| - k]) == 0
  {
    ValueSplit(a, |a| - k);
    ValueBound(a[|a| - k..]);
    HighPartZero(Value(a[..|a| - k]), Value(a[|a| - k..]), Pow256(k));
  }

  lemma HighPartZero(h: nat, low: nat, w: nat)
    requires low < w
    ensures h * w + low < w <==> h == 0
    ensures h == 0 ==> h * w + low == low
  {
    if h >= 1 { MulMono(1, h, w); }
  }

  /** The low `k` bytes are zero exactly when `256^k` divides the value. */
  lemma LowBytesZero(a: Addr, k: nat)
    requires k <= |a|
    ensures Value(a) % Pow256(k) == Value(a[|a| - k..])
    ensures Value(a) % Pow256(k) == 0 <==> forall i :: |a| - k <= i < |a| ==> a[i] == 0
  {
    LowBytesRemain(a, k);
    var low := a[|a| - k..];
    ZeroValue(low);
    if i :| |a| - k <= i < |a| && a[i] != 0 { assert low[i - (|a| - k)] != 0; }
  }

  lemma LowBytesRemain(a: Addr, k: nat)
    requires k <= |a|
    ensures Value(a) % Pow256(k) == Value(a[|a| - k..])
  {
    ValueSplit(a, |a| - k);
    ValueBound(a[|a| - k..]);
    DivModSplit(Value(a[..|a| - k]), Pow256(k), Value(a[|a| - k..]));
  }

  lemma ScaleMod(x: nat, w: nat, p: nat)
    requires w > 0 && p > 0
    ensures (x * w) % (w * p) == w * (x % p)
  {
    var q, r := x / p, x % p;
    assert x == p * q + r;
    ScaleSum(w, p, q, r);
    ScaleLess(w, r, p);
    DivModUnique(x * w, w * p, q, w * r);
  }

  lemma ScaleSum(w: nat, p: nat, q: nat, r: nat)
    ensures (p * q + r) * w == (w * p) * q + w * r
    ensures w * p >= 0
  {
  }

  lemma ScaleLess(w: nat, r: nat, p: nat)
    requires w > 0 && r < p
    ensures w * r < w * p
  {
  }

  /** With the low bytes zero, the remaining bits asked for are those of the byte above them. */
  lemma PartByteDivides(a: Addr, zeroBytes: nat, shift: nat)
    requires zeroBytes < |a| && shift < 8
    requires Value(a) % Pow256(zeroBytes) == 0
    ensures Value(a) % Pow2(8 * zeroBytes + shift) == 0 <==> a[|a| - zeroBytes - 1] % Pow2(shift) == 0
  {
    var m := |a| - zeroBytes;
    var h := a[..m];
    ValueSplit(a, m);
    LowBytesZero(a, zeroBytes);
    Pow2Add(8 * zeroBytes, shift);
    ScaleMod(Value(h), Pow256(zeroBytes), Pow2(shift));
    ValueLast(h);
    PartByte(Value(h[..m - 1]), h[m - 1], shift);
    ZeroProduct(Pow256(zeroBytes), Value(h) % Pow2(shift));
  }

  lemma ZeroProduct(w: nat, x: nat)
    requires w > 0
    ensures w * x == 0 <==> x == 0
  {
  }

  /** `((byte >> shift) << shift) == byte` for a byte held in a signed `char`. */
  predicate ShiftsBack(byte: Byte, shift: nat) {
    var c := if byte < 128 then byte else byte - 256;
    (c / Pow2(shift)) * Pow2(shift) == c
  }

  lemma ShiftsBackDivides(byte: Byte, shift: nat)
    requires shift < 8
    ensures ShiftsBack(byte, shift) <==> byte % Pow2(shift) == 0
  {
    var c := if byte < 128 then byte else byte - 256;
    Pow2Of8();
    Pow2Add(shift, 8 - shift);
    AddMulMod(c, Pow2(8 - shift), Pow2(shift));
    TruncatesToItself(c, Pow2(shift));
  }

  lemma TruncatesToItself(c: int, p: int)
    requires p > 0
    ensures (c / p) * p == c <==> c % p == 0
  {
    assert c == p * (c / p) + c % p;
  }

  /** is_cidr_mask_valid: no bit of the address lies below the prefix. */
  method IsCidrMaskValid(addr: Addr, bits: int) returns (ok: bool)
    ensures ok <==> 0 <= bits <= 8 * |addr| && Value(addr) % Pow2(8 * |addr| - bits) == 0
  {
    if bits < 0 || bits > |addr| * 8 {
      return false;
    }
    var zeroBits := |addr| * 8 - bits;
    var zeroBytes := zeroBits / 8;
    var i := 1;
    while i <= zeroBytes
      invariant 1 <= i <= zeroBytes + 1
      invariant forall k :: |addr| - i < k < |addr| ==> addr[k] == 0
    {
      if addr[|addr| - i] != 0 {
        LowBytesZero(addr, i);
        if Value(addr) % Pow2(zeroBits) == 0 { Cidr.AlignedDown(Value(addr), 8 * i, zeroBits); }
        return false;
      }
      i := i + 1;
    }
    LowBytesZero(addr, zeroBytes);
    var shift := zeroBits % 8;
    if shift == 0 {
      return true;
    }
    PartByteDivides(addr, zeroBytes, shift);
    ShiftsBackDivides(addr[|addr| - zeroBytes - 1], shift);
    return ShiftsBack(addr[|addr| - zeroBytes - 1], shift);
  }

  /** Every network range2cidr produces has a valid prefix in the sense of is_cidr_mask_valid. */
  lemma RangeNetsValid(nets: seq<Cidr.CidrNet>, len: nat, lo: nat, hi: nat, i: nat)
    requires Cidr.Sound(nets, len, lo, hi) && i < |nets|
    ensures 0 <= nets[i].bits <= 8 * len && Value(nets[i].loAddr) % Pow2(8 * len - nets[i].bits) == 0
  {
    assert nets[i].Valid(len);
    assert Cidr.Blocks(nets, len)[i].Aligned();
  }

  // ----- ip_addr

  /** The `n` bytes of a number in network order. */
  function ToBytes(v: nat, n: nat): (b: Addr)
    requires v < Pow256(n)
    ensures |b| == n && Value(b) == v
  {
    if n == 0 then []
    else
      Pow256Step(n - 1);
      ValueAppend(ToBytes(v / 256, n - 1), v % 256);
      ToBytes(v / 256, n - 1) + [v % 256]
  }

  /** The mask byte that the loop of ip_addr stops at, and those below it. */
  lemma PrefixMaskBytes(n: nat, hostBits: nat)
    requires hostBits <= 8 * n
    ensures forall i :: n - hostBits / 8 <= i < n ==> PrefixMask(n, hostBits)[i] == 0
    ensures hostBits < 8 * n ==> PrefixMask(n, hostBits)[n - hostBits / 8 - 1] == 255 - LowByte(hostBits % 8)
  {
    LowMaskBytes(n, hostBits);
  }

  lemma {:induction false} LowMaskBytes(n: nat, bit: nat)
    requires bit <= 8 * n
    ensures forall i :: n - bit / 8 <= i < n ==> LowMask(n, bit)[i] == 255
    ensures bit < 8 * n ==> LowMask(n, bit)[n - bit / 8 - 1] == LowByte(bit % 8)
  {
    if n != 0 && bit >= 8 {
      LowMaskBytes(n - 1, bit - 8);
      var up := LowMask(n - 1, bit - 8);
      assert LowMask(n, bit) == up + [255];
    }
  }

  /** A number fits in `8*z + s` bits exactly when byte `i` fits in `s` and those above are zero. */
  lemma HostFits(h: Addr, i: nat, z: nat, s: nat)
    requires i + z + 1 == |h| && s < 8
    ensures Value(h) < Pow2(8 * z + s) <==> h[i] < Pow2(s) && forall k :: 0 <= k < i ==> h[k] == 0
  {
    var w, p, top, low := Pow256(z), Pow2(s), Value(h[..i + 1]), Value(h[i + 1..]);
    assert Value(h) == top * w + low && low < w by {
      ValueSplit(h, i + 1);
      ValueBound(h[i + 1..]);
    }
    assert Pow2(8 * z + s) == w * p by { Pow2Add(8 * z, s); }
    FitsScaled(top, low, w, p);
    assert top == 256 * Value(h[..i]) + h[i] by {
      assert h[..i + 1] == h[..i] + [h[i]];
      ValueAppend(h[..i], h[i]);
    }
    LowOnesByte(s);
    assert Value(h[..i]) == 0 <==> forall k :: 0 <= k < i ==> h[k] == 0 by {
      ZeroValue(h[..i]);
      assert forall k :: 0 <= k < i ==> h[..i][k] == h[k];
    }
  }

  lemma FitsScaled(top: nat, low: nat, w: nat, p: nat)
    requires low < w
    ensures top * w + low < w * p <==> top < p
  {
    if top < p {
      MulMono(top + 1, p, w);
      MulMono(top, top, w);
    } else {
      MulMono(p, top, w);
    }
  }

  /** What ip_addr stores when it stops at byte `i` of the last four. */
  function Combined(subnet: Addr, h: Addr, i: nat): Addr
    requires |h| == 4 && i < 4 && |subnet| >= 4
  {
    var j := |subnet| - 4;
    subnet[..i + j] + [OrByte(subnet[i + j], h[i])] + h[i + 1..]
  }

  lemma CombinedValue(subnet: Addr, h: Addr, i: nat, z: nat, s: nat)
    requires |h| == 4 <= |subnet| && i + z + 1 == |h| && s < 8
    requires Value(subnet) % Pow2(8 * z + s) == 0 && Value(h) < Pow2(8 * z + s)
    ensures Value(Combined(subnet, h, i)) == Value(subnet) + Value(h)
  {
    var n := |subnet|;
    var head, b, k := subnet[..n - z - 1], subnet[n - z - 1], h[i];
    var x, w, rest := 256 * Value(head) + b, Pow256(z), h[i + 1..];
    assert Value(subnet) == x * w && b % Pow2(s) == 0 by { SubnetParts(subnet, z, s); }
    assert Value(h) == k * w + Value(rest) && k < Pow2(s) by { HostParts(h, i, z, s); }
    assert OrByte(b, k) == b + k by {
      AndDisjoint(b, k, s);
      OrPlusAnd(b, k);
    }
    ThreeParts(head, b + k, rest);
    SumScaled(x, k, w);
  }

  lemma ThreeParts(head: Addr, b: Byte, rest: Addr)
    ensures Value(head + [b] + rest) == (256 * Value(head) + b) * Pow256(|rest|) + Value(rest)
  {
    var c := head + [b] + rest;
    ValueSplit(c, |head| + 1);
    assert c[..|head| + 1] == head + [b] && c[|head| + 1..] == rest;
    ValueAppend(head, b);
  }

  lemma SubnetParts(subnet: Addr, z: nat, s: nat)
    requires z < |subnet| && s < 8 && Value(subnet) % Pow2(8 * z + s) == 0
    ensures var m := |subnet| - z - 1;
            && subnet[m] % Pow2(s) == 0
            && Value(subnet) == (256 * Value(subnet[..m]) + subnet[m]) * Pow256(z)
  {
    var m := |subnet| - z - 1;
    Cidr.AlignedDown(Value(subnet), 8 * z, 8 * z + s);
    PartByteDivides(subnet, z, s);
    ValueSplit(subnet, m + 1);
    LowBytesZero(subnet, z);
    assert subnet[..m + 1] == subnet[..m] + [subnet[m]];
    ValueAppend(subnet[..m], subnet[m]);
  }

  lemma HostParts(h: Addr, i: nat, z: nat, s: nat)
    requires i + z + 1 == |h| && s < 8 && Value(h) < Pow2(8 * z + s)
    ensures h[i] < Pow2(s) && Value(h) == h[i] * Pow256(z) + Value(h[i + 1..])
  {
    HostFits(h, i, z, s);
    ValueSplit(h, i + 1);
    assert h[..i + 1] == h[..i] + [h[i]];
    ValueAppend(h[..i], h[i]);
    ZeroValue(h[..i]);
    assert forall k :: 0 <= k < i ==> h[..i][k] == h[k];
  }

  /** What the stop at byte `i` means for a host number that fits and for one that does not. */
  lemma HostStops(subnet: Addr, h: Addr, i: nat, hostBits: nat)
    requires |h| == 4 && i < 4 && |subnet| >= 4 && hostBits == 8 * (3 - i) + hostBits % 8
    requires Value(subnet) % Pow2(hostBits) == 0
    ensures Value(h) < Pow2(hostBits) <==> h[i] < Pow2(hostBits % 8) && forall k :: 0 <= k < i ==> h[k] == 0
    ensures Value(h) < Pow2(hostBits) ==> Value(Combined(subnet, h, i)) == Value(subnet) + Value(h)
  {
    HostFits(h, i, 3 - i, hostBits % 8);
    if Value(h) < Pow2(hostBits) { CombinedValue(subnet, h, i, 3 - i, hostBits % 8); }
  }

  lemma SumScaled(x: nat, k: nat, w: nat)
    ensures (x + k) * w == x * w + k * w
  {
  }

  method NetworkOrder(host: nat) returns (habuf: Addr)
    requires host < Pow256(4)
    ensures |habuf| == 4 && Value(habuf) == host
  {
    habuf := ToBytes(host, 4);
  }

  /** ip_addr: subnet plus host number, or the empty address when the host number does not fit. */
  method IpAddr(subnet: Addr, mask: Addr, host: nat, ghost hostBits: nat) returns (rv: Addr)
    requires |subnet| == |mask| && |subnet| >= 4 && host < Pow256(4)
    ensures hostBits <= 32 && mask == PrefixMask(|subnet|, hostBits) && Value(subnet) % Pow2(hostBits) == 0 ==>
              && (rv == [] <==> host >= Pow2(hostBits))
              && (rv != [] ==> |rv| == |subnet| && Value(rv) == Value(subnet) + host)
  {
    var habuf := NetworkOrder(host);
    rv := subnet;
    var j := |rv| - 4;
    ghost var good := hostBits <= 32 && mask == PrefixMask(|subnet|, hostBits) && Value(subnet) % Pow2(hostBits) == 0;
    var i := 3;
    while i >= 0
      invariant -1 <= i <= 3
      invariant rv == Stored(subnet, habuf, i) && |rv| == |subnet|
      invariant good ==> hostBits >= 8 * (3 - i)
    {
      StoreNext(subnet, habuf, i);
      if good { StopsAt(|subnet|, hostBits, i); }
      if mask[i + j] != 0 {
        if good { HostStops(subnet, habuf, i, hostBits); }
        if habuf[i] > 255 - mask[i + j] {
          return [];
        }
        var clear := HighBytesClear(habuf, i);
        if !clear {
          return [];
        }
        rv := rv[i + j := OrByte(rv[i + j], habuf[i])];
        return rv;
      }
      rv := rv[i + j := habuf[i]];
      i := i - 1;
    }
    if good { WholeHost(subnet, habuf, hostBits); }
  }

  /** The first nonzero mask byte from the end is the one that holds the end of the prefix. */
  lemma StopsAt(n: nat, hostBits: nat, i: nat)
    requires n >= 4 && hostBits <= 32 && i < 4 && hostBits >= 8 * (3 - i)
    ensures var b := PrefixMask(n, hostBits)[n - 4 + i];
            if hostBits < 8 * (4 - i) then b != 0 && hostBits == 8 * (3 - i) + hostBits % 8
                && 255 - b == Pow2(hostBits % 8) - 1
            else b == 0
  {
    PrefixMaskBytes(n, hostBits);
    if hostBits < 8 * (4 - i) {
      Pow2Mono(hostBits % 8, 7);
      assert Pow2(7) == 128;
    }
  }

  method HighBytesClear(habuf: Addr, i: int) returns (clear: bool)
    requires 0 <= i <= |habuf|
    ensures clear <==> forall k :: 0 <= k < i ==> habuf[k] == 0
  {
    for k := i downto 0
      invariant forall q :: k <= q < i ==> habuf[q] == 0
    {
      if habuf[k] != 0 {
        return false;
      }
    }
    return true;
  }

  /** With 32 host bits the four low bytes of the subnet are zero and take the host number whole. */
  lemma WholeHost(subnet: Addr, h: Addr, hostBits: nat)
    requires |h| == 4 <= |subnet| && hostBits == 8 * |h| && Value(subnet) % Pow2(hostBits) == 0
    ensures Value(h) < Pow2(hostBits)
    ensures Value(Stored(subnet, h, -1)) == Value(subnet) + Value(h)
  {
    ValueBound(h);
    HighBytesOnly(subnet, |h|);
    var j, c := |subnet| - |h|, Stored(subnet, h, -1);
    ValueSplit(c, j);
    assert c[..j] == subnet[..j] && c[j..] == h;
  }

  /** An address whose low `k` bytes are zero. */
  lemma HighBytesOnly(a: Addr, k: nat)
    requires k <= |a| && Value(a) % Pow256(k) == 0
    ensures Value(a) == Value(a[..|a| - k]) * Pow256(k)
  {
    assert Value(a[|a| - k..]) == 0 by { LowBytesRemain(a, k); }
    ValueSplit(a, |a| - k);
  }

  /** The buffer of ip_addr once the bytes after `i` of the last four hold host bytes. */
  function Stored(subnet: Addr, h: Addr, i: int): Addr
    requires |h| == 4 <= |subnet| && -1 <= i < 4
  {
    subnet[..|subnet| - 3 + i] + h[i + 1..]
  }

  lemma StoreNext(subnet: Addr, h: Addr, i: nat)
    requires |h| == 4 <= |subnet| && i < 4
    ensures var j := |subnet| - 4;
            && Stored(subnet, h, i)[i + j := h[i]] == Stored(subnet, h, i - 1)
            && Stored(subnet, h, i)[i + j := OrByte(subnet[i + j], h[i])] == Combined(subnet, h, i)
            && Stored(subnet, h, i)[i + j] == subnet[i + j]
            && |Combined(subnet, h, i)| == |subnet| == |Stored(subnet, h, i - 1)|
  {
  }

  /** Splitting an address into subnet and host number and combining them again gives it back. */
  method SplitAndCombine(addr: Addr, mask: Addr, hostBits: nat) returns (rv: Addr)
    requires |addr| == |mask| && |addr| >= 4 && hostBits <= 32 && mask == PrefixMask(|addr|, hostBits)
    ensures rv == addr
  {
    var subnet := SubnetNumber(addr, mask, hostBits);
    var host := HostAddr(addr, mask, hostBits);
    RemainderRemoved(Value(addr), Pow2(hostBits));
    rv := IpAddr(subnet, mask, host, hostBits);
    ValueInjective(rv, addr);
  }

  lemma RemainderRemoved(v: nat, p: nat)
    requires p > 0
    ensures (v - v % p) % p == 0 && v % p < p
  {
    assert v == p * (v / p) + v % p;
    MulMod(v / p, p);
  }

  /** Combining a subnet and a host number that fits, then splitting, gives both back. */
  method CombineAndSplit(subnet: Addr, mask: Addr, host: nat, hostBits: nat) returns (s: Addr, h: nat)
    requires |subnet| == |mask| && |subnet| >= 4 && hostBits <= 32 && mask == PrefixMask(|subnet|, hostBits)
    requires Value(subnet) % Pow2(hostBits) == 0 && host < Pow2(hostBits)
    ensures s == subnet && h == host
  {
    assert host < Pow256(4) by { Pow2Mono(hostBits, 32); }
    var addr := IpAddr(subnet, mask, host, hostBits);
    s := SubnetNumber(addr, mask, hostBits);
    h := HostAddr(addr, mask, hostBits);
    assert Value(s) == Value(subnet) && h == host by { SplitSum(Value(subnet), host, Pow2(hostBits)); }
    ValueInjective(s, subnet);
  }

  lemma SplitSum(v: nat, h: nat, p: nat)
    requires p > 0 && v % p == 0 && h < p
    ensures (v + h) % p == h
  {
    var q := Quotient(v, p);
    DivModUnique(v + h, p, q, h);
  }

  // ----- the width loop of piaddrmask

  /** The position after the lowest one bit of a mask: the prefix length if it is a prefix mask. */
  ghost predicate IsWidth(mask: Addr, mw: int) {
    && 0 <= mw <= 8 * |mask|
    && ZeroBelow(mask, mw)
    && (mw > 0 ==> !ZeroBelow(mask, mw - 1))
    && (mw == 0 ==> Value(mask) == 0)
  }

  /** When the lower bits are all zero, bit `r` decides divisibility by the next power of two. */
  lemma {:induction false} LowestBit(b: nat, r: nat)
    requires b % Pow2(r) == 0
    ensures And(b, Pow2(r)) == 0 <==> b % Pow2(r + 1) == 0
  {
    AndHalves(b, Pow2(r));
    if r != 0 {
      ModDouble(b, Pow2(r - 1));
      ModDouble(b, Pow2(r));
      LowestBit(b / 2, r - 1);
    }
  }

  /** What the width loop keeps: within a byte, that byte is not zero. */
  ghost predicate Narrowing(mask: Addr, mw: int) {
    && 0 <= mw <= 8 * |mask| && ZeroBelow(mask, mw)
    && (mw % 8 != 0 ==> mask[(mw - 1) / 8] != 0)
  }

  lemma OctetSteps(mw: int)
    requires mw > 0
    ensures (mw % 8 == 0 ==> (mw - 1) % 8 == 7 && (mw - 8) % 8 == 0)
    ensures (mw - 1) % 8 != 0 ==> (mw - 2) / 8 == (mw - 1) / 8
  {
  }

  /** After a round, what the loop keeps holds again. */
  lemma NarrowingNext(mask: Addr, mw: int)
    requires mw > 0 && Narrowing(mask, mw)
    ensures var r, b := 7 - (mw - 1) % 8, mask[(mw - 1) / 8];
            && Pow2(r) < 256
            && (b == 0 ==> Narrowing(mask, mw - 8))
            && (b != 0 && AndByte(b, Pow2(r)) != 0 ==> !ZeroBelow(mask, mw - 1))
            && (b != 0 && AndByte(b, Pow2(r)) == 0 ==> Narrowing(mask, mw - 1))
  {
    OctetSteps(mw);
    WidthAt(mask, mw);
  }

  /** One round of the width loop. */
  method Narrow(mask: Addr, mw: int) returns (next: int, stop: bool)
    requires mw > 0 && Narrowing(mask, mw)
    ensures if stop then next == mw && !ZeroBelow(mask, mw - 1) else next < mw && Narrowing(mask, next)
  {
    var oct := (mw - 1) / 8;
    var r := 7 - (mw - 1) % 8;
    NarrowingNext(mask, mw);
    if mask[oct] == 0 {
      return mw - 8, false;
    } else if AndByte(mask[oct], Pow2(r)) != 0 {
      return mw, true;
    } else {
      return mw - 1, false;
    }
  }

  method MaskWidth(mask: Addr) returns (mw: int)
    ensures IsWidth(mask, mw)
  {
    mw := |mask| * 8;
    var stop := false;
    while mw > 0 && !stop
      invariant Narrowing(mask, mw) && (stop ==> mw > 0 && !ZeroBelow(mask, mw - 1))
      decreases mw, !stop
    {
      mw, stop := Narrow(mask, mw);
    }
    if mw == 0 {
      ValueBound(mask);
      SmallModulus(Value(mask), Pow256(|mask|));
    }
  }

  /** No one bit lies after the first `mw` bits. */
  ghost predicate ZeroBelow(mask: Addr, mw: int)
    requires mw <= 8 * |mask|
  {
    Value(mask) % Pow2(8 * |mask| - mw) == 0
  }

  /** One round of the width loop, in the terms of the loop. */
  lemma WidthAt(mask: Addr, mw: int)
    requires 0 < mw <= 8 * |mask| && ZeroBelow(mask, mw)
    ensures var r, b := 7 - (mw - 1) % 8, mask[(mw - 1) / 8];
            && Pow2(r) < 256
            && (b == 0 && r == 0 ==> mw >= 8 && ZeroBelow(mask, mw - 8))
            && (b != 0 && AndByte(b, Pow2(r)) != 0 ==> !ZeroBelow(mask, mw - 1))
            && (b != 0 && AndByte(b, Pow2(r)) == 0 ==> r < 7 && ZeroBelow(mask, mw - 1))
  {
    LowOnesByte(7 - (mw - 1) % 8 + 1);
    WidthStep(mask, mw, |mask| - (mw - 1) / 8 - 1, 7 - (mw - 1) % 8);
  }

  /** One round of the width loop, at bit `r` of the byte with `z` bytes below it. */
  lemma WidthStep(mask: Addr, mw: int, z: nat, r: nat)
    requires z < |mask| && r < 8 && 8 * |mask| - mw == 8 * z + r && Pow2(r) < 256
    requires ZeroBelow(mask, mw)
    ensures var b := mask[|mask| - z - 1];
            && (b == 0 && r == 0 ==> ZeroBelow(mask, mw - 8))
            && (b != 0 && AndByte(b, Pow2(r)) != 0 ==> !ZeroBelow(mask, mw - 1))
            && (b != 0 && AndByte(b, Pow2(r)) == 0 ==> r < 7 && ZeroBelow(mask, mw - 1))
  {
    var b := mask[|mask| - z - 1];
    assert Value(mask) % Pow256(z) == 0 by { Cidr.AlignedDown(Value(mask), 8 * z, 8 * z + r); }
    assert b % Pow2(r) == 0 by { PartByteDivides(mask, z, r); }
    assert And(b, Pow2(r)) == 0 <==> b % Pow2(r + 1) == 0 by { LowestBit(b, r); }
    if b == 0 {
      assert Value(mask) % Pow256(z + 1) == 0 by {
        LowBytesZero(mask, z);
        LowBytesZero(mask, z + 1);
      }
    } else if AndByte(b, Pow2(r)) != 0 {
      NotDivided(mask, z, r);
    } else {
      DividedFurther(mask, z, r);
    }
  }

  lemma SmallModulus(v: nat, p: nat)
    requires v < p
    ensures v % p == v
  {
    DivModUnique(v, p, 0, v);
  }

  lemma DividedFurther(mask: Addr, z: nat, r: nat)
    requires z < |mask| && r < 8 && Value(mask) % Pow256(z) == 0
    requires mask[|mask| - z - 1] != 0 && mask[|mask| - z - 1] % Pow2(r + 1) == 0
    ensures r < 7 && Value(mask) % Pow2(8 * z + r + 1) == 0
  {
    if r == 7 {
      Pow2Of8();
    } else {
      PartByteDivides(mask, z, r + 1);
    }
  }

  lemma NotDivided(mask: Addr, z: nat, r: nat)
    requires z < |mask| && r < 8 && Value(mask) % Pow256(z) == 0
    requires mask[|mask| - z - 1] % Pow2(r + 1) != 0
    ensures Value(mask) % Pow2(8 * z + r + 1) != 0
  {
    if r == 7 {
      Pow2Of8();
      LowBytesZero(mask, z + 1);
    } else {
      PartByteDivides(mask, z, r + 1);
    }
  }

  /** On a prefix mask the width is the prefix length, and no other width fits. */
  lemma WidthOfPrefix(n: nat, hostBits: nat, mw: int)
    requires hostBits <= 8 * n && IsWidth(PrefixMask(n, hostBits), mw)
    ensures mw == 8 * n - hostBits
  {
    var m := PrefixMask(n, hostBits);
    PrefixMaskValue(n, hostBits);
    MulMod(Pow2(8 * n - hostBits) - 1, Pow2(hostBits));
    if mw < 8 * n - hostBits {
      Cidr.AlignedDown(Value(m), hostBits + 1, 8 * n - mw);
      OddMultiple(hostBits, 8 * n - hostBits);
    } else if mw > 8 * n - hostBits {
      Cidr.AlignedDown(Value(m), 8 * n - mw + 1, hostBits);
    }
  }

  lemma PrefixMaskValue(n: nat, hostBits: nat)
    requires hostBits <= 8 * n
    ensures Value(PrefixMask(n, hostBits)) == Pow2(hostBits) * (Pow2(8 * n - hostBits) - 1)
  {
    ComplementPrefix(n, hostBits);
    MaskPlusComplement(LowMask(n, hostBits));
    LowMaskValue(n, hostBits);
    Pow2Add(hostBits, 8 * n - hostBits);
    LessOne(Pow2(hostBits), Pow2(8 * n - hostBits));
  }

  lemma LessOne(p: int, q: int)
    ensures p * (q - 1) == p * q - p
  {
  }

  lemma OddMultiple(k: nat, j: nat)
    requires j >= 1
    ensures (Pow2(k) * (Pow2(j) - 1)) % Pow2(k + 1) != 0
  {
    var p, h := Pow2(k), Pow2(j - 1);
    assert p * (2 * h - 1) == (2 * p) * (h - 1) + p by { OddProduct(p, h); }
    DivModUnique(p * (2 * h - 1), 2 * p, h - 1, p);
  }

  lemma OddProduct(p: int, h: int)
    ensures p * (2 * h - 1) == (2 * p) * (h - 1) + p
  {
  }

  lemma {:induction false} MaskPlusComplement(m: Addr)
    ensures Value(m) + Value(Complement(m)) == Pow256(|m|) - 1
  {
    var n := |m|;
    if n != 0 {
      ValueLast(m);
      ValueLast(Complement(m));
      MaskPlusComplement(m[..n - 1]);
      assert Complement(m)[..n - 1] == Complement(m[..n - 1]);
      Pow256Step(n - 1);
    }
  }
}
