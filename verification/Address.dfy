/** Internet addresses as byte strings (common/inet.c), and the number an address stands for. */
module Address {
  import opened Bits

  type Byte = b: int | 0 <= b < 256

  /** The bytes of a `struct iaddr`, most significant first; its length is the `len` field. */
  type Addr = seq<Byte>

  function Pow256(n: nat): (p: nat)
    ensures p >= 1
  {
    Pow2(8 * n)
  }

  lemma Pow256Step(n: nat)
    ensures Pow256(n + 1) == 256 * Pow256(n)
  {
    Pow2Add(8, 8 * n);
    Pow2Of8();
  }

  /** The number written by the bytes of an address. */
  function Value(a: Addr): nat {
    Upto(a, |a|)
  }

  /** The number written by the first `n` bytes. */
  function Upto(a: Addr, n: nat): nat
    requires n <= |a|
  {
    if n == 0 then 0 else 256 * Upto(a, n - 1) + a[n - 1]
  }

  lemma {:induction false} UptoPrefix(a: Addr, b: Addr, n: nat)
    requires n <= |a| && n <= |b| && forall i :: 0 <= i < n ==> a[i] == b[i]
    ensures Upto(a, n) == Upto(b, n)
  {
    if n != 0 { UptoPrefix(a, b, n - 1); }
  }

  /** The last byte of an address and the number the others write. */
  lemma ValueLast(a: Addr)
    requires |a| != 0
    ensures Value(a) == 256 * Value(a[..|a| - 1]) + a[|a| - 1]
  {
    UptoPrefix(a, a[..|a| - 1], |a| - 1);
  }

  lemma ValueAppend(a: Addr, b: Byte)
    ensures Value(a + [b]) == 256 * Value(a) + b
  {
    ValueLast(a + [b]);
    assert (a + [b])[..|a|] == a;
  }

  lemma {:induction false} ValueBound(a: Addr)
    ensures Value(a) < Pow256(|a|)
  {
    if |a| != 0 {
      ValueLast(a);
      ValueBound(a[..|a| - 1]);
      Pow256Step(|a| - 1);
    }
  }

  lemma MulScale(d: int, w: int)
    ensures d * (256 * w) == 256 * (d * w)
  {
  }

  lemma MulMono(x: int, y: int, w: nat)
    requires x <= y
    ensures x * w <= y * w
    ensures (x + 1) * w == x * w + w
  {
  }

  /** An address splits into the bytes before a point and the bytes from it on. */
  lemma {:induction false} ValueSplit(a: Addr, i: nat)
    requires i <= |a|
    ensures Value(a) == Value(a[..i]) * Pow256(|a| - i) + Value(a[i..])
  {
    var n := |a|;
    if i == n {
      assert a[..i] == a;
    } else {
      var p := a[..n - 1];
      ValueLast(a);
      ValueLast(a[i..]);
      ValueSplit(p, i);
      assert p[..i] == a[..i] && p[i..] == a[i..][..n - i - 1];
      Pow256Step(n - 1 - i);
      MulScale(Value(a[..i]), Pow256(n - 1 - i));
    }
  }

  /** Storing one byte moves the value by the difference of the bytes at that weight. */
  lemma {:induction false} ValueUpdate(a: Addr, i: nat, x: Byte)
    requires i < |a|
    ensures Value(a[i := x]) == Value(a) + (x - a[i]) * Pow256(|a| - 1 - i)
  {
    var n := |a|;
    ValueLast(a);
    ValueLast(a[i := x]);
    if i == n - 1 {
      assert a[i := x][..n - 1] == a[..n - 1];
    } else {
      var p := a[..n - 1];
      ValueUpdate(p, i, x);
      assert a[i := x][..n - 1] == p[i := x];
      Pow256Step(n - 2 - i);
      MulScale(x - a[i], Pow256(n - 2 - i));
    }
  }

  /** Addresses of one length with one value are the same address. */
  lemma {:induction false} ValueInjective(a: Addr, b: Addr)
    requires |a| == |b| && Value(a) == Value(b)
    ensures a == b
  {
    var n := |a|;
    if n != 0 {
      ValueLast(a);
      ValueLast(b);
      ValueInjective(a[..n - 1], b[..n - 1]);
      assert a == a[..n - 1] + [a[n - 1]] && b == b[..n - 1] + [b[n - 1]];
    }
  }

  function Sign(x: int): int {
    if x < 0 then -1 else if x > 0 then 1 else 0
  }

  /** A first differing byte decides the order of two addresses of one length. */
  lemma FirstDifferenceDecides(a: Addr, b: Addr, i: nat)
    requires |a| == |b| && i < |a| && a[..i] == b[..i] && a[i] < b[i]
    ensures Value(a) < Value(b)
  {
    ValueSplit(a, i + 1);
    ValueSplit(b, i + 1);
    assert a[..i + 1] == a[..i] + [a[i]] && b[..i + 1] == b[..i] + [b[i]];
    ValueAppend(a[..i], a[i]);
    ValueAppend(b[..i], b[i]);
    ValueBound(a[i + 1..]);
    var x, y, w := Value(a[..i + 1]), Value(b[..i + 1]), Pow256(|a| - i - 1);
    assert x + 1 <= y;
    MulMono(x + 1, y, w);
    MulMono(x, x, w);
  }

  /** addr_cmp: the byte loop computes the numeric order; unequal lengths compare as 0. */
  method AddrCmp(a1: Addr, a2: Addr) returns (r: int)
    ensures |a1| != |a2| ==> r == 0
    ensures |a1| == |a2| ==> r == Sign(Value(a1) - Value(a2))
  {
    if |a1| != |a2| {
      return 0;
    }
    var i := 0;
    while i < |a1|
      invariant 0 <= i <= |a1|
      invariant a1[..i] == a2[..i]
    {
      if a1[i] < a2[i] {
        FirstDifferenceDecides(a1, a2, i);
        return -1;
      }
      if a1[i] > a2[i] {
        FirstDifferenceDecides(a2, a1, i);
        return 1;
      }
      i := i + 1;
    }
    assert a1 == a1[..|a1|] == a2[..|a2|] == a2;
    return 0;
  }

  function AndByte(x: Byte, y: Byte): Byte {
    And(x, y)
  }

  function OrByte(x: Byte, y: Byte): Byte {
    OrBound(x, y, 8);
    Pow2Of8();
    Or(x, y)
  }

  function AndBytes(a: Addr, b: Addr): (r: Addr)
    requires |a| == |b|
    ensures |r| == |a|
  {
    seq(|a|, i requires 0 <= i < |a| => AndByte(a[i], b[i]))
  }

  function OrBytes(a: Addr, b: Addr): (r: Addr)
    requires |a| == |b|
    ensures |r| == |a|
  {
    seq(|a|, i requires 0 <= i < |a| => OrByte(a[i], b[i]))
  }

  lemma {:induction false} ZeroValue(a: Addr)
    ensures Value(a) == 0 <==> forall i :: 0 <= i < |a| ==> a[i] == 0
  {
    var n := |a|;
    if n != 0 {
      ValueLast(a);
      ZeroValue(a[..n - 1]);
      assert forall i :: 0 <= i < n - 1 ==> a[..n - 1][i] == a[i];
    }
  }

  /** addr_or: the bytewise or, and whether any bit is set; unequal lengths write nothing. */
  method AddrOr(a1: Addr, a2: Addr) returns (result: Addr, nonzero: bool)
    ensures |a1| != |a2| ==> result == [] && !nonzero
    ensures |a1| == |a2| ==> result == OrBytes(a1, a2) && (nonzero <==> Value(result) != 0)
  {
    if |a1| != |a2| {
      return [], false;
    }
    result, nonzero := [], false;
    for i := 0 to |a1|
      invariant |result| == i
      invariant forall k :: 0 <= k < i ==> result[k] == OrByte(a1[k], a2[k])
      invariant nonzero <==> exists k :: 0 <= k < i && result[k] != 0
    {
      result := result + [OrByte(a1[i], a2[i])];
      if result[i] != 0 {
        nonzero := true;
      }
    }
    ZeroValue(result);
  }

  /** addr_and: the bytewise and, and whether any bit is set; unequal lengths write nothing. */
  method AddrAnd(a1: Addr, a2: Addr) returns (result: Addr, nonzero: bool)
    ensures |a1| != |a2| ==> result == [] && !nonzero
    ensures |a1| == |a2| ==> result == AndBytes(a1, a2) && (nonzero <==> Value(result) != 0)
  {
    if |a1| != |a2| {
      return [], false;
    }
    result, nonzero := [], false;
    for i := 0 to |a1|
      invariant |result| == i
      invariant forall k :: 0 <= k < i ==> result[k] == AndByte(a1[k], a2[k])
      invariant nonzero <==> exists k :: 0 <= k < i && result[k] != 0
    {
      result := result + [AndByte(a1[i], a2[i])];
      if result[i] != 0 {
        nonzero := true;
      }
    }
    ZeroValue(result);
  }

  /** Bytewise or and bytewise and hold between them exactly the bits of both addresses. */
  lemma {:induction false} OrAndValues(a: Addr, b: Addr)
    requires |a| == |b|
    ensures Value(OrBytes(a, b)) + Value(AndBytes(a, b)) == Value(a) + Value(b)
  {
    var n := |a|;
    if n != 0 {
      ValueLast(a);
      ValueLast(b);
      ValueLast(OrBytes(a, b));
      ValueLast(AndBytes(a, b));
      OrAndValues(a[..n - 1], b[..n - 1]);
      OrPlusAnd(a[n - 1], b[n - 1]);
      assert OrBytes(a, b)[..n - 1] == OrBytes(a[..n - 1], b[..n - 1]);
      assert AndBytes(a, b)[..n - 1] == AndBytes(a[..n - 1], b[..n - 1]);
    }
  }

  /** The low byte of a mask of `bit` ones. */
  function LowByte(bit: nat): Byte {
    if bit >= 8 then 255 else LowOnesByte(bit); Pow2(bit) - 1
  }

  /** The `n`-byte address whose `bit` low bits are one and all others zero. */
  function LowMask(n: nat, bit: nat): (m: Addr)
    requires bit <= 8 * n
    ensures |m| == n
  {
    if n == 0 then [] else LowMask(n - 1, Above(bit)) + [LowByte(bit)]
  }

  /** The ones of a mask that lie above its low byte. */
  function Above(bit: nat): nat {
    if bit >= 8 then bit - 8 else 0
  }

  lemma LowOnesByte(bit: nat)
    requires bit <= 8
    ensures Pow2(bit) - 1 < 256
  {
    Pow2Mono(bit, 8);
    Pow2Of8();
  }

  lemma {:induction false} LowMaskValue(n: nat, bit: nat)
    requires bit <= 8 * n
    ensures Value(LowMask(n, bit)) == Pow2(bit) - 1
  {
    if n != 0 {
      LowMaskValue(n - 1, Above(bit));
      ValueAppend(LowMask(n - 1, Above(bit)), LowByte(bit));
      if bit >= 8 { ScalePow2(bit); }
    }
  }

  /** Masking an address with `bit` low ones leaves its value modulo `2^bit`. */
  lemma {:induction false} AndLowMask(a: Addr, bit: nat)
    requires bit <= 8 * |a|
    ensures Value(AndBytes(a, LowMask(|a|, bit))) == Value(a) % Pow2(bit)
  {
    var n := |a|;
    if n != 0 {
      var m, p := LowMask(n, bit), a[..n - 1];
      assert m[..n - 1] == LowMask(n - 1, Above(bit)) && m[n - 1] == LowByte(bit);
      assert AndBytes(a, m)[..n - 1] == AndBytes(p, m[..n - 1]);
      ValueLast(a);
      ValueLast(AndBytes(a, m));
      AndLowMask(p, Above(bit));
      ByteMod(Value(p), a[n - 1], bit);
    }
  }

  lemma ByteMod(h: nat, b: Byte, bit: nat)
    ensures 256 * (h % Pow2(Above(bit))) + And(b, LowByte(bit)) == (256 * h + b) % Pow2(bit)
  {
    if bit >= 8 {
      AndAllOnes(b);
      ScalePow2(bit);
      SplitMod(h, b, Pow2(bit - 8));
    } else {
      AndLowOnes(b, bit);
      PartByte(h, b, bit);
    }
  }

  lemma PartByte(h: nat, b: Byte, bit: nat)
    requires bit < 8
    ensures (256 * h + b) % Pow2(bit) == b % Pow2(bit)
  {
    Pow2Of8();
    Pow2Add(bit, 8 - bit);
    MulThree(Pow2(bit), Pow2(8 - bit), h);
    AddMulMod(b, Pow2(8 - bit) * h, Pow2(bit));
  }

  lemma AndAllOnes(b: Byte)
    ensures And(b, 255) == b
  {
    Pow2Of8();
    AndOnesKeeps(b, 8, 256);
  }

  lemma ScalePow2(bit: nat)
    requires bit >= 8
    ensures Pow2(bit) == 256 * Pow2(bit - 8)
  {
    Pow2Add(8, bit - 8);
    Pow2Of8();
  }

  lemma MulThree(x: nat, y: nat, z: nat)
    ensures x * (y * z) == (x * y) * z
  {
  }

  lemma SplitMod(h: nat, b: Byte, p: nat)
    requires p > 0
    ensures (256 * h + b) % (256 * p) == 256 * (h % p) + b
  {
    var q, s := h / p, h % p;
    assert h == p * q + s;
    assert 256 * h + b == (256 * p) * q + (256 * s + b) by {
      assert (256 * p) * q == 256 * (p * q);
    }
    DivModUnique(256 * h + b, 256 * p, q, 256 * s + b);
  }

  /** Or-ing bit `bit` into the byte that holds it extends a low mask by one. */
  lemma LowMaskSetBit(n: nat, bit: nat)
    requires bit < 8 * n
    ensures n - bit / 8 - 1 >= 0 && Pow2(bit % 8) < 256
    ensures var ofs := n - bit / 8 - 1;
            LowMask(n, bit)[ofs := OrByte(LowMask(n, bit)[ofs], Pow2(bit % 8))] == LowMask(n, bit + 1)
  {
    LowOnesByte(bit % 8 + 1);
    SetBitAt(n, bit / 8, bit % 8);
  }

  /** The same with the bit given by the bytes below it and its place in its byte. */
  lemma {:induction false} SetBitAt(n: nat, z: nat, r: nat)
    requires z < n && r < 8 && Pow2(r) < 256
    ensures LowMask(n, 8 * z + r)[n - z - 1 := OrByte(LowMask(n, 8 * z + r)[n - z - 1], Pow2(r))] ==
        LowMask(n, 8 * z + r + 1)
  {
    if z == 0 {
      LowByteSetBit(r);
      SetLast(LowMask(n - 1, 0), LowByte(r), LowByte(r + 1));
    } else {
      SetBitAt(n - 1, z - 1, r);
      SetInUpper(LowMask(n - 1, 8 * (z - 1) + r), 255, n - z - 1, Pow2(r));
    }
  }

  lemma SetLast(upper: Addr, b: Byte, c: Byte)
    ensures (upper + [b])[|upper| := c] == upper + [c]
  {
  }

  lemma SetInUpper(upper: Addr, b: Byte, ofs: nat, val: Byte)
    requires ofs < |upper|
    ensures (upper + [b])[ofs := OrByte((upper + [b])[ofs], val)] == upper[ofs := OrByte(upper[ofs], val)] + [b]
  {
  }

  lemma LowByteSetBit(bit: nat)
    requires bit < 8
    ensures Pow2(bit) < 256 && OrByte(LowByte(bit), Pow2(bit)) == LowByte(bit + 1)
  {
    LowOnesByte(bit + 1);
    OrNextBit(bit);
    Pow2Of8();
  }
}
