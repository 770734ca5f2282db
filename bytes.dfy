/** Byte orders and the byte-reordering codec (include/bits/bytes.hpp). */
module Bytes {
  import opened Bits

  /** One byte: an unsigned integer below 256. */
  type byte = b: int | 0 <= b < 256

  /** The two byte orders; the aliases below name the same two positions. */
  datatype Ord = MSFirst | LSFirst

  const BE: Ord := MSFirst
  const LE: Ord := LSFirst
  const Network: Ord := MSFirst
  /** `Host` is an alias of LSFirst on every target; it is not the native order. */
  const Host: Ord := LSFirst

  /** The byte order of the target the library is compiled for, fixed at build
      time by `__BYTE_ORDER__`. */
  datatype Target = BigEndianTarget | LittleEndianTarget

  /** `Ord::Native`. */
  function Native(t: Target): Ord
  {
    if t == BigEndianTarget then MSFirst else LSFirst
  }

  /** `Ord::Reverse`: the order opposite to the native one. */
  function Reverse(t: Target): (r: Ord)
    ensures r != Native(t)
  {
    if t == BigEndianTarget then LSFirst else MSFirst
  }

  /** The target the drivers are built for (ESP32 and the Arduino cores are
      little-endian). */
  const Machine: Target := LittleEndianTarget

  // ---------------------------------------------------------------------------
  // The swap: a fold over the byte indices N of the terms
  // ((v >> nbi(N)) & 0xFF) << nbi(size-1-N).  The source combines the terms
  // with `|`; here they are added.  Each term is one byte placed at its own
  // byte position, so their bit ranges do not overlap and the sum has the
  // same value as the `|` fold; SwapBytes states that value byte by byte.
  // ---------------------------------------------------------------------------

  /** `v >> bits`. */
  function Shr(v: nat, bits: nat): nat
  {
    DivNat(v, Pow2(bits));
    v / Pow2(bits)
  }

  /** `v << bits` on an integer wide enough to hold the result. */
  function Shl(v: nat, bits: nat): nat
  {
    v * Pow2(bits)
  }

  /** `v & 0xFF`. */
  function LowByte(v: nat): byte
  {
    v % 256
  }

  /** The terms for byte indices 0 .. k-1 of the swap of a `size`-byte value. */
  function SwapFold(size: nat, v: nat, k: nat): nat
    requires k <= size
  {
    if k == 0 then 0
    else SwapFold(size, v, k - 1) + Shl(LowByte(Shr(v, Nbi(k - 1))), Nbi(size - k))
  }

  /** `Order::swap(v, std::make_index_sequence<size>)`. */
  function Swap(size: nat, v: nat): nat
  {
    SwapFold(size, v, size)
  }

  // ---------------------------------------------------------------------------
  // Byte views of a value: the reference definitions the swap is checked against.
  // ---------------------------------------------------------------------------

  /** Byte i of v, 0 being the least significant. */
  function ByteAt(v: nat, i: nat): byte
  {
    if i == 0 then v % 256 else ByteAt(v / 256, i - 1)
  }

  /** The low n bytes of v, least significant first. */
  function LEBytes(n: nat, v: nat): (bs: seq<byte>)
    ensures |bs| == n
  {
    if n == 0 then [] else [v % 256] + LEBytes(n - 1, v / 256)
  }

  /** The value of a byte string read least significant byte first. */
  function FromLE(bs: seq<byte>): nat
  {
    if bs == [] then 0 else bs[0] + 256 * FromLE(bs[1..])
  }

  function Rev<T>(s: seq<T>): (r: seq<T>)
    ensures |r| == |s|
  {
    if s == [] then [] else Rev(s[1..]) + [s[0]]
  }

  /** The n bytes of v as a target with byte order `o` lays them out in memory. */
  function Store(o: Ord, n: nat, v: nat): (bs: seq<byte>)
    ensures |bs| == n
  {
    if o == LSFirst then LEBytes(n, v) else Rev(LEBytes(n, v))
  }

  /** The value a target with byte order `o` reads from the bytes `bs` in memory. */
  function Load(o: Ord, bs: seq<byte>): nat
  {
    if o == LSFirst then FromLE(bs) else FromLE(Rev(bs))
  }

  // ---------------------------------------------------------------------------
  // reorder
  // ---------------------------------------------------------------------------

  /** `static_cast<make_unsigned_t<V>>(v)`: the two's complement bit pattern,
      v modulo 256^sizeof(V) (v lies within one period below zero). */
  function ToUnsigned(t: Integral, v: int): (u: nat)
    requires t.Holds(v)
    ensures t.MakeUnsigned().Holds(u)
    ensures 0 <= v ==> u == v
    ensures v < 0 ==> u == v + Pow256(t.SizeOf())
  {
    var n := Pow256(t.SizeOf());
    var m := t.MakeUnsigned();
    assert !m.IsSigned() && m.SizeOf() == t.SizeOf();
    if v < 0 then v + n else v
  }

  /** `reorder<To, From>(v)` for a value v of integral type t. */
  function Reorder(to: Ord, from: Ord, t: Integral, v: int): (r: nat)
    requires t.Holds(v)
    ensures t.MakeUnsigned().Holds(r)
  {
    var u := ToUnsigned(t, v);
    if to == from then u
    else
      SwapBytes(t.SizeOf(), u, 0);
      Swap(t.SizeOf(), u)
  }

  /** `reorder(v)` with its default arguments `To = Reverse`, `From = Native`. */
  function ReorderDefault(m: Target, t: Integral, v: int): (r: nat)
    requires t.Holds(v)
    ensures t.MakeUnsigned().Holds(r)
  {
    Reorder(Reverse(m), Native(m), t, v)
  }

  // ---------------------------------------------------------------------------
  // Sequence lemmas
  // ---------------------------------------------------------------------------

  lemma {:induction false} RevAt<T>(s: seq<T>, i: nat)
    requires i < |s|
    ensures Rev(s)[i] == s[|s| - 1 - i]
  {
    if i < |s| - 1 {
      RevAt(s[1..], i);
    }
  }

  lemma RevRev<T>(s: seq<T>)
    ensures Rev(Rev(s)) == s
  {
    forall i | 0 <= i < |s|
      ensures Rev(Rev(s))[i] == s[i]
    {
      RevAt(Rev(s), i);
      RevAt(s, |s| - 1 - i);
    }
  }

  lemma Regroup(x: nat, f: nat, b: nat, p: nat)
    ensures x + 256 * (f + b * p) == (x + 256 * f) + b * (256 * p)
  {
  }

  lemma {:induction false} FromLEAppend(xs: seq<byte>, b: byte)
    ensures FromLE(xs + [b]) == FromLE(xs) + b * Pow256(|xs|)
  {
    if xs != [] {
      var ys, zs := xs[1..], xs + [b];
      assert zs[0] == xs[0] && zs[1..] == ys + [b];
      FromLEAppend(ys, b);
      Regroup(xs[0], FromLE(ys), b, Pow256(|ys|));
    }
  }

  /** A byte string of n bytes holds a value below 256^n. */
  lemma {:induction false} FromLEBound(bs: seq<byte>)
    ensures FromLE(bs) < Pow256(|bs|)
  {
    if bs != [] {
      FromLEBound(bs[1..]);
    }
  }

  /** Reading back the bytes of a value that fits in n bytes gives the value. */
  lemma {:induction false} FromLEBytes(n: nat, v: nat)
    requires v < Pow256(n)
    ensures FromLE(LEBytes(n, v)) == v
  {
    if n > 0 {
      FromLEBytes(n - 1, v / 256);
    }
  }

  /** Taking the bytes of the value a byte string holds gives the string back. */
  lemma {:induction false} LEBytesFrom(bs: seq<byte>)
    ensures LEBytes(|bs|, FromLE(bs)) == bs
  {
    if bs != [] {
      var x, r := FromLE(bs), FromLE(bs[1..]);
      DivUnique(x, 256, r, bs[0]);
      assert x % 256 == bs[0];
      LEBytesFrom(bs[1..]);
      assert LEBytes(|bs|, x) == [x % 256] + LEBytes(|bs| - 1, x / 256);
      assert bs == [bs[0]] + bs[1..];
    }
  }

  lemma {:induction false} LEBytesAt(n: nat, v: nat, i: nat)
    requires i < n
    ensures LEBytes(n, v)[i] == ByteAt(v, i)
  {
    if i > 0 {
      LEBytesAt(n - 1, v / 256, i - 1);
    }
  }

  // ---------------------------------------------------------------------------
  // Arithmetic behind the shifts
  // ---------------------------------------------------------------------------

  lemma MulMonotone(x: nat, y: nat, d: nat)
    requires x <= y
    ensures x * d <= y * d
  {
    assert y * d == x * d + (y - x) * d;
  }

  /** Dividing a natural number by a positive one gives a natural number. */
  lemma DivNat(a: nat, d: nat)
    requires d > 0
    ensures a / d >= 0
  {
  }

  lemma MulSucc(x: nat, d: nat)
    ensures (x + 1) * d == x * d + d
  {
  }

  lemma DivUnique(a: nat, d: nat, q: nat, r: nat)
    requires d > 0 && a == q * d + r && r < d
    ensures a / d == q
  {
    var q', r' := a / d, a % d;
    assert a == q' * d + r';
    if q' < q {
      MulMonotone(q' + 1, q, d);
      MulSucc(q', d);
    } else if q < q' {
      MulMonotone(q + 1, q', d);
      MulSucc(q, d);
    }
  }

  lemma Regroup2(q2: nat, c: nat, r2: nat, b: nat, r: nat)
    ensures (q2 * c + r2) * b + r == q2 * (b * c) + (r2 * b + r)
  {
  }

  lemma RemainderBound(r2: nat, c: nat, b: nat, r: nat)
    requires r2 < c && r < b
    ensures r2 * b + r < b * c
  {
    MulMonotone(r2, c - 1, b);
    assert (c - 1) * b == b * c - b;
  }

  lemma DivDiv(a: nat, b: nat, c: nat)
    requires b > 0 && c > 0
    ensures a / b / c == a / (b * c)
  {
    var q, r := a / b, a % b;
    var q2, r2 := q / c, q % c;
    assert a == q * b + r;
    assert q == q2 * c + r2;
    Regroup2(q2, c, r2, b, r);
    RemainderBound(r2, c, b, r);
    DivUnique(a, b * c, q2, r2 * b + r);
  }

  /** `(v >> nbi(i)) & 0xFF` is byte i of v. */
  lemma {:induction false} ShrNbiByte(v: nat, i: nat)
    ensures LowByte(Shr(v, Nbi(i))) == ByteAt(v, i)
  {
    NbiShift(i);
    if i > 0 {
      NbiShift(i - 1);
      ShrNbiByte(v / 256, i - 1);
      DivDiv(v, 256, Pow256(i - 1));
    }
  }

  // ---------------------------------------------------------------------------
  // The swap reverses the byte string
  // ---------------------------------------------------------------------------

  /** The fold over a byte string: terms bs[N] * 256^(|bs|-1-N) for N < k. */
  function FoldBytes(bs: seq<byte>, k: nat): nat
    requires k <= |bs|
  {
    if k == 0 then 0 else FoldBytes(bs, k - 1) + bs[k - 1] * Pow256(|bs| - k)
  }

  lemma {:induction false} SwapFoldBytes(size: nat, v: nat, k: nat)
    requires k <= size
    ensures SwapFold(size, v, k) == FoldBytes(LEBytes(size, v), k)
  {
    if k > 0 {
      SwapFoldBytes(size, v, k - 1);
      ShrNbiByte(v, k - 1);
      NbiShift(size - k);
      LEBytesAt(size, v, k - 1);
    }
  }

  lemma {:induction false} FoldBytesSplit(bs: seq<byte>, k: nat)
    requires 1 <= k <= |bs|
    ensures FoldBytes(bs, k) == bs[0] * Pow256(|bs| - 1) + FoldBytes(bs[1..], k - 1)
  {
    if k > 1 {
      FoldBytesSplit(bs, k - 1);
    }
  }

  lemma {:induction false} FoldBytesReverse(bs: seq<byte>)
    ensures FoldBytes(bs, |bs|) == FromLE(Rev(bs))
  {
    if bs != [] {
      FoldBytesSplit(bs, |bs|);
      FoldBytesReverse(bs[1..]);
      FromLEAppend(Rev(bs[1..]), bs[0]);
    }
  }

  /** The source's fold computes the value whose byte string is the reverse of v's. */
  lemma SwapIsReverse(size: nat, v: nat)
    ensures Swap(size, v) == FromLE(Rev(LEBytes(size, v)))
  {
    SwapFoldBytes(size, v, size);
    FoldBytesReverse(LEBytes(size, v));
  }

  /** The bytes of the swap are the bytes of v in reverse order: byte i of the
      result is byte size-1-i of v, and the result fits in size bytes. */
  lemma SwapBytes(size: nat, v: nat, i: nat)
    ensures Swap(size, v) < Pow256(size)
    ensures LEBytes(size, Swap(size, v)) == Rev(LEBytes(size, v))
    ensures i < size ==> ByteAt(Swap(size, v), i) == ByteAt(v, size - 1 - i)
  {
    var bs := LEBytes(size, v);
    SwapIsReverse(size, v);
    FromLEBound(Rev(bs));
    LEBytesFrom(Rev(bs));
    if i < size {
      LEBytesAt(size, Swap(size, v), i);
      RevAt(bs, i);
      LEBytesAt(size, v, size - 1 - i);
    }
  }

  /** Swapping twice restores any value that fits in the width. */
  lemma SwapInvolution(size: nat, v: nat)
    requires v < Pow256(size)
    ensures Swap(size, Swap(size, v)) == v
  {
    var bs := LEBytes(size, v);
    SwapBytes(size, v, 0);
    SwapIsReverse(size, Swap(size, v));
    RevRev(bs);
    FromLEBytes(size, v);
  }

  /** The swap of a one-byte value is the value. */
  lemma SwapSingleByte(v: nat)
    requires v < 256
    ensures Swap(1, v) == v
  {
    SwapIsReverse(1, v);
  }

  /** reorder is the identity when the orders agree and otherwise reverses
      the bytes of the unsigned bit pattern. */
  lemma ReorderSpec(to: Ord, from: Ord, t: Integral, v: int, i: nat)
    requires t.Holds(v)
    ensures to == from ==> Reorder(to, from, t, v) == ToUnsigned(t, v)
    ensures to != from && i < t.SizeOf() ==>
      ByteAt(Reorder(to, from, t, v), i) == ByteAt(ToUnsigned(t, v), t.SizeOf() - 1 - i)
  {
    SwapBytes(t.SizeOf(), ToUnsigned(t, v), i);
  }

  /** Converting from one order to another and back gives the unsigned bit
      pattern of the original value. */
  lemma ReorderRoundTrip(a: Ord, b: Ord, t: Integral, v: int)
    requires t.Holds(v)
    ensures Reorder(a, b, t.MakeUnsigned(), Reorder(b, a, t, v)) == ToUnsigned(t, v)
  {
    var u := ToUnsigned(t, v);
    if a != b {
      SwapInvolution(t.SizeOf(), u);
    }
  }

  /** `Native` and `Reverse` differ on every target, so the default `reorder`
      always swaps; one-byte values come back unchanged. */
  lemma DefaultAlwaysSwaps(m: Target, t: Integral, v: int)
    requires t.Holds(v)
    ensures Native(m) != Reverse(m)
    ensures ReorderDefault(m, t, v) == Swap(t.SizeOf(), ToUnsigned(t, v))
    ensures t.SizeOf() == 1 ==> ReorderDefault(m, t, v) == ToUnsigned(t, v)
  {
    if t.SizeOf() == 1 {
      SwapSingleByte(ToUnsigned(t, v));
    }
  }

  /** The aliases are fixed: only `Native` and `Reverse` depend on the target. */
  lemma OrdAliases(m: Target)
    ensures BE == Network == MSFirst && LE == LSFirst && Host == LSFirst
    ensures Native(m) == BE <==> m == BigEndianTarget
    ensures Reverse(m) == LE <==> m == BigEndianTarget
  {
  }

  /** Storing the default-reordered value puts the value's bytes in memory in
      the order `Reverse`; loading bytes and reordering reads them in the
      order `Reverse`.  On a little-endian target that is most significant
      byte first. */
  lemma {:induction false} StoreReordered(m: Target, n: nat, v: nat, bs: seq<byte>)
    requires v < Pow256(n) && |bs| == n
    ensures Store(Native(m), n, Swap(n, v)) == Store(Reverse(m), n, v)
    ensures Swap(n, Load(Native(m), bs)) == Load(Reverse(m), bs)
  {
    var le := LEBytes(n, v);
    SwapBytes(n, v, 0);
    RevRev(le);
    FromLEBound(bs);
    FromLEBound(Rev(bs));
    SwapIsReverse(n, FromLE(bs));
    LEBytesFrom(bs);
    SwapIsReverse(n, FromLE(Rev(bs)));
    LEBytesFrom(Rev(bs));
    RevRev(bs);
  }
}
