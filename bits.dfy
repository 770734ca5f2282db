/** Bit counts of byte widths (include/bits/bits.hpp). */
module Bits {

  /** `std::uint16_t`. */
  type uint16 = x: int | 0 <= x < 0x1_0000

  /** `std::uint32_t`. */
  type uint32 = x: int | 0 <= x < 0x1_0000_0000

  /** Bits per byte on every target this library builds for. */
  const CharBit: nat := 8

  /** `nbi(n)`: the number of bits in `n` bytes. */
  function Nbi(n: nat): nat
  {
    n * CharBit
  }

  /** 2 to the power `k`. */
  function Pow2(k: nat): (r: nat)
    ensures r > 0
  {
    if k == 0 then 1 else 2 * Pow2(k - 1)
  }

  /** 256 to the power `n`: one more than the largest value `n` bytes hold. */
  function Pow256(n: nat): (r: nat)
    ensures r > 0
  {
    if n == 0 then 1 else 256 * Pow256(n - 1)
  }

  /** The fundamental integral types of C++ (sizes of the targets in scope). */
  datatype Integral = Int8 | UInt8 | Int16 | UInt16 | Int32 | UInt32 | Int64 | UInt64
  {
    /** `sizeof(T)` in bytes. */
    function SizeOf(): nat
    {
      match this
      case Int8 | UInt8 => 1
      case Int16 | UInt16 => 2
      case Int32 | UInt32 => 4
      case Int64 | UInt64 => 8
    }

    predicate IsSigned()
    {
      Int8? || Int16? || Int32? || Int64?
    }

    /** `std::make_unsigned<T>::type`. */
    function MakeUnsigned(): (u: Integral)
      ensures !u.IsSigned() && u.SizeOf() == SizeOf()
    {
      match this
      case Int8 | UInt8 => UInt8
      case Int16 | UInt16 => UInt16
      case Int32 | UInt32 => UInt32
      case Int64 | UInt64 => UInt64
    }

    /** The values a variable of this type can hold (two's complement when signed). */
    predicate Holds(v: int)
    {
      if IsSigned() then -(Pow256(SizeOf()) / 2) <= v < Pow256(SizeOf()) / 2
      else 0 <= v < Pow256(SizeOf())
    }
  }

  /** `lenof<T>()`: the number of bits in the type T. */
  function Lenof(t: Integral): (r: nat)
    ensures r == Nbi(t.MakeUnsigned().SizeOf()) && r % CharBit == 0
  {
    Nbi(t.SizeOf())
  }

  lemma {:induction false} Pow2Add(a: nat, b: nat)
    ensures Pow2(a + b) == Pow2(a) * Pow2(b)
  {
    if a > 0 {
      Pow2Add(a - 1, b);
    }
  }

  /** Shifting by `nbi(n)` bits is multiplying or dividing by 256^n. */
  lemma {:induction false} NbiShift(n: nat)
    ensures Pow2(Nbi(n)) == Pow256(n)
  {
    if n > 0 {
      calc {
        Pow2(Nbi(n));
        { assert Nbi(n) == Nbi(n - 1) + 8; }
        Pow2(Nbi(n - 1) + 8);
        { Pow2Add(Nbi(n - 1), 8); }
        Pow2(Nbi(n - 1)) * Pow2(8);
        { NbiShift(n - 1); assert Pow2(8) == 256; }
        Pow256(n - 1) * 256;
      }
    }
  }

  /** `nbi` is additive and zero on zero, so for a byte index N below the
      width, both shift amounts the byte swap uses leave a whole byte inside
      the value's bit width. */
  lemma SwapShiftsInRange(size: nat, n: nat)
    requires n < size
    ensures Nbi(0) == 0 && Nbi(1) == CharBit
    ensures Nbi(n + (size - 1 - n)) == Nbi(n) + Nbi(size - 1 - n)
    ensures Nbi(n) + CharBit <= Nbi(size) && Nbi(size - 1 - n) + CharBit <= Nbi(size)
  {
  }

  /** `lenof` of each unsigned type of the targets in scope. */
  lemma LenofUnsigned()
    ensures Lenof(UInt8) == 8 && Lenof(UInt16) == 16
    ensures Lenof(UInt32) == 32 && Lenof(UInt64) == 64
  {
  }
}
