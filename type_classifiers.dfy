/**
 * The type classifiers of `TypeEx`: which types are wire primitives, which have a
 * fixed encoded width and what that width is, and which are one-dimensional arrays.
 */
module TypeClassifiers {
  import opened Wrappers
  import opened Errors

  /** The rank of a .NET array type: at least one dimension. */
  type Rank = r: int | 1 <= r witness 1

  /**
   * A runtime type handle. Equality is identity of the underlying type: the sixteen
   * primitive kinds, array types by element type and rank, and every other type by
   * an identifying name.
   */
  datatype TypeHandle =
    | Int32 | Int64 | Int16 | UInt32 | UInt64 | UInt16 | Byte | SByte
    | Bool | DateTime | String | Guid | Float | Double | Decimal | Char
    | Array(elem: TypeHandle, rank: Rank)
    | Other(name: string)

  /** `IsWirePrimitive`: exactly the scalar kinds, never an array or any other type. */
  predicate IsWirePrimitive(t: TypeHandle)
    ensures IsWirePrimitive(t) <==> !t.Array? && !t.Other?
  {
    t == Int32 || t == Int64 || t == Int16 || t == UInt32 || t == UInt64 || t == UInt16 ||
    t == Byte || t == SByte || t == DateTime || t == Bool || t == String || t == Guid ||
    t == Float || t == Double || t == Decimal || t == Char
  }

  /** `IsFixedSizeType`: every fixed-size type is also a wire primitive. */
  predicate IsFixedSizeType(t: TypeHandle)
    ensures IsFixedSizeType(t) ==> IsWirePrimitive(t)
  {
    t == Int32 || t == Int64 || t == Bool || t == UInt16 || t == UInt32 || t == UInt64
  }

  function Pow256(n: nat): (p: nat)
    ensures p >= 1
  {
    if n == 0 then 1 else 0x100 * Pow256(n - 1)
  }

  lemma Pow256Values()
    ensures Pow256(1) == 0x100 && Pow256(2) == 0x1_0000 && Pow256(3) == 0x100_0000
    ensures Pow256(4) == 0x1_0000_0000 && Pow256(7) == 0x100_0000_0000_0000
    ensures Pow256(8) == 0x1_0000_0000_0000_0000
  {
    assert Pow256(1) == 0x100;
    assert Pow256(2) == 0x1_0000;
    assert Pow256(3) == 0x100_0000;
    assert Pow256(4) == 0x1_0000_0000;
    assert Pow256(5) == 0x100_0000_0000;
    assert Pow256(6) == 0x1_0000_0000_0000;
    assert Pow256(7) == 0x100_0000_0000_0000;
  }

  /** The number of distinct values of a fixed-size type, by its .NET value range. */
  function ValueCount(t: TypeHandle): nat
    requires IsFixedSizeType(t)
  {
    match t
    case Bool => 2
    case UInt16 => 0x1_0000
    case Int32 | UInt32 => 0x1_0000_0000
    case Int64 | UInt64 => 0x1_0000_0000_0000_0000
  }

  /** `w` bytes hold `n` distinct values, and `w - 1` bytes do not. */
  predicate IsLeastWidth(w: int, n: nat) {
    1 <= w && Pow256(w - 1) < n <= Pow256(w)
  }

  /**
   * `GetTypeSize`: it returns normally exactly for the fixed-size types, and then the
   * width in bytes is the least that holds every value of the type; any other type
   * raises `NotSupportedException`.
   */
  function GetTypeSize(t: TypeHandle): (r: Result<int, Error>)
    ensures r.Success? <==> IsFixedSizeType(t)
    ensures r.Success? ==> IsLeastWidth(r.value, ValueCount(t))
    ensures r.Failure? ==> r.error == NotSupported
  {
    Pow256Values();
    if t == Int32 then Success(4)
    else if t == Int64 then Success(8)
    else if t == Bool then Success(1)
    else if t == UInt16 then Success(2)
    else if t == UInt32 then Success(4)
    else if t == UInt64 then Success(8)
    else Failure(NotSupported)
  }

  lemma {:induction false} Pow256Monotonic(a: nat, b: nat)
    requires a <= b
    ensures Pow256(a) <= Pow256(b)
    decreases b
  {
    if a < b {
      Pow256Monotonic(a, b - 1);
    }
  }

  /** A least width is unique, so the contract of `GetTypeSize` fixes each size. */
  lemma LeastWidthUnique(w1: int, w2: int, n: nat)
    requires IsLeastWidth(w1, n) && IsLeastWidth(w2, n)
    ensures w1 == w2
  {
    if w1 < w2 {
      Pow256Monotonic(w1, w2 - 1);
    } else if w2 < w1 {
      Pow256Monotonic(w2, w1 - 1);
    }
  }

  /** The size table as the source writes it: int 4, long 8, bool 1, ushort 2, uint 4, ulong 8. */
  lemma GetTypeSizeTable()
    ensures GetTypeSize(Int32) == Success(4) && GetTypeSize(Int64) == Success(8)
    ensures GetTypeSize(Bool) == Success(1) && GetTypeSize(UInt16) == Success(2)
    ensures GetTypeSize(UInt32) == Success(4) && GetTypeSize(UInt64) == Success(8)
  {
  }

  /** `IsOneDimensionalArray`: an array type of rank one, so never a primitive or fixed-size type. */
  predicate IsOneDimensionalArray(t: TypeHandle)
    ensures IsOneDimensionalArray(t) ==> !IsWirePrimitive(t) && !IsFixedSizeType(t)
  {
    t.Array? && t.rank == 1
  }

  /** `IsOneDimensionalPrimitiveArray`: a one-dimensional array whose element type is a wire primitive. */
  predicate IsOneDimensionalPrimitiveArray(t: TypeHandle)
    ensures IsOneDimensionalPrimitiveArray(t) <==> IsOneDimensionalArray(t) && IsWirePrimitive(t.elem)
  {
    t.Array? && t.rank == 1 && IsWirePrimitive(t.elem)
  }
}
