/** The integer builds of the combining functions: sums and products that wrap around. */
module IntegerBuilds {
  import opened Combine
  import opened CombineLaws
  import opened CombineTable
  import opened Combiners
  import opened Remainders
  import opened WrittenLoops

  type Word8 = x: int | 0 <= x < 0x100
  type Word32 = x: int | 0 <= x < 0x1_0000_0000
  type Word64 = x: int | 0 <= x < 0x1_0000_0000_0000_0000

  function Add8(x: Word8, y: Word8): Word8 { (x + y) % 0x100 }
  function Mul8(x: Word8, y: Word8): Word8 { (x * y) % 0x100 }
  function Add32(x: Word32, y: Word32): Word32 { (x + y) % 0x1_0000_0000 }
  function Mul32(x: Word32, y: Word32): Word32 { (x * y) % 0x1_0000_0000 }
  function Add64(x: Word64, y: Word64): Word64 { (x + y) % 0x1_0000_0000_0000_0000 }
  function Mul64(x: Word64, y: Word64): Word64 { (x * y) % 0x1_0000_0000_0000_0000 }

  lemma WrappedSumAssociates(x: int, y: int, z: int, m: int)
    requires m >= 1
    ensures ((x + y) % m + z) % m == (x + (y + z) % m) % m
  {
    RemainderOfSum(x + y, z, m);
    RemainderOfSum(y + z, x, m);
  }

  lemma WrappedProductAssociates(x: int, y: int, z: int, m: int)
    requires m >= 1
    ensures ((x * y) % m * z) % m == (x * ((y * z) % m)) % m
  {
    RemainderOfProduct(x * y, z, m);
    RemainderOfProduct(y * z, x, m);
    assert x * y * z == y * z * x;
    assert (y * z) % m * x == x * ((y * z) % m);
  }

  /** Sums and products modulo m, for words of any width. */
  lemma WrappedLaws(x: int, y: int, z: int, m: int)
    requires m >= 1
    ensures ((x + y) % m + z) % m == (x + (y + z) % m) % m && (x + y) % m == (y + x) % m
    ensures ((x * y) % m * z) % m == (x * ((y * z) % m)) % m && (x * y) % m == (y * x) % m
  {
    WrappedSumAssociates(x, y, z, m);
    WrappedProductAssociates(x, y, z, m);
    assert x * y == y * x;
  }

  lemma CharsAreMonoids()
    ensures CommutativeMonoid(Add8, 0) && CommutativeMonoid(Mul8, 1)
  {
    forall x: Word8, y: Word8, z: Word8
      ensures AssociativeAt(Add8, x, y, z) && AssociativeAt(Mul8, x, y, z)
      ensures CommutativeAt(Add8, x, y) && CommutativeAt(Mul8, x, y)
    {
      WrappedLaws(x, y, z, 0x100);
    }
  }

  lemma IntsAreMonoids()
    ensures CommutativeMonoid(Add32, 0) && CommutativeMonoid(Mul32, 1)
  {
    forall x: Word32, y: Word32, z: Word32
      ensures AssociativeAt(Add32, x, y, z) && AssociativeAt(Mul32, x, y, z)
      ensures CommutativeAt(Add32, x, y) && CommutativeAt(Mul32, x, y)
    {
      WrappedLaws(x, y, z, 0x1_0000_0000);
    }
  }

  lemma LongsAreMonoids()
    ensures CommutativeMonoid(Add64, 0) && CommutativeMonoid(Mul64, 1)
  {
    forall x: Word64, y: Word64, z: Word64
      ensures AssociativeAt(Add64, x, y, z) && AssociativeAt(Mul64, x, y, z)
      ensures CommutativeAt(Add64, x, y) && CommutativeAt(Mul64, x, y)
    {
      WrappedLaws(x, y, z, 0x1_0000_0000_0000_0000);
    }
  }

  // ----- What is stored is the true sum, or product, as far as the word holds it -----

  function Total(data: seq<int>): int { if data == [] then 0 else Total(data[..|data| - 1]) + data[|data| - 1] }

  function Product(data: seq<int>): int {
    if data == [] then 1 else Product(data[..|data| - 1]) * data[|data| - 1]
  }

  ghost predicate AddsModulo<T(!new)>(add: (T, T) -> T, zero: T, value: T -> int, m: int)
    requires m >= 1
  {
    value(zero) == 0 && forall x, y :: value(add(x, y)) == (value(x) + value(y)) % m
  }

  ghost predicate MultipliesModulo<T(!new)>(mul: (T, T) -> T, one: T, value: T -> int, m: int)
    requires m >= 1
  {
    value(one) == 1 % m && forall x, y :: value(mul(x, y)) == (value(x) * value(y)) % m
  }

  function Values<T>(value: T -> int, data: seq<T>): (vs: seq<int>)
    ensures |vs| == |data| && forall k :: 0 <= k < |data| ==> vs[k] == value(data[k])
  {
    seq(|data|, k requires 0 <= k < |data| => value(data[k]))
  }

  lemma {:induction false} FoldIsTotal<T(!new)>(add: (T, T) -> T, zero: T, value: T -> int, m: int, data: seq<T>)
    requires m >= 1 && AddsModulo(add, zero, value, m)
    ensures value(Fold(add, zero, data)) == Total(Values(value, data)) % m
  {
    if data != [] {
      var front, vs := data[..|data| - 1], Values(value, data);
      FoldIsTotal(add, zero, value, m, front);
      assert vs[..|front|] == Values(value, front);
      RemainderOfSum(Total(vs[..|front|]), vs[|front|], m);
    }
  }

  lemma {:induction false} FoldIsProduct<T(!new)>(mul: (T, T) -> T, one: T, value: T -> int, m: int, data: seq<T>)
    requires m >= 1 && MultipliesModulo(mul, one, value, m)
    ensures value(Fold(mul, one, data)) == Product(Values(value, data)) % m
  {
    if data != [] {
      var front, vs := data[..|data| - 1], Values(value, data);
      FoldIsProduct(mul, one, value, m, front);
      assert vs[..|front|] == Values(value, front);
      RemainderOfProduct(Product(vs[..|front|]), vs[|front|], m);
    }
  }

  lemma CharsStore(data: seq<Word8>)
    ensures Fold(Add8, 0, data) == Total(data) % 0x100
    ensures Fold(Mul8, 1, data) == Product(data) % 0x100
  {
    var value := (x: Word8) => x;
    assert Values(value, data) == data;
    FoldIsTotal(Add8, 0, value, 0x100, data);
    FoldIsProduct(Mul8, 1, value, 0x100, data);
  }

  lemma IntsStore(data: seq<Word32>)
    ensures Fold(Add32, 0, data) == Total(data) % 0x1_0000_0000
    ensures Fold(Mul32, 1, data) == Product(data) % 0x1_0000_0000
  {
    var value := (x: Word32) => x;
    assert Values(value, data) == data;
    FoldIsTotal(Add32, 0, value, 0x1_0000_0000, data);
    FoldIsProduct(Mul32, 1, value, 0x1_0000_0000, data);
  }

  lemma LongsStore(data: seq<Word64>)
    ensures Fold(Add64, 0, data) == Total(data) % 0x1_0000_0000_0000_0000
    ensures Fold(Mul64, 1, data) == Product(data) % 0x1_0000_0000_0000_0000
  {
    var value := (x: Word64) => x;
    assert Values(value, data) == data;
    FoldIsTotal(Add64, 0, value, 0x1_0000_0000_0000_0000, data);
    FoldIsProduct(Mul64, 1, value, 0x1_0000_0000_0000_0000, data);
  }

  // So, with char, int and long elements, every function of combine.c stores the sum, and the
  // product, that combine1 stores - also when they overflow.

  lemma CharBuildsAgree(f: Function, width: nat, skip: nat, data: seq<Word8>)
    requires width >= 1
    ensures WellFormed(NamedPlan(f, width, skip))
    ensures Result(Add8, 0, NamedPlan(f, width, skip), data) == Fold(Add8, 0, data) ==
        Total(data) % 0x100
    ensures Result(Mul8, 1, NamedPlan(f, width, skip), data) == Fold(Mul8, 1, data) ==
        Product(data) % 0x100
    ensures HalvesAgree(Add8, 0, data) && HalvesAgree(Mul8, 1, data)
  {
    CharsAreMonoids();
    TableDescribes(f, width, skip);
    CharsStore(data);
    FamilyAgrees(Add8, 0, FamilyOf(f), width, skip, data);
    FamilyAgrees(Mul8, 1, FamilyOf(f), width, skip, data);
    SplitHalvesAgrees(Add8, 0, data);
    SplitHalvesAgrees(Mul8, 1, data);
  }

  lemma IntBuildsAgree(f: Function, width: nat, skip: nat, data: seq<Word32>)
    requires width >= 1
    ensures WellFormed(NamedPlan(f, width, skip))
    ensures Result(Add32, 0, NamedPlan(f, width, skip), data) == Fold(Add32, 0, data) ==
        Total(data) % 0x1_0000_0000
    ensures Result(Mul32, 1, NamedPlan(f, width, skip), data) == Fold(Mul32, 1, data) ==
        Product(data) % 0x1_0000_0000
    ensures HalvesAgree(Add32, 0, data) && HalvesAgree(Mul32, 1, data)
  {
    IntsAreMonoids();
    TableDescribes(f, width, skip);
    IntsStore(data);
    FamilyAgrees(Add32, 0, FamilyOf(f), width, skip, data);
    FamilyAgrees(Mul32, 1, FamilyOf(f), width, skip, data);
    SplitHalvesAgrees(Add32, 0, data);
    SplitHalvesAgrees(Mul32, 1, data);
  }

  lemma LongBuildsAgree(f: Function, width: nat, skip: nat, data: seq<Word64>)
    requires width >= 1
    ensures WellFormed(NamedPlan(f, width, skip))
    ensures Result(Add64, 0, NamedPlan(f, width, skip), data) == Fold(Add64, 0, data) ==
        Total(data) % 0x1_0000_0000_0000_0000
    ensures Result(Mul64, 1, NamedPlan(f, width, skip), data) == Fold(Mul64, 1, data) ==
        Product(data) % 0x1_0000_0000_0000_0000
    ensures HalvesAgree(Add64, 0, data) && HalvesAgree(Mul64, 1, data)
  {
    LongsAreMonoids();
    TableDescribes(f, width, skip);
    LongsStore(data);
    FamilyAgrees(Add64, 0, FamilyOf(f), width, skip, data);
    FamilyAgrees(Mul64, 1, FamilyOf(f), width, skip, data);
    SplitHalvesAgrees(Add64, 0, data);
    SplitHalvesAgrees(Mul64, 1, data);
  }
}
