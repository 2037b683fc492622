/** Adding pairs of integers by one addition of the 64-bit words that they lie in: a carry out of the first goes into
    the second. */
module PairSums {
  import opened Basics
  import opened PackedArgmin
  import opened AtomicPairs

  /** A pair as one word, the first integer in its low half. */
  function WordOf(p: Pair): Word {
    Pack(p.y, p.x)
  }

  function PairOf(w: Word): Pair {
    Pair(GetArg(w), GetMin(w))
  }

  /** What one call adds, all at once. */
  function AddI2(mem: Pair, val: Pair): Pair {
    PairOf((WordOf(mem) + WordOf(val)) % TWO_64)
  }

  /** The calls' additions in the order in which they take effect. */
  function AddAll(mem: Pair, vals: seq<Pair>): Pair {
    if vals == [] then mem else AddI2(AddAll(mem, vals[..|vals| - 1]), vals[|vals| - 1])
  }

  ghost function TotalX(mem: Pair, vals: seq<Pair>): int {
    if vals == [] then mem.x else TotalX(mem, vals[..|vals| - 1]) + vals[|vals| - 1].x
  }

  ghost function TotalY(mem: Pair, vals: seq<Pair>): int {
    if vals == [] then mem.y else TotalY(mem, vals[..|vals| - 1]) + vals[|vals| - 1].y
  }

  /** The sum of the first integers, read as unsigned. */
  ghost function LowTotal(mem: Pair, vals: seq<Pair>): nat {
    if vals == [] then AsUnsigned(mem.x) else LowTotal(mem, vals[..|vals| - 1]) + AsUnsigned(vals[|vals| - 1].x)
  }

  lemma HalvesAdd(hi: nat, lo: nat, hi': nat, lo': nat)
    requires lo < TWO_32 && lo' < TWO_32
    ensures var w := (hi * TWO_32 + lo + (hi' * TWO_32 + lo')) % TWO_64;
      w % TWO_32 == (lo + lo') % TWO_32 && w / TWO_32 == (hi + hi' + (lo + lo') / TWO_32) % TWO_32
  {
    var low, high := (lo + lo') % TWO_32, hi + hi' + (lo + lo') / TWO_32;
    var w := hi * TWO_32 + lo + (hi' * TWO_32 + lo');
    assert w == high * TWO_32 + low;
    assert high * TWO_32 == high / TWO_32 * TWO_64 + high % TWO_32 * TWO_32;
    assert w % TWO_64 == high % TWO_32 * TWO_32 + low;
  }

  lemma UnsignedSum(x: Int32, y: Int32, c: nat)
    ensures AsSigned((AsUnsigned(x) + AsUnsigned(y) + c) % TWO_32) == Wrap(x + y + c)
  {
    ModShift(x + y + c, (if x < 0 then 1 else 0) + if y < 0 then 1 else 0);
  }

  lemma ModShift(a: int, k: int)
    ensures (a + k * TWO_32) % TWO_32 == a % TWO_32
  {
  }

  /** The sum is that of the components, but for the carry. */
  lemma AddI2Is(mem: Pair, val: Pair)
    ensures AddI2(mem, val) == Pair(Wrap(mem.x + val.x), Wrap(mem.y + val.y + (AsUnsigned(mem.x) + AsUnsigned(val.x)) / TWO_32))
  {
    hide AsUnsigned, AsSigned, Wrap;
    HalvesAdd(AsUnsigned(mem.y), AsUnsigned(mem.x), AsUnsigned(val.y), AsUnsigned(val.x));
    UnsignedSum(mem.x, val.x, 0);
    UnsignedSum(mem.y, val.y, (AsUnsigned(mem.x) + AsUnsigned(val.x)) / TWO_32);
  }

  lemma WrapUnsigned(a: int)
    ensures AsUnsigned(Wrap(a)) == a % TWO_32
  {
  }

  /** Adding one more number to a total, high and low part. */
  lemma CarryOn(low: nat, x: nat)
    ensures (low + x) / TWO_32 == low / TWO_32 + (low % TWO_32 + x) / TWO_32
  {
  }

  lemma LowStep(low: nat, total: int, x: Int32)
    requires low % TWO_32 == total % TWO_32
    ensures (low + AsUnsigned(x)) % TWO_32 == (total + x) % TWO_32
    ensures (low + AsUnsigned(x)) / TWO_32 <= low / TWO_32 + 1
  {
    ModShift(total + x, low / TWO_32 - total / TWO_32 + if x < 0 then 1 else 0);
    CarryOn(low, AsUnsigned(x));
  }

  lemma {:induction false} LowIsX(mem: Pair, vals: seq<Pair>)
    ensures LowTotal(mem, vals) % TWO_32 == TotalX(mem, vals) % TWO_32
    ensures LowTotal(mem, vals) / TWO_32 <= |vals|
  {
    if vals != [] {
      var front, val := vals[..|vals| - 1], vals[|vals| - 1];
      LowIsX(mem, front);
      hide AsUnsigned;
      LowStep(LowTotal(mem, front), TotalX(mem, front), val.x);
    }
  }

  lemma AddStep(x: int, y: int, low: nat, val: Pair)
    requires low % TWO_32 == x % TWO_32
    ensures AddI2(Pair(Wrap(x), Wrap(y + low / TWO_32)), val) ==
      Pair(Wrap(x + val.x), Wrap(y + val.y + (low + AsUnsigned(val.x)) / TWO_32))
  {
    hide AsUnsigned, Wrap, AddI2;
    var before := Pair(Wrap(x), Wrap(y + low / TWO_32));
    AddI2Is(before, val);
    WrapSum(x, val.x);
    WrapUnsigned(x);
    CarryOn(low, AsUnsigned(val.x));
    WrapSum(y + low / TWO_32, val.y + (AsUnsigned(before.x) + AsUnsigned(val.x)) / TWO_32);
  }

  lemma {:induction false} AddAllIs(mem: Pair, vals: seq<Pair>)
    ensures AddAll(mem, vals) == Pair(Wrap(TotalX(mem, vals)), Wrap(TotalY(mem, vals) + LowTotal(mem, vals) / TWO_32))
  {
    hide AsUnsigned, Wrap, AddI2;
    if vals == [] {
      WrapSmall(mem.x);
      WrapSmall(mem.y);
    } else {
      var front, val := vals[..|vals| - 1], vals[|vals| - 1];
      AddAllIs(mem, front);
      LowIsX(mem, front);
      AddStep(TotalX(mem, front), TotalY(mem, front), LowTotal(mem, front), val);
    }
  }

  lemma WrapSame(a: int, k: nat)
    ensures Wrap(a + k) == Wrap(a) <==> k % TWO_32 == 0
  {
    WrapUnsigned(a + k);
    WrapUnsigned(a);
  }

  /** In whatever order the additions take effect, the result is the sum of the components exactly if the first integers,
      read as unsigned, do not carry; fewer than 2^32 additions carry exactly if those add up to 2^32 or more. */
  lemma AddAllIff(mem: Pair, vals: seq<Pair>)
    ensures AddAll(mem, vals) == Pair(Wrap(TotalX(mem, vals)), Wrap(TotalY(mem, vals))) <==> LowTotal(mem, vals) / TWO_32 % TWO_32 == 0
    ensures |vals| < TWO_32 ==> (LowTotal(mem, vals) / TWO_32 % TWO_32 == 0 <==> LowTotal(mem, vals) < TWO_32)
  {
    hide Wrap, AddAll, TotalX, TotalY, LowTotal;
    AddAllIs(mem, vals);
    LowIsX(mem, vals);
    WrapSame(TotalY(mem, vals), LowTotal(mem, vals) / TWO_32);
  }

  /** One negative first integer is enough. */
  lemma NegativeCarries()
    ensures AddI2(Pair(1, 0), Pair(-1, 0)) == Pair(0, 1)
  {
    AddI2Is(Pair(1, 0), Pair(-1, 0));
  }
}
