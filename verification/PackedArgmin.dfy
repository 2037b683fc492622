/** A cost and its argument in one 64-bit word, so that one unsigned minimum handles both. */
module PackedArgmin {
  import opened Basics

  const TWO_64 := 0x1_0000_0000_0000_0000
  const ULONG_MAX := TWO_64 - 1

  type Word = w: int | 0 <= w < TWO_64

  function Min(a: Word, b: Word): Word {
    if a <= b then a else b
  }

  /** The bit pattern of a signed integer, read as unsigned. */
  function AsUnsigned(x: Int32): (u: nat)
    ensures u < TWO_32
  {
    if x >= 0 then x else x + TWO_32
  }

  function Pack(cost: Int32, arg: Int32): Word {
    AsUnsigned(cost) * TWO_32 + AsUnsigned(arg)
  }

  function GetMin(w: Word): Int32 {
    AsSigned(w / TWO_32)
  }

  function GetArg(w: Word): Int32 {
    AsSigned(w % TWO_32)
  }

  lemma PackRoundTrip(cost: Int32, arg: Int32)
    ensures GetMin(Pack(cost, arg)) == cost && GetArg(Pack(cost, arg)) == arg
  {
  }

  lemma PackInjective(cost: Int32, arg: Int32, cost': Int32, arg': Int32)
    requires Pack(cost, arg) == Pack(cost', arg')
    ensures cost == cost' && arg == arg'
  {
    PackRoundTrip(cost, arg);
    PackRoundTrip(cost', arg');
  }

  /** Words compare as their costs do exactly if the costs have the same sign. */
  lemma PackOrderIff(a: Int32, x: Int32, b: Int32, y: Int32)
    requires a != b
    ensures (Pack(a, x) < Pack(b, y) <==> a < b) <==> ((a < 0) == (b < 0))
  {
  }

  /** Words of the same cost compare as their arguments do exactly if the arguments have the same sign. */
  lemma TiesOrderIff(cost: Int32, x: Int32, y: Int32)
    requires x != y
    ensures (Pack(cost, x) < Pack(cost, y) <==> x < y) <==> ((x < 0) == (y < 0))
  {
    assert Pack(cost, x) - Pack(cost, y) == AsUnsigned(x) - AsUnsigned(y);
  }

  /** Cost -1 is packed above cost 0. */
  lemma NegativePacksHigh(x: Int32, y: Int32)
    ensures Pack(-1, x) > Pack(0, y)
  {
    PackOrderIff(-1, x, 0, y);
  }

  /** The costs that the smallest word decides between. */
  ghost predicate IsLeast(w: Word, ws: seq<Word>) {
    w in ws && forall v :: v in ws ==> w <= v
  }

  /** The smallest word carries the least cost exactly if negative and other costs do not meet. */
  lemma LeastWordIff(w: Word, ws: seq<Word>)
    requires IsLeast(w, ws)
    ensures (forall v :: v in ws ==> GetMin(w) <= GetMin(v)) <==>
            !((exists v :: v in ws && GetMin(v) < 0) && (exists v :: v in ws && GetMin(v) >= 0))
  {
    forall v | v in ws && GetMin(v) < GetMin(w)
      ensures GetMin(v) < 0 <= GetMin(w)
    {
      WordOrder(w, v);
    }
    if v, v' :| v in ws && v' in ws && GetMin(v) < 0 <= GetMin(v') {
      WordOrder(v', v);
      assert GetMin(w) >= 0;
    }
  }

  lemma WordOrder(w: Word, v: Word)
    ensures w <= v ==> AsUnsigned(GetMin(w)) <= AsUnsigned(GetMin(v))
  {
  }
}
