/** Integers and vectors of integers in binary form, the low byte first. */
module IntegerBytes {
  import opened Basics
  import opened IntegerText

  const INT32 := IntType(4, true)

  // ----- single integers -----

  /** The n low bytes of a number. */
  function BytesOf(x: nat, n: nat): string {
    if n == 0 then "" else [(x % 256) as char] + BytesOf(x / 256, n - 1)
  }

  function NumberOf(s: string): nat {
    if s == [] then 0 else s[0] as int % 256 + 256 * NumberOf(s[1..])
  }

  /** An integer as it lies in memory, negative ones in two's complement. */
  function Raw(x: int, t: IntType): string {
    BytesOf(x % t.Span(), t.bytes)
  }

  function FromRaw(s: string, t: IntType): int {
    t.Cast(NumberOf(s))
  }

  function Power(n: nat): (p: nat)
    ensures p > 0
  {
    if n == 0 then 1 else 256 * Power(n - 1)
  }

  lemma {:induction false} BytesBack(x: nat, n: nat)
    requires x < Power(n)
    ensures |BytesOf(x, n)| == n && NumberOf(BytesOf(x, n)) == x
  {
    if n > 0 {
      BytesBack(x / 256, n - 1);
      assert BytesOf(x, n)[1..] == BytesOf(x / 256, n - 1);
    }
  }

  lemma SpanIsPower(t: IntType)
    requires t.Valid()
    ensures t.Span() == Power(t.bytes)
  {
    assert Power(1) == 0x100;
    assert Power(2) == 0x1_0000;
    assert Power(3) == 0x100_0000;
    assert Power(4) == 0x1_0000_0000;
    assert Power(5) == 0x100_0000_0000;
    assert Power(6) == 0x1_0000_0000_0000;
    assert Power(7) == 0x100_0000_0000_0000;
    assert Power(8) == 0x1_0000_0000_0000_0000;
  }

  lemma RawReadsBack(x: int, t: IntType)
    requires t.Valid() && t.Holds(x)
    ensures |Raw(x, t)| == t.bytes && FromRaw(Raw(x, t), t) == x
  {
    SpanIsPower(t);
    hide Power, BytesOf, NumberOf;
    BytesBack(x % t.Span(), t.bytes);
    CastAgain(x, t);
  }

  lemma CastAgain(x: int, t: IntType)
    requires t.Valid() && t.Holds(x)
    ensures t.Cast(x % t.Span()) == x
  {
    var span := t.Span();
    assert span % 2 == 0;
    hide IntType.Span;
    Wrapped(x, span);
    Wrapped(x % span, span);
  }

  lemma Wrapped(x: int, span: int)
    requires span > 0 && -span <= x < span
    ensures x % span == if x >= 0 then x else x + span
  {
  }

  /** The type's size, negative for unsigned types, is written ahead of an integer. */
  function SizeMark(t: IntType): char {
    var size: int := t.bytes;
    ((if t.signed then size else -size) % 256) as char
  }

  function BasicBytes(x: int, t: IntType): string {
    [SizeMark(t)] + Raw(x, t)
  }

  function ReadBasicBytes(s: string, t: IntType): Option<(int, string)> {
    if s == [] || s[0] != SizeMark(t) || |s| < 1 + t.bytes then None
    else Some((FromRaw(s[1..1 + t.bytes], t), s[1 + t.bytes..]))
  }

  lemma BasicBytesReadBack(x: int, t: IntType, tail: string)
    requires t.Valid() && t.Holds(x)
    ensures ReadBasicBytes(BasicBytes(x, t) + tail, t) == Some((x, tail))
  {
    RawReadsBack(x, t);
    var s := BasicBytes(x, t) + tail;
    assert s[1..1 + t.bytes] == Raw(x, t) && s[1 + t.bytes..] == tail;
  }

  // ----- vectors -----

  function RawAll(v: seq<int>, t: IntType): string {
    if v == [] then "" else Raw(v[0], t) + RawAll(v[1..], t)
  }

  /** Reads n integers, if there are enough bytes. */
  function ReadRaw(s: string, t: IntType, n: nat): (r: Option<(seq<int>, string)>)
    ensures r.Some? ==> |r.value.0| == n
  {
    if n == 0 then Some(([], s))
    else if |s| < t.bytes then None
    else
      match ReadRaw(s[t.bytes..], t, n - 1)
      case None => None
      case Some((v, rest)) => Some(([FromRaw(s[..t.bytes], t)] + v, rest))
  }

  function Bytes(t: IntType, n: nat): nat {
    if n == 0 then 0 else t.bytes + Bytes(t, n - 1)
  }

  lemma {:induction false} BytesCount(t: IntType, n: nat)
    ensures Bytes(t, n) == t.bytes * n
  {
    if n > 0 {
      BytesCount(t, n - 1);
    }
  }

  /** Reading n integers needs exactly as many bytes as they have. */
  lemma {:induction false} ReadRawNeeds(s: string, t: IntType, n: nat)
    ensures ReadRaw(s, t, n).Some? <==> |s| >= Bytes(t, n)
  {
    hide FromRaw;
    if n > 0 && |s| >= t.bytes {
      ReadRawNeeds(s[t.bytes..], t, n - 1);
    }
  }

  /** The integers read are those of the bytes they take, and the rest is left over. */
  lemma {:induction false} ReadRawTakes(s: string, t: IntType, n: nat)
    requires |s| >= Bytes(t, n)
    ensures ReadRaw(s[..Bytes(t, n)], t, n).Some?
    ensures ReadRaw(s, t, n) == Some((ReadRaw(s[..Bytes(t, n)], t, n).value.0, s[Bytes(t, n)..]))
  {
    hide FromRaw;
    if n > 0 {
      var (some, after) := (s[..Bytes(t, n)], s[t.bytes..]);
      ReadRawTakes(after, t, n - 1);
      assert some[..t.bytes] == s[..t.bytes];
      assert some[t.bytes..] == after[..Bytes(t, n - 1)];
      assert after[Bytes(t, n - 1)..] == s[Bytes(t, n)..];
    }
  }

  lemma {:induction false} RawAllReadsBack(v: seq<int>, t: IntType, tail: string)
    requires t.Valid() && forall x :: x in v ==> t.Holds(x)
    ensures ReadRaw(RawAll(v, t) + tail, t, |v|) == Some((v, tail))
  {
    hide Raw, FromRaw, IntType.Holds;
    if v == [] {
      assert "" + tail == tail;
    } else {
      RawReadsBack(v[0], t);
      RawAllReadsBack(v[1..], t, tail);
      var s := RawAll(v, t) + tail;
      assert s[..t.bytes] == Raw(v[0], t) && s[t.bytes..] == RawAll(v[1..], t) + tail;
      assert [v[0]] + v[1..] == v;
    }
  }

  /** The size of the elements. */
  function SizeOf(t: IntType): (size: char)
    ensures t.Valid() ==> size as int == t.bytes
  {
    (t.bytes % 256) as char
  }

  /** The size of the elements, how many there are, and the elements. */
  function BlockBytes(n: nat, v: seq<int>, t: IntType): string
  {
    [SizeOf(t)] + (Raw(n, INT32) + RawAll(v, t))
  }

  /** What comes after the head of a block, with the number of its entries. */
  function ReadHead(s: string, t: IntType): Option<(nat, string)> {
    if s == [] || s[0] as int != t.bytes || |s| < 5 || FromRaw(s[1..5], INT32) < 0 then None
    else Some((FromRaw(s[1..5], INT32), s[5..]))
  }

  lemma CountHolds(n: nat)
    requires n < TWO_31
    ensures INT32.Valid() && INT32.Holds(n)
  {
  }

  lemma HeadReadsBack(n: nat, v: seq<int>, t: IntType, tail: string)
    requires t.Valid() && n < TWO_31
    ensures ReadHead(BlockBytes(n, v, t) + tail, t) == Some((n, RawAll(v, t) + tail))
  {
    hide Raw, FromRaw, RawAll, SizeOf, IntType.Holds, IntType.Valid;
    CountHolds(n);
    RawReadsBack(n, INT32);
    var s := BlockBytes(n, v, t) + tail;
    assert s[1..5] == Raw(n, INT32) && s[5..] == RawAll(v, t) + tail;
  }

  function VectorBytes(v: seq<int>, t: IntType): string
  {
    BlockBytes(|v|, v, t)
  }

  function ReadVectorBytes(s: string, t: IntType): Option<(seq<int>, string)> {
    match ReadHead(s, t)
    case None => None
    case Some((n, rest)) => ReadRaw(rest, t, n)
  }

  lemma VectorBytesReadBack(v: seq<int>, t: IntType, tail: string)
    requires t.Valid() && |v| < TWO_31 && forall x :: x in v ==> t.Holds(x)
    ensures ReadVectorBytes(VectorBytes(v, t) + tail, t) == Some((v, tail))
  {
    hide BlockBytes, ReadHead, ReadRaw, RawAll, IntType.Holds;
    HeadReadsBack(|v|, v, t, tail);
    RawAllReadsBack(v, t, tail);
  }

  // ----- vectors of pairs -----

  /** Pairs lie in memory one number after the other. */
  function Flat(w: seq<(int, int)>): seq<int> {
    if w == [] then [] else [w[0].0, w[0].1] + Flat(w[1..])
  }

  function Paired(v: seq<int>): seq<(int, int)> {
    if |v| < 2 then [] else [(v[0], v[1])] + Paired(v[2..])
  }

  lemma {:induction false} FlatPaired(w: seq<(int, int)>)
    ensures |Flat(w)| == 2 * |w| && Paired(Flat(w)) == w
    ensures forall x :: x in Flat(w) ==> exists y :: y in w && (x == y.0 || x == y.1)
  {
    if w != [] {
      FlatPaired(w[1..]);
      assert Flat(w)[2..] == Flat(w[1..]);
      assert [w[0]] + w[1..] == w;
      forall x | x in Flat(w)
        ensures exists y :: y in w && (x == y.0 || x == y.1)
      {
        if x in Flat(w[1..]) {
          var y :| y in w[1..] && (x == y.0 || x == y.1);
          assert y in w;
        } else {
          assert w[0] in w;
        }
      }
    }
  }

  function PairVectorBytes(w: seq<(int, int)>, t: IntType): string
  {
    BlockBytes(|w|, Flat(w), t)
  }

  function ReadPairVectorBytes(s: string, t: IntType): Option<(seq<(int, int)>, string)> {
    match ReadHead(s, t)
    case None => None
    case Some((n, rest)) =>
      match ReadRaw(rest, t, 2 * n)
      case None => None
      case Some((v, rest')) => Some((Paired(v), rest'))
  }

  lemma PairVectorBytesReadBack(w: seq<(int, int)>, t: IntType, tail: string)
    requires t.Valid() && |w| < TWO_31 && forall x :: x in w ==> t.Holds(x.0) && t.Holds(x.1)
    ensures ReadPairVectorBytes(PairVectorBytes(w, t) + tail, t) == Some((w, tail))
  {
    hide BlockBytes, ReadHead, ReadRaw, RawAll, IntType.Holds, Flat, Paired;
    FlatPaired(w);
    HeadReadsBack(|w|, Flat(w), t, tail);
    RawAllReadsBack(Flat(w), t, tail);
  }

  // ----- one after another -----

  function ItemBytes(item: Item): string
  {
    match item
    case Vector(t, v) => VectorBytes(v, t)
    case PairVector(t, w) => PairVectorBytes(w, t)
  }

  /** The number of entries is written as a 32-bit integer. */
  predicate Fits(item: Item) {
    match item
    case Vector(_, v) => |v| < TWO_31
    case PairVector(_, w) => |w| < TWO_31
  }

  function AllBytes(items: seq<Item>): string
  {
    if items == [] then "" else ItemBytes(items[0]) + AllBytes(items[1..])
  }

  /** Reads a vector of the kind and type of a given one. */
  function ReadItemBytes(s: string, item: Item): Option<(Item, string)> {
    match item
    case Vector(t, _) =>
      (match ReadVectorBytes(s, t)
       case None => None
       case Some((v, rest)) => Some((Vector(t, v), rest)))
    case PairVector(t, _) =>
      (match ReadPairVectorBytes(s, t)
       case None => None
       case Some((w, rest)) => Some((PairVector(t, w), rest)))
  }

  function ReadAllBytes(s: string, items: seq<Item>): Option<(seq<Item>, string)>
    decreases |items|
  {
    if items == [] then Some(([], s)) else
      match ReadItemBytes(s, items[0])
      case None => None
      case Some((item, rest)) =>
        match ReadAllBytes(rest, items[1..])
        case None => None
        case Some((more, rest')) => Some(([item] + more, rest'))
  }

  lemma ItemBytesReadBack(item: Item, tail: string)
    requires item.Valid() && Fits(item)
    ensures ReadItemBytes(ItemBytes(item) + tail, item) == Some((item, tail))
  {
    hide ReadVectorBytes, ReadPairVectorBytes, VectorBytes, PairVectorBytes, IntType.Holds;
    match item
    case Vector(t, v) => VectorBytesReadBack(v, t, tail);
    case PairVector(t, w) => PairVectorBytesReadBack(w, t, tail);
  }

  /** Vectors written one after another in binary form read back in order, and nothing is left over. */
  lemma {:induction false} AllBytesReadBack(items: seq<Item>, tail: string)
    requires forall item :: item in items ==> item.Valid() && Fits(item)
    ensures ReadAllBytes(AllBytes(items) + tail, items) == Some((items, tail))
  {
    hide ReadItemBytes, ItemBytes, Fits;
    if items == [] {
      assert "" + tail == tail;
    } else {
      ItemBytesReadBack(items[0], AllBytes(items[1..]) + tail);
      AllBytesReadBack(items[1..], tail);
      assert AllBytes(items) + tail == ItemBytes(items[0]) + (AllBytes(items[1..]) + tail);
      assert [items[0]] + items[1..] == items;
    }
  }
}
