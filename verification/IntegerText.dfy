/** Integers and vectors of integers as text: what is written, and what the stream makes of it. */
module IntegerText {
  import opened Basics

  /** An integer type by its size in bytes. */
  datatype IntType = IntType(bytes: nat, signed: bool) {
    ghost predicate Valid() {
      bytes == 1 || bytes == 2 || bytes == 4 || bytes == 8
    }

    function Span(): nat {
      match bytes
      case 1 => 0x100
      case 2 => 0x1_0000
      case 4 => 0x1_0000_0000
      case _ => 0x1_0000_0000_0000_0000
    }

    function Low(): int {
      if signed then -(Span() / 2) else 0
    }

    /** One more than the largest value. */
    function High(): int {
      Low() + Span()
    }

    predicate Holds(x: int) {
      Low() <= x < High()
    }

    /** The value that a wider integer is cut down to. */
    function Cast(x: int): int {
      var u := x % Span();
      if signed && u >= Span() / 2 then u - Span() else u
    }
  }

  const INT16 := IntType(2, true)

  lemma CastHeld(t: IntType, x: int)
    requires t.Holds(x)
    ensures t.Cast(x) == x
  {
  }

  /** Small integers are read and written as 16-bit numbers, not as characters. */
  function ReadAs(t: IntType): IntType {
    if t.bytes == 1 then INT16 else t
  }

  // ----- writing -----

  function Digit(d: nat): char
    requires d < 10
  {
    "0123456789"[d]
  }

  function Digits(n: nat): string {
    if n < 10 then [Digit(n)] else Digits(n / 10) + [Digit(n % 10)]
  }

  function Decimal(x: int): string {
    if x < 0 then "-" + Digits(-x) else Digits(x)
  }

  /** The elements of a vector, and what comes after them. */
  function ItemsText(v: seq<int>, tail: string): string {
    if v == [] then tail else Decimal(v[0]) + (" " + ItemsText(v[1..], tail))
  }

  function VectorText(v: seq<int>, tail: string): string {
    "[" + (" " + ItemsText(v, "]" + ("\n" + tail)))
  }

  function PairItemsText(v: seq<(int, int)>, tail: string): string {
    if v == [] then tail else
      Decimal(v[0].0) + ("," + (Decimal(v[0].1) + (" " + PairItemsText(v[1..], tail))))
  }

  function PairVectorText(v: seq<(int, int)>, tail: string): string {
    "[" + (" " + PairItemsText(v, "]" + ("\n" + tail)))
  }

  // ----- reading -----

  predicate IsSpace(c: char) {
    c == ' ' || ('\t' <= c <= '\r')
  }

  predicate IsDigit(c: char) {
    '0' <= c <= '9'
  }

  function SkipSpace(s: string): (r: string)
    ensures |r| <= |s| && (r != [] ==> !IsSpace(r[0]))
  {
    if s != [] && IsSpace(s[0]) then SkipSpace(s[1..]) else s
  }

  /** How many digits s begins with. */
  function DigitCount(s: string): (n: nat)
    ensures n <= |s| && (forall i :: 0 <= i < n ==> IsDigit(s[i])) && (n < |s| ==> !IsDigit(s[n]))
  {
    if s != [] && IsDigit(s[0]) then 1 + DigitCount(s[1..]) else 0
  }

  function DigitValue(c: char): nat
    requires IsDigit(c)
  {
    c as int - '0' as int
  }

  function Value(ds: string): nat
    requires forall c :: c in ds ==> IsDigit(c)
  {
    if ds == [] then 0 else Value(ds[..|ds| - 1]) * 10 + DigitValue(ds[|ds| - 1])
  }

  /** Digits as far as they go, and what is left. */
  function ReadMagnitude(s: string): (r: Option<(nat, string)>)
    ensures r.Some? ==> |r.value.1| < |s|
  {
    var n := DigitCount(s);
    if n == 0 then None else Some((Value(s[..n]), s[n..]))
  }

  /** A number after optional space, and what is left.  Fails without digits and beyond the type's range. */
  function ReadNumber(s: string, t: IntType): (r: Option<(int, string)>)
    ensures r.Some? ==> |r.value.1| < |s|
  {
    var s1 := SkipSpace(s);
    if s1 == [] then None else
      var signed := s1[0] == '-' || s1[0] == '+';
      match ReadMagnitude(if signed then s1[1..] else s1)
      case None => None
      case Some((m, rest)) =>
        var x: int := if s1[0] == '-' then -(m as int) else m as int;
        if t.Holds(x) then Some((x, rest)) else None
  }

  /** An element of a vector. */
  function ReadElement(s: string, t: IntType): (r: Option<(int, string)>)
    ensures r.Some? ==> |r.value.1| < |s|
  {
    match ReadNumber(s, ReadAs(t))
    case None => None
    case Some((x, rest)) => Some((if t.bytes == 1 then t.Cast(x) else x, rest))
  }

  /** Elements up to the closing bracket, which is consumed too. */
  function ReadItems(s: string, t: IntType): Option<(seq<int>, string)>
    decreases |s|
  {
    if s != [] && s[0] == ']' then Some(([], s[1..])) else
      match ReadElement(s, t)
      case None => None
      case Some((x, rest)) =>
        match ReadItems(SkipSpace(rest), t)
        case None => None
        case Some((xs, rest')) => Some(([x] + xs, rest'))
  }

  function ReadVector(s: string, t: IntType): Option<(seq<int>, string)> {
    var s1 := SkipSpace(s);
    if s1 == [] || s1[0] != '[' then None else ReadItems(SkipSpace(s1[1..]), t)
  }

  function ReadPair(s: string, t: IntType): (r: Option<((int, int), string)>)
    ensures r.Some? ==> |r.value.1| < |s|
  {
    match ReadElement(s, t)
    case None => None
    case Some((x, rest)) =>
      if rest == [] || rest[0] != ',' then None else
        match ReadElement(rest[1..], t)
        case None => None
        case Some((y, rest')) => Some(((x, y), rest'))
  }

  function ReadPairItems(s: string, t: IntType): Option<(seq<(int, int)>, string)>
    decreases |s|
  {
    if s != [] && s[0] == ']' then Some(([], s[1..])) else
      match ReadPair(s, t)
      case None => None
      case Some((x, rest)) =>
        match ReadPairItems(SkipSpace(rest), t)
        case None => None
        case Some((xs, rest')) => Some(([x] + xs, rest'))
  }

  function ReadPairVector(s: string, t: IntType): Option<(seq<(int, int)>, string)> {
    var s1 := SkipSpace(s);
    if s1 == [] || s1[0] != '[' then None else ReadPairItems(SkipSpace(s1[1..]), t)
  }

  // ----- numbers come back -----

  lemma DigitIs(d: nat)
    requires d < 10
    ensures IsDigit(Digit(d)) && DigitValue(Digit(d)) == d
  {
  }

  lemma {:induction false} DigitsValue(n: nat)
    ensures Digits(n) != [] && (forall c :: c in Digits(n) ==> IsDigit(c)) && Value(Digits(n)) == n
  {
    hide Digit, DigitValue;
    DigitIs(n % 10);
    if n < 10 {
      assert Digits(n)[..0] == [];
    } else {
      DigitsValue(n / 10);
      assert Digits(n)[..|Digits(n)| - 1] == Digits(n / 10);
    }
  }

  lemma {:induction false} DigitsEnd(ds: string, tail: string)
    requires (forall c :: c in ds ==> IsDigit(c)) && (tail != [] ==> !IsDigit(tail[0]))
    ensures DigitCount(ds + tail) == |ds|
  {
    if ds == [] {
      assert ds + tail == tail;
    } else {
      assert ds[0] in ds && (ds + tail)[1..] == ds[1..] + tail;
      DigitsEnd(ds[1..], tail);
    }
  }

  lemma MagnitudeReadsBack(n: nat, tail: string)
    requires tail != [] ==> !IsDigit(tail[0])
    ensures ReadMagnitude(Digits(n) + tail) == Some((n, tail))
  {
    hide Digits, Value, DigitCount;
    DigitsValue(n);
    DigitsEnd(Digits(n), tail);
    var s := Digits(n) + tail;
    assert s[..|Digits(n)|] == Digits(n) && s[|Digits(n)|..] == tail;
  }

  /** A number that is written reads back as itself, up to the first character that is not a digit. */
  lemma NumberReadsBack(x: int, t: IntType, tail: string)
    requires t.Holds(x) && (tail != [] ==> !IsDigit(tail[0]))
    ensures ReadNumber(Decimal(x) + tail, t) == Some((x, tail))
  {
    hide Digits, Value, DigitCount, SkipSpace, ReadMagnitude, IntType.Holds, IntType.Low, IntType.High, IntType.Span;
    var m := if x < 0 then -x else x;
    DigitsValue(m);
    MagnitudeReadsBack(m, tail);
    var s := Decimal(x) + tail;
    if x < 0 {
      assert s[0] == '-' && s[1..] == Digits(m) + tail;
    } else {
      assert s == Digits(m) + tail && Digits(m)[0] in Digits(m);
    }
    NotSkipped(s);
  }

  lemma ElementReadsBack(x: int, t: IntType, tail: string)
    requires t.Valid() && t.Holds(x) && (tail != [] ==> !IsDigit(tail[0]))
    ensures ReadElement(Decimal(x) + tail, t) == Some((x, tail))
  {
    hide ReadNumber, Decimal;
    NumberReadsBack(x, ReadAs(t), tail);
    CastHeld(t, x);
  }

  /** A written number begins with a digit or a minus sign. */
  lemma DecimalStarts(x: int)
    ensures Decimal(x) != [] && (IsDigit(Decimal(x)[0]) || Decimal(x)[0] == '-')
  {
    DigitsValue(if x < 0 then -x else x);
    if x >= 0 {
      assert Decimal(x)[0] in Decimal(x);
    }
  }

  lemma NotSkipped(s: string)
    requires s != [] && !IsSpace(s[0])
    ensures SkipSpace(s) == s && SkipSpace(" " + s) == s && SkipSpace("\n" + s) == s
  {
    assert (" " + s)[1..] == s && ("\n" + s)[1..] == s;
  }

  // ----- vectors come back -----

  /** After a space, the next element or the closing bracket is found. */
  lemma NextFound(s: string, first: string, rest: string)
    requires s == first + rest && first != [] && !IsSpace(first[0])
    ensures s != [] && s[0] == first[0] && SkipSpace(s) == s && SkipSpace(" " + s) == s && SkipSpace("\n" + s) == s
  {
    NotSkipped(s);
  }

  lemma ItemsStart(v: seq<int>, tail: string)
    ensures var s := ItemsText(v, "]" + tail);
      s != [] && (v != [] ==> s[0] != ']') && (v == [] ==> s[0] == ']') && SkipSpace(" " + s) == s
  {
    hide Decimal;
    if v == [] {
      NextFound("]" + tail, "]", tail);
    } else {
      DecimalStarts(v[0]);
      NextFound(ItemsText(v, "]" + tail), Decimal(v[0]), " " + ItemsText(v[1..], "]" + tail));
    }
  }

  lemma {:induction false} ItemsReadBack(v: seq<int>, t: IntType, tail: string)
    requires t.Valid() && forall x :: x in v ==> t.Holds(x)
    ensures ReadItems(ItemsText(v, "]" + tail), t) == Some((v, tail))
  {
    hide ReadElement, Decimal, IntType.Holds;
    ItemsStart(v, tail);
    if v == [] {
      assert ("]" + tail)[1..] == tail;
    } else {
      ItemsStart(v[1..], tail);
      ElementReadsBack(v[0], t, " " + ItemsText(v[1..], "]" + tail));
      ItemsReadBack(v[1..], t, tail);
      assert [v[0]] + v[1..] == v;
    }
  }

  /** A written vector reads back unchanged, wherever it stands, and reading stops after its bracket. */
  lemma VectorReadsBack(v: seq<int>, t: IntType, tail: string)
    requires t.Valid() && forall x :: x in v ==> t.Holds(x)
    ensures ReadVector(VectorText(v, tail), t) == Some((v, "\n" + tail))
    ensures ReadVector("\n" + VectorText(v, tail), t) == Some((v, "\n" + tail))
  {
    hide ReadItems, ItemsText, IntType.Holds;
    var items := ItemsText(v, "]" + ("\n" + tail));
    NextFound(VectorText(v, tail), "[", " " + items);
    assert VectorText(v, tail)[1..] == " " + items;
    ItemsStart(v, "\n" + tail);
    ItemsReadBack(v, t, "\n" + tail);
  }

  lemma PairReadsBack(x: (int, int), t: IntType, after: string)
    requires t.Valid() && t.Holds(x.0) && t.Holds(x.1)
    ensures ReadPair(Decimal(x.0) + ("," + (Decimal(x.1) + (" " + after))), t) == Some((x, " " + after))
  {
    hide ReadElement, Decimal, IntType.Holds;
    var second := Decimal(x.1) + (" " + after);
    ElementReadsBack(x.0, t, "," + second);
    ElementReadsBack(x.1, t, " " + after);
    assert ("," + second)[1..] == second;
  }

  lemma PairItemsStart(v: seq<(int, int)>, tail: string)
    ensures var s := PairItemsText(v, "]" + tail);
      s != [] && (v != [] ==> s[0] != ']') && (v == [] ==> s[0] == ']') && SkipSpace(" " + s) == s
  {
    hide Decimal;
    if v == [] {
      NextFound("]" + tail, "]", tail);
    } else {
      DecimalStarts(v[0].0);
      NextFound(PairItemsText(v, "]" + tail), Decimal(v[0].0), "," + (Decimal(v[0].1) + (" " + PairItemsText(v[1..], "]" + tail))));
    }
  }

  lemma {:induction false} PairItemsReadBack(v: seq<(int, int)>, t: IntType, tail: string)
    requires t.Valid() && forall x :: x in v ==> t.Holds(x.0) && t.Holds(x.1)
    ensures ReadPairItems(PairItemsText(v, "]" + tail), t) == Some((v, tail))
  {
    hide ReadPair, Decimal, IntType.Holds;
    PairItemsStart(v, tail);
    if v == [] {
      assert ("]" + tail)[1..] == tail;
    } else {
      PairItemsStart(v[1..], tail);
      PairReadsBack(v[0], t, PairItemsText(v[1..], "]" + tail));
      PairItemsReadBack(v[1..], t, tail);
      assert [v[0]] + v[1..] == v;
    }
  }

  lemma PairVectorReadsBack(v: seq<(int, int)>, t: IntType, tail: string)
    requires t.Valid() && forall x :: x in v ==> t.Holds(x.0) && t.Holds(x.1)
    ensures ReadPairVector(PairVectorText(v, tail), t) == Some((v, "\n" + tail))
    ensures ReadPairVector("\n" + PairVectorText(v, tail), t) == Some((v, "\n" + tail))
  {
    hide ReadPairItems, PairItemsText, IntType.Holds;
    var items := PairItemsText(v, "]" + ("\n" + tail));
    NextFound(PairVectorText(v, tail), "[", " " + items);
    assert PairVectorText(v, tail)[1..] == " " + items;
    PairItemsStart(v, "\n" + tail);
    PairItemsReadBack(v, t, "\n" + tail);
  }

  // ----- one after another -----

  datatype Item = Vector(t: IntType, v: seq<int>) | PairVector(t: IntType, w: seq<(int, int)>) {
    ghost predicate Valid() {
      t.Valid() && match this
      case Vector(_, v) => forall x :: x in v ==> t.Holds(x)
      case PairVector(_, w) => forall x :: x in w ==> t.Holds(x.0) && t.Holds(x.1)
    }
  }

  function ItemText(item: Item, tail: string): string {
    match item
    case Vector(_, v) => VectorText(v, tail)
    case PairVector(_, w) => PairVectorText(w, tail)
  }

  function AllText(items: seq<Item>): string {
    if items == [] then "" else ItemText(items[0], AllText(items[1..]))
  }

  /** Reads a vector of the kind and type of a given one. */
  function ReadItem(s: string, item: Item): Option<(Item, string)> {
    match item
    case Vector(t, _) =>
      (match ReadVector(s, t)
       case None => None
       case Some((v, rest)) => Some((Vector(t, v), rest)))
    case PairVector(t, _) =>
      (match ReadPairVector(s, t)
       case None => None
       case Some((w, rest)) => Some((PairVector(t, w), rest)))
  }

  /** Reads one vector after another. */
  function ReadAll(s: string, items: seq<Item>): Option<(seq<Item>, string)>
    decreases |items|
  {
    if items == [] then Some(([], s)) else
      match ReadItem(s, items[0])
      case None => None
      case Some((item, rest)) =>
        match ReadAll(rest, items[1..])
        case None => None
        case Some((more, rest')) => Some(([item] + more, rest'))
  }

  lemma ItemReadsBack(item: Item, tail: string)
    requires item.Valid()
    ensures ReadItem(ItemText(item, tail), item) == Some((item, "\n" + tail))
    ensures ReadItem("\n" + ItemText(item, tail), item) == Some((item, "\n" + tail))
  {
    hide ReadVector, ReadPairVector, VectorText, PairVectorText, IntType.Holds;
    match item
    case Vector(t, v) => VectorReadsBack(v, t, tail);
    case PairVector(t, w) => PairVectorReadsBack(w, t, tail);
  }

  /** Vectors written one after another read back in order: each read leaves its line's end behind,
      and the next skips it. */
  lemma {:induction false} AllReadBack(items: seq<Item>)
    requires forall item :: item in items ==> item.Valid()
    ensures ReadAll(AllText(items), items) == Some((items, if items == [] then "" else "\n"))
    ensures ReadAll("\n" + AllText(items), items) == Some((items, "\n"))
  {
    hide ReadItem, ItemText, Item.Valid;
    if items == [] {
      assert "\n" + "" == "\n";
    } else {
      ItemReadsBack(items[0], AllText(items[1..]));
      AllReadBack(items[1..]);
      assert [items[0]] + items[1..] == items;
    }
  }
}
