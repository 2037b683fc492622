/** Reading and writing integers and vectors of integers on streams, in binary form or as text. */
module VectorStreams {
  import opened Basics
  import opened IntegerText
  import opened IntegerBytes
  import opened Notation
  import opened VectorNotation

  /** What is left of an input stream. */
  class Istream {
    var rest: string
    var fail: bool

    constructor (text: string)
      ensures rest == text && !fail
    {
      rest, fail := text, false;
    }

    /** Skips white space. */
    method Ws()
      modifies this
      ensures rest == SkipSpace(old(rest)) && fail == old(fail)
    {
      while rest != [] && IsSpace(rest[0])
        invariant SkipSpace(rest) == SkipSpace(old(rest)) && fail == old(fail)
        decreases |rest|
      {
        rest := rest[1..];
      }
    }

    function Peek(): Option<char>
      reads this
    {
      if rest == [] then None else Some(rest[0])
    }

    method Get()
      requires rest != []
      modifies this
      ensures rest == old(rest)[1..] && fail == old(fail)
    {
      rest := rest[1..];
    }

    /** Reads n bytes; without as many the stream fails. */
    method Read(n: nat) returns (s: string)
      requires !fail
      modifies this
      ensures if n <= |old(rest)| then s == old(rest)[..n] && rest == old(rest)[n..] && !fail else fail
    {
      if n <= |rest| {
        s, rest := rest[..n], rest[n..];
      } else {
        s, rest, fail := rest, [], true;
      }
    }

    /** Extracts a number; without one, or with one that does not fit, the stream fails. */
    method Extract(t: IntType) returns (x: int)
      requires !fail
      modifies this
      ensures match ReadNumber(old(rest), t)
        case None => fail && |rest| <= |old(rest)|
        case Some((value, after)) => !fail && x == value && rest == after
    {
      match ReadNumber(rest, t)
      case None =>
        x, fail := 0, true;
      case Some((value, after)) =>
        x, rest := value, after;
    }
  }

  class Ostream {
    var text: string

    constructor ()
      ensures text == ""
    {
      text := "";
    }

    method Put(s: string)
      modifies this
      ensures text == old(text) + s
    {
      text := text + s;
    }
  }

  // ----- single integers -----

  ghost function BasicForm(binary: bool, x: int, t: IntType): string {
    if binary then BasicBytes(x, t) else Decimal(x) + " "
  }

  ghost function ReadBasicForm(binary: bool, s: string, t: IntType): Option<(int, string)> {
    if binary then ReadBasicBytes(s, t) else ReadElement(s, t)
  }

  method WriteBasicType(os: Ostream, binary: bool, t: IntType, x: int)
    modifies os
    ensures os.text == old(os.text) + BasicForm(binary, x, t)
    ensures t.Valid() ==> IsIntegerForm(binary, os.text[|old(os.text)|..], x, t)
  {
    BasicWritten(binary, x, t);
    hide IsIntegerForm;
    if binary {
      os.Put([SizeMark(t)]);
      os.Put(Raw(x, t));
      assert old(os.text) + [SizeMark(t)] + Raw(x, t) == old(os.text) + BasicBytes(x, t);
    } else {
      os.Put(Decimal(x));
      os.Put(" ");
      assert old(os.text) + Decimal(x) + " " == old(os.text) + (Decimal(x) + " ");
    }
    assert os.text[|old(os.text)|..] == BasicForm(binary, x, t);
  }

  lemma BasicWritten(binary: bool, x: int, t: IntType)
    ensures t.Valid() ==> IsIntegerForm(binary, BasicForm(binary, x, t), x, t)
  {
    if t.Valid() {
      WrittenForm(x, t);
    }
  }

  lemma BasicRead(binary: bool, s: string, t: IntType)
    ensures t.Valid() ==> forall x, rest :: ReadBasicForm(binary, s, t) == Some((x, rest)) <==> ReadsInteger(binary, s, t, x, rest)
  {
    if t.Valid() {
      forall x, rest
        ensures ReadBasicForm(binary, s, t) == Some((x, rest)) <==> ReadsInteger(binary, s, t, x, rest)
      {
        ReadElementIs(s, t, x, rest);
        ReadBasicBytesIs(s, t, x, rest);
      }
    }
  }

  method ReadBasicType(input: Istream, binary: bool, t: IntType) returns (r: Option<int>)
    requires !input.fail
    modifies input
    ensures match ReadBasicForm(binary, old(input.rest), t)
      case None => r.None?
      case Some((x, rest)) => r == Some(x) && input.rest == rest && !input.fail
    ensures t.Valid() && r.Some? ==> ReadsInteger(binary, old(input.rest), t, r.value, input.rest)
    ensures t.Valid() && r.None? ==> forall x, rest :: !ReadsInteger(binary, old(input.rest), t, x, rest)
  {
    BasicRead(binary, input.rest, t);
    hide ReadsInteger;
    var x;
    if binary {
      var mark := input.Peek();
      if mark.None? {
        return None;
      }
      input.Get();
      if mark.value != SizeMark(t) {
        return None;
      }
      ghost var s := old(input.rest);
      var bytes := input.Read(t.bytes);
      assert |s| >= 1 + t.bytes ==> bytes == s[1..1 + t.bytes] && input.rest == s[1 + t.bytes..];
      x := FromRaw(bytes, t);
    } else if t.bytes == 1 {
      x := input.Extract(INT16);
      x := t.Cast(x);
    } else {
      x := input.Extract(t);
    }
    return if input.fail then None else Some(x);
  }

  /** An integer that is written reads back; the space after one in text form is left for the next read to skip. */
  lemma BasicTypeReadsBack(binary: bool, x: int, t: IntType, tail: string)
    requires t.Valid() && t.Holds(x)
    ensures ReadBasicForm(binary, BasicForm(binary, x, t) + tail, t) == Some((x, if binary then tail else " " + tail))
  {
    BasicBytesReadBack(x, t, tail);
    hide ReadBasicBytes, BasicBytes, ReadElement;
    ElementReadsBack(x, t, " " + tail);
    assert Decimal(x) + " " + tail == Decimal(x) + (" " + tail);
  }

  // ----- vectors as text -----

  method WriteVectorText(os: Ostream, v: seq<int>)
    modifies os
    ensures os.text == old(os.text) + VectorText(v, "")
  {
    hide Decimal;
    ghost var end := "]" + ("\n" + "");
    os.Put("[ ");
    assert old(os.text) + "[ " + ItemsText(v, end) == old(os.text) + VectorText(v, "");
    assert v[0..] == v;
    for i := 0 to |v|
      invariant os.text + ItemsText(v[i..], end) == old(os.text) + VectorText(v, "")
    {
      ghost var before := os.text;
      os.Put(Decimal(v[i]));
      os.Put(" ");
      assert v[i..][1..] == v[i + 1..];
      assert before + Decimal(v[i]) + " " + ItemsText(v[i + 1..], end) == before + (Decimal(v[i]) + (" " + ItemsText(v[i + 1..], end)));
    }
    os.Put("]\n");
    assert v[|v|..] == [] && end == "]\n";
  }

  lemma Regrouped(before: string, x: string, y: string, after: string)
    ensures before + x + "," + y + " " + after == before + (x + ("," + (y + (" " + after))))
  {
    assert before + x + "," + y + " " + after == before + x + "," + (y + (" " + after));
    assert before + x + "," + (y + (" " + after)) == before + (x + ("," + (y + (" " + after))));
  }

  method WritePairVectorText(os: Ostream, v: seq<(int, int)>)
    modifies os
    ensures os.text == old(os.text) + PairVectorText(v, "")
  {
    hide Decimal;
    ghost var end := "]" + ("\n" + "");
    os.Put("[ ");
    assert old(os.text) + "[ " + PairItemsText(v, end) == old(os.text) + PairVectorText(v, "");
    assert v[0..] == v;
    for i := 0 to |v|
      invariant os.text + PairItemsText(v[i..], end) == old(os.text) + PairVectorText(v, "")
    {
      ghost var before, after := os.text, PairItemsText(v[i + 1..], end);
      os.Put(Decimal(v[i].0));
      os.Put(",");
      os.Put(Decimal(v[i].1));
      os.Put(" ");
      assert v[i..][1..] == v[i + 1..];
      Regrouped(before, Decimal(v[i].0), Decimal(v[i].1), after);
    }
    os.Put("]\n");
    assert v[|v|..] == [] && end == "]\n";
  }

  method ReadVectorText(input: Istream, t: IntType) returns (r: Option<seq<int>>)
    requires !input.fail
    modifies input
    ensures match ReadVector(old(input.rest), t)
      case None => r.None?
      case Some((v, rest)) => r == Some(v) && input.rest == rest && !input.fail
  {
    hide ReadElement;
    var tmpV := [];
    input.Ws();
    if input.Peek() != Some('[') {
      return None;
    }
    input.Get();
    input.Ws();
    assert ReadItems(input.rest, t).Some? ==> tmpV + ReadItems(input.rest, t).value.0 == ReadItems(input.rest, t).value.0;
    while input.Peek() != Some(']')
      invariant !input.fail
      invariant match ReadItems(input.rest, t)
        case None => ReadVector(old(input.rest), t).None?
        case Some((v, rest)) => ReadVector(old(input.rest), t) == Some((tmpV + v, rest))
      decreases |input.rest|
    {
      var read := ReadBasicType(input, false, t);
      if read.None? {
        return None;
      }
      input.Ws();
      var next := read.value;
      assert ReadItems(input.rest, t).Some? ==>
        tmpV + ([next] + ReadItems(input.rest, t).value.0) == tmpV + [next] + ReadItems(input.rest, t).value.0;
      tmpV := tmpV + [next];
    }
    input.Get();
    r := Some(tmpV);
    assert tmpV + [] == tmpV;
  }

  /** Reads the two numbers of a pair, with the comma between them. */
  method ReadPairOn(input: Istream, t: IntType) returns (r: Option<(int, int)>)
    requires !input.fail
    modifies input
    ensures match ReadPair(old(input.rest), t)
      case None => r.None?
      case Some((x, rest)) => r == Some(x) && input.rest == rest && !input.fail
  {
    hide ReadNumber, IntType.Cast;
    var readAs := if t.bytes == 1 then INT16 else t;
    var next1 := input.Extract(readAs);
    if input.fail || input.Peek() != Some(',') {
      return None;
    }
    input.Get();
    var next2 := input.Extract(readAs);
    if input.fail {
      return None;
    }
    return Some(if t.bytes == 1 then (t.Cast(next1), t.Cast(next2)) else (next1, next2));
  }

  method ReadPairVectorText(input: Istream, t: IntType) returns (r: Option<seq<(int, int)>>)
    requires !input.fail
    modifies input
    ensures match ReadPairVector(old(input.rest), t)
      case None => r.None?
      case Some((v, rest)) => r == Some(v) && input.rest == rest && !input.fail
  {
    hide ReadPair;
    var tmpV := [];
    input.Ws();
    if input.Peek() != Some('[') {
      return None;
    }
    input.Get();
    input.Ws();
    assert ReadPairItems(input.rest, t).Some? ==> tmpV + ReadPairItems(input.rest, t).value.0 == ReadPairItems(input.rest, t).value.0;
    while input.Peek() != Some(']')
      invariant !input.fail
      invariant match ReadPairItems(input.rest, t)
        case None => ReadPairVector(old(input.rest), t).None?
        case Some((v, rest)) => ReadPairVector(old(input.rest), t) == Some((tmpV + v, rest))
      decreases |input.rest|
    {
      var next := ReadPairOn(input, t);
      if next.None? {
        return None;
      }
      input.Ws();
      assert ReadPairItems(input.rest, t).Some? ==>
        tmpV + ([next.value] + ReadPairItems(input.rest, t).value.0) == tmpV + [next.value] + ReadPairItems(input.rest, t).value.0;
      tmpV := tmpV + [next.value];
    }
    input.Get();
    r := Some(tmpV);
    assert tmpV + [] == tmpV;
  }

  // ----- vectors in either form -----

  ghost function VectorForm(binary: bool, v: seq<int>, t: IntType): string {
    if binary then VectorBytes(v, t) else VectorText(v, "")
  }

  ghost function PairVectorForm(binary: bool, w: seq<(int, int)>, t: IntType): string {
    if binary then PairVectorBytes(w, t) else PairVectorText(w, "")
  }

  ghost function ReadVectorForm(binary: bool, s: string, t: IntType): Option<(seq<int>, string)> {
    if binary then ReadVectorBytes(s, t) else ReadVector(s, t)
  }

  ghost function ReadPairVectorForm(binary: bool, s: string, t: IntType): Option<(seq<(int, int)>, string)> {
    if binary then ReadPairVectorBytes(s, t) else ReadPairVector(s, t)
  }

  lemma VectorRead(binary: bool, s: string, t: IntType)
    ensures t.Valid() ==> forall v, rest :: ReadVectorForm(binary, s, t) == Some((v, rest)) <==> ReadsVector(binary, s, t, v, rest)
  {
    hide ReadVector, ReadVectorBytes, ReadsVector;
    if t.Valid() {
      forall v, rest
        ensures ReadVectorForm(binary, s, t) == Some((v, rest)) <==> ReadsVector(binary, s, t, v, rest)
      {
        ReadVectorIs(s, t, v, rest);
      }
    }
  }

  lemma PairVectorRead(binary: bool, s: string, t: IntType)
    ensures t.Valid() ==>
      forall w, rest :: ReadPairVectorForm(binary, s, t) == Some((w, rest)) <==> ReadsPairVector(binary, s, t, w, rest)
  {
    hide ReadPairVector, ReadPairVectorBytes, ReadsPairVector;
    if t.Valid() {
      forall w, rest
        ensures ReadPairVectorForm(binary, s, t) == Some((w, rest)) <==> ReadsPairVector(binary, s, t, w, rest)
      {
        ReadPairVectorIs(s, t, w, rest);
      }
    }
  }

  /** The binary form of n entries that consist of the integers v; fails, as the assertion would, if n does not fit. */
  method WriteBlock(os: Ostream, t: IntType, n: nat, v: seq<int>) returns (ok: bool)
    requires n == 0 ==> v == []
    modifies os
    ensures ok <==> n < TWO_31
    ensures ok ==> os.text == old(os.text) + BlockBytes(n, v, t)
  {
    hide Raw, RawAll, SizeOf;
    os.Put([SizeOf(t)]);
    if n >= TWO_31 {
      return false;
    }
    os.Put(Raw(n, INT32));
    assert RawAll([], t) == "" by { NothingRaw(t); }
    if n != 0 {
      os.Put(RawAll(v, t));
    }
    assert old(os.text) + [SizeOf(t)] + Raw(n, INT32) + RawAll(v, t) == old(os.text) + BlockBytes(n, v, t);
    ok := true;
  }

  lemma NothingRaw(t: IntType)
    ensures RawAll([], t) == ""
  {
  }

  /** Reads the head of a block, and what may be k integers for each entry. */
  method ReadBlock(input: Istream, t: IntType, k: nat) returns (r: Option<seq<int>>)
    requires !input.fail
    modifies input
    ensures match ReadHead(old(input.rest), t)
      case None => r.None?
      case Some((n, s)) =>
        match ReadRaw(s, t, k * n)
        case None => r.None?
        case Some((v, rest)) => r == Some(v) && input.rest == rest && !input.fail
  {
    hide ReadRaw, FromRaw;
    var sz := input.Peek();
    if sz.None? || sz.value as int != t.bytes {
      return None;
    }
    input.Get();
    ghost var s := old(input.rest);
    var head := input.Read(4);
    if input.fail {
      return None;
    }
    assert head == s[1..5] && input.rest == s[5..];
    var vecsz := FromRaw(head, INT32);
    if vecsz < 0 {
      return None;
    }
    ReadRawNeeds(input.rest, t, k * vecsz);
    BytesCount(t, k * vecsz);
    if |input.rest| >= Bytes(t, k * vecsz) {
      ReadRawTakes(input.rest, t, k * vecsz);
    }
    hide Bytes;
    var block := input.Read(t.bytes * (k * vecsz));
    if input.fail {
      return None;
    }
    return Some(ReadRaw(block, t, k * vecsz).value.0);
  }

  method WriteIntegerVector(os: Ostream, binary: bool, t: IntType, v: seq<int>) returns (ok: bool)
    modifies os
    ensures ok <==> !binary || |v| < TWO_31
    ensures ok ==> os.text == old(os.text) + VectorForm(binary, v, t)
    ensures ok && t.Valid() ==> IsVectorForm(binary, os.text[|old(os.text)|..], v, t)
  {
    hide BlockBytes, VectorText, IsVectorForm;
    if t.Valid() {
      VectorWritten(v, t);
    }
    if binary {
      ok := WriteBlock(os, t, |v|, v);
    } else {
      WriteVectorText(os, v);
      ok := true;
    }
    assert ok ==> os.text[|old(os.text)|..] == VectorForm(binary, v, t);
  }

  method WriteIntegerPairVector(os: Ostream, binary: bool, t: IntType, w: seq<(int, int)>) returns (ok: bool)
    modifies os
    ensures ok <==> !binary || |w| < TWO_31
    ensures ok ==> os.text == old(os.text) + PairVectorForm(binary, w, t)
    ensures ok && t.Valid() ==> IsPairVectorForm(binary, os.text[|old(os.text)|..], w, t)
  {
    hide BlockBytes, PairVectorText, IsPairVectorForm;
    if t.Valid() {
      PairVectorWritten(w, t);
    }
    if binary {
      ok := WriteBlock(os, t, |w|, Flat(w));
    } else {
      WritePairVectorText(os, w);
      ok := true;
    }
    assert ok ==> os.text[|old(os.text)|..] == PairVectorForm(binary, w, t);
  }

  method ReadIntegerVector(input: Istream, binary: bool, t: IntType) returns (r: Option<seq<int>>)
    requires !input.fail
    modifies input
    ensures match ReadVectorForm(binary, old(input.rest), t)
      case None => r.None?
      case Some((v, rest)) => r == Some(v) && input.rest == rest && !input.fail
    ensures t.Valid() && r.Some? ==> ReadsVector(binary, old(input.rest), t, r.value, input.rest)
    ensures t.Valid() && r.None? ==> forall v, rest :: !ReadsVector(binary, old(input.rest), t, v, rest)
  {
    hide ReadVector, ReadHead, ReadRaw, ReadsVector;
    VectorRead(binary, input.rest, t);
    if binary {
      r := ReadBlock(input, t, 1);
    } else {
      r := ReadVectorText(input, t);
    }
  }

  method ReadIntegerPairVector(input: Istream, binary: bool, t: IntType) returns (r: Option<seq<(int, int)>>)
    requires !input.fail
    modifies input
    ensures match ReadPairVectorForm(binary, old(input.rest), t)
      case None => r.None?
      case Some((v, rest)) => r == Some(v) && input.rest == rest && !input.fail
    ensures t.Valid() && r.Some? ==> ReadsPairVector(binary, old(input.rest), t, r.value, input.rest)
    ensures t.Valid() && r.None? ==> forall w, rest :: !ReadsPairVector(binary, old(input.rest), t, w, rest)
  {
    hide ReadPairVector, ReadHead, ReadRaw, Paired, ReadsPairVector;
    PairVectorRead(binary, input.rest, t);
    if binary {
      var v := ReadBlock(input, t, 2);
      r := if v.None? then None else Some(Paired(v.value));
    } else {
      r := ReadPairVectorText(input, t);
    }
  }

  // ----- one vector after another -----

  ghost function ItemForm(binary: bool, item: Item): string {
    if binary then ItemBytes(item) else ItemText(item, "")
  }

  ghost function AllForm(binary: bool, items: seq<Item>): string {
    if binary then AllBytes(items) else AllText(items)
  }

  ghost function ReadItemForm(binary: bool, s: string, item: Item): Option<(Item, string)> {
    if binary then ReadItemBytes(s, item) else ReadItem(s, item)
  }

  ghost function ReadAllForm(binary: bool, s: string, items: seq<Item>): Option<(seq<Item>, string)> {
    if binary then ReadAllBytes(s, items) else ReadAll(s, items)
  }

  method WriteItem(os: Ostream, binary: bool, item: Item) returns (ok: bool)
    modifies os
    ensures ok <==> !binary || Fits(item)
    ensures ok ==> os.text == old(os.text) + ItemForm(binary, item)
  {
    hide VectorText, PairVectorText, VectorBytes, PairVectorBytes;
    match item {
      case Vector(t, v) => ok := WriteIntegerVector(os, binary, t, v);
      case PairVector(t, w) => ok := WriteIntegerPairVector(os, binary, t, w);
    }
  }

  /** Vectors of both kinds, written one after another; fails if one is too long for the binary form. */
  method WriteItems(os: Ostream, binary: bool, items: seq<Item>) returns (ok: bool)
    modifies os
    ensures ok <==> !binary || forall item :: item in items ==> Fits(item)
    ensures ok ==> os.text == old(os.text) + AllForm(binary, items)
  {
    hide ItemForm, Fits, AllForm;
    assert items[0..] == items;
    NothingForm(binary);
    for i := 0 to |items|
      invariant binary ==> forall item :: item in items[..i] ==> Fits(item)
      invariant os.text + AllForm(binary, items[i..]) == old(os.text) + AllForm(binary, items)
    {
      ghost var before := os.text;
      ok := WriteItem(os, binary, items[i]);
      if !ok {
        assert items[i] in items;
        return;
      }
      assert items[..i + 1] == items[..i] + [items[i]];
      FirstForm(binary, items[i..]);
      assert items[i..][1..] == items[i + 1..];
      assert before + ItemForm(binary, items[i]) + AllForm(binary, items[i + 1..]) == before + (ItemForm(binary, items[i]) + AllForm(binary, items[i + 1..]));
    }
    assert items[|items|..] == [] && items[..|items|] == items;
    ok := true;
  }

  lemma NothingForm(binary: bool)
    ensures AllForm(binary, []) == ""
  {
  }

  lemma FirstForm(binary: bool, items: seq<Item>)
    requires items != []
    ensures AllForm(binary, items) == ItemForm(binary, items[0]) + AllForm(binary, items[1..])
  {
    if !binary {
      hide ItemText;
      TextThen(items[0], AllText(items[1..]));
    }
  }

  lemma TextThen(item: Item, tail: string)
    ensures ItemText(item, tail) == ItemText(item, "") + tail
  {
    match item
    case Vector(_, v) =>
      ItemsThen(v, "]" + ("\n" + ""), tail);
      assert "]" + ("\n" + "") + tail == "]" + ("\n" + tail);
      assert VectorText(v, "") + tail == "[" + (" " + (ItemsText(v, "]" + ("\n" + "")) + tail));
    case PairVector(_, w) =>
      PairItemsThen(w, "]" + ("\n" + ""), tail);
      assert "]" + ("\n" + "") + tail == "]" + ("\n" + tail);
      assert PairVectorText(w, "") + tail == "[" + (" " + (PairItemsText(w, "]" + ("\n" + "")) + tail));
  }

  lemma {:induction false} ItemsThen(v: seq<int>, end: string, tail: string)
    ensures ItemsText(v, end + tail) == ItemsText(v, end) + tail
  {
    hide Decimal;
    if v != [] {
      ItemsThen(v[1..], end, tail);
    }
  }

  lemma {:induction false} PairItemsThen(v: seq<(int, int)>, end: string, tail: string)
    ensures PairItemsText(v, end + tail) == PairItemsText(v, end) + tail
  {
    hide Decimal;
    if v != [] {
      PairItemsThen(v[1..], end, tail);
    }
  }

  /** Reads one vector of the kind and type of a given one. */
  method ReadItemOn(input: Istream, binary: bool, item: Item) returns (r: Option<Item>)
    requires !input.fail
    modifies input
    ensures match ReadItemForm(binary, old(input.rest), item)
      case None => r.None?
      case Some((again, rest)) => r == Some(again) && input.rest == rest && !input.fail
  {
    hide ReadVector, ReadPairVector, ReadVectorBytes, ReadPairVectorBytes;
    match item
    case Vector(t, _) =>
      var v := ReadIntegerVector(input, binary, t);
      return if v.None? then None else Some(Vector(t, v.value));
    case PairVector(t, _) =>
      var w := ReadIntegerPairVector(input, binary, t);
      return if w.None? then None else Some(PairVector(t, w.value));
  }

  lemma FirstRead(binary: bool, s: string, items: seq<Item>)
    requires items != [] && ReadAllForm(binary, s, items).Some? && ReadAllForm(binary, s, items).value.0 == items
    ensures ReadItemForm(binary, s, items[0]).Some? && ReadItemForm(binary, s, items[0]).value.0 == items[0]
    ensures var rest := ReadItemForm(binary, s, items[0]).value.1;
      ReadAllForm(binary, rest, items[1..]).Some? && ReadAllForm(binary, rest, items[1..]).value.0 == items[1..]
  {
    hide ReadItem, ReadItemBytes;
    var (item, rest) := ReadItemForm(binary, s, items[0]).value;
    var more := ReadAllForm(binary, rest, items[1..]).value.0;
    assert ([item] + more)[0] == item && ([item] + more)[1..] == more;
  }

  /** Vectors of any integer types written one after another read back unchanged and in order. */
  lemma AllFormsReadBack(binary: bool, items: seq<Item>)
    requires forall item :: item in items ==> item.Valid() && (binary ==> Fits(item))
    ensures ReadAllForm(binary, AllForm(binary, items), items).Some?
    ensures ReadAllForm(binary, AllForm(binary, items), items).value.0 == items
  {
    if binary {
      AllBytesReadBack(items, "");
      assert AllBytes(items) + "" == AllBytes(items);
    } else {
      AllReadBack(items);
    }
  }

  /** What has been written on one stream is read from another, unchanged and in order. */
  method WriteAndRead(binary: bool, items: seq<Item>) returns (again: Option<seq<Item>>)
    requires forall item :: item in items ==> item.Valid()
    ensures again == if binary && exists item :: item in items && !Fits(item) then None else Some(items)
  {
    hide ReadItemForm, Item.Valid, Fits, ReadAllForm, AllForm;
    var os := new Ostream();
    var ok := WriteItems(os, binary, items);
    if !ok {
      return None;
    }
    AllFormsReadBack(binary, items);
    assert "" + AllForm(binary, items) == AllForm(binary, items);
    var input := new Istream(os.text);
    var read := [];
    assert items[0..] == items && items[..0] == [];
    for i := 0 to |items|
      invariant !input.fail && read == items[..i] && |items| >= i
      invariant ReadAllForm(binary, input.rest, items[i..]).Some? && ReadAllForm(binary, input.rest, items[i..]).value.0 == items[i..]
    {
      assert items[i..][1..] == items[i + 1..] && items[i..][0] == items[i];
      FirstRead(binary, input.rest, items[i..]);
      var item := ReadItemOn(input, binary, items[i]);
      read := read + [item.value];
      assert items[..i + 1] == items[..i] + [items[i]];
    }
    assert items[..|items|] == items;
    again := Some(read);
  }
}
