/** What vectors look like on a stream, in terms of their elements' notation. */
module VectorNotation {
  import opened Basics
  import opened IntegerText
  import opened IntegerBytes
  import opened Notation

  ghost function Joined(parts: seq<string>): string {
    if parts == [] then "" else parts[0] + Joined(parts[1..])
  }

  // ----- what is written -----

  /** An element's bytes, or its decimal and a space. */
  ghost predicate IsElementForm(binary: bool, s: string, x: int, t: IntType) {
    if binary then AreBytesOf(s, x, t.bytes) else IsIntegerForm(false, s, x, t)
  }

  /** The bytes of two numbers, or their decimals with a comma between them and a space behind. */
  ghost predicate IsPairForm(binary: bool, s: string, x: (int, int), t: IntType) {
    exists a, b :: PairOf(binary, s, x, t, a, b)
  }

  ghost predicate PairOf(binary: bool, s: string, x: (int, int), t: IntType, a: string, b: string) {
    if binary then s == a + b && AreBytesOf(a, x.0, t.bytes) && AreBytesOf(b, x.1, t.bytes)
    else s == a + ("," + (b + " ")) && IsDecimal(a, x.0) && IsDecimal(b, x.1)
  }

  /** The size of an element as one byte, the number of entries in four, and the entries; or the entries in brackets on a line. */
  ghost predicate IsFramed(binary: bool, s: string, n: nat, t: IntType, entries: string) {
    if binary then |s| == 5 + |entries| && s[0] as int == t.bytes && AreBytesOf(s[1..5], n, 4) && s[5..] == entries
    else s == "[ " + entries + "]\n"
  }

  ghost predicate AreElements(binary: bool, parts: seq<string>, v: seq<int>, t: IntType) {
    |parts| == |v| && forall k: nat :: k < |v| ==> IsElementForm(binary, parts[k], v[k], t)
  }

  ghost predicate IsVectorForm(binary: bool, s: string, v: seq<int>, t: IntType) {
    exists parts :: AreElements(binary, parts, v, t) && IsFramed(binary, s, |v|, t, Joined(parts))
  }

  ghost predicate ArePairs(binary: bool, parts: seq<string>, w: seq<(int, int)>, t: IntType) {
    |parts| == |w| && forall k: nat :: k < |w| ==> IsPairForm(binary, parts[k], w[k], t)
  }

  ghost predicate IsPairVectorForm(binary: bool, s: string, w: seq<(int, int)>, t: IntType) {
    exists parts :: ArePairs(binary, parts, w, t) && IsFramed(binary, s, |w|, t, Joined(parts))
  }

  lemma OneMorePart(part: string, parts: seq<string>)
    ensures Joined([part] + parts) == part + Joined(parts)
  {
    assert ([part] + parts)[1..] == parts;
  }

  lemma {:induction false} RawParts(v: seq<int>, t: IntType) returns (parts: seq<string>)
    requires t.Valid()
    ensures AreElements(true, parts, v, t) && Joined(parts) == RawAll(v, t)
  {
    hide Raw, AreBytesOf, IsIntegerForm;
    if v == [] {
      parts := [];
    } else {
      var more := RawParts(v[1..], t);
      RawIs(v[0], t);
      OneMorePart(Raw(v[0], t), more);
      parts := [Raw(v[0], t)] + more;
    }
  }

  lemma {:induction false} TextParts(v: seq<int>, t: IntType, tail: string) returns (parts: seq<string>)
    requires t.Valid()
    ensures AreElements(false, parts, v, t) && Joined(parts) + tail == ItemsText(v, tail)
  {
    hide Decimal, AreBytesOf, IsIntegerForm;
    if v == [] {
      parts := [];
    } else {
      var more := TextParts(v[1..], t, tail);
      WrittenForm(v[0], t);
      OneMorePart(Decimal(v[0]) + " ", more);
      parts := [Decimal(v[0]) + " "] + more;
      assert Decimal(v[0]) + " " + Joined(more) + tail == Decimal(v[0]) + (" " + (Joined(more) + tail));
    }
  }

  lemma OneMorePair(binary: bool, part: string, parts: seq<string>, w: seq<(int, int)>, t: IntType)
    requires w != [] && IsPairForm(binary, part, w[0], t) && ArePairs(binary, parts, w[1..], t)
    ensures ArePairs(binary, [part] + parts, w, t) && Joined([part] + parts) == part + Joined(parts)
  {
    hide IsPairForm, Joined;
    OneMorePart(part, parts);
  }

  lemma FlatRaw(w: seq<(int, int)>, t: IntType)
    requires w != []
    ensures RawAll(Flat(w), t) == Raw(w[0].0, t) + Raw(w[0].1, t) + RawAll(Flat(w[1..]), t)
  {
    hide Raw;
    assert Flat(w)[1..] == [w[0].1] + Flat(w[1..]) && Flat(w)[1..][1..] == Flat(w[1..]);
  }

  lemma {:induction false} PairRawParts(w: seq<(int, int)>, t: IntType) returns (parts: seq<string>)
    requires t.Valid()
    ensures ArePairs(true, parts, w, t) && Joined(parts) == RawAll(Flat(w), t)
  {
    if w == [] {
      parts := [];
    } else {
      hide Raw, RawAll, Flat, AreBytesOf, ArePairs, Joined;
      var more := PairRawParts(w[1..], t);
      var a, b := Raw(w[0].0, t), Raw(w[0].1, t);
      RawIs(w[0].0, t);
      RawIs(w[0].1, t);
      assert PairOf(true, a + b, w[0], t, a, b);
      OneMorePair(true, a + b, more, w, t);
      FlatRaw(w, t);
      parts := [a + b] + more;
    }
  }

  lemma {:induction false} PairTextParts(w: seq<(int, int)>, t: IntType, tail: string) returns (parts: seq<string>)
    requires t.Valid()
    ensures ArePairs(false, parts, w, t) && Joined(parts) + tail == PairItemsText(w, tail)
  {
    if w == [] {
      parts := [];
    } else {
      var more := PairTextParts(w[1..], t, tail);
      hide Decimal, IsDecimal, ArePairs, Joined;
      var a, b := Decimal(w[0].0), Decimal(w[0].1);
      DecimalIs(w[0].0);
      DecimalIs(w[0].1);
      var part := a + ("," + (b + " "));
      assert PairOf(false, part, w[0], t, a, b);
      OneMorePair(false, part, more, w, t);
      parts := [part] + more;
      PartThen(a, b, Joined(more), tail);
    }
  }

  lemma PartThen(a: string, b: string, more: string, tail: string)
    ensures a + ("," + (b + " ")) + more + tail == a + ("," + (b + (" " + (more + tail))))
  {
    assert a + ("," + (b + " ")) + more == a + ("," + (b + (" " + more)));
  }

  lemma BlockFramed(n: nat, v: seq<int>, t: IntType)
    requires t.Valid()
    ensures IsFramed(true, BlockBytes(n, v, t), n, t, RawAll(v, t))
  {
    hide Raw, RawAll, AreBytesOf;
    RawIs(n, INT32);
    BytesLength(Raw(n, INT32), n, 4);
    var s := BlockBytes(n, v, t);
    assert s[1..5] == Raw(n, INT32) && s[5..] == RawAll(v, t);
  }

  /** Vectors are written in the form asked for. */
  lemma VectorWritten(v: seq<int>, t: IntType)
    requires t.Valid()
    ensures IsVectorForm(true, VectorBytes(v, t), v, t) && IsVectorForm(false, VectorText(v, ""), v, t)
  {
    hide BlockBytes, RawAll, ItemsText, AreElements, IsElementForm;
    BlockFramed(|v|, v, t);
    var raw := RawParts(v, t);
    assert IsFramed(true, VectorBytes(v, t), |v|, t, Joined(raw));
    var end := "]" + ("\n" + "");
    var parts := TextParts(v, t, end);
    assert VectorText(v, "") == "[ " + Joined(parts) + "]\n" by {
      assert end == "]\n";
      assert "[" + (" " + (Joined(parts) + end)) == "[ " + Joined(parts) + end;
    }
    assert IsFramed(false, VectorText(v, ""), |v|, t, Joined(parts));
  }

  lemma PairVectorWritten(w: seq<(int, int)>, t: IntType)
    requires t.Valid()
    ensures IsPairVectorForm(true, PairVectorBytes(w, t), w, t) && IsPairVectorForm(false, PairVectorText(w, ""), w, t)
  {
    hide BlockBytes, RawAll, PairItemsText, ArePairs, IsPairForm, Flat;
    BlockFramed(|w|, Flat(w), t);
    var raw := PairRawParts(w, t);
    assert IsFramed(true, PairVectorBytes(w, t), |w|, t, Joined(raw));
    var end := "]" + ("\n" + "");
    var parts := PairTextParts(w, t, end);
    assert PairVectorText(w, "") == "[ " + Joined(parts) + "]\n" by {
      assert end == "]\n";
      assert "[" + (" " + (Joined(parts) + end)) == "[ " + Joined(parts) + end;
    }
    assert IsFramed(false, PairVectorText(w, ""), |w|, t, Joined(parts));
  }

  // ----- what is read -----

  /** White space as far as it goes. */
  ghost predicate SpaceBefore(s: string, rest: string) {
    exists spaces :: AreSpaces(spaces) && s == spaces + rest && (rest != [] ==> !AreSpaces(rest[..1]))
  }

  lemma SkipSpaceIs(s: string, rest: string)
    ensures SkipSpace(s) == rest <==> SpaceBefore(s, rest)
  {
    hide SkipSpace;
    var spaces := SpacesSkipped(s);
    if SpaceBefore(s, rest) {
      var spaces' :| AreSpaces(spaces') && s == spaces' + rest && (rest != [] ==> !AreSpaces(rest[..1]));
      SkipsSpaces(spaces', rest);
    }
  }

  /** Numbers up to a closing bracket, with white space behind each. */
  ghost predicate ReadsItems(s: string, t: IntType, v: seq<int>, rest: string)
    decreases |v|
  {
    if v == [] then s != [] && s[0] == ']' && rest == s[1..]
    else
      (s != [] ==> s[0] != ']') && exists after, next ::
        ReadsInteger(false, s, t, v[0], after) && SpaceBefore(after, next) && ReadsItems(next, t, v[1..], rest)
  }

  ghost predicate ReadsVector(binary: bool, s: string, t: IntType, v: seq<int>, rest: string) {
    if binary then
      && |s| >= 5 && s[0] as int == t.bytes && |v| < TWO_31 && AreBytesOf(BytesOnly(s[1..5]), |v|, 4) && ReadsRaw(s[5..], t, v, rest)
    else
      exists open, items :: SpaceBefore(s, open) && open != [] && open[0] == '[' && SpaceBefore(open[1..], items) && ReadsItems(items, t, v, rest)
  }

  /** Numbers one behind the other, in their bytes. */
  ghost predicate ReadsRaw(s: string, t: IntType, v: seq<int>, rest: string)
    decreases |v|
  {
    if v == [] then rest == s
    else
      && |s| >= t.bytes && InRange(v[0], t.bytes, t.signed) && AreBytesOf(BytesOnly(s[..t.bytes]), v[0], t.bytes)
      && ReadsRaw(s[t.bytes..], t, v[1..], rest)
  }

  lemma {:induction false} ReadItemsIs(s: string, t: IntType, v: seq<int>, rest: string)
    requires t.Valid()
    ensures ReadItems(s, t) == Some((v, rest)) <==> ReadsItems(s, t, v, rest)
    decreases |s|
  {
    hide ReadElement, ReadsInteger, SkipSpace, SpaceBefore;
    if s == [] || s[0] != ']' {
      if v != [] && ReadElement(s, t).Some? {
        var (x, after) := ReadElement(s, t).value;
        ReadElementIs(s, t, v[0], after);
        var next := SkipSpace(after);
        SkipSpaceIs(after, next);
        ReadItemsIs(next, t, v[1..], rest);
        assert [v[0]] + v[1..] == v;
        if ReadItems(s, t) == Some((v, rest)) {
          assert ([x] + ReadItems(next, t).value.0)[1..] == ReadItems(next, t).value.0;
        }
      }
      if v != [] {
        forall after, next | ReadsInteger(false, s, t, v[0], after) && SpaceBefore(after, next)
          ensures ReadElement(s, t) == Some((v[0], after)) && SkipSpace(after) == next
        {
          ReadElementIs(s, t, v[0], after);
          SkipSpaceIs(after, next);
        }
      }
    }
  }

  lemma {:induction false} ReadRawIs(s: string, t: IntType, n: nat, v: seq<int>, rest: string)
    requires t.Valid() && |v| == n
    ensures ReadRaw(s, t, n) == Some((v, rest)) <==> ReadsRaw(s, t, v, rest)
  {
    hide FromRaw, InRange, AreBytesOf;
    if n > 0 && |s| >= t.bytes {
      var bytes := s[..t.bytes];
      ReadRawIs(s[t.bytes..], t, n - 1, v[1..], rest);
      FromRawIs(bytes, t);
      if InRange(v[0], t.bytes, t.signed) && AreBytesOf(BytesOnly(bytes), v[0], t.bytes) {
        BytesUnique(BytesOnly(bytes), t, v[0], FromRaw(bytes, t));
      }
      assert [v[0]] + v[1..] == v;
      if ReadRaw(s, t, n) == Some((v, rest)) {
        var more := ReadRaw(s[t.bytes..], t, n - 1).value.0;
        assert ([FromRaw(bytes, t)] + more)[1..] == more;
      }
    }
  }

  /** The count of a block is the number in its four bytes. */
  lemma CountIs(s: string, n: nat)
    requires |s| == 4
    ensures FromRaw(s, INT32) == n <==> n < TWO_31 && AreBytesOf(BytesOnly(s), n, 4)
  {
    hide FromRaw, AreBytesOf;
    FromRawIs(s, INT32);
    Int32Range(FromRaw(s, INT32));
    Int32Range(n);
    hide InRange;
    if n < TWO_31 && AreBytesOf(BytesOnly(s), n, 4) {
      BytesUnique(BytesOnly(s), INT32, n, FromRaw(s, INT32));
    }
  }

  lemma Int32Range(x: int)
    ensures InRange(x, 4, true) <==> -TWO_31 <= x < TWO_31
  {
    HoldsIs(INT32, x);
  }

  /** Reading a vector succeeds exactly on these forms, with these outcomes. */
  lemma ReadVectorIs(s: string, t: IntType, v: seq<int>, rest: string)
    requires t.Valid()
    ensures ReadVectorBytes(s, t) == Some((v, rest)) <==> ReadsVector(true, s, t, v, rest)
    ensures ReadVector(s, t) == Some((v, rest)) <==> ReadsVector(false, s, t, v, rest)
  {
    hide FromRaw, AreBytesOf, ReadRaw, ReadItems, ReadsItems, ReadsRaw, SkipSpace, SpaceBefore;
    if |s| >= 5 {
      CountIs(s[1..5], |v|);
      ReadRawIs(s[5..], t, |v|, v, rest);
      ReadRawLength(s[5..], t);
    }
    var open := SkipSpace(s);
    SkipSpaceIs(s, open);
    forall open' | SpaceBefore(s, open')
      ensures open' == open
    {
      SkipSpaceIs(s, open');
    }
    if open != [] {
      var items := SkipSpace(open[1..]);
      SkipSpaceIs(open[1..], items);
      forall items' | SpaceBefore(open[1..], items')
        ensures items' == items
      {
        SkipSpaceIs(open[1..], items');
      }
      ReadItemsIs(items, t, v, rest);
    }
  }

  lemma ReadRawLength(s: string, t: IntType)
    ensures forall n: nat :: ReadRaw(s, t, n).Some? ==> |ReadRaw(s, t, n).value.0| == n
  {
  }

  // ----- pairs that are read -----

  /** Two numbers with a comma right between them. */
  ghost predicate ReadsPair(s: string, t: IntType, x: (int, int), rest: string) {
    exists mid :: ReadsInteger(false, s, t, x.0, mid) && mid != [] && mid[0] == ',' && ReadsInteger(false, mid[1..], t, x.1, rest)
  }

  ghost predicate ReadsPairItems(s: string, t: IntType, w: seq<(int, int)>, rest: string)
    decreases |w|
  {
    if w == [] then s != [] && s[0] == ']' && rest == s[1..]
    else
      (s != [] ==> s[0] != ']') && exists after, next ::
        ReadsPair(s, t, w[0], after) && SpaceBefore(after, next) && ReadsPairItems(next, t, w[1..], rest)
  }

  /** The numbers of the pairs, one after the other. */
  ghost predicate Alternate(v: seq<int>, w: seq<(int, int)>) {
    |v| == 2 * |w| && forall k: nat :: k < |w| ==> v[2 * k] == w[k].0 && v[2 * k + 1] == w[k].1
  }

  ghost predicate ReadsPairVector(binary: bool, s: string, t: IntType, w: seq<(int, int)>, rest: string) {
    if binary then
      && |s| >= 5 && s[0] as int == t.bytes && |w| < TWO_31 && AreBytesOf(BytesOnly(s[1..5]), |w|, 4)
      && exists v :: Alternate(v, w) && ReadsRaw(s[5..], t, v, rest)
    else
      exists open, items :: SpaceBefore(s, open) && open != [] && open[0] == '[' && SpaceBefore(open[1..], items) && ReadsPairItems(items, t, w, rest)
  }

  lemma ReadPairIs(s: string, t: IntType, x: (int, int), rest: string)
    requires t.Valid()
    ensures ReadPair(s, t) == Some((x, rest)) <==> ReadsPair(s, t, x, rest)
  {
    hide ReadElement, ReadsInteger;
    if ReadElement(s, t).Some? {
      var mid := ReadElement(s, t).value.1;
      ReadElementIs(s, t, x.0, mid);
      if mid != [] {
        ReadElementIs(mid[1..], t, x.1, rest);
      }
    }
    forall mid | ReadsInteger(false, s, t, x.0, mid)
      ensures ReadElement(s, t) == Some((x.0, mid))
    {
      ReadElementIs(s, t, x.0, mid);
    }
  }

  lemma {:induction false} ReadPairItemsIs(s: string, t: IntType, w: seq<(int, int)>, rest: string)
    requires t.Valid()
    ensures ReadPairItems(s, t) == Some((w, rest)) <==> ReadsPairItems(s, t, w, rest)
    decreases |s|
  {
    hide ReadPair, ReadsPair, SkipSpace, SpaceBefore;
    if s == [] || s[0] != ']' {
      if w != [] && ReadPair(s, t).Some? {
        var (x, after) := ReadPair(s, t).value;
        ReadPairIs(s, t, w[0], after);
        var next := SkipSpace(after);
        SkipSpaceIs(after, next);
        ReadPairItemsIs(next, t, w[1..], rest);
        assert [w[0]] + w[1..] == w;
        if ReadPairItems(s, t) == Some((w, rest)) {
          assert ([x] + ReadPairItems(next, t).value.0)[1..] == ReadPairItems(next, t).value.0;
        }
      }
      if w != [] {
        forall after, next | ReadsPair(s, t, w[0], after) && SpaceBefore(after, next)
          ensures ReadPair(s, t) == Some((w[0], after)) && SkipSpace(after) == next
        {
          ReadPairIs(s, t, w[0], after);
          SkipSpaceIs(after, next);
        }
      }
    }
  }

  lemma {:induction false} PairedLength(v: seq<int>, n: nat)
    requires |v| == 2 * n
    ensures |Paired(v)| == n
  {
    if n > 0 {
      PairedLength(v[2..], n - 1);
    }
  }

  lemma {:induction false} PairedAt(v: seq<int>, k: nat)
    requires 2 * k + 1 < |v|
    ensures k < |Paired(v)| && Paired(v)[k] == (v[2 * k], v[2 * k + 1])
  {
    if k > 0 {
      PairedAt(v[2..], k - 1);
      assert v[2 * k] == v[2..][2 * (k - 1)] && v[2 * k + 1] == v[2..][2 * (k - 1) + 1];
    }
  }

  lemma PairedIs(v: seq<int>, w: seq<(int, int)>)
    requires |v| == 2 * |w|
    ensures Paired(v) == w <==> Alternate(v, w)
  {
    hide Paired;
    PairedLength(v, |w|);
    forall k: nat | k < |w|
      ensures Paired(v)[k] == (v[2 * k], v[2 * k + 1])
    {
      PairedAt(v, k);
    }
  }

  lemma PairBytesRead(s: string, t: IntType, w: seq<(int, int)>, rest: string)
    requires t.Valid()
    ensures (exists v :: Alternate(v, w) && ReadsRaw(s, t, v, rest)) <==>
      ReadRaw(s, t, 2 * |w|).Some? && Paired(ReadRaw(s, t, 2 * |w|).value.0) == w && ReadRaw(s, t, 2 * |w|).value.1 == rest
  {
    hide ReadRaw, ReadsRaw, Alternate, Paired;
    var n := 2 * |w|;
    forall v | Alternate(v, w) && ReadsRaw(s, t, v, rest)
      ensures ReadRaw(s, t, n) == Some((v, rest)) && Paired(v) == w
    {
      assert |v| == n by { AlternateLength(v, w); }
      PairedIs(v, w);
      ReadRawIs(s, t, n, v, rest);
    }
    if ReadRaw(s, t, n).Some? {
      var v := ReadRaw(s, t, n).value.0;
      ReadRawIs(s, t, n, v, rest);
      PairedIs(v, w);
    }
  }

  lemma AlternateLength(v: seq<int>, w: seq<(int, int)>)
    requires Alternate(v, w)
    ensures |v| == 2 * |w|
  {
  }

  /** Reading a vector of pairs succeeds exactly on these forms, with these outcomes. */
  lemma ReadPairVectorIs(s: string, t: IntType, w: seq<(int, int)>, rest: string)
    requires t.Valid()
    ensures ReadPairVectorBytes(s, t) == Some((w, rest)) <==> ReadsPairVector(true, s, t, w, rest)
    ensures ReadPairVector(s, t) == Some((w, rest)) <==> ReadsPairVector(false, s, t, w, rest)
  {
    hide FromRaw, AreBytesOf, ReadRaw, ReadPairItems, ReadsPairItems, ReadsRaw, SkipSpace, SpaceBefore, Paired, Alternate;
    if |s| >= 5 {
      CountIs(s[1..5], |w|);
      PairBytesRead(s[5..], t, w, rest);
      PairsCounted(s[5..], t);
    }
    var open := SkipSpace(s);
    SkipSpaceIs(s, open);
    forall open' | SpaceBefore(s, open')
      ensures open' == open
    {
      SkipSpaceIs(s, open');
    }
    if open != [] {
      var items := SkipSpace(open[1..]);
      SkipSpaceIs(open[1..], items);
      forall items' | SpaceBefore(open[1..], items')
        ensures items' == items
      {
        SkipSpaceIs(open[1..], items');
      }
      ReadPairItemsIs(items, t, w, rest);
    }
  }

  lemma PairsCounted(s: string, t: IntType)
    ensures forall n: nat :: ReadRaw(s, t, 2 * n).Some? ==> |Paired(ReadRaw(s, t, 2 * n).value.0)| == n
  {
    hide ReadRaw, Paired;
    forall n: nat | ReadRaw(s, t, 2 * n).Some?
      ensures |Paired(ReadRaw(s, t, 2 * n).value.0)| == n
    {
      PairedLength(ReadRaw(s, t, 2 * n).value.0, n);
    }
  }
}
