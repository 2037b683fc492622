/** What numbers and vectors look like on a stream: in terms of bytes, characters and arithmetic, not of the functions that write and
    read them. */
module Notation {
  import opened Basics
  import opened IntegerText
  import opened IntegerBytes

  // ----- decimal numerals -----

  function Tens(k: nat): nat {
    if k == 0 then 1 else 10 * Tens(k - 1)
  }

  /** The characters '0' to '9' have the codes 48 to 57. */
  ghost predicate AreDigits(ds: string) {
    forall k: nat :: k < |ds| ==> 48 <= ds[k] as int <= 57
  }

  /** The first digit counts most. */
  ghost function Weight(ds: string): int {
    if ds == [] then 0 else (ds[0] as int - 48) * Tens(|ds| - 1) + Weight(ds[1..])
  }

  /** Digits without a leading zero. */
  ghost predicate IsNumeral(ds: string, n: nat) {
    ds != [] && AreDigits(ds) && Weight(ds) == n && (|ds| == 1 || ds[0] as int != 48)
  }

  ghost predicate IsDecimal(s: string, x: int) {
    if x < 0 then s != [] && s[0] == '-' && IsNumeral(s[1..], -x) else IsNumeral(s, x)
  }

  lemma {:induction false} WeightSnoc(ds: string, d: char)
    ensures Weight(ds + [d]) == 10 * Weight(ds) + (d as int - 48)
  {
    if ds == [] {
      assert [d][1..] == [];
    } else {
      WeightSnoc(ds[1..], d);
      assert (ds + [d])[1..] == ds[1..] + [d];
      Shifted(ds[0] as int - 48, Tens(|ds| - 1));
    }
  }

  lemma Shifted(a: int, t: int)
    ensures a * (10 * t) == 10 * (a * t)
  {
  }

  lemma DigitIs(d: nat)
    requires d < 10
    ensures Digit(d) as int == 48 + d
  {
  }

  lemma {:induction false} DigitsAre(n: nat)
    ensures IsNumeral(Digits(n), n) && (n > 0 ==> Digits(n)[0] as int != 48)
  {
    if n < 10 {
      DigitIs(n);
      assert Digits(n)[1..] == [];
    } else {
      DigitsAre(n / 10);
      DigitIs(n % 10);
      WeightSnoc(Digits(n / 10), Digit(n % 10));
    }
  }

  /** Numbers are written in decimal. */
  lemma DecimalIs(x: int)
    ensures IsDecimal(Decimal(x), x)
  {
    DigitsAre(if x < 0 then -x else x);
  }

  lemma TimesMore(a: int, b: int, t: int)
    requires a <= b && t >= 0
    ensures a * t <= b * t
  {
  }

  lemma {:induction false} WeightBounds(ds: string)
    requires AreDigits(ds)
    ensures 0 <= Weight(ds) < Tens(|ds|)
    ensures ds != [] ==> (ds[0] as int - 48) * Tens(|ds| - 1) <= Weight(ds) < (ds[0] as int - 47) * Tens(|ds| - 1)
  {
    if ds != [] {
      WeightBounds(ds[1..]);
      var a, t := ds[0] as int - 48, Tens(|ds| - 1);
      assert 0 <= a <= 9;
      TimesMore(0, a, t);
      TimesMore(a, 9, t);
      assert (a + 1) * t == a * t + t;
    }
  }

  lemma SameQuotient(a: int, b: int, t: int, w: int)
    requires t > 0 && a * t <= w < (a + 1) * t && b * t <= w < (b + 1) * t
    ensures a == b
  {
    if a < b {
      TimesMore(a + 1, b, t);
    } else if b < a {
      TimesMore(b + 1, a, t);
    }
  }

  lemma {:induction false} WeightInjective(ds: string, ds': string)
    requires AreDigits(ds) && AreDigits(ds') && |ds| == |ds'| && Weight(ds) == Weight(ds')
    ensures ds == ds'
  {
    if ds != [] {
      WeightBounds(ds);
      WeightBounds(ds');
      var a, b, t := ds[0] as int - 48, ds'[0] as int - 48, Tens(|ds| - 1);
      WeightBounds(ds[1..]);
      SameQuotient(a, b, t, Weight(ds));
      WeightInjective(ds[1..], ds'[1..]);
      assert ds == [ds[0]] + ds[1..] && ds' == [ds'[0]] + ds'[1..];
    }
  }

  lemma {:induction false} TensGrow(j: nat, k: nat)
    requires j <= k
    ensures 1 <= Tens(j) <= Tens(k)
  {
    if j < k {
      TensGrow(j, k - 1);
    } else if j > 0 {
      TensGrow(j - 1, k - 1);
    }
  }

  lemma LongerIsMore(ds: string, n: nat, ds': string, n': nat)
    requires IsNumeral(ds, n) && IsNumeral(ds', n') && |ds| < |ds'|
    ensures n < n'
  {
    WeightBounds(ds);
    WeightBounds(ds');
    TensGrow(|ds|, |ds'| - 1);
    TimesMore(1, ds'[0] as int - 48, Tens(|ds'| - 1));
  }

  /** A number has one decimal only. */
  lemma DecimalUnique(s: string, s': string, x: int)
    requires IsDecimal(s, x) && IsDecimal(s', x)
    ensures s == s'
  {
    var ds, ds', n := if x < 0 then s[1..] else s, if x < 0 then s'[1..] else s', if x < 0 then -x else x;
    if |ds| < |ds'| {
      LongerIsMore(ds, n, ds', n);
    } else if |ds'| < |ds| {
      LongerIsMore(ds', n, ds, n);
    }
    WeightInjective(ds, ds');
    if x < 0 {
      assert s == [s[0]] + s[1..] && s' == [s'[0]] + s'[1..];
    }
  }

  // ----- numbers that are read -----

  /** Space, tabulator, and the characters that end lines and pages. */
  ghost predicate AreSpaces(s: string) {
    forall k: nat :: k < |s| ==> s[k] as int == 32 || 9 <= s[k] as int <= 13
  }

  /** White space, an optional sign, all the digits there are, and the rest. */
  ghost predicate Spells(s: string, spaces: string, sign: string, ds: string, rest: string) {
    && s == spaces + (sign + (ds + rest)) && AreSpaces(spaces) && (sign == [] || sign == "-" || sign == "+")
    && ds != [] && AreDigits(ds) && (rest != [] ==> !(48 <= rest[0] as int <= 57))
  }

  ghost predicate SpellsNumber(s: string, spaces: string, sign: string, ds: string, rest: string, x: int) {
    Spells(s, spaces, sign, ds, rest) && x == if sign == "-" then -Weight(ds) else Weight(ds)
  }

  /** What fits into so many bytes. */
  ghost predicate InRange(x: int, bytes: nat, signed: bool) {
    if signed then 0 - Power(bytes) <= 2 * x < Power(bytes) else 0 <= x < Power(bytes)
  }

  lemma HoldsIs(t: IntType, x: int)
    requires t.Valid()
    ensures t.Holds(x) <==> InRange(x, t.bytes, t.signed)
  {
    SpanIsPower(t);
    assert Power(1) == 256;
    hide Power;
    assert t.Span() % 2 == 0;
  }

  lemma {:induction false} ValueIs(ds: string)
    requires forall c :: c in ds ==> IsDigit(c)
    ensures AreDigits(ds) && Value(ds) == Weight(ds)
  {
    forall k: nat | k < |ds|
      ensures 48 <= ds[k] as int <= 57
    {
      assert ds[k] in ds;
    }
    if ds != [] {
      var front, d := ds[..|ds| - 1], ds[|ds| - 1];
      ValueIs(front);
      WeightSnoc(front, d);
      assert ds == front + [d] && d in ds;
    }
  }

  lemma DigitsAreDigits(ds: string)
    requires AreDigits(ds)
    ensures forall c :: c in ds ==> IsDigit(c)
  {
  }

  lemma {:induction false} SpacesSkipped(s: string) returns (spaces: string)
    ensures AreSpaces(spaces) && s == spaces + SkipSpace(s)
  {
    if s != [] && IsSpace(s[0]) {
      var more := SpacesSkipped(s[1..]);
      spaces := [s[0]] + more;
      assert s == [s[0]] + s[1..];
    } else {
      spaces := [];
    }
  }

  lemma {:induction false} SkipsSpaces(spaces: string, s: string)
    requires AreSpaces(spaces) && (s != [] ==> !IsSpace(s[0]))
    ensures SkipSpace(spaces + s) == s
  {
    if spaces == [] {
      assert spaces + s == s;
    } else {
      SkipsSpaces(spaces[1..], s);
      assert (spaces + s)[1..] == spaces[1..] + s;
    }
  }

  lemma MagnitudeSpells(s: string) returns (ds: string)
    requires ReadMagnitude(s).Some?
    ensures var (m, rest) := ReadMagnitude(s).value;
      s == ds + rest && ds != [] && AreDigits(ds) && Weight(ds) == m && (rest != [] ==> !(48 <= rest[0] as int <= 57))
  {
    hide Weight, Value;
    ds := s[..DigitCount(s)];
    assert forall c :: c in ds ==> IsDigit(c);
    ValueIs(ds);
  }

  /** Reading a number succeeds exactly on what spells one that the type can hold. */
  lemma ReadNumberSpells(s: string, t: IntType) returns (spaces: string, sign: string, ds: string)
    requires t.Valid() && ReadNumber(s, t).Some?
    ensures var (x, rest) := ReadNumber(s, t).value;
      SpellsNumber(s, spaces, sign, ds, rest, x) && InRange(x, t.bytes, t.signed)
  {
    hide IntType.Holds, Weight, ReadMagnitude, InRange, AreDigits, SkipSpace;
    var (x, rest) := ReadNumber(s, t).value;
    HoldsIs(t, x);
    spaces := SpacesSkipped(s);
    var s1 := SkipSpace(s);
    sign := if s1[0] == '-' || s1[0] == '+' then [s1[0]] else [];
    var s2 := if sign == [] then s1 else s1[1..];
    ds := MagnitudeSpells(s2);
    assert s1 == sign + s2;
  }

  lemma SpellsReadNumber(s: string, t: IntType, spaces: string, sign: string, ds: string, rest: string, x: int)
    requires t.Valid() && SpellsNumber(s, spaces, sign, ds, rest, x) && InRange(x, t.bytes, t.signed)
    ensures ReadNumber(s, t) == Some((x, rest))
  {
    hide IntType.Holds, Weight;
    HoldsIs(t, x);
    hide InRange;
    DigitsAreDigits(ds);
    ValueIs(ds);
    var s1 := sign + (ds + rest);
    assert s1 != [] && !IsSpace(s1[0]);
    SkipsSpaces(spaces, s1);
    DigitsEnd(ds, rest);
    var s2 := ds + rest;
    assert s2[..|ds|] == ds && s2[|ds|..] == rest;
    if sign == [] {
      assert s1 == s2;
    } else {
      assert s1[1..] == s2;
    }
  }

  // ----- bytes -----

  /** The low byte first; a negative number in two's complement, for dividing rounds down. */
  ghost predicate AreBytesOf(s: string, x: int, n: nat) {
    |s| == n && forall k: nat :: k < n ==> s[k] as int == x / Power(k) % 256
  }

  lemma DivideTwice(x: int, p: int)
    requires p > 0
    ensures x / (256 * p) == x / 256 / p
  {
    var q, r := x / 256 / p, x / 256 % p;
    assert x / 256 == p * q + r;
    assert x == 256 * (p * q + r) + x % 256;
    assert x == (256 * p) * q + (256 * r + x % 256) by { assert 256 * (p * q) == (256 * p) * q; }
    assert 0 <= 256 * r + x % 256 < 256 * p;
    Quotient(x, 256 * p, q, 256 * r + x % 256);
  }

  lemma Quotient(x: int, d: int, q: int, r: int)
    requires d > 0 && x == d * q + r && 0 <= r < d
    ensures x / d == q && x % d == r
  {
    var q', r' := x / d, x % d;
    assert x == d * q' + r';
    if q < q' {
      TimesMore(q + 1, q', d);
    } else if q' < q {
      TimesMore(q' + 1, q, d);
    }
  }

  /** The remainder modulo 256 * p has the same low byte, and its other bytes are those of the quotient. */
  lemma RemainderBytes(x: int, p: int)
    requires p > 0
    ensures x % (256 * p) % 256 == x % 256 && x % (256 * p) / 256 == x / 256 % p
  {
    var q, r := x / 256 / p, x / 256 % p;
    assert x / 256 == p * q + r;
    assert x == (256 * p) * q + (256 * r + x % 256) by { assert 256 * (p * q) == (256 * p) * q; }
    assert 0 <= 256 * r + x % 256 < 256 * p;
    Quotient(x, 256 * p, q, 256 * r + x % 256);
    Quotient(256 * r + x % 256, 256, r, x % 256);
  }

  lemma {:induction false} BytesAre(x: int, n: nat)
    ensures AreBytesOf(BytesOf(x % Power(n), n), x, n)
    decreases n
  {
    if n > 0 {
      BytesAre(x / 256, n - 1);
      RemainderBytes(x, Power(n - 1));
      var s := BytesOf(x % Power(n), n);
      assert s == [(x % 256) as char] + BytesOf(x / 256 % Power(n - 1), n - 1);
      forall k: nat | k < n
        ensures s[k] as int == x / Power(k) % 256
      {
        if k > 0 {
          DivideTwice(x, Power(k - 1));
        }
      }
    }
  }

  /** Integers lie on a stream as they lie in memory. */
  lemma RawIs(x: int, t: IntType)
    requires t.Valid()
    ensures AreBytesOf(Raw(x, t), x, t.bytes)
  {
    SpanIsPower(t);
    BytesAre(x, t.bytes);
    hide Power, BytesOf;
  }

  lemma {:induction false} NumberBytes(s: string)
    ensures NumberOf(s) < Power(|s|) && BytesOf(NumberOf(s), |s|) == BytesOnly(s)
  {
    if s != [] {
      NumberBytes(s[1..]);
      var low, high := s[0] as int % 256, NumberOf(s[1..]);
      Quotient(low + 256 * high, 256, high, low);
      assert BytesOnly(s) == [low as char] + BytesOnly(s[1..]);
    }
  }

  /** Characters stand for bytes. */
  ghost function BytesOnly(s: string): string {
    seq(|s|, k requires 0 <= k < |s| => (s[k] as int % 256) as char)
  }

  /** What is read is the number in the type's range that has the given bytes. */
  lemma FromRawIs(s: string, t: IntType)
    requires t.Valid() && |s| == t.bytes
    ensures InRange(FromRaw(s, t), t.bytes, t.signed) && AreBytesOf(BytesOnly(s), FromRaw(s, t), t.bytes)
  {
    NumberBytes(s);
    SpanIsPower(t);
    var n, x := NumberOf(s), FromRaw(s, t);
    HoldsIs(t, x);
    CastInRange(t, n);
    BytesAre(x, t.bytes);
    hide Power, BytesOf, NumberOf;
    assert x % t.Span() == n;
  }

  lemma CastInRange(t: IntType, n: int)
    requires t.Valid() && 0 <= n < t.Span()
    ensures t.Holds(t.Cast(n)) && t.Cast(n) % t.Span() == n
  {
    var x := t.Cast(n);
    assert x == n || x == n - t.Span();
  }

  /** Only one number of the range has given bytes. */
  lemma BytesUnique(s: string, t: IntType, x: int, x': int)
    requires t.Valid() && InRange(x, t.bytes, t.signed) && InRange(x', t.bytes, t.signed)
    requires AreBytesOf(s, x, t.bytes) && AreBytesOf(s, x', t.bytes)
    ensures x == x'
  {
    HoldsIs(t, x);
    HoldsIs(t, x');
    RawIs(x, t);
    RawIs(x', t);
    hide InRange;
    assert Raw(x, t) == Raw(x', t) by {
      SameBytes(Raw(x, t), s, x, t.bytes);
      SameBytes(Raw(x', t), s, x', t.bytes);
    }
    RawReadsBack(x, t);
    RawReadsBack(x', t);
  }

  lemma SameBytes(s: string, s': string, x: int, n: nat)
    requires AreBytesOf(s, x, n) && AreBytesOf(s', x, n)
    ensures s == s'
  {
    forall k: nat | k < n
      ensures s[k] == s'[k]
    {
      assert s[k] as int == s'[k] as int;
    }
  }

  // ----- integers on a stream -----

  /** The type's size, for an unsigned type as the byte that stands for its negation. */
  ghost predicate IsMark(c: char, t: IntType) {
    c as int == if t.signed then t.bytes else 256 - t.bytes
  }

  lemma SizeMarkIs(t: IntType, c: char)
    requires t.Valid()
    ensures c == SizeMark(t) <==> IsMark(c, t)
  {
  }

  ghost predicate IsIntegerForm(binary: bool, s: string, x: int, t: IntType) {
    if binary then |s| == 1 + t.bytes && IsMark(s[0], t) && AreBytesOf(s[1..], x, t.bytes)
    else s != [] && s[|s| - 1] == ' ' && IsDecimal(s[..|s| - 1], x)
  }

  /** What is on a stream can be read as number x, and rest is left.  One-byte numbers are spelled as two-byte ones. */
  ghost predicate ReadsInteger(binary: bool, s: string, t: IntType, x: int, rest: string) {
    InRange(x, t.bytes, t.signed) &&
    if binary then
      && |s| >= 1 + t.bytes && IsMark(s[0], t) && rest == s[1 + t.bytes..]
      && AreBytesOf(BytesOnly(s[1..1 + t.bytes]), x, t.bytes)
    else
      exists spaces, sign, ds, y :: SpellsNumber(s, spaces, sign, ds, rest, y)
        && if t.bytes == 1 then InRange(y, 2, true) && (x - y) % 256 == 0 else y == x
  }

  lemma CastIs(t: IntType, x: int, y: int)
    requires t.bytes == 1 && t.Holds(x)
    ensures t.Cast(y) == x <==> (x - y) % 256 == 0
  {
  }

  lemma ReadElementIs(s: string, t: IntType, x: int, rest: string)
    requires t.Valid()
    ensures ReadElement(s, t) == Some((x, rest)) <==> ReadsInteger(false, s, t, x, rest)
  {
    hide ReadNumber, SpellsNumber, InRange, IntType.Cast, IntType.Holds;
    HoldsIs(t, x);
    if ReadElement(s, t) == Some((x, rest)) {
      var y := ReadNumber(s, ReadAs(t)).value.0;
      var spaces, sign, ds := ReadNumberSpells(s, ReadAs(t));
      CastRange(t, y);
      if t.bytes == 1 {
        CastIs(t, x, y);
      }
    }
    if ReadsInteger(false, s, t, x, rest) {
      var spaces, sign, ds, y :| SpellsNumber(s, spaces, sign, ds, rest, y)
        && if t.bytes == 1 then InRange(y, 2, true) && (x - y) % 256 == 0 else y == x;
      SpellsReadNumber(s, ReadAs(t), spaces, sign, ds, rest, y);
      if t.bytes == 1 {
        CastIs(t, x, y);
      }
    }
  }

  lemma CastRange(t: IntType, y: int)
    ensures t.bytes == 1 ==> t.Holds(t.Cast(y))
  {
  }

  lemma ReadBasicBytesIs(s: string, t: IntType, x: int, rest: string)
    requires t.Valid()
    ensures ReadBasicBytes(s, t) == Some((x, rest)) <==> ReadsInteger(true, s, t, x, rest)
  {
    hide FromRaw, InRange, AreBytesOf;
    if |s| >= 1 + t.bytes {
      SizeMarkIs(t, s[0]);
      var bytes := s[1..1 + t.bytes];
      FromRawIs(bytes, t);
      if ReadsInteger(true, s, t, x, rest) {
        BytesUnique(BytesOnly(bytes), t, x, FromRaw(bytes, t));
      }
    }
  }

  /** Integers are written in the form asked for. */
  lemma WrittenForm(x: int, t: IntType)
    requires t.Valid()
    ensures IsIntegerForm(true, BasicBytes(x, t), x, t) && IsIntegerForm(false, Decimal(x) + " ", x, t)
  {
    hide Raw, AreBytesOf, IsDecimal, Decimal;
    RawIs(x, t);
    DecimalIs(x);
    SizeMarkIs(t, SizeMark(t));
    assert BasicBytes(x, t)[1..] == Raw(x, t);
    assert (Decimal(x) + " ")[..|Decimal(x)|] == Decimal(x);
    BytesLength(Raw(x, t), x, t.bytes);
  }

  lemma BytesLength(s: string, x: int, n: nat)
    requires AreBytesOf(s, x, n)
    ensures |s| == n
  {
  }
}
