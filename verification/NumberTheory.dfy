/** Division, divisors and factors of integers. */
module NumberTheory {
  import opened Basics

  // ----- division -----

  /** Division as the machine does it, towards zero. */
  function TruncDiv(a: int, b: int): int
    requires b != 0
  {
    if a >= 0 then a / b else -((-a) / b)
  }

  function TruncRem(a: int, b: int): int
    requires b != 0
  {
    a - b * TruncDiv(a, b)
  }

  lemma TruncRemSmall(a: int, b: int)
    requires b != 0
    ensures a >= 0 ==> 0 <= TruncRem(a, b) < Abs(b)
    ensures a <= 0 ==> -Abs(b) < TruncRem(a, b) <= 0
  {
    if a < 0 {
      assert -a == b * ((-a) / b) + (-a) % b;
    }
  }

  function Abs(x: int): (r: int)
    ensures r >= 0
  {
    if x >= 0 then x else -x
  }

  /** q is a over b, rounded down. */
  ghost predicate IsFloor(q: int, a: int, b: int) {
    var rest := a - b * q;
    if b > 0 then 0 <= rest < b else b < rest <= 0
  }

  lemma FloorUnique(q: int, q': int, a: int, b: int)
    requires b != 0 && IsFloor(q, a, b) && IsFloor(q', a, b)
    ensures q == q'
  {
    var d := q - q';
    assert b * d == b * q - b * q';
    if d > 0 {
      MultipleFar(b, d);
    } else if d < 0 {
      assert b * (-d) == -(b * d);
      MultipleFar(b, -d);
    }
  }

  lemma MultipleFar(b: int, d: int)
    requires d >= 1
    ensures b > 0 ==> b * d >= b
    ensures b < 0 ==> b * d <= b
  {
    assert b * d == b + b * (d - 1);
    if b > 0 {
      assert b * (d - 1) >= 0;
    } else if b < 0 {
      assert b * (d - 1) <= 0;
    }
  }

  function DivideRoundingDown(a: int, b: int): (q: int)
    requires b != 0
  {
    if a * b >= 0 then TruncDiv(a, b)
    else if a < 0 then TruncDiv(a - b + 1, b)
    else TruncDiv(a - b - 1, b)
  }

  lemma SignOfProduct(a: int, b: int)
    ensures a * b >= 0 <==> a == 0 || b == 0 || (a > 0) == (b > 0)
  {
    if a > 0 && b > 0 {
      assert a * b > 0;
    } else if a < 0 && b < 0 {
      assert (-a) * (-b) == a * b;
    } else if a > 0 && b < 0 {
      assert a * (-b) == -(a * b);
    } else if a < 0 && b > 0 {
      assert (-a) * b == -(a * b);
    }
  }

  /** Three machine divisions cover all signs. */
  lemma RoundsDown(a: int, b: int)
    requires b != 0
    ensures IsFloor(DivideRoundingDown(a, b), a, b)
  {
    SignOfProduct(a, b);
    var q := DivideRoundingDown(a, b);
    if a * b >= 0 {
      TruncRemSmall(a, b);
    } else if a < 0 {
      TruncRemSmall(a - b + 1, b);
      assert a - b * q == TruncRem(a - b + 1, b) + b - 1;
    } else {
      TruncRemSmall(a - b - 1, b);
      assert a - b * q == TruncRem(a - b - 1, b) + b + 1;
    }
  }

  // ----- divisors -----

  function Times(a: int, b: int): int {
    a * b
  }

  ghost predicate Divides(d: int, x: int) {
    exists k :: x == Times(d, k)
  }

  lemma DividesBy(d: int, x: int, k: int)
    requires x == d * k
    ensures Divides(d, x)
  {
    assert x == Times(d, k);
  }

  lemma DividesCombination(d: int, x: int, y: int, q: int)
    requires Divides(d, x) && Divides(d, y)
    ensures Divides(d, x - y * q) && Divides(d, x + y * q)
  {
    var k :| x == Times(d, k);
    var l :| y == Times(d, l);
    assert x - y * q == d * (k - l * q) && x + y * q == d * (k + l * q) by {
      assert (d * l) * q == d * (l * q);
    }
    DividesBy(d, x - y * q, k - l * q);
    DividesBy(d, x + y * q, k + l * q);
  }

  lemma DividesTransitive(d: int, x: int, y: int)
    requires Divides(d, x) && Divides(x, y)
    ensures Divides(d, y)
  {
    var k :| x == Times(d, k);
    var l :| y == Times(x, l);
    assert (d * k) * l == d * (k * l);
    DividesBy(d, y, k * l);
  }

  lemma DividesSmaller(d: int, x: int)
    requires Divides(d, x) && x > 0
    ensures d <= x
  {
    var k :| x == Times(d, k);
    if d > x {
      if k >= 1 {
        MultipleFar(d, k);
      } else {
        NotPositive(d, k);
      }
    }
  }

  lemma NotPositive(d: int, k: int)
    requires d >= 0 && k <= 0
    ensures d * k <= 0
  {
  }

  lemma RemainderDivides(d: int, x: int)
    requires d > 0
    ensures x % d == 0 <==> Divides(d, x)
  {
    if x % d == 0 {
      DividesBy(d, x, x / d);
    }
    if k :| x == Times(d, k) {
      FloorUnique(k, x / d, x, d);
    }
  }

  // ----- the greatest common divisor -----

  ghost predicate IsCommon(d: int, m: int, n: int) {
    Divides(d, m) && Divides(d, n)
  }

  ghost predicate Combines(g: int, m: int, n: int) {
    exists s, t :: g == Times(s, m) + Times(t, n)
  }

  /** The positive greatest common divisor; it is also a combination of the two numbers. */
  ghost predicate IsGcd(g: int, m: int, n: int) {
    && g > 0 && IsCommon(g, m, n) && (forall d :: IsCommon(d, m, n) ==> d <= g && Divides(d, g))
    && Combines(g, m, n)
  }

  lemma CombinesSelf(m: int, n: int)
    ensures Combines(m, m, n) && Combines(n, m, n)
  {
    assert m == Times(1, m) + Times(0, n);
    assert n == Times(0, m) + Times(1, n);
  }

  lemma CombinesStep(x: int, y: int, q: int, m: int, n: int)
    requires Combines(x, m, n) && Combines(y, m, n)
    ensures Combines(x - y * q, m, n)
  {
    var s, t :| x == Times(s, m) + Times(t, n);
    var s', t' :| y == Times(s', m) + Times(t', n);
    var s'', t'' := s - q * s', t - q * t';
    assert (q * s') * m == q * (s' * m) && (q * t') * n == q * (t' * n);
    assert s'' * m == s * m - (q * s') * m && t'' * n == t * n - (q * t') * n;
    assert y * q == q * (s' * m) + q * (t' * n);
    assert x - y * q == Times(s'', m) + Times(t'', n);
  }

  lemma CombinesNegated(x: int, m: int, n: int)
    requires Combines(x, m, n)
    ensures Combines(-x, m, n)
  {
    var s, t :| x == Times(s, m) + Times(t, n);
    assert (-s) * m == -(s * m) && (-t) * n == -(t * n);
    assert -x == Times(-s, m) + Times(-t, n);
  }

  lemma CommonStep(d: int, m: int, n: int, q: int)
    ensures IsCommon(d, m - n * q, n) <==> IsCommon(d, m, n)
  {
    if IsCommon(d, m - n * q, n) {
      DividesCombination(d, m - n * q, n, q);
    }
    if IsCommon(d, m, n) {
      DividesCombination(d, m, n, q);
    }
  }

  /** The state of Euclid's algorithm: x and y have the common divisors of m and n, and combine them. */
  ghost predicate Euclid(x: int, y: int, m: int, n: int) {
    && (forall d :: IsCommon(d, x, y) <==> IsCommon(d, m, n))
    && Combines(x, m, n) && Combines(y, m, n)
  }

  lemma EuclidStep(x: int, y: int, m: int, n: int)
    requires y != 0 && Euclid(x, y, m, n)
    ensures Euclid(TruncRem(x, y), y, m, n) && Euclid(y, TruncRem(x, y), m, n)
  {
    var q := TruncDiv(x, y);
    CombinesStep(x, y, q, m, n);
    forall d
      ensures IsCommon(d, TruncRem(x, y), y) <==> IsCommon(d, m, n)
    {
      CommonStep(d, x, y, q);
    }
  }

  lemma DividesAbs(d: int, y: int)
    requires Divides(d, y)
    ensures Divides(d, Abs(y))
  {
    var k :| y == Times(d, k);
    assert d * (-k) == -(d * k);
    DividesBy(d, Abs(y), if y >= 0 then k else -k);
  }

  lemma AbsDivides(y: int)
    ensures Divides(Abs(y), y) && Divides(Abs(y), 0)
  {
    DividesBy(Abs(y), y, if y >= 0 then 1 else -1);
    DividesBy(Abs(y), 0, 0);
  }

  /** When the remainder is zero, the other number is the greatest common divisor, up to its sign. */
  lemma EuclidEnds(y: int, m: int, n: int)
    requires y != 0 && Euclid(0, y, m, n)
    ensures IsGcd(Abs(y), m, n)
  {
    hide Divides, Combines, Times;
    var g := Abs(y);
    CombinesNegated(y, m, n);
    AbsDivides(y);
    assert IsCommon(g, 0, y);
    forall d | IsCommon(d, m, n)
      ensures d <= g && Divides(d, g)
    {
      assert IsCommon(d, 0, y);
      DividesAbs(d, y);
      DividesSmaller(d, g);
    }
  }

  /** Fails if both are zero, of which every number is a divisor. */
  method Gcd(m0: int, n0: int) returns (g: Option<int>)
    ensures g.None? <==> m0 == 0 && n0 == 0
    ensures g.Some? ==> IsGcd(g.value, m0, n0)
  {
    hide Euclid, IsGcd, Combines, IsCommon;
    var m, n := m0, n0;
    EuclidBegins(m, n);
    if m == 0 || n == 0 {
      if m == 0 && n == 0 {
        return None;
      }
      EuclidEnds(if m == 0 then n else m, m0, n0);
      return Some(if m == 0 then (if n > 0 then n else -n) else (if m > 0 then m else -m));
    }
    while true
      invariant n != 0 && Euclid(m, n, m0, n0)
      decreases Abs(n)
    {
      EuclidStep(m, n, m0, n0);
      TruncRemSmall(m, n);
      m := TruncRem(m, n);
      if m == 0 {
        EuclidEnds(n, m0, n0);
        return Some(if n > 0 then n else -n);
      }
      EuclidStep(n, m, m0, n0);
      TruncRemSmall(n, m);
      n := TruncRem(n, m);
      if n == 0 {
        EuclidEnds(m, m0, n0);
        return Some(if m > 0 then m else -m);
      }
    }
  }

  lemma EuclidBegins(m: int, n: int)
    ensures Euclid(m, n, m, n) && Euclid(n, m, m, n)
  {
    CombinesSelf(m, n);
  }

  // ----- the least common multiple -----

  /** The least positive common multiple; it divides every other one. */
  ghost predicate IsLcm(l: int, m: int, n: int) {
    && l > 0 && Divides(m, l) && Divides(n, l)
    && forall c :: c > 0 && Divides(m, c) && Divides(n, c) ==> Divides(l, c) && l <= c
  }

  lemma LcmFromGcd(m: int, n: int, g: int, a: int, b: int)
    requires m > 0 && n > 0 && IsGcd(g, m, n) && m == g * a && n == g * b
    ensures IsLcm(g * a * b, m, n)
  {
    var l := g * a * b;
    DividesBy(m, l, b);
    assert l == n * a by {
      assert (g * a) * b == (g * b) * a;
    }
    DividesBy(n, l, a);
    Positive(g, a, m);
    Positive(g, b, n);
    Positive(1, l, l);
    forall c | c > 0 && Divides(m, c) && Divides(n, c)
      ensures Divides(l, c) && l <= c
    {
      MultipleOfLcm(m, n, g, a, b, c);
      DividesSmaller(l, c);
    }
  }

  lemma Positive(g: int, a: int, m: int)
    requires g > 0 && m > 0 && m == g * a
    ensures a > 0
  {
    if a <= 0 {
      NotPositive(g, a);
    }
  }

  lemma MultipleOfLcm(m: int, n: int, g: int, a: int, b: int, c: int)
    requires g > 0 && Combines(g, m, n) && m == g * a && n == g * b && Divides(m, c) && Divides(n, c)
    ensures Divides(g * a * b, c)
  {
    var s, t :| g == Times(s, m) + Times(t, n);
    var x :| c == Times(m, x);
    var y :| c == Times(n, y);
    var l := g * a * b;
    LcmAlgebra(g, a, b, s, t, x, y, m, n, c);
    CancelLeft(g, c, l * (s * y + t * x));
    DividesBy(l, c, s * y + t * x);
  }

  lemma Rearranged(s: int, m: int, n: int, y: int)
    ensures (s * m) * (n * y) == (m * n) * (s * y)
  {
  }

  lemma Distributed(k: int, p: int, q: int)
    ensures k * p + k * q == k * (p + q)
  {
  }

  lemma Associated(p: int, q: int, r: int)
    ensures (p * q) * r == p * (q * r)
  {
  }

  /** g * c is s * m * (n * y) + t * n * (m * x), and m * n is g times g * a * b. */
  lemma LcmAlgebra(g: int, a: int, b: int, s: int, t: int, x: int, y: int, m: int, n: int, c: int)
    requires m == g * a && n == g * b && g == s * m + t * n && c == m * x && c == n * y
    ensures g * c == g * ((g * a * b) * (s * y + t * x))
  {
    var l, k := g * a * b, s * y + t * x;
    calc {
      g * c;
    ==
      (s * m + t * n) * c;
    == { Distributed(c, s * m, t * n); }
      (s * m) * c + (t * n) * c;
    ==
      (s * m) * (n * y) + (t * n) * (m * x);
    == { Rearranged(s, m, n, y); Rearranged(t, n, m, x); Associated(1, m, n); }
      (m * n) * (s * y) + (m * n) * (t * x);
    == { Distributed(m * n, s * y, t * x); }
      (m * n) * k;
    == { ProductOfMultiples(g, a, b, m, n); }
      (g * l) * k;
    == { Associated(g, l, k); }
      g * (l * k);
    }
  }

  lemma ProductOfMultiples(g: int, a: int, b: int, m: int, n: int)
    requires m == g * a && n == g * b
    ensures m * n == g * (g * a * b)
  {
    assert (g * a) * (g * b) == g * (g * a * b);
  }

  lemma CancelLeft(g: int, x: int, y: int)
    requires g != 0 && g * x == g * y
    ensures x == y
  {
    assert g * (x - y) == g * x - g * y;
    if x != y {
      NotZero(g, x - y);
    }
  }

  lemma NotZero(g: int, z: int)
    requires g != 0 && z != 0
    ensures g * z != 0
  {
    SignOfProduct(g, z);
    SignOfProduct(g, -z);
    assert g * (-z) == -(g * z);
  }

  method Lcm(m: int, n: int) returns (l: int)
    requires m > 0 && n > 0
    ensures IsLcm(l, m, n)
  {
    var gcd := Gcd(m, n);
    var g := gcd.value;
    RemainderDivides(g, m);
    RemainderDivides(g, n);
    LcmFromGcd(m, n, g, m / g, n / g);
    return g * (m / g) * (n / g);
  }

  // ----- factors -----

  ghost predicate IsPrime(p: int) {
    p >= 2 && forall d :: 2 <= d < p ==> !Divides(d, p)
  }

  /** No number from 2 up to, but not including, j divides m. */
  ghost predicate NoDivisorBelow(m: int, j: int) {
    forall d :: 2 <= d < j ==> !Divides(d, m)
  }

  /** Some number from 2 up to j divides d. */
  ghost predicate DivisorUpTo(j: int, d: int) {
    exists p :: 2 <= p <= j && Divides(p, d)
  }

  function Product(factors: seq<int>): int {
    if factors == [] then 1 else Product(factors[..|factors| - 1]) * factors[|factors| - 1]
  }

  ghost predicate Nondecreasing(factors: seq<int>) {
    forall i, j :: 0 <= i < j < |factors| ==> factors[i] <= factors[j]
  }

  /** What has been split off so far, with j the next number to try. */
  ghost predicate Factored(m0: int, m: int, factors: seq<int>, j: int) {
    && m >= 1 && j >= 2 && Product(factors) * m == m0
    && (forall p :: p in factors ==> IsPrime(p) && p <= j) && Nondecreasing(factors)
    && NoDivisorBelow(m, j)
  }

  lemma FactoredStarts(m: int)
    requires m >= 1
    ensures Factored(m, m, [], 2)
  {
  }

  /** The least divisor of a number is prime. */
  lemma LeastDivisorPrime(m: int, j: int)
    requires j >= 2 && Divides(j, m) && NoDivisorBelow(m, j)
    ensures IsPrime(j)
  {
    forall d | 2 <= d < j
      ensures !Divides(d, j)
    {
      if Divides(d, j) {
        DividesTransitive(d, j, m);
      }
    }
  }

  lemma QuotientDivides(m: int, j: int)
    requires m >= 1 && j >= 2 && m % j == 0
    ensures m == j * (m / j) && 1 <= m / j < m && Divides(m / j, m)
  {
    DividesBy(m / j, m, j);
  }

  lemma QuotientKeeps(m: int, j: int)
    requires m >= 1 && j >= 2 && m % j == 0 && NoDivisorBelow(m, j)
    ensures NoDivisorBelow(m / j, j)
  {
    QuotientDivides(m, j);
    forall d | 2 <= d < j
      ensures !Divides(d, m / j)
    {
      if Divides(d, m / j) {
        DividesTransitive(d, m / j, m);
      }
    }
  }

  lemma ProductSnoc(factors: seq<int>, j: int, m: int)
    ensures Product(factors + [j]) * m == Product(factors) * (j * m)
  {
    assert (factors + [j])[..|factors|] == factors;
    Associated(Product(factors), j, m);
  }

  /** One more factor j. */
  lemma FactorSplitOff(m0: int, m: int, factors: seq<int>, j: int)
    requires Factored(m0, m, factors, j) && m % j == 0
    ensures Factored(m0, m / j, factors + [j], j) && m / j < m
  {
    hide IsPrime, Divides, NoDivisorBelow, Product;
    QuotientDivides(m, j);
    RemainderDivides(j, m);
    LeastDivisorPrime(m, j);
    QuotientKeeps(m, j);
    ProductSnoc(factors, j, m / j);
    assert forall i :: 0 <= i < |factors| ==> factors[i] in factors;
  }

  /** Once j does not divide m any more, nor does any multiple of a number up to j: go on with j'. */
  lemma FactorsUpTo(m0: int, m: int, factors: seq<int>, j: int, j': int)
    requires Factored(m0, m, factors, j) && m % j != 0 && j < j'
    requires forall d :: j < d < j' ==> DivisorUpTo(j, d)
    ensures Factored(m0, m, factors, j')
  {
    hide IsPrime, Divides;
    RemainderDivides(j, m);
    forall d | 2 <= d < j'
      ensures !Divides(d, m)
    {
      if Divides(d, m) && d > j {
        assert DivisorUpTo(j, d);
        var p :| 2 <= p <= j && Divides(p, d);
        DividesTransitive(p, d, m);
      }
    }
  }

  /** All that is left is a number that its own value is the least to divide. */
  lemma LeftIsLarge(m0: int, m: int, factors: seq<int>, j: int)
    requires Factored(m0, m, factors, j) && m > 1
    ensures m >= j
  {
    DividesBy(m, m, 1);
  }

  const SMALL_FACTORS := [2, 3, 5, 7, 11, 13, 17, 19, 23, 29]

  /** The first number after the i-th small factor that has to be tried. */
  function NextToTry(i: nat): int
    requires i < 10
  {
    if i < 9 then SMALL_FACTORS[i + 1] else 31
  }

  /** Between two small factors there are only multiples of 2, 3 and 5. */
  lemma GapsAreMultiples(i: nat, d: int)
    requires i < 10 && SMALL_FACTORS[i] < d < NextToTry(i)
    ensures DivisorUpTo(SMALL_FACTORS[i], d)
  {
    if d % 2 == 0 {
      RemainderDivides(2, d);
    } else if d % 3 == 0 {
      RemainderDivides(3, d);
    } else {
      assert d == 25;
      RemainderDivides(5, d);
    }
  }

  lemma EvenIsMultiple(j: int)
    requires j >= 2 && j % 2 == 1
    ensures forall d :: j < d < j + 2 ==> DivisorUpTo(j, d)
  {
    RemainderDivides(2, j + 1);
  }

  /** Splits off j as often as it goes. */
  method DivideOut(ghost m0: int, m1: int, factors0: seq<int>, j: int) returns (m: int, factors: seq<int>)
    requires Factored(m0, m1, factors0, j)
    ensures Factored(m0, m, factors, j) && m % j != 0 && m <= m1
  {
    hide Factored;
    m, factors := m1, factors0;
    FactoredPositive(m0, m, factors, j);
    while m % j == 0
      invariant Factored(m0, m, factors, j) && 1 <= m <= m1
      decreases m
    {
      FactorSplitOff(m0, m, factors, j);
      m, factors := m / j, factors + [j];
      FactoredPositive(m0, m, factors, j);
    }
  }

  lemma FactoredPositive(m0: int, m: int, factors: seq<int>, j: int)
    requires Factored(m0, m, factors, j)
    ensures m >= 1 && j >= 2
  {
  }

  lemma Complete(m0: int, factors: seq<int>, j: int)
    requires Factored(m0, 1, factors, j)
    ensures Product(factors) == m0 && Nondecreasing(factors) && forall p :: p in factors ==> IsPrime(p)
  {
  }

  /** The prime factors, in order. */
  method Factorize(m0: int) returns (factors: seq<int>)
    requires m0 >= 1
    ensures Product(factors) == m0 && Nondecreasing(factors) && forall p :: p in factors ==> IsPrime(p)
  {
    hide Factored, IsPrime, Product, Nondecreasing, Divides;
    var m := m0;
    factors := [];
    FactoredStarts(m0);
    for i := 0 to 10
      invariant Factored(m0, m, factors, if i == 0 then 2 else NextToTry(i - 1))
    {
      if m == 1 {
        Complete(m0, factors, SMALL_FACTORS[i]);
        return;
      }
      m, factors := DivideOut(m0, m, factors, SMALL_FACTORS[i]);
      forall d | SMALL_FACTORS[i] < d < NextToTry(i)
        ensures DivisorUpTo(SMALL_FACTORS[i], d)
      {
        GapsAreMultiples(i, d);
      }
      FactorsUpTo(m0, m, factors, SMALL_FACTORS[i], NextToTry(i));
    }
    var j := 31;
    while true
      invariant j % 2 == 1 && j >= 31 && Factored(m0, m, factors, j)
      decreases m - j + 2
    {
      if m == 1 {
        Complete(m0, factors, j);
        return;
      }
      FactoredPositive(m0, m, factors, j);
      LeftIsLarge(m0, m, factors, j);
      m, factors := DivideOut(m0, m, factors, j);
      EvenIsMultiple(j);
      FactorsUpTo(m0, m, factors, j, j + 2);
      j := j + 2;
    }
  }
}
