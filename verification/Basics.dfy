/** What several components share. */
module Basics {
  datatype Option<+T> = None | Some(value: T)

  const TWO_31 := 0x8000_0000
  const TWO_32 := 0x1_0000_0000

  /** The largest 32-bit integer stands for no limit. */
  const UNLIMITED := TWO_31 - 1

  type Int32 = x: int | -TWO_31 <= x < TWO_31

  /** A 32-bit pattern, read as a signed integer. */
  function AsSigned(u: nat): Int32
    requires u < TWO_32
  {
    if u < TWO_31 then u else u - TWO_32
  }

  ghost predicate NoDuplicates<T>(s: seq<T>) {
    forall i, j :: 0 <= i < j < |s| ==> s[i] != s[j]
  }

  lemma NoneTwice<T>()
    ensures NoDuplicates<T>([])
  {
  }

  lemma OneMore<T>(s: seq<T>, x: T)
    requires NoDuplicates(s) && x !in s
    ensures NoDuplicates(s + [x])
  {
  }

  lemma SubsetCount<T>(a: set<T>, b: set<T>)
    requires a <= b
    ensures |a| <= |b|
  {
    assert b == a + (b - a);
  }

  /** The numbers 0, ..., n - 1. */
  ghost function UpTo(n: nat): (ks: set<nat>)
    ensures |ks| == n && forall k: nat :: k in ks <==> k < n
  {
    if n == 0 then {} else UpTo(n - 1) + {n - 1}
  }
}
