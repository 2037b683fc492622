/** The k-th smallest element, by its specification. */
module OrderStatistics {

  function CountLess(ws: seq<int>, x: int): nat {
    if ws == [] then 0 else CountLess(ws[..|ws| - 1], x) + if ws[|ws| - 1] < x then 1 else 0
  }

  function CountAtMost(ws: seq<int>, x: int): nat {
    CountLess(ws, x + 1)
  }

  lemma {:induction false} CountMonotone(ws: seq<int>, x: int, y: int)
    requires x <= y
    ensures CountLess(ws, x) <= CountLess(ws, y) <= |ws|
  {
    if ws != [] {
      CountMonotone(ws[..|ws| - 1], x, y);
    }
  }

  /** If nothing lies between two bounds, they count the same. */
  lemma {:induction false} CountGap(ws: seq<int>, x: int, y: int)
    requires x <= y && forall i :: 0 <= i < |ws| ==> ws[i] < x || ws[i] >= y
    ensures CountLess(ws, x) == CountLess(ws, y)
  {
    if ws != [] {
      CountGap(ws[..|ws| - 1], x, y);
    }
  }

  lemma {:induction false} CountAll(ws: seq<int>, x: int)
    requires forall i :: 0 <= i < |ws| ==> ws[i] < x
    ensures CountLess(ws, x) == |ws|
  {
    if ws != [] {
      CountAll(ws[..|ws| - 1], x);
    }
  }

  /** The largest element below x. */
  lemma {:induction false} Predecessor(ws: seq<int>, x: int) returns (v: int)
    requires CountLess(ws, x) > 0
    ensures v in ws && v < x && forall i :: 0 <= i < |ws| && ws[i] < x ==> ws[i] <= v
  {
    var front, last := ws[..|ws| - 1], ws[|ws| - 1];
    if last >= x {
      v := Predecessor(front, x);
    } else if CountLess(front, x) == 0 {
      v := last;
      NoneLess(front, x);
    } else {
      v := Predecessor(front, x);
      if v < last {
        v := last;
      }
    }
  }

  lemma {:induction false} NoneLess(ws: seq<int>, x: int)
    requires CountLess(ws, x) == 0
    ensures forall i :: 0 <= i < |ws| ==> ws[i] >= x
  {
    if ws != [] {
      NoneLess(ws[..|ws| - 1], x);
    }
  }

  /** The element that sorting would put at index k: at most k are smaller, more than k are no larger. */
  ghost predicate IsNth(ws: seq<int>, k: nat, v: int) {
    v in ws && CountLess(ws, v) <= k < CountAtMost(ws, v)
  }

  lemma SmallestIsNth(ws: seq<int>, k: nat, v: int)
    requires v in ws && k < CountAtMost(ws, v)
    requires forall i :: 0 <= i < |ws| && k < CountAtMost(ws, ws[i]) ==> v <= ws[i]
    ensures IsNth(ws, k, v)
  {
    if CountLess(ws, v) > k {
      var w := Predecessor(ws, v);
      CountGap(ws, w + 1, v);
    }
  }

  method NthElement(ws: seq<int>, k: nat) returns (v: int)
    requires k < |ws|
    ensures IsNth(ws, k, v)
  {
    var largest := ws[0];
    for i := 0 to |ws|
      invariant largest in ws && forall j :: 0 <= j < i ==> ws[j] <= largest
    {
      if ws[i] > largest {
        largest := ws[i];
      }
    }
    CountAll(ws, largest + 1);
    v := largest;
    for i := 0 to |ws|
      invariant v in ws && k < CountAtMost(ws, v)
      invariant forall j :: 0 <= j < i && k < CountAtMost(ws, ws[j]) ==> v <= ws[j]
    {
      if ws[i] < v && k < CountAtMost(ws, ws[i]) {
        v := ws[i];
      }
    }
    SmallestIsNth(ws, k, v);
  }

  ghost function Below<T>(costs: map<T, int>, x: int): set<T> {
    set t | t in costs && costs[t] < x
  }

  /** ws lists the costs of the keys in order, each key once. */
  ghost predicate Lists<T>(ws: seq<int>, order: seq<T>, costs: map<T, int>) {
    && |ws| == |order|
    && (forall i :: 0 <= i < |order| ==> order[i] in costs && ws[i] == costs[order[i]])
    && forall i, j :: 0 <= i < j < |order| ==> order[i] != order[j]
  }

  /** Counting in a list of costs counts the keys that were listed. */
  lemma {:induction false} CountIsCardinality<T>(ws: seq<int>, order: seq<T>, costs: map<T, int>, x: int)
    requires Lists(ws, order, costs)
    ensures CountLess(ws, x) == |Below(costs, x) * (set t | t in order)|
  {
    if order == [] {
      assert (set t | t in order) == {};
    } else {
      var front, last := order[..|order| - 1], order[|order| - 1];
      CountIsCardinality(ws[..|ws| - 1], front, costs, x);
      hide Below;
      assert order == front + [last];
      assert (set t | t in order) == (set t | t in front) + {last};
      BelowSplits(costs, x, (set t | t in front), last);
    }
  }

  lemma BelowSplits<T>(costs: map<T, int>, x: int, front: set<T>, last: T)
    requires last in costs && last !in front
    ensures |Below(costs, x) * (front + {last})| == |Below(costs, x) * front| + if costs[last] < x then 1 else 0
  {
    var low := Below(costs, x) * front;
    if costs[last] < x {
      assert Below(costs, x) * (front + {last}) == low + {last};
    } else {
      assert Below(costs, x) * (front + {last}) == low;
    }
  }

  /** At most max keys cost less than x, more than max cost no more. */
  ghost predicate ActiveBound<T>(costs: map<T, int>, max: nat, x: int) {
    |Below(costs, x)| <= max < |Below(costs, x + 1)|
  }

  lemma NthIsActiveBound<T>(ws: seq<int>, order: seq<T>, costs: map<T, int>, k: nat, x: int)
    requires Lists(ws, order, costs) && (forall t :: t in costs ==> t in order) && IsNth(ws, k, x)
    ensures ActiveBound(costs, k, x) && exists t :: t in costs && costs[t] == x
  {
    CountIsCardinality(ws, order, costs, x);
    CountIsCardinality(ws, order, costs, x + 1);
    var all := set t | t in order;
    assert Below(costs, x) * all == Below(costs, x);
    assert Below(costs, x + 1) * all == Below(costs, x + 1);
    var i :| 0 <= i < |ws| && ws[i] == x;
    assert costs[order[i]] == x;
  }
}
