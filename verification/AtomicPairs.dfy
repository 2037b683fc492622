/** Minimum and subtraction on a pair of integers in one 64-bit word, by compare-and-swap loops. */
module AtomicPairs {
  import opened Basics
  import opened Schedules

  datatype Pair = Pair(x: Int32, y: Int32)

  /** A call of atomicMinI2 or atomicSubI2. */
  datatype Call = MinI2(val: Pair) | SubI2(val: Pair)

  /** The value of an integer in 32 bits. */
  function Wrap(x: int): Int32 {
    AsSigned(x % TWO_32)
  }

  function Minus(a: Pair, b: Pair): Pair {
    Pair(Wrap(a.x - b.x), Wrap(a.y - b.y))
  }

  /** Of all 32-bit integers, the one that differs from x by a multiple of 2^32. */
  lemma WrapIs(x: int, y: Int32)
    ensures y == Wrap(x) <==> (y - x) % TWO_32 == 0
  {
    var k, j := x / TWO_32, (y - x) / TWO_32;
    assert x == k * TWO_32 + x % TWO_32 && y - x == j * TWO_32 + (y - x) % TWO_32;
    assert Wrap(x) - x == -k * TWO_32 || Wrap(x) - x == -(k + 1) * TWO_32;
  }

  /** What a call is meant to do to the location, all at once. */
  function Apply(call: Call, mem: Pair): Pair {
    match call
    case MinI2(val) => if mem.x <= val.x then mem else val
    case SubI2(val) => Minus(mem, val)
  }

  datatype Pc = Start | Trying(assumed: Pair) | Done

  datatype Thread = Thread(call: Call, pc: Pc)

  datatype State = State(mem: Pair, threads: seq<Thread>)

  /** What a call's next access to the location does: the first read, or a compare-and-swap. */
  function Access(call: Call, pc: Pc, mem: Pair): (Pair, Pc) {
    match pc
    case Start =>
      if call.MinI2? && mem.x <= call.val.x then (mem, Done) else (mem, Trying(mem))
    case Trying(assumed) =>
      if mem == assumed then (if call.MinI2? then call.val else Minus(assumed, call.val), Done)
      else if call.MinI2? && mem.x <= call.val.x then (mem, Done)
      else (mem, Trying(mem))
    case Done => (mem, Done)
  }

  function Step(s: State, t: nat): State {
    if t >= |s.threads| then s else
      var (mem, pc) := Access(s.threads[t].call, s.threads[t].pc, s.mem);
      State(mem, s.threads[t := s.threads[t].(pc := pc)])
  }

  function Run(s: State, schedule: seq<nat>): State {
    if schedule == [] then s else Step(Run(s, schedule[..|schedule| - 1]), schedule[|schedule| - 1])
  }

  /** A minimum goes on trying only for a value below what it has seen. */
  ghost predicate Inv(s: State) {
    forall t :: 0 <= t < |s.threads| && s.threads[t].call.MinI2? && s.threads[t].pc.Trying? ==>
      s.threads[t].call.val.x < s.threads[t].pc.assumed.x
  }

  ghost predicate Init(s: State) {
    forall t :: 0 <= t < |s.threads| ==> s.threads[t].pc.Start?
  }

  ghost predicate Finishes(s: State, t: nat) {
    t < |s.threads| && !s.threads[t].pc.Done? && Step(s, t).threads[t].pc.Done?
  }

  /** A call takes effect at once, at the step that ends it, and has no effect before. */
  lemma StepTakesEffect(s: State, t: nat)
    requires Inv(s)
    ensures Inv(Step(s, t))
    ensures Step(s, t).mem == if Finishes(s, t) then Apply(s.threads[t].call, s.mem) else s.mem
    ensures |Step(s, t).threads| == |s.threads|
    ensures forall r :: 0 <= r < |s.threads| ==> Step(s, t).threads[r].call == s.threads[r].call
    ensures forall r :: 0 <= r < |s.threads| && s.threads[r].pc.Done? ==> Step(s, t).threads[r].pc.Done?
  {
  }

  // ----- any interleaving is a sequence of whole calls -----

  /** The calls in the order in which they end. */
  ghost function EndOrder(s: State, schedule: seq<nat>): seq<nat> {
    if schedule == [] then [] else
      var front, t := schedule[..|schedule| - 1], schedule[|schedule| - 1];
      if Finishes(Run(s, front), t) then EndOrder(s, front) + [t] else EndOrder(s, front)
  }

  ghost function ApplyAll(mem: Pair, threads: seq<Thread>, order: seq<nat>): Pair {
    if order == [] then mem else
      var before := ApplyAll(mem, threads, order[..|order| - 1]);
      var t := order[|order| - 1];
      if t < |threads| then Apply(threads[t].call, before) else before
  }

  /** The location holds what the finished calls, one after another, would have made of it. */
  lemma {:induction false} Linearizable(s: State, schedule: seq<nat>)
    requires Init(s)
    ensures var s', order := Run(s, schedule), EndOrder(s, schedule);
      && Inv(s') && |s'.threads| == |s.threads|
      && (forall r :: 0 <= r < |s.threads| ==> s'.threads[r].call == s.threads[r].call)
      && (forall t: nat :: t in order <==> t < |s.threads| && s'.threads[t].pc.Done?)
      && NoDuplicates(order)
      && s'.mem == ApplyAll(s.mem, s.threads, order)
  {
    hide Access, Apply, Inv, NoDuplicates;
    if schedule == [] {
      StartInv(s);
      NoneTwice<nat>();
    } else {
      var front, t := schedule[..|schedule| - 1], schedule[|schedule| - 1];
      Linearizable(s, front);
      var s1, order := Run(s, front), EndOrder(s, front);
      StepTakesEffect(s1, t);
      if Finishes(s1, t) {
        OneMore(order, t);
        assert (order + [t])[..|order|] == order;
        assert ApplyAll(s.mem, s.threads, order + [t]) == Apply(s.threads[t].call, s1.mem);
      }
    }
  }

  lemma StartInv(s: State)
    requires Init(s)
    ensures Inv(s)
  {
  }

  /** A compare-and-swap fails only after another call has taken effect since the thread's last access. */
  lemma {:induction false} FailureMeansProgress(s: State, schedule: seq<nat>, t: nat)
    requires t < |s.threads| && s.threads[t].pc == Trying(s.mem) && t !in schedule
    ensures var s' := Run(s, schedule);
      && |s'.threads| == |s.threads| && s'.threads[t] == s.threads[t]
      && (s'.mem != s.mem ==> EndOrder(s, schedule) != [])
      && (!Finishes(s', t) ==> EndOrder(s, schedule) != [])
  {
    if schedule != [] {
      var front, r := schedule[..|schedule| - 1], schedule[|schedule| - 1];
      assert schedule == front + [r];
      FailureMeansProgress(s, front, t);
    }
  }

  // ----- every call ends -----

  /** The other calls that have not ended. */
  ghost function Unfinished(s: State, t: nat): set<nat> {
    set r: nat | r < |s.threads| && r != t && !s.threads[r].pc.Done?
  }

  /** A bound on the accesses that thread t still needs: each further one is owed to another call's taking effect. */
  ghost function Remaining(s: State, t: nat): nat
    requires t < |s.threads|
  {
    match s.threads[t].pc
    case Done => 0
    case Start => |Unfinished(s, t)| + 2
    case Trying(assumed) => |Unfinished(s, t)| + if assumed == s.mem then 1 else 2
  }

  lemma StepUnfinished(s: State, t: nat, r: nat)
    requires Inv(s) && t < |s.threads| && r < |s.threads|
    ensures r == t ==> Unfinished(Step(s, r), t) == Unfinished(s, t)
    ensures r != t && Finishes(s, r) ==> |Unfinished(Step(s, r), t)| == |Unfinished(s, t)| - 1
    ensures !Finishes(s, r) ==> Unfinished(Step(s, r), t) == Unfinished(s, t)
  {
    StepTakesEffect(s, r);
    hide Access, Inv;
    if r != t && Finishes(s, r) {
      assert Unfinished(Step(s, r), t) == Unfinished(s, t) - {r};
    }
  }

  lemma StepRemaining(s: State, t: nat, r: nat)
    requires Inv(s) && t < |s.threads|
    ensures |Step(s, r).threads| == |s.threads| && Inv(Step(s, r))
    ensures var before, after := Remaining(s, t), Remaining(Step(s, r), t);
      after <= before && (r == t && before > 0 ==> after < before)
  {
    StepTakesEffect(s, r);
    if r < |s.threads| {
      StepUnfinished(s, t, r);
      hide Unfinished;
    }
  }

  /** Whatever the others do, a call ends after at most as many accesses as there are threads, and one more. */
  lemma {:induction false} GetsThrough(s: State, schedule: seq<nat>, t: nat)
    requires Init(s) && t < |s.threads|
    ensures var s' := Run(s, schedule);
      && |s'.threads| == |s.threads| && Inv(s')
      && (Remaining(s', t) == 0 || Remaining(s', t) <= |s.threads| + 1 - Turns(schedule, t))
    ensures Turns(schedule, t) >= |s.threads| + 1 ==> Run(s, schedule).threads[t].pc.Done?
  {
    hide Step, Inv;
    if schedule == [] {
      StartInv(s);
      AllUnfinished(s, t);
    } else {
      var front, r := schedule[..|schedule| - 1], schedule[|schedule| - 1];
      GetsThrough(s, front, t);
      StepRemaining(Run(s, front), t, r);
    }
  }

  lemma AllUnfinished(s: State, t: nat)
    requires t < |s.threads|
    ensures |Unfinished(s, t)| <= |s.threads| - 1
  {
    var all := UpTo(|s.threads|);
    SubsetCount(Unfinished(s, t), all - {t});
  }

  /** Every thread has had turns enough. */
  ghost predicate Fair(s: State, schedule: seq<nat>) {
    forall t: nat :: t < |s.threads| ==> Turns(schedule, t) >= |s.threads| + 1
  }

  ghost predicate AllDone(s: State) {
    forall t :: 0 <= t < |s.threads| ==> s.threads[t].pc.Done?
  }

  lemma FairRunEnds(s: State, schedule: seq<nat>)
    requires Init(s) && Fair(s, schedule)
    ensures AllDone(Run(s, schedule)) && |Run(s, schedule).threads| == |s.threads|
  {
    Linearizable(s, schedule);
    hide Run, Turns, EndOrder;
    forall t: nat | t < |s.threads|
      ensures Run(s, schedule).threads[t].pc.Done?
    {
      GetsThrough(s, schedule, t);
    }
  }

  // ----- minima -----

  lemma {:induction false} MinOfAll(mem: Pair, threads: seq<Thread>, order: seq<nat>)
    requires forall t: nat :: t in order ==> t < |threads| && threads[t].call.MinI2?
    ensures var r := ApplyAll(mem, threads, order);
      && (forall t: nat :: t in order ==> r.x <= threads[t].call.val.x)
      && (r == mem || (r.x < mem.x && exists t: nat :: t in order && r == threads[t].call.val))
  {
    if order != [] {
      var front := order[..|order| - 1];
      assert order == front + [order[|order| - 1]];
      assert forall t: nat :: t in front ==> t in order;
      MinOfAll(mem, threads, front);
      assert order[|order| - 1] in order;
    }
  }

  /** Whatever the interleaving of minima, once every thread has had turns enough
      the least x is there, in one of the pairs; the pair that was there stays unless a call has a lesser x. */
  lemma MinimaEnd(s: State, schedule: seq<nat>)
    requires Init(s) && Fair(s, schedule)
    requires forall t :: 0 <= t < |s.threads| ==> s.threads[t].call.MinI2?
    ensures var r := Run(s, schedule).mem;
      && (forall t: nat :: t < |s.threads| ==> r.x <= s.threads[t].call.val.x)
      && (r == s.mem || (r.x < s.mem.x && exists t: nat :: t < |s.threads| && r == s.threads[t].call.val))
  {
    FairRunEnds(s, schedule);
    hide Run, Init, EndOrder, ApplyAll, Inv;
    Linearizable(s, schedule);
    MinOfAll(s.mem, s.threads, EndOrder(s, schedule));
  }

  // ----- subtractions -----

  ghost function SumX(threads: seq<Thread>): int {
    if threads == [] then 0 else SumX(threads[..|threads| - 1]) + threads[|threads| - 1].call.val.x
  }

  ghost function SumY(threads: seq<Thread>): int {
    if threads == [] then 0 else SumY(threads[..|threads| - 1]) + threads[|threads| - 1].call.val.y
  }

  /** The calls that have ended. */
  ghost function Ended(threads: seq<Thread>): seq<Thread> {
    if threads == [] then [] else
      var front, last := Ended(threads[..|threads| - 1]), threads[|threads| - 1];
      if last.pc.Done? then front + [last] else front
  }

  lemma {:induction false} EndedGrows(threads: seq<Thread>, t: nat)
    requires t < |threads| && !threads[t].pc.Done?
    ensures var threads' := threads[t := threads[t].(pc := Done)];
      && SumX(Ended(threads')) == SumX(Ended(threads)) + threads[t].call.val.x
      && SumY(Ended(threads')) == SumY(Ended(threads)) + threads[t].call.val.y
  {
    var n := |threads| - 1;
    var threads' := threads[t := threads[t].(pc := Done)];
    if t == n {
      assert threads'[..n] == threads[..n];
      SumSnoc(Ended(threads[..n]), threads'[n]);
    } else {
      EndedGrows(threads[..n], t);
      assert threads'[..n] == threads[..n][t := threads[t].(pc := Done)];
      SumSnoc(Ended(threads[..n]), threads[n]);
      SumSnoc(Ended(threads'[..n]), threads[n]);
    }
  }

  lemma SumSnoc(threads: seq<Thread>, thread: Thread)
    ensures SumX(threads + [thread]) == SumX(threads) + thread.call.val.x
    ensures SumY(threads + [thread]) == SumY(threads) + thread.call.val.y
  {
    assert (threads + [thread])[..|threads|] == threads;
  }

  lemma {:induction false} EndedSame(threads: seq<Thread>, t: nat, pc: Pc)
    requires t < |threads| && (threads[t].pc == pc || (!pc.Done? && !threads[t].pc.Done?))
    ensures Ended(threads[t := threads[t].(pc := pc)]) == Ended(threads)
  {
    var n := |threads| - 1;
    var threads' := threads[t := threads[t].(pc := pc)];
    if t == n {
      assert threads'[..n] == threads[..n];
    } else {
      EndedSame(threads[..n], t, pc);
      assert threads'[..n] == threads[..n][t := threads[t].(pc := pc)];
    }
  }

  lemma WrapSum(a: int, b: int)
    ensures Wrap(Wrap(a) + b) == Wrap(a + b)
  {
  }

  lemma WrapSmall(x: Int32)
    ensures Wrap(x) == x
  {
  }

  /** The state in terms of what has been subtracted so far. */
  ghost predicate Subtracted(s: State, s': State) {
    && |s'.threads| == |s.threads| && Inv(s')
    && (forall r :: 0 <= r < |s.threads| ==> s'.threads[r].call == s.threads[r].call)
    && s'.mem == Pair(Wrap(s.mem.x - SumX(Ended(s'.threads))), Wrap(s.mem.y - SumY(Ended(s'.threads))))
  }

  lemma StepSubtracts(s: State, s1: State, t: nat)
    requires Subtracted(s, s1) && forall t :: 0 <= t < |s.threads| ==> s.threads[t].call.SubI2?
    ensures Subtracted(s, Step(s1, t))
  {
    hide Access, Inv, Wrap;
    StepTakesEffect(s1, t);
    if Finishes(s1, t) {
      EndedGrows(s1.threads, t);
      WrapSum(s.mem.x - SumX(Ended(s1.threads)), 0 - s1.threads[t].call.val.x);
      WrapSum(s.mem.y - SumY(Ended(s1.threads)), 0 - s1.threads[t].call.val.y);
      assert Step(s1, t).threads == s1.threads[t := s1.threads[t].(pc := Done)];
    } else if t < |s1.threads| {
      EndedSame(s1.threads, t, Step(s1, t).threads[t].pc);
    }
  }

  /** At every moment the location holds the first value minus all that has been subtracted. */
  lemma {:induction false} SubtractionsSum(s: State, schedule: seq<nat>)
    requires Init(s) && forall t :: 0 <= t < |s.threads| ==> s.threads[t].call.SubI2?
    ensures Subtracted(s, Run(s, schedule))
  {
    if schedule == [] {
      NoneEnded(s.threads);
      WrapSmall(s.mem.x);
      WrapSmall(s.mem.y);
    } else {
      hide Subtracted, Step;
      SubtractionsSum(s, schedule[..|schedule| - 1]);
      StepSubtracts(s, Run(s, schedule[..|schedule| - 1]), schedule[|schedule| - 1]);
    }
  }

  lemma {:induction false} NoneEnded(threads: seq<Thread>)
    requires forall t :: 0 <= t < |threads| ==> !threads[t].pc.Done?
    ensures Ended(threads) == []
  {
    if threads != [] {
      NoneEnded(threads[..|threads| - 1]);
    }
  }

  lemma {:induction false} AllEnded(threads: seq<Thread>)
    requires forall t :: 0 <= t < |threads| ==> threads[t].pc.Done?
    ensures Ended(threads) == threads
  {
    if threads != [] {
      AllEnded(threads[..|threads| - 1]);
    }
  }

  lemma {:induction false} SameSums(threads: seq<Thread>, threads': seq<Thread>)
    requires |threads| == |threads'| && forall t :: 0 <= t < |threads| ==> threads'[t].call == threads[t].call
    ensures SumX(threads') == SumX(threads) && SumY(threads') == SumY(threads)
  {
    if threads != [] {
      SameSums(threads[..|threads| - 1], threads'[..|threads| - 1]);
    }
  }

  /** Whatever the interleaving of subtractions, once every thread has had turns enough each has been made once. */
  lemma SubtractionsEnd(s: State, schedule: seq<nat>)
    requires Init(s) && Fair(s, schedule)
    requires forall t :: 0 <= t < |s.threads| ==> s.threads[t].call.SubI2?
    ensures Run(s, schedule).mem == Pair(Wrap(s.mem.x - SumX(s.threads)), Wrap(s.mem.y - SumY(s.threads)))
  {
    hide Run, Init, Ended, SumX, SumY, Wrap;
    FairRunEnds(s, schedule);
    SubtractionsSum(s, schedule);
    AllEnded(Run(s, schedule).threads);
    SameSums(s.threads, Run(s, schedule).threads);
  }

  // ----- the loops themselves -----

  /** The location, with everybody who works on it.  pending is what the other threads are going to do before each access
      of the thread that is looked at. */
  class Location {
    var mem: Pair
    var threads: seq<Thread>
    var pending: seq<seq<nat>>

    ghost function Now(): State
      reads this
    {
      State(mem, threads)
    }

    ghost predicate Others(me: nat)
      reads this
    {
      me < |threads| && forall turns :: turns in pending ==> me !in turns
    }

    /** The other threads have their turns. */
    method Interfere(me: nat)
      requires Others(me)
      modifies this
      ensures Now() == Run(old(Now()), Ahead(old(pending), 0)) && pending == Dropped(old(pending), 1)
      ensures Others(me) && threads[me] == old(threads)[me]
    {
      if pending != [] {
        OthersRun(Now(), pending[0], me);
        var s := Run(State(mem, threads), pending[0]);
        mem, threads, pending := s.mem, s.threads, pending[1..];
      }
    }

    /** The first access of a call: a read. */
    method Read(me: nat) returns (seen: Pair)
      requires Others(me) && threads[me].pc.Start?
      modifies this
      ensures seen == Run(old(Now()), Ahead(old(pending), 0)).mem && pending == Dropped(old(pending), 1)
      ensures Now() == Step(Run(old(Now()), Ahead(old(pending), 0)), me) && Others(me)
      ensures (mem, threads[me].pc) == Access(old(threads)[me].call, Start, seen) && threads[me].call == old(threads)[me].call
    {
      Interfere(me);
      seen := mem;
      threads := threads[me := threads[me].(pc := Access(threads[me].call, Start, seen).1)];
    }

    /** A compare-and-swap: writes if the location holds what is assumed, and returns what it held. */
    method AtomicCAS(me: nat, assumed: Pair, val: Pair) returns (seen: Pair)
      requires Others(me) && threads[me].pc == Trying(assumed)
      requires val == if threads[me].call.MinI2? then threads[me].call.val else Minus(assumed, threads[me].call.val)
      modifies this
      ensures seen == Run(old(Now()), Ahead(old(pending), 0)).mem && pending == Dropped(old(pending), 1)
      ensures Now() == Step(Run(old(Now()), Ahead(old(pending), 0)), me) && Others(me)
      ensures (mem, threads[me].pc) == Access(old(threads)[me].call, Trying(assumed), seen) && threads[me].call == old(threads)[me].call
      ensures old(pending) == [] ==> seen == old(mem)
    {
      Interfere(me);
      seen := mem;
      if seen == assumed {
        mem := val;
      }
      threads := threads[me := threads[me].(pc := Access(threads[me].call, Trying(assumed), seen).1)];
    }

    /** Whatever the others do in between: the loop takes exactly the accesses of the model, and with the last of them turns
        what the location holds then into its minimum with val. */
    method AtomicMinI2(me: nat, val: Pair) returns (ghost tries: nat)
      requires Others(me) && threads[me] == Thread(MinI2(val), Start)
      modifies this
      ensures var before := Run(old(Now()), Woven(me, old(pending), tries));
        Now() == Step(before, me) && mem == Apply(MinI2(val), before.mem)
      ensures Others(me) && threads[me].pc.Done? && pending == Dropped(old(pending), tries + 1)
    {
      hide Run, Woven, Step;
      WovenStarts(me, pending);
      var seen := Read(me);
      tries := 0;
      if seen.x <= val.x {
        return;
      }
      var trying := true;
      while trying
        invariant Others(me) && threads[me].call == MinI2(val) && pending == Dropped(old(pending), tries + 1)
        invariant Now() == Step(Run(old(Now()), Woven(me, old(pending), tries)), me)
        invariant trying ==> threads[me].pc == Trying(seen) && mem == seen && seen.x > val.x
        invariant !trying ==> threads[me].pc.Done? && mem == Apply(MinI2(val), Run(old(Now()), Woven(me, old(pending), tries)).mem)
        decreases |pending|, trying
      {
        var assumed := seen;
        OneMoreTry(old(Now()), old(pending), me, tries);
        seen := AtomicCAS(me, assumed, val);
        tries := tries + 1;
        trying := seen != assumed && seen.x > val.x;
      }
    }

    /** Likewise: with the last access subtracts from what the location holds then. */
    method AtomicSubI2(me: nat, sub: Pair) returns (ghost tries: nat)
      requires Others(me) && threads[me] == Thread(SubI2(sub), Start)
      modifies this
      ensures var before := Run(old(Now()), Woven(me, old(pending), tries));
        Now() == Step(before, me) && mem == Apply(SubI2(sub), before.mem)
      ensures Others(me) && threads[me].pc.Done? && pending == Dropped(old(pending), tries + 1)
    {
      hide Run, Woven, Step;
      WovenStarts(me, pending);
      var seen := Read(me);
      tries := 0;
      var trying := true;
      while trying
        invariant Others(me) && threads[me].call == SubI2(sub) && pending == Dropped(old(pending), tries + 1)
        invariant Now() == Step(Run(old(Now()), Woven(me, old(pending), tries)), me)
        invariant trying ==> threads[me].pc == Trying(seen) && mem == seen
        invariant !trying ==> threads[me].pc.Done? && mem == Apply(SubI2(sub), Run(old(Now()), Woven(me, old(pending), tries)).mem)
        decreases |pending|, trying
      {
        var assumed := seen;
        OneMoreTry(old(Now()), old(pending), me, tries);
        seen := AtomicCAS(me, assumed, Minus(assumed, sub));
        tries := tries + 1;
        trying := seen != assumed;
      }
    }
  }

  lemma OneMoreTry(s: State, pending: seq<seq<nat>>, me: nat, k: nat)
    ensures Run(s, Woven(me, pending, k + 1)) == Run(Step(Run(s, Woven(me, pending, k)), me), Ahead(Dropped(pending, k + 1), 0))
    ensures Dropped(Dropped(pending, k + 1), 1) == Dropped(pending, k + 2)
  {
    hide Step, Run, Woven, Ahead, Dropped;
    WovenGoesOn(me, pending, k);
    LastTurn(s, Woven(me, pending, k), me);
    RunOn(s, Woven(me, pending, k) + [me], Ahead(Dropped(pending, k + 1), 0));
  }

  lemma {:induction false} OthersRun(s: State, turns: seq<nat>, me: nat)
    requires me < |s.threads| && me !in turns
    ensures |Run(s, turns).threads| == |s.threads| && Run(s, turns).threads[me] == s.threads[me]
  {
    if turns != [] {
      var front, t := turns[..|turns| - 1], turns[|turns| - 1];
      assert turns == front + [t];
      OthersRun(s, front, me);
    }
  }

  lemma {:induction false} RunOn(s: State, first: seq<nat>, second: seq<nat>)
    ensures Run(Run(s, first), second) == Run(s, first + second)
  {
    if second == [] {
      assert first + second == first;
    } else {
      var front, t := second[..|second| - 1], second[|second| - 1];
      RunOn(s, first, front);
      assert (first + second)[..|first + second| - 1] == first + front;
    }
  }

  lemma LastTurn(s: State, turns: seq<nat>, t: nat)
    ensures Run(s, turns + [t]) == Step(Run(s, turns), t)
  {
    assert (turns + [t])[..|turns|] == turns;
  }

  // ----- searching -----

  /** The last index in a range of a sorted array at which the value does not exceed val. */
  method BinsearchMaxle(vec: array<int>, val: int, low0: nat, high0: nat) returns (i: nat)
    requires low0 <= high0 < vec.Length && vec[low0] <= val
    requires forall j, k :: low0 <= j <= k <= high0 ==> vec[j] <= vec[k]
    ensures low0 <= i <= high0 && vec[i] <= val
    ensures forall j :: i < j <= high0 ==> vec[j] > val
  {
    var low, high := low0, high0;
    while true
      invariant low0 <= low <= high <= high0 && vec[low] <= val
      invariant forall j :: high < j <= high0 ==> vec[j] > val
      decreases high - low
    {
      if low == high {
        return low;
      }
      if low + 1 == high {
        return if vec[high] <= val then high else low;
      }
      var mid := low + (high - low) / 2;
      if vec[mid] > val {
        high := mid - 1;
      } else {
        low := mid;
      }
    }
  }
}
