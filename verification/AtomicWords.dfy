/** The minimum of 64-bit words for devices without a native one, as a compare-and-swap loop.  Its first
    compare-and-swap comes before any comparison with the argument. */
module AtomicWords {
  import opened Basics
  import opened PackedArgmin
  import opened Schedules

  /** Where a call is: about to read, about to swap for the first time, about to swap again, or over. */
  datatype Pc = Start | First(assumed: Word) | Again(assumed: Word) | Done

  datatype Thread = Thread(val: Word, pc: Pc)

  datatype State = State(mem: Word, threads: seq<Thread>)

  /** What a call's next access to the location does. */
  function Access(val: Word, pc: Pc, mem: Word): (Word, Pc) {
    match pc
    case Start => (mem, First(mem))
    case Done => (mem, Done)
    case _ =>
      if mem == pc.assumed then (val, Done)
      else (mem, if mem > val then Again(mem) else Done)
  }

  function Step(s: State, t: nat): State {
    if t >= |s.threads| then s else
      var (mem, pc) := Access(s.threads[t].val, s.threads[t].pc, s.mem);
      State(mem, s.threads[t := s.threads[t].(pc := pc)])
  }

  function Run(s: State, schedule: seq<nat>): State {
    if schedule == [] then s else Step(Run(s, schedule[..|schedule| - 1]), schedule[|schedule| - 1])
  }

  ghost predicate Init(s: State) {
    forall t :: 0 <= t < |s.threads| ==> s.threads[t].pc.Start?
  }

  /** A call goes on only for a value below what it has seen. */
  ghost predicate Inv(s: State) {
    forall t :: 0 <= t < |s.threads| && s.threads[t].pc.Again? ==> s.threads[t].val < s.threads[t].pc.assumed
  }

  /** What a step of a minimum may do: turn the location into the minimum as the call ends, or leave it alone. */
  ghost predicate IsMinimumStep(s: State, t: nat)
    requires t < |s.threads|
  {
    Step(s, t).mem == if Step(s, t).threads[t].pc.Done? && !s.threads[t].pc.Done? then Min(s.mem, s.threads[t].val) else s.mem
  }

  /** The first compare-and-swap is about to succeed on a smaller value. */
  ghost predicate Overwrites(s: State, t: nat) {
    t < |s.threads| && s.threads[t].pc.First? && s.mem == s.threads[t].pc.assumed < s.threads[t].val
  }

  /** A step is one of an atomic minimum exactly if it does not overwrite a smaller value. */
  lemma StepIsMinimumIff(s: State, t: nat)
    requires Inv(s) && t < |s.threads|
    ensures Inv(Step(s, t))
    ensures IsMinimumStep(s, t) <==> !Overwrites(s, t)
  {
  }

  /** No step of the schedule overwrites a smaller value. */
  ghost predicate Clean(s: State, schedule: seq<nat>) {
    schedule == [] || (Clean(s, schedule[..|schedule| - 1]) && !Overwrites(Run(s, schedule[..|schedule| - 1]), schedule[|schedule| - 1]))
  }

  /** The location holds the least of what it held first and the values of the calls that are over. */
  ghost predicate HoldsLeast(s: State, s': State) {
    && |s'.threads| == |s.threads| && (forall t :: 0 <= t < |s.threads| ==> s'.threads[t].val == s.threads[t].val)
    && s'.mem <= s.mem && (forall t: nat :: t < |s.threads| && s'.threads[t].pc.Done? ==> s'.mem <= s.threads[t].val)
    && (s'.mem == s.mem || exists t: nat :: t < |s.threads| && s'.threads[t].pc.Done? && s'.mem == s.threads[t].val)
  }

  /** As long as nothing is overwritten, the loop is as good as the native minimum. */
  lemma {:induction false} CleanRunHoldsLeast(s: State, schedule: seq<nat>)
    requires Init(s) && Clean(s, schedule)
    ensures Inv(Run(s, schedule)) && HoldsLeast(s, Run(s, schedule))
  {
    if schedule != [] {
      var front, t := schedule[..|schedule| - 1], schedule[|schedule| - 1];
      CleanRunHoldsLeast(s, front);
      hide Run, Clean;
      CleanStep(s, Run(s, front), t);
    }
  }

  lemma CleanStep(s: State, s1: State, t: nat)
    requires Inv(s1) && HoldsLeast(s, s1) && !Overwrites(s1, t)
    ensures Inv(Step(s1, t)) && HoldsLeast(s, Step(s1, t))
  {
    if t < |s1.threads| {
      StepIsMinimumIff(s1, t);
      var s2 := Step(s1, t);
      if s2.mem != s.mem && s2.mem == s1.mem {
        var r: nat :| r < |s.threads| && s1.threads[r].pc.Done? && s1.mem == s.threads[r].val;
        assert s2.threads[r].pc.Done?;
      }
    }
  }

  /** Two calls, one after the other, on a location that holds the largest word: 3 is lost to 5. */
  lemma LosesMinimum()
    ensures var s := State(ULONG_MAX, [Thread(3, Start), Thread(5, Start)]);
      Run(s, [0, 0, 1, 1]) == State(5, [Thread(3, Done), Thread(5, Done)])
  {
    var s := State(ULONG_MAX, [Thread(3, Start), Thread(5, Start)]);
    assert [0, 0, 1, 1][..3] == [0, 0, 1] && [0, 0, 1][..2] == [0, 0] && [0, 0][..1] == [0] && [0][..0] == [];
    assert Run(s, [0]) == Step(s, 0) == State(ULONG_MAX, [Thread(3, First(ULONG_MAX)), Thread(5, Start)]);
    assert Run(s, [0, 0]) == State(3, [Thread(3, Done), Thread(5, Start)]);
    assert Run(s, [0, 0, 1]) == State(3, [Thread(3, Done), Thread(5, First(3))]);
  }

  // ----- the loop itself -----

  /** The location, with everybody who works on it.  pending is what the other threads are going to do before each access
      of the thread that is looked at. */
  class Location {
    var mem: Word
    var threads: seq<Thread>
    var pending: seq<seq<nat>>

    ghost function Now(): State
      reads this
    {
      State(mem, threads)
    }

    ghost predicate Others(me: nat)
      reads this
    {
      me < |threads| && forall turns :: turns in pending ==> me !in turns
    }

    /** The other threads have their turns. */
    method Interfere(me: nat)
      requires Others(me)
      modifies this
      ensures Now() == Run(old(Now()), Ahead(old(pending), 0)) && pending == Dropped(old(pending), 1)
      ensures Others(me) && threads[me] == old(threads)[me]
    {
      if pending != [] {
        OthersRun(Now(), pending[0], me);
        var s := Run(State(mem, threads), pending[0]);
        mem, threads, pending := s.mem, s.threads, pending[1..];
      }
    }

    /** The call's read, if assumed is absent, or a compare-and-swap; returns what the location held. */
    method Touch(me: nat, assumed: Option<Word>, val: Word) returns (seen: Word)
      requires Others(me) && threads[me].val == val && !threads[me].pc.Done?
      requires match assumed case None => threads[me].pc.Start? case Some(a) => !threads[me].pc.Start? && threads[me].pc.assumed == a
      modifies this
      ensures seen == Run(old(Now()), Ahead(old(pending), 0)).mem && pending == Dropped(old(pending), 1)
      ensures Now() == Step(Run(old(Now()), Ahead(old(pending), 0)), me) && Others(me)
      ensures (mem, threads[me].pc) == Access(val, old(threads)[me].pc, seen) && threads[me].val == val
      ensures old(pending) == [] ==> seen == old(mem)
    {
      Interfere(me);
      seen := mem;
      if assumed == Some(seen) {
        mem := val;
      }
      threads := threads[me := threads[me].(pc := Access(val, threads[me].pc, seen).1)];
    }

    /** Whatever the others do in between, the loop takes exactly the accesses of the model.  With nobody else about it
        computes the minimum exactly if val is not above what the location held. */
    method AtomicMinULLFallback(me: nat, val: Word) returns (ghost tries: nat)
      requires Others(me) && threads[me] == Thread(val, Start)
      modifies this
      ensures Now() == Step(Run(old(Now()), Woven(me, old(pending), tries)), me)
      ensures Others(me) && threads[me].pc.Done? && pending == Dropped(old(pending), tries + 1)
      ensures old(pending) == [] ==> (mem == Min(old(mem), val) <==> val <= old(mem))
    {
      hide Run, Woven, Step, Ahead;
      WovenStarts(me, pending);
      var seen: Word := Touch(me, None, val);
      var assumed: Word := seen;
      tries := 0;
      var first := true;
      while first || (seen > val && assumed != seen)
        invariant Others(me) && threads[me].val == val && pending == Dropped(old(pending), tries + 1)
        invariant Now() == Step(Run(old(Now()), Woven(me, old(pending), tries)), me)
        invariant if first then threads[me].pc == First(seen) && mem == seen
          else threads[me].pc == if seen > val && assumed != seen then Again(seen) else Done
        invariant !first && seen > val && assumed != seen ==> mem == seen
        invariant old(pending) == [] ==> if first then mem == old(mem) else mem == val && assumed == seen
        decreases |pending|, first || (seen > val && assumed != seen)
      {
        first := false;
        assumed := seen;
        OneMoreTry(old(Now()), old(pending), me, tries);
        seen := Touch(me, Some(assumed), val);
        tries := tries + 1;
      }
    }
  }

  lemma {:induction false} OthersRun(s: State, turns: seq<nat>, me: nat)
    requires me < |s.threads| && me !in turns
    ensures |Run(s, turns).threads| == |s.threads| && Run(s, turns).threads[me] == s.threads[me]
  {
    if turns != [] {
      var front, t := turns[..|turns| - 1], turns[|turns| - 1];
      assert turns == front + [t];
      OthersRun(s, front, me);
    }
  }

  lemma {:induction false} RunOn(s: State, first: seq<nat>, second: seq<nat>)
    ensures Run(Run(s, first), second) == Run(s, first + second)
  {
    if second == [] {
      assert first + second == first;
    } else {
      var front, t := second[..|second| - 1], second[|second| - 1];
      RunOn(s, first, front);
      assert (first + second)[..|first + second| - 1] == first + front;
    }
  }

  lemma LastTurn(s: State, turns: seq<nat>, t: nat)
    ensures Run(s, turns + [t]) == Step(Run(s, turns), t)
  {
    assert (turns + [t])[..|turns|] == turns;
  }

  lemma OneMoreTry(s: State, pending: seq<seq<nat>>, me: nat, k: nat)
    ensures Run(s, Woven(me, pending, k + 1)) == Run(Step(Run(s, Woven(me, pending, k)), me), Ahead(Dropped(pending, k + 1), 0))
    ensures Dropped(Dropped(pending, k + 1), 1) == Dropped(pending, k + 2)
  {
    hide Step, Run, Woven, Ahead, Dropped;
    WovenGoesOn(me, pending, k);
    LastTurn(s, Woven(me, pending, k), me);
    RunOn(s, Woven(me, pending, k) + [me], Ahead(Dropped(pending, k + 1), 0));
  }
}
