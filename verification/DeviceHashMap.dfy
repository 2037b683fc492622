/** The lock-free hash map: any number of threads insert at once, one atomic action at a time. */
module DeviceHashMap {
  import opened Basics
  import opened PackedArgmin
  import opened Schedules

  const NO_KEY := -1

  datatype Slot = Slot(key: int, count: nat, least: Word)

  /** Where a thread is: looking for a slot, about to raise the count of the slot it has found, about
      to lower its minimum, or through.  hashIdx is the index that will be reported. */
  datatype Pc =
    | Probing(idx: nat, c: nat)
    | Adding(slot: nat, hashIdx: nat)
    | Minimizing(slot: nat, hashIdx: nat, localIdx: nat)
    | Done(slot: nat, hashIdx: nat, localIdx: nat)

  datatype Thread = Thread(key: int, word: Word, pc: Pc)

  datatype State = State(slots: seq<Slot>, threads: seq<Thread>)

  function NextSlot(idx: nat, capacity: nat): (next: nat)
    requires capacity > 0
    ensures next < capacity
  {
    (idx + 1) % capacity
  }

  /** Thread t's next atomic action, with the local computation up to the one after. */
  function Step(s: State, t: nat): State {
    if t >= |s.threads| then s else
      var thread := s.threads[t];
      match thread.pc
      case Probing(idx, c) =>
        if idx >= |s.slots| then s else
          var found := s.slots[idx].key;
          var slots := if found == NO_KEY then s.slots[idx := s.slots[idx].(key := thread.key)] else s.slots;
          var next := NextSlot(idx, |s.slots|);
          var pc := if found == NO_KEY || found == thread.key then Adding(idx, idx)
                    else if c + 1 < |s.slots| then Probing(next, c + 1)
                    else Adding(idx, next);
          State(slots, s.threads[t := thread.(pc := pc)])
      case Adding(i, h) =>
        if i >= |s.slots| then s else
          State(s.slots[i := s.slots[i].(count := s.slots[i].count + 1)],
                s.threads[t := thread.(pc := Minimizing(i, h, s.slots[i].count))])
      case Minimizing(i, h, l) =>
        if i >= |s.slots| then s else
          State(s.slots[i := s.slots[i].(least := Min(s.slots[i].least, thread.word))],
                s.threads[t := thread.(pc := Done(i, h, l))])
      case Done(_, _, _) => s
  }

  /** An empty map, and threads that have computed their hashes. */
  ghost predicate Init(s: State) {
    && |s.slots| > 0
    && (forall i :: 0 <= i < |s.slots| ==> s.slots[i] == Slot(NO_KEY, 0, ULONG_MAX))
    && (forall t :: 0 <= t < |s.threads| ==>
          s.threads[t].key >= 0 && s.threads[t].pc == Probing(s.threads[t].key % |s.slots|, 0))
    && |Keys(s)| <= |s.slots|
  }

  ghost function Keys(s: State): set<int> {
    set t | 0 <= t < |s.threads| :: s.threads[t].key
  }

  function Run(s: State, schedule: seq<nat>): State {
    if schedule == [] then s else Step(Run(s, schedule[..|schedule| - 1]), schedule[|schedule| - 1])
  }

  // ----- the probe sequence -----

  /** The slot that a key's j-th probe looks at. */
  function Probe(key: nat, j: nat, capacity: nat): (i: nat)
    requires j < capacity
    ensures i < capacity
  {
    var home := key % capacity;
    if home + j < capacity then home + j else home + j - capacity
  }

  lemma NextProbe(key: nat, j: nat, capacity: nat)
    requires j + 1 < capacity
    ensures Probe(key, j + 1, capacity) == (Probe(key, j, capacity) + 1) % capacity
  {
    var x := Probe(key, j, capacity) + 1;
    if x < capacity {
      SmallMod(x, capacity);
    }
  }

  lemma SmallMod(x: nat, m: nat)
    requires x < m
    ensures x % m == x
  {
  }

  /** All slots are probed in the end. */
  lemma ProbeReaches(key: nat, i: nat, capacity: nat) returns (j: nat)
    requires i < capacity
    ensures j < capacity && Probe(key, j, capacity) == i
  {
    var home := key % capacity;
    j := if home <= i then i - home else i + capacity - home;
  }

  /** The first d probes of a key find slots that other keys have taken. */
  ghost predicate Passed(s: State, key: nat, d: nat)
    requires d <= |s.slots|
  {
    forall j: nat :: j < d ==>
      s.slots[Probe(key, j, |s.slots|)].key != NO_KEY && s.slots[Probe(key, j, |s.slots|)].key != key
  }

  // ----- the invariant -----

  /** A taken slot is where its key's probes get past no other slot of that key and no free one. */
  ghost predicate SlotsOk(s: State) {
    forall i :: 0 <= i < |s.slots| && s.slots[i].key != NO_KEY ==>
      && s.slots[i].key >= 0 && s.slots[i].key in Keys(s)
      && exists d: nat :: Placed(s, i, d)
  }

  ghost predicate Placed(s: State, i: nat, d: nat)
    requires i < |s.slots| && s.slots[i].key >= 0
  {
    d < |s.slots| && Probe(s.slots[i].key, d, |s.slots|) == i && Passed(s, s.slots[i].key, d)
  }

  ghost predicate ThreadOk(s: State, thread: Thread) {
    thread.key >= 0 &&
    match thread.pc
    case Probing(idx, c) =>
      c < |s.slots| && idx == Probe(thread.key, c, |s.slots|) && Passed(s, thread.key, c)
    case Adding(i, h) => HasSlot(s, thread.key, i, h)
    case Minimizing(i, h, l) => HasSlot(s, thread.key, i, h) && l < s.slots[i].count
    case Done(i, h, l) => HasSlot(s, thread.key, i, h) && l < s.slots[i].count
  }

  ghost predicate HasSlot(s: State, key: int, i: nat, h: nat) {
    i < |s.slots| && h == i && s.slots[i].key == key
  }

  ghost predicate CountedIn(thread: Thread, i: nat) {
    (thread.pc.Minimizing? || thread.pc.Done?) && thread.pc.slot == i
  }

  ghost function CountedAt(s: State, i: nat): set<nat> {
    set t: nat | t < |s.threads| && CountedIn(s.threads[t], i)
  }

  /** Counts count the threads that have added to them, and no two of those got the same number. */
  ghost predicate CountsOk(s: State) {
    && (forall i: nat :: i < |s.slots| ==> s.slots[i].count == |CountedAt(s, i)|)
    && forall t: nat, t': nat, i: nat ::
        t < |s.threads| && t' < |s.threads| && t != t' && CountedIn(s.threads[t], i) && CountedIn(s.threads[t'], i) ==>
          s.threads[t].pc.localIdx != s.threads[t'].pc.localIdx
  }

  ghost predicate Through(thread: Thread, i: nat) {
    thread.pc.Done? && thread.pc.slot == i
  }

  /** Each minimum is that of the words of the threads that are through with the slot. */
  ghost predicate LeastOk(s: State) {
    forall i: nat :: i < |s.slots| ==>
      && (forall t: nat :: t < |s.threads| && Through(s.threads[t], i) ==> s.slots[i].least <= s.threads[t].word)
      && (s.slots[i].least == ULONG_MAX
          || exists t: nat :: t < |s.threads| && Through(s.threads[t], i) && s.slots[i].least == s.threads[t].word)
  }

  ghost predicate Inv(s: State) {
    && |s.slots| > 0 && |Keys(s)| <= |s.slots|
    && SlotsOk(s) && (forall t :: 0 <= t < |s.threads| ==> ThreadOk(s, s.threads[t]))
    && CountsOk(s) && LeastOk(s)
  }

  /** No key is in two slots. */
  lemma KeysDistinct(s: State, i: nat, j: nat)
    requires SlotsOk(s) && i < |s.slots| && j < |s.slots| && s.slots[i].key == s.slots[j].key != NO_KEY
    ensures i == j
  {
    var d: nat :| Placed(s, i, d);
    var e: nat :| Placed(s, j, e);
  }

  /** With no more keys than slots, a key's probes cannot all find other keys. */
  lemma SlotIsFound(s: State, key: nat)
    requires SlotsOk(s) && key in Keys(s) && |Keys(s)| <= |s.slots|
    ensures !Passed(s, key, |s.slots|)
  {
    if Passed(s, key, |s.slots|) {
      var taken := SlotKeys(s, |s.slots|);
      forall i: nat | i < |s.slots|
        ensures s.slots[i].key != NO_KEY && s.slots[i].key != key
      {
        var j := ProbeReaches(key, i, |s.slots|);
      }
      SlotKeysCount(s, |s.slots|);
      assert key !in taken && taken + {key} <= Keys(s);
      SubsetCount(taken + {key}, Keys(s));
    }
  }

  ghost function SlotKeys(s: State, n: nat): set<int>
    requires n <= |s.slots|
  {
    set i | 0 <= i < n :: s.slots[i].key
  }

  lemma {:induction false} SlotKeysCount(s: State, n: nat)
    requires SlotsOk(s) && n <= |s.slots| && forall i: nat :: i < |s.slots| ==> s.slots[i].key != NO_KEY
    ensures |SlotKeys(s, n)| == n
  {
    if n > 0 {
      SlotKeysCount(s, n - 1);
      LastKeyIsNew(s, n - 1);
      hide SlotsOk;
      assert SlotKeys(s, n) == SlotKeys(s, n - 1) + {s.slots[n - 1].key};
    }
  }

  lemma LastKeyIsNew(s: State, n: nat)
    requires SlotsOk(s) && n < |s.slots| && s.slots[n].key != NO_KEY
    ensures s.slots[n].key !in SlotKeys(s, n)
  {
    forall i: nat | i < n
      ensures s.slots[i].key != s.slots[n].key
    {
      if s.slots[i].key == s.slots[n].key {
        KeysDistinct(s, i, n);
      }
    }
  }

  // ----- every step keeps the invariant -----

  lemma InitInv(s: State)
    requires Init(s)
    ensures Inv(s)
  {
    forall i: nat | i < |s.slots|
      ensures CountedAt(s, i) == {}
    {
    }
  }

  /** Threads come from the same keys, and no taken slot has changed hands. */
  ghost predicate Keeps(s: State, s': State) {
    && |s'.slots| == |s.slots| && |s'.threads| == |s.threads|
    && (forall t :: 0 <= t < |s.threads| ==> s'.threads[t].key == s.threads[t].key && s'.threads[t].word == s.threads[t].word)
    && (forall i :: 0 <= i < |s.slots| && s.slots[i].key != NO_KEY ==> s'.slots[i].key == s.slots[i].key)
    && (forall i :: 0 <= i < |s.slots| ==> s.slots[i].count <= s'.slots[i].count)
  }

  lemma StepKeeps(s: State, t: nat)
    ensures Keeps(s, Step(s, t))
  {
  }

  lemma SameKeys(s: State, s': State)
    requires Keeps(s, s')
    ensures Keys(s') == Keys(s)
  {
    assert forall t :: 0 <= t < |s.threads| ==> s.threads[t].key in Keys(s) && s'.threads[t].key in Keys(s');
  }

  /** What a thread relies on stays true whatever the others do. */
  lemma ThreadStable(s: State, s': State, thread: Thread)
    requires Keeps(s, s') && ThreadOk(s, thread)
    ensures ThreadOk(s', thread)
  {
  }

  lemma SlotStable(s: State, s': State, i: nat)
    requires Keeps(s, s') && SlotsOk(s) && i < |s.slots| && s.slots[i].key != NO_KEY
    ensures s'.slots[i].key >= 0 && s'.slots[i].key in Keys(s') && exists d: nat :: Placed(s', i, d)
  {
    SameKeys(s, s');
    var d: nat :| Placed(s, i, d);
    assert Placed(s', i, d);
  }

  /** The part of the invariant that is about slots and probes. */
  lemma StepPlaces(s: State, t: nat)
    requires Inv(s) && t < |s.threads|
    ensures var s' := Step(s, t);
      SlotsOk(s') && |Keys(s')| == |Keys(s)| && forall r :: 0 <= r < |s'.threads| ==> ThreadOk(s', s'.threads[r])
  {
    hide CountsOk, LeastOk, Probe, Passed;
    var s' := Step(s, t);
    StepKeeps(s, t);
    SameKeys(s, s');
    assert ThreadOk(s, s.threads[t]);
    forall i: nat | i < |s'.slots| && s'.slots[i].key != NO_KEY
      ensures s'.slots[i].key >= 0 && s'.slots[i].key in Keys(s') && exists d: nat :: Placed(s', i, d)
    {
      if s.slots[i].key != NO_KEY {
        SlotStable(s, s', i);
      } else {
        Claimed(s, t);
      }
    }
    forall r | 0 <= r < |s'.threads|
      ensures ThreadOk(s', s'.threads[r])
    {
      if r != t {
        ThreadStable(s, s', s.threads[r]);
      } else {
        StepOwn(s, t);
      }
    }
  }

  /** A slot that has just been claimed is where its key belongs. */
  lemma Claimed(s: State, t: nat)
    requires Inv(s) && t < |s.threads| && s.threads[t].pc.Probing? && s.slots[s.threads[t].pc.idx].key == NO_KEY
    ensures var s', idx := Step(s, t), s.threads[t].pc.idx;
      s'.slots[idx].key == s.threads[t].key >= 0 && s'.slots[idx].key in Keys(s') && Placed(s', idx, s.threads[t].pc.c)
  {
    hide CountsOk, LeastOk, SlotsOk;
    assert ThreadOk(s, s.threads[t]);
    assert Step(s, t).threads[t].key in Keys(Step(s, t));
  }

  lemma StepOwn(s: State, t: nat)
    requires Inv(s) && t < |s.threads|
    ensures ThreadOk(Step(s, t), Step(s, t).threads[t])
  {
    hide CountsOk, LeastOk, SlotsOk;
    var thread := s.threads[t];
    assert ThreadOk(s, thread) && thread.key in Keys(s);
    if thread.pc.Probing? && s.slots[thread.pc.idx].key != NO_KEY && s.slots[thread.pc.idx].key != thread.key {
      assert Passed(s, thread.key, thread.pc.c + 1);
      if thread.pc.c + 1 == |s.slots| {
        SlotIsFound(s, thread.key);
      } else {
        NextProbe(thread.key, thread.pc.c, |s.slots|);
      }
    }
  }

  /** The part of the invariant that is about counts and local indices. */
  lemma StepCounts(s: State, t: nat)
    requires Inv(s) && t < |s.threads|
    ensures CountsOk(Step(s, t))
  {
    hide SlotsOk, LeastOk, Probe, Passed;
    var s' := Step(s, t);
    assert ThreadOk(s, s.threads[t]);
    forall i: nat | i < |s'.slots|
      ensures s'.slots[i].count == |CountedAt(s', i)|
    {
      StepCounted(s, t, i);
    }
    forall r: nat, q: nat, i: nat | r < |s'.threads| && q < |s'.threads| && r != q && CountedIn(s'.threads[r], i) && CountedIn(s'.threads[q], i)
      ensures s'.threads[r].pc.localIdx != s'.threads[q].pc.localIdx
    {
      StepLocalIdx(s, t, r, q, i);
    }
  }

  /** A step adds at most one thread to those counted in a slot, as the slot's count goes up. */
  lemma StepCounted(s: State, t: nat, i: nat)
    requires CountsOk(s) && t < |s.threads| && ThreadOk(s, s.threads[t]) && i < |s.slots|
    ensures Step(s, t).slots[i].count == |CountedAt(Step(s, t), i)|
  {
    StepCountedIn(s, t, i);
    hide Step, CountedIn, ThreadOk;
    if AddsTo(s.threads[t], i) {
      assert CountedAt(Step(s, t), i) == CountedAt(s, i) + {t};
    } else {
      assert CountedAt(Step(s, t), i) == CountedAt(s, i);
    }
  }

  ghost predicate AddsTo(thread: Thread, i: nat) {
    thread.pc.Adding? && thread.pc.slot == i
  }

  lemma StepCountedIn(s: State, t: nat, i: nat)
    requires t < |s.threads| && ThreadOk(s, s.threads[t]) && i < |s.slots|
    ensures var s' := Step(s, t);
      && |s'.slots| == |s.slots| && |s'.threads| == |s.threads|
      && s'.slots[i].count == s.slots[i].count + (if AddsTo(s.threads[t], i) then 1 else 0)
      && (AddsTo(s.threads[t], i) ==> !CountedIn(s.threads[t], i))
      && forall r: nat :: r < |s.threads| ==>
           (CountedIn(s'.threads[r], i) <==> CountedIn(s.threads[r], i) || (r == t && AddsTo(s.threads[t], i)))
  {
    hide Probe, Passed;
  }

  /** The count that a thread reads as it adds to it is larger than every number given out before. */
  lemma StepLocalIdx(s: State, t: nat, r: nat, q: nat, i: nat)
    requires CountsOk(s) && (forall k :: 0 <= k < |s.threads| ==> ThreadOk(s, s.threads[k]))
    requires t < |s.threads| && r < |s.threads| && q < |s.threads| && r != q
    requires CountedIn(Step(s, t).threads[r], i) && CountedIn(Step(s, t).threads[q], i)
    ensures Step(s, t).threads[r].pc.localIdx != Step(s, t).threads[q].pc.localIdx
  {
    hide CountedAt, Probe, Passed;
    assert ThreadOk(s, s.threads[r]) && ThreadOk(s, s.threads[q]);
  }

  /** The part of the invariant that is about minima. */
  lemma StepLeast(s: State, t: nat)
    requires Inv(s) && t < |s.threads|
    ensures LeastOk(Step(s, t))
  {
    hide SlotsOk, CountsOk, Probe, Passed;
    var s' := Step(s, t);
    assert ThreadOk(s, s.threads[t]);
    forall i: nat | i < |s'.slots|
      ensures forall r: nat :: r < |s'.threads| && Through(s'.threads[r], i) ==> s'.slots[i].least <= s'.threads[r].word
      ensures s'.slots[i].least == ULONG_MAX
              || exists r: nat :: r < |s'.threads| && Through(s'.threads[r], i) && s'.slots[i].least == s'.threads[r].word
    {
      if s.threads[t].pc.Minimizing? && s.threads[t].pc.slot == i && s'.slots[i].least == s.threads[t].word {
        assert Through(s'.threads[t], i);
      } else if s'.slots[i].least != ULONG_MAX {
        var r: nat :| r < |s.threads| && Through(s.threads[r], i) && s.slots[i].least == s.threads[r].word;
        assert Through(s'.threads[r], i);
      }
    }
  }

  lemma StepInv(s: State, t: nat)
    requires Inv(s)
    ensures Inv(Step(s, t))
  {
    if t < |s.threads| {
      StepPlaces(s, t);
      StepCounts(s, t);
      StepLeast(s, t);
      hide SlotsOk, CountsOk, LeastOk, ThreadOk;
    }
  }

  lemma {:induction false} RunInv(s: State, schedule: seq<nat>)
    requires Init(s)
    ensures Inv(Run(s, schedule))
  {
    InitInv(s);
    if schedule != [] {
      hide Init, Inv, Step;
      RunInv(s, schedule[..|schedule| - 1]);
      StepInv(Run(s, schedule[..|schedule| - 1]), schedule[|schedule| - 1]);
    }
  }

  // ----- every thread gets through -----

  function Remaining(thread: Thread, capacity: nat): int {
    match thread.pc
    case Probing(_, c) => capacity - c + 2
    case Adding(_, _) => 2
    case Minimizing(_, _, _) => 1
    case Done(_, _, _) => 0
  }

  lemma StepRemaining(s: State, t: nat, r: nat)
    requires Inv(s) && r < |s.threads|
    ensures var s' := Step(s, t);
      |s'.threads| == |s.threads| && |s'.slots| == |s.slots|
      && var before, after := Remaining(s.threads[r], |s.slots|), Remaining(s'.threads[r], |s.slots|);
        0 <= after <= before && (r == t && before > 0 ==> after < before)
  {
    hide SlotsOk, CountsOk, LeastOk;
    assert ThreadOk(s, s.threads[r]);
    StepInv(s, t);
    assert ThreadOk(Step(s, t), Step(s, t).threads[r]);
  }

  /** Whatever the others do, a thread is through after at most capacity probes and two more actions. */
  lemma {:induction false} GetsThrough(s: State, schedule: seq<nat>, t: nat)
    requires Init(s) && t < |s.threads|
    ensures var s' := Run(s, schedule);
      |s'.threads| == |s.threads| && |s'.slots| == |s.slots| && Remaining(s'.threads[t], |s.slots|) >= 0
      && (Remaining(s'.threads[t], |s.slots|) == 0 || Remaining(s'.threads[t], |s.slots|) <= |s.slots| + 2 - Turns(schedule, t))
    ensures Turns(schedule, t) >= |s.slots| + 2 ==> Run(s, schedule).threads[t].pc.Done?
  {
    if schedule != [] {
      var front, last := schedule[..|schedule| - 1], schedule[|schedule| - 1];
      GetsThrough(s, front, t);
      RunInv(s, front);
      StepRemaining(Run(s, front), last, t);
    }
  }

  // ----- the outcome -----

  ghost function Inserters(s: State, key: int): set<nat> {
    set t: nat | t < |s.threads| && s.threads[t].key == key
  }

  ghost function LocalIndices(s: State, ts: set<nat>): set<nat>
    requires forall t :: t in ts ==> t < |s.threads| && s.threads[t].pc.Done?
  {
    set t | t in ts :: s.threads[t].pc.localIdx
  }

  ghost predicate AllDone(s: State) {
    forall t :: 0 <= t < |s.threads| ==> s.threads[t].pc.Done?
  }

  /** Slot i holds everything about a key: the number of its inserters, each of whom has got a
      number of its own below that, and the least of their words. */
  ghost predicate Aggregates(s: State, key: int, i: nat)
    requires AllDone(s)
  {
    && i < |s.slots| && s.slots[i].key == key
    && (forall j: nat :: j < |s.slots| && s.slots[j].key == key ==> j == i)
    && (forall t :: t in Inserters(s, key) ==> s.threads[t].pc.hashIdx == i)
    && s.slots[i].count == |Inserters(s, key)|
    && LocalIndices(s, Inserters(s, key)) == UpTo(s.slots[i].count)
    && (exists t :: t in Inserters(s, key) && s.threads[t].word == s.slots[i].least)
    && forall t :: t in Inserters(s, key) ==> s.slots[i].least <= s.threads[t].word
  }

  /** Different threads of a slot have different numbers, so there are as many numbers as threads. */
  lemma {:induction false} IndicesCount(s: State, ts: set<nat>, i: nat)
    requires CountsOk(s) && forall t :: t in ts ==> t < |s.threads| && s.threads[t].pc.Done? && Through(s.threads[t], i)
    ensures |LocalIndices(s, ts)| == |ts|
  {
    if ts != {} {
      var t :| t in ts;
      var rest := ts - {t};
      IndicesCount(s, rest, i);
      var l := s.threads[t].pc.localIdx;
      assert LocalIndices(s, ts) == LocalIndices(s, rest) + {l};
      assert forall r :: r in rest ==> CountedIn(s.threads[r], i) && CountedIn(s.threads[t], i);
      assert l !in LocalIndices(s, rest);
    }
  }

  lemma FullSubset<T>(a: set<T>, b: set<T>)
    requires a <= b && |a| == |b|
    ensures a == b
  {
    assert b == a + (b - a);
  }

  /** The threads that counted in a key's slot are those that inserted the key. */
  lemma CountedAreInserters(s: State, i: nat)
    requires Inv(s) && AllDone(s) && i < |s.slots| && s.slots[i].key != NO_KEY
    ensures CountedAt(s, i) == Inserters(s, s.slots[i].key)
    ensures forall t :: t in Inserters(s, s.slots[i].key) ==>
      Through(s.threads[t], i) && s.threads[t].pc.hashIdx == i && s.threads[t].pc.localIdx < s.slots[i].count
  {
    hide CountsOk, LeastOk;
    forall t: nat | t < |s.threads| && s.threads[t].key == s.slots[i].key
      ensures Through(s.threads[t], i) && s.threads[t].pc.hashIdx == i && s.threads[t].pc.localIdx < s.slots[i].count
    {
      assert ThreadOk(s, s.threads[t]);
      KeysDistinct(s, i, s.threads[t].pc.slot);
    }
    forall t: nat | t < |s.threads| && CountedIn(s.threads[t], i)
      ensures s.threads[t].key == s.slots[i].key
    {
      assert ThreadOk(s, s.threads[t]);
    }
  }

  /** When all threads are through, whatever the interleaving, every key has been aggregated. */
  lemma AllAggregated(s: State, t: nat)
    requires Inv(s) && AllDone(s) && t < |s.threads|
    ensures Aggregates(s, s.threads[t].key, s.threads[t].pc.slot)
  {
    var key, i := s.threads[t].key, s.threads[t].pc.slot;
    assert ThreadOk(s, s.threads[t]);
    CountedAreInserters(s, i);
    var ts := Inserters(s, key);
    IndicesCount(s, ts, i);
    FullSubset(LocalIndices(s, ts), UpTo(s.slots[i].count));
    forall j: nat | j < |s.slots| && s.slots[j].key == key
      ensures j == i
    {
      KeysDistinct(s, i, j);
    }
    SomeLeast(s, i, t);
  }

  lemma SomeLeast(s: State, i: nat, t: nat)
    requires LeastOk(s) && i < |s.slots| && t < |s.threads| && Through(s.threads[t], i)
    ensures s.slots[i].least <= s.threads[t].word
    ensures exists r: nat :: r < |s.threads| && Through(s.threads[r], i) && s.slots[i].least == s.threads[r].word
  {
    if s.slots[i].least == ULONG_MAX {
      assert s.slots[i].least == s.threads[t].word;
    }
  }

  /** The whole of it: any schedule that lets every thread finish aggregates every key. */
  lemma EveryRunAggregates(s: State, schedule: seq<nat>)
    requires Init(s) && forall t: nat :: t < |s.threads| ==> Turns(schedule, t) >= |s.slots| + 2
    ensures var s' := Run(s, schedule);
      |s'.threads| == |s.threads| && AllDone(s')
      && forall t: nat :: t < |s.threads| ==> Aggregates(s', s.threads[t].key, s'.threads[t].pc.slot)
  {
    hide Init, Inv, Step, Run, Aggregates;
    var s' := Run(s, schedule);
    RunInv(s, schedule);
    RunKeeps(s, schedule);
    forall t: nat | t < |s.threads|
      ensures s'.threads[t].pc.Done?
    {
      GetsThrough(s, schedule, t);
    }
    forall t: nat | t < |s.threads|
      ensures Aggregates(s', s.threads[t].key, s'.threads[t].pc.slot)
    {
      AllAggregated(s', t);
    }
  }

  /** Slots never move: a key stays where it was first put. */
  lemma {:induction false} RunKeeps(s: State, schedule: seq<nat>)
    ensures Keeps(s, Run(s, schedule))
  {
    if schedule != [] {
      RunKeeps(s, schedule[..|schedule| - 1]);
      StepKeeps(Run(s, schedule[..|schedule| - 1]), schedule[|schedule| - 1]);
    }
  }

  // ----- the loop itself -----

  /** The map, with everybody who inserts.  pending is what the other threads are going to do before each access of the
      thread that is looked at. */
  class SharedMap {
    const slots: array<Slot>
    var threads: seq<Thread>
    var pending: seq<seq<nat>>

    constructor (slots: array<Slot>, threads: seq<Thread>, pending: seq<seq<nat>>)
      ensures this.slots == slots && this.threads == threads && this.pending == pending
    {
      this.slots, this.threads, this.pending := slots, threads, pending;
    }

    ghost function Now(): State
      reads this, slots
    {
      State(slots[..], threads)
    }

    ghost predicate Others(me: nat)
      reads this
    {
      me < |threads| && forall turns :: turns in pending ==> me !in turns
    }

    /** The other threads have their turns. */
    method Interfere(me: nat)
      requires Others(me)
      modifies this, slots
      ensures Now() == Run(old(Now()), Ahead(old(pending), 0)) && pending == Dropped(old(pending), 1)
      ensures Others(me) && threads[me] == old(threads)[me]
    {
      if pending != [] {
        OthersRun(Now(), pending[0], me);
        var s := Run(State(slots[..], threads), pending[0]);
        forall i | 0 <= i < slots.Length {
          slots[i] := s.slots[i];
        }
        assert slots[..] == s.slots;
        threads, pending := s.threads, pending[1..];
      }
    }

    /** A compare-and-swap of a slot's key: claims a free slot, and returns the key that was there. */
    method CASKey(me: nat, idx: nat, key: int) returns (seen: int)
      requires Others(me) && idx < slots.Length && threads[me].key == key && threads[me].pc.Probing? && threads[me].pc.idx == idx
      modifies this, slots
      ensures Now() == Step(Run(old(Now()), Ahead(old(pending), 0)), me) && pending == Dropped(old(pending), 1) && Others(me)
      ensures threads[me] == old(threads)[me].(pc := Probed(old(threads)[me], seen, slots.Length))
    {
      Interfere(me);
      seen := slots[idx].key;
      threads := Step(State(slots[..], threads), me).threads;
      if seen == NO_KEY {
        slots[idx] := slots[idx].(key := key);
      }
    }

    /** Adds one to a slot's count, and returns what it was. */
    method AddCount(me: nat, slot: nat) returns (before: nat)
      requires Others(me) && slot < slots.Length && threads[me].pc.Adding? && threads[me].pc.slot == slot
      modifies this, slots
      ensures Now() == Step(Run(old(Now()), Ahead(old(pending), 0)), me) && pending == Dropped(old(pending), 1) && Others(me)
      ensures threads[me] == old(threads)[me].(pc := Minimizing(slot, old(threads)[me].pc.hashIdx, before))
    {
      Interfere(me);
      before := slots[slot].count;
      threads := Step(State(slots[..], threads), me).threads;
      slots[slot] := slots[slot].(count := before + 1);
    }

    /** Turns a slot's word into its minimum with another. */
    method MinLeast(me: nat, slot: nat, word: Word)
      requires Others(me) && slot < slots.Length && threads[me].word == word && threads[me].pc.Minimizing? && threads[me].pc.slot == slot
      modifies this, slots
      ensures Now() == Step(Run(old(Now()), Ahead(old(pending), 0)), me) && pending == Dropped(old(pending), 1) && Others(me)
      ensures threads[me] == old(threads)[me].(pc := Done(slot, old(threads)[me].pc.hashIdx, old(threads)[me].pc.localIdx))
    {
      Interfere(me);
      threads := Step(State(slots[..], threads), me).threads;
      slots[slot] := slots[slot].(least := Min(slots[slot].least, word));
    }

    /** Looks for a slot, from the key's own on; last is the number of the last probe. */
    method FindSlot(me: nat, key: int) returns (slot: nat, hashIdx: nat, ghost last: nat)
      requires slots.Length > 0 && key >= 0 && Others(me) && threads[me].key == key && threads[me].pc == Probing(key % slots.Length, 0)
      modifies this, slots
      ensures Now() == Step(Run(old(Now()), Woven(me, old(pending), last)), me) && pending == Dropped(old(pending), last + 1)
      ensures Others(me) && slot < slots.Length && threads[me] == old(threads)[me].(pc := Adding(slot, hashIdx))
    {
      hide Run, Woven, Step, Ahead, Dropped, NextSlot;
      WovenStarts(me, pending);
      hashIdx := key % slots.Length;
      slot := hashIdx;
      var c := 0;
      var seen := CASKey(me, hashIdx, key);
      last := 0;
      while seen != NO_KEY && seen != key
        invariant c < slots.Length && hashIdx < slots.Length && Others(me)
        invariant threads[me] == old(threads)[me].(pc := Probed(old(threads)[me].(pc := Probing(hashIdx, c)), seen, slots.Length))
        invariant slot == hashIdx
        invariant Now() == Step(Run(old(Now()), Woven(me, old(pending), last)), me) && pending == Dropped(old(pending), last + 1)
        decreases slots.Length - c
      {
        hashIdx := NextSlot(hashIdx, slots.Length);
        c := c + 1;
        if c == slots.Length {
          return;
        }
        slot := hashIdx;
        OneMoreAction(old(Now()), old(pending), me, last);
        last := last + 1;
        seen := CASKey(me, hashIdx, key);
      }
    }

    /** Whatever the others do in between, the code takes exactly the actions of the model, the last of them number last,
        and reports the indices with which the model's thread ends. */
    method InsertOrAggregate(me: nat, key: int, intCost: Int32, argIntCost: Int32)
      returns (localIdx: nat, outHashIdx: nat, ghost last: nat)
      requires key >= 0 && slots.Length > 0 && Others(me)
      requires threads[me] == Thread(key, Pack(intCost, argIntCost), Probing(key % slots.Length, 0))
      modifies this, slots
      ensures Now() == Step(Run(old(Now()), Woven(me, old(pending), last)), me) && pending == Dropped(old(pending), last + 1)
      ensures Others(me) && threads[me].pc.Done? && threads[me].pc.hashIdx == outHashIdx && threads[me].pc.localIdx == localIdx
    {
      hide Run, Woven, Step, Ahead, Dropped;
      var slot, hashIdx, probes := FindSlot(me, key);
      OneMoreAction(old(Now()), old(pending), me, probes);
      localIdx := AddCount(me, slot);
      OneMoreAction(old(Now()), old(pending), me, probes + 1);
      outHashIdx := hashIdx;
      MinLeast(me, slot, Pack(intCost, argIntCost));
      last := probes + 2;
    }
  }

  /** Where a thread goes on from a probe that has found a key. */
  function Probed(thread: Thread, seen: int, capacity: nat): Pc
    requires thread.pc.Probing? && capacity > 0
  {
    var idx, c := thread.pc.idx, thread.pc.c;
    if seen == NO_KEY || seen == thread.key then Adding(idx, idx)
    else if c + 1 < capacity then Probing(NextSlot(idx, capacity), c + 1)
    else Adding(idx, NextSlot(idx, capacity))
  }

  lemma {:induction false} OthersRun(s: State, turns: seq<nat>, me: nat)
    requires me < |s.threads| && me !in turns
    ensures |Run(s, turns).threads| == |s.threads| && |Run(s, turns).slots| == |s.slots| && Run(s, turns).threads[me] == s.threads[me]
  {
    if turns != [] {
      var front, t := turns[..|turns| - 1], turns[|turns| - 1];
      assert turns == front + [t];
      OthersRun(s, front, me);
    }
  }

  lemma {:induction false} RunOn(s: State, first: seq<nat>, second: seq<nat>)
    ensures Run(Run(s, first), second) == Run(s, first + second)
  {
    if second == [] {
      assert first + second == first;
    } else {
      var front, t := second[..|second| - 1], second[|second| - 1];
      RunOn(s, first, front);
      assert (first + second)[..|first + second| - 1] == first + front;
    }
  }

  lemma LastTurn(s: State, turns: seq<nat>, t: nat)
    ensures Run(s, turns + [t]) == Step(Run(s, turns), t)
  {
    assert (turns + [t])[..|turns|] == turns;
  }

  lemma OneMoreAction(s: State, pending: seq<seq<nat>>, me: nat, k: nat)
    ensures Run(s, Woven(me, pending, k + 1)) == Run(Step(Run(s, Woven(me, pending, k)), me), Ahead(Dropped(pending, k + 1), 0))
    ensures Dropped(Dropped(pending, k + 1), 1) == Dropped(pending, k + 2)
  {
    hide Step, Run, Woven, Ahead, Dropped;
    WovenGoesOn(me, pending, k);
    LastTurn(s, Woven(me, pending, k), me);
    RunOn(s, Woven(me, pending, k) + [me], Ahead(Dropped(pending, k + 1), 0));
  }
}
