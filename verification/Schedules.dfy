/** Schedules: which thread takes the next turn. */
module Schedules {

  function Turns(schedule: seq<nat>, t: nat): nat {
    if schedule == [] then 0 else
      Turns(schedule[..|schedule| - 1], t) + if schedule[|schedule| - 1] == t then 1 else 0
  }

  /** What the others do ahead of access k. */
  function Ahead(pending: seq<seq<nat>>, k: nat): seq<nat> {
    if k < |pending| then pending[k] else []
  }

  function Dropped(pending: seq<seq<nat>>, k: nat): seq<seq<nat>> {
    if k < |pending| then pending[k..] else []
  }

  /** All turns ahead of thread me's access k, its own accesses among them. */
  ghost function Woven(me: nat, pending: seq<seq<nat>>, k: nat): seq<nat> {
    if k == 0 then Ahead(pending, 0) else Woven(me, pending, k - 1) + [me] + Ahead(pending, k)
  }

  lemma WovenStarts(me: nat, pending: seq<seq<nat>>)
    ensures Woven(me, pending, 0) == Ahead(pending, 0)
  {
  }

  lemma WovenGoesOn(me: nat, pending: seq<seq<nat>>, k: nat)
    ensures Woven(me, pending, k + 1) == Woven(me, pending, k) + [me] + Ahead(Dropped(pending, k + 1), 0)
    ensures Dropped(Dropped(pending, k + 1), 1) == Dropped(pending, k + 2)
  {
  }
}
