/** Schedule targets are table indices: what removing a server does to the entries
    of the timetable, which neither front end renumbers. */
module Targets {
  import opened Config
  import opened System
  import opened Invariants
  import opened Loops
  import opened Scheduler
  import opened Edits

  /** Every record active and no name twice, as in every reachable state. */
  predicate Ordinary(recs: seq<Rec>) {
    (forall i :: 0 <= i < |recs| ==> recs[i].server.active) && NamesDistinct(recs)
  }

  predicate NamedAt(recs: seq<Rec>, i: nat, name: string) {
    i < |recs| && NameOf(recs[i].server) == name
  }

  /** When it fires, the entry wakes a server of this name. */
  ghost predicate Wakes(st: State, e: Schedule, name: string) {
    exists i: nat :: i in Slots(st, e) && NamedAt(st.recs, i, name)
  }

  lemma {:induction false} AllSlotsAre(st: State, n: nat, i: nat)
    requires n <= |st.recs|
    ensures i in AllSlots(st, n) <==> i < n && st.recs[i].server.active
  {
    if n > 0 {
      AllSlotsAre(st, n - 1, i);
    }
  }

  /** The slots an entry wakes: the active ones, all of them or its target. */
  lemma SlotsAre(st: State, e: Schedule, i: nat)
    ensures i in Slots(st, e) <==> i < |st.recs| && st.recs[i].server.active && (e.target < 0 || e.target == i)
  {
    AllSlotsAre(st, |st.recs|, i);
  }

  lemma WakesAt(st: State, e: Schedule, i: nat)
    requires Ordinary(st.recs) && i < |st.recs|
    ensures Wakes(st, e, NameOf(st.recs[i].server)) <==> e.target < 0 || e.target == i
  {
    var name := NameOf(st.recs[i].server);
    SlotsAre(st, e, i);
    if Wakes(st, e, name) {
      var j: nat :| j in Slots(st, e) && NamedAt(st.recs, j, name);
      assert j == i;
    } else {
      assert NamedAt(st.recs, i, name);
    }
  }

  lemma RemovalIsOrdinary(recs: seq<Rec>, b: nat)
    requires Ordinary(recs) && b < |recs|
    ensures Ordinary(Without(recs, b))
  {
    forall j | 0 <= j < |recs| - 1 ensures Without(recs, b)[j] == recs[if j < b then j else j + 1] {}
  }

  /** Of the servers that stay, one keeps its place in the timetable exactly if the entry is for
      all servers, or its own index matches the target both before and after, or at neither time. */
  lemma SurvivorWoken(st: State, b: nat, e: Schedule, i: nat)
    requires Ordinary(st.recs) && b < |st.recs| && i < |st.recs| && i != b
    ensures var name, after := NameOf(st.recs[i].server), st.(recs := Without(st.recs, b));
            && (Wakes(st, e, name) <==> e.target < 0 || e.target == i)
            && (Wakes(after, e, name) <==> e.target < 0 || e.target == IndexAfterRemoval(i, b))
  {
    var kept := Without(st.recs, b);
    RemovalIsOrdinary(st.recs, b);
    assert kept[IndexAfterRemoval(i, b)] == st.recs[i];
    WakesAt(st, e, i);
    WakesAt(st.(recs := kept), e, IndexAfterRemoval(i, b));
  }

  lemma RemovedIsNotWoken(st: State, b: nat, e: Schedule)
    requires Ordinary(st.recs) && b < |st.recs|
    ensures !Wakes(st.(recs := Without(st.recs, b)), e, NameOf(st.recs[b].server))
  {
    var kept, name := Without(st.recs, b), NameOf(st.recs[b].server);
    forall j: nat ensures !NamedAt(kept, j, name) {
      assert j < |kept| ==> kept[j] == st.recs[if j < b then j else j + 1];
    }
  }

  /** After the removal the entry wakes what it woke before, less the removed server. */
  ghost predicate KeepsMeaning(st: State, b: nat, e: Schedule)
    requires b < |st.recs|
  {
    var after := st.(recs := Without(st.recs, b));
    forall i :: 0 <= i < |st.recs| && i != b ==>
      (Wakes(after, e, NameOf(st.recs[i].server)) <==> Wakes(st, e, NameOf(st.recs[i].server)))
  }

  lemma KeepsMeaningIff(st: State, b: nat, e: Schedule)
    requires Ordinary(st.recs) && b < |st.recs|
    ensures KeepsMeaning(st, b, e) <==> e.target < b || e.target >= |st.recs| || e.target == b == |st.recs| - 1
  {
    forall i | 0 <= i < |st.recs| && i != b
      ensures var name, after := NameOf(st.recs[i].server), st.(recs := Without(st.recs, b));
              && (Wakes(st, e, name) <==> e.target < 0 || e.target == i)
              && (Wakes(after, e, name) <==> e.target < 0 || e.target == IndexAfterRemoval(i, b))
    {
      SurvivorWoken(st, b, e, i);
    }
    if b < e.target < |st.recs| {
      assert IndexAfterRemoval(e.target, b) != e.target;
    } else if e.target == b < |st.recs| - 1 {
      assert IndexAfterRemoval(b + 1, b) == b;
    }
  }

  /** In every reachable state, removing a server leaves an entry waking just what it woke
      before, less that server, exactly when the entry is for all servers, for one below the
      removed one, for none in the table, or for the removed one at the table's end. */
  lemma {:induction false} RemovalKeepsTargetIff(st: State, ops: seq<Op>, name: string, e: Schedule)
    requires Boot(st) && GoodRun(ops)
    requires Find(Run(st, ops).recs, name) < |Run(st, ops).recs|
    ensures var now := Run(st, ops);
            var b, last := Find(now.recs, name), |now.recs| - 1;
            && Step(now, Remove(name)) == now.(recs := Without(now.recs, b))
            && !Wakes(Step(now, Remove(name)), e, name)
            && (KeepsMeaning(now, b, e) <==> e.target < b || e.target > last || e.target == b == last)
  {
    var now := Run(st, ops);
    ReachableIsOrdinary(st, ops);
    RemovedIsNotWoken(now, Find(now.recs, name), e);
    KeepsMeaningIff(now, Find(now.recs, name), e);
  }

  lemma {:induction false} ReachableIsOrdinary(st: State, ops: seq<Op>)
    requires Boot(st) && GoodRun(ops)
    ensures Ordinary(Run(st, ops).recs)
  {
    BootIsOk(st);
    RunKeeps(st, ops);
    var now := Run(st, ops);
    forall i | 0 <= i < |now.recs| ensures now.recs[i].server.active {
      assert RecOk(now.recs[i], now.sends);
    }
  }

  /** A new entry for all servers wakes every server by name; one for a named server wakes that name
      and no other. */
  lemma NewEntryWakes(was: State, now: State, mask: bv8, hour: int, minute: int, target: string, name: string)
    requires Ordinary(was.recs) && Scheduled(was, now, mask, hour, minute, target)
    ensures Wakes(now, now.schedules[|was.schedules|], name) <==>
            (exists i: nat :: NamedAt(now.recs, i, name)) && (target == "all" || name == target)
  {
    var e := now.schedules[|was.schedules|];
    forall i: nat | NamedAt(now.recs, i, name)
      ensures Wakes(now, e, name) <==> e.target < 0 || e.target == i
    {
      WakesAt(now, e, i);
    }
    if target != "all" {
      assert NamedAt(now.recs, e.target, target);
    }
  }
}
