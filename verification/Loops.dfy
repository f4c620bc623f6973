/** The loops of the firmware as runs of the state machine. */
module Loops {
  import opened Words
  import M = Monitoring
  import opened System
  import opened Invariants

  lemma {:induction false} RunJoins(st: State, a: seq<Op>, b: seq<Op>)
    requires OpsOk(a) && OpsOk(b)
    ensures OpsOk(a + b) && Run(st, a + b) == Run(Run(st, a), b)
    decreases |b|
  {
    if b == [] {
      assert a + b == a;
    } else {
      var k := |b| - 1;
      RunJoins(st, a, b[..k]);
      assert (a + b)[..|a + b| - 1] == a + b[..k];
    }
  }

  // --- monitor_tick ---

  /** The loop is the run of one tick per slot, in order. */
  lemma {:induction false} TickUpToIsRun(st: State, n: nat, now: Word, env: nat -> M.TickEnv, ops: seq<Op>)
    requires |ops| == n && forall k :: 0 <= k < n ==> ops[k] == Tick(k, now, env(k))
    ensures GoodRun(ops) && TickUpTo(st, n, now, env) == Run(st, ops)
  {
    if n > 0 {
      TickUpToIsRun(st, n - 1, now, env, ops[..n - 1]);
    }
  }

  lemma TickUpToKeeps(st: State, n: nat, now: Word, env: nat -> M.TickEnv)
    ensures Kept(st, TickUpTo(st, n, now, env))
  {
    var ops := seq(n, i requires 0 <= i < n => Tick(i, now, env(i)));
    TickUpToIsRun(st, n, now, env, ops);
    if Inv(st) {
      RunKeeps(st, ops);
    }
  }

  // --- wake_all ---

  /** The active slots below `n`. */
  function AllSlots(st: State, n: nat): seq<nat>
    requires n <= |st.recs|
  {
    if n == 0 then [] else AllSlots(st, n - 1) + if st.recs[n - 1].server.active then [n - 1] else []
  }

  /** Waking the listed slots in order; `env` answers for each slot. */
  function WakeEach(st: State, slots: seq<nat>, env: nat -> M.Radio): (r: State)
    ensures |r.recs| == |st.recs|
    ensures forall i :: 0 <= i < |st.recs| ==> r.recs[i].server == st.recs[i].server
    ensures r.schedules == st.schedules && r.offset == st.offset
  {
    if slots == [] then
      st
    else
      var k := |slots| - 1;
      WakeAt(WakeEach(st, slots[..k], env), slots[k], env(slots[k]))
  }

  /** One more slot looked at is one more slot listed, if it is active. */
  lemma WakeOneMore(st: State, before: State, slots: seq<nat>, i: nat, env: nat -> M.Radio)
    requires i < |st.recs| && before == WakeEach(st, slots, env)
    ensures |before.recs| == |st.recs|
    ensures WakeIfActive(before, i, env(i)) == WakeEach(st, slots + if st.recs[i].server.active then [i] else [], env)
  {
    if st.recs[i].server.active {
      var all := slots + [i];
      assert all[..|all| - 1] == slots;
    } else {
      assert slots + [] == slots;
    }
  }

  /** `wake_all` wakes every active server once, in table order. */
  lemma {:induction false} WakeUpToIsEach(st: State, n: nat, env: nat -> M.Radio)
    requires n <= |st.recs|
    ensures WakeUpTo(st, n, env) == WakeEach(st, AllSlots(st, n), env)
  {
    if n == 0 {
      assert AllSlots(st, 0) == [];
    } else {
      WakeUpToIsEach(st, n - 1, env);
      WakeOneMore(st, WakeUpTo(st, n - 1, env), AllSlots(st, n - 1), n - 1, env);
    }
  }

  function WakeOps(slots: seq<nat>, env: nat -> M.Radio): (ops: seq<Op>)
    ensures |ops| == |slots| && GoodRun(ops)
  {
    seq(|slots|, k requires 0 <= k < |slots| => Wake(slots[k], env(slots[k])))
  }

  /** Waking listed slots is the run of one wake per slot. */
  lemma {:induction false} WakeEachIsRun(st: State, slots: seq<nat>, env: nat -> M.Radio)
    ensures WakeEach(st, slots, env) == Run(st, WakeOps(slots, env))
  {
    if slots != [] {
      var k := |slots| - 1;
      WakeEachIsRun(st, slots[..k], env);
      assert WakeOps(slots, env)[..k] == WakeOps(slots[..k], env);
    }
  }

  /** So is waking all. */
  lemma WakeAllIsRun(st: State, env: nat -> M.Radio)
    ensures WakeUpTo(st, |st.recs|, env) == Run(st, WakeOps(AllSlots(st, |st.recs|), env))
  {
    WakeUpToIsEach(st, |st.recs|, env);
    WakeEachIsRun(st, AllSlots(st, |st.recs|), env);
  }

  lemma WakeAllKeeps(st: State, env: nat -> M.Radio)
    ensures Kept(st, WakeUpTo(st, |st.recs|, env))
  {
    WakeAllIsRun(st, env);
    if Inv(st) {
      RunKeeps(st, WakeOps(AllSlots(st, |st.recs|), env));
    }
  }
}
