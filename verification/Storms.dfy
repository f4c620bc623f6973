/** Auto-wake cannot storm: counted over the history of one record, followed
    through every shift of the table. */
module Storms {
  import opened Monitoring
  import opened System
  import opened Invariants

  function Count(trace: seq<Notice>, what: Notice): nat {
    if trace == [] then
      0
    else
      Count(trace[..|trace| - 1], what) + if trace[|trace| - 1] == what then 1 else 0
  }

  lemma {:induction false} CalmCounts(trace: seq<Notice>)
    requires Calm(trace)
    ensures Count(trace, AutoWake) + (if trace != [] && trace[|trace| - 1] == Down then 1 else 0) <= Count(trace, Down)
    ensures Count(trace, Down) + (if Armed(trace) then 1 else 0) <= Count(trace, Up)
  {
    if trace != [] {
      var k := |trace| - 1;
      CalmCounts(trace[..k]);
      if k > 0 {
        assert trace[..k][k - 1] == trace[k - 1];
      }
    }
  }

  lemma {:induction false} CalmPrefix(trace: seq<Notice>, n: nat)
    requires Calm(trace) && n <= |trace|
    ensures Calm(trace[..n])
  {
    if n == |trace| {
      assert trace[..n] == trace;
    } else {
      var k := |trace| - 1;
      CalmPrefix(trace[..k], n);
      assert trace[..k][..n] == trace[..n];
    }
  }

  /** An armed history has an up after any given down. */
  lemma {:induction false} ArmedAfter(trace: seq<Notice>, i: nat) returns (k: nat)
    requires Armed(trace) && i < |trace| && trace[i] == Down
    ensures i < k < |trace| && trace[k] == Up
  {
    k := |trace| - 1;
    if trace[k] != Up {
      var init := trace[..k];
      assert init[i] == Down;
      var k' := ArmedAfter(init, i);
      assert init[k'] == trace[k'];
      k := k';
    }
  }

  lemma DownsAreSeparated(trace: seq<Notice>, i: nat, j: nat)
    requires Calm(trace) && i < j < |trace| && trace[i] == Down && trace[j] == Down
    ensures exists k :: i < k < j && trace[k] == Up
  {
    CalmPrefix(trace, j + 1);
    var t := trace[..j + 1];
    assert t[..j] == trace[..j];
    assert t[j] == Down;
    assert trace[..j][i] == Down;
    var k := ArmedAfter(trace[..j], i);
    assert trace[..j][k] == trace[k];
  }

  /** In every run from boot, at every moment of every record's life: no more
      auto-wakes than downs, no more downs than ups, each auto-wake right after a
      down, and between two downs always an up. */
  lemma {:induction false} NoWakeStorm(st: State, ops: seq<Op>, i: nat, n: nat)
    requires Boot(st) && GoodRun(ops)
    requires i < |Run(st, ops).recs| && n <= |Run(st, ops).recs[i].aux.trace|
    ensures var t := Run(st, ops).recs[i].aux.trace[..n];
            && Count(t, AutoWake) <= Count(t, Down) <= Count(t, Up)
            && (n > 0 && t[n - 1] == AutoWake ==> n > 1 && t[n - 2] == Down)
            && (forall a, b :: 0 <= a < b < n && t[a] == Down && t[b] == Down ==> exists k :: a < k < b && t[k] == Up)
  {
    BootIsOk(st);
    RunKeeps(st, ops);
    var r := Run(st, ops).recs[i];
    assert RecOk(r, Run(st, ops).sends);
    CalmPrefix(r.aux.trace, n);
    var t := r.aux.trace[..n];
    CalmCounts(t);
    forall a, b | 0 <= a < b < n && t[a] == Down && t[b] == Down
      ensures exists k :: a < k < b && t[k] == Up
    {
      DownsAreSeparated(t, a, b);
    }
  }
}
