/** The connection state of `mqtt_client.c` and its reconnect backoff. */
module Mqtt {
  import opened Words

  const FIRST_DELAY_MS := 5000
  const MAX_DELAY_MS := 60000
  const STATUS_INTERVAL_MS := 60000

  datatype Dns = Resolved | InProgress | Failed

  /** The statics, with the enabling setting and whether a host is configured. */
  datatype Client = Client(
    enabled: bool, hasHost: bool, connected: bool, resolved: bool, pending: bool,
    lastReconnect: Word, delay: Word, lastPublish: Word)

  datatype Op =
    | Ticked(t: nat)
    | Accepted
    | Refused
    | Init(dns: Dns)
    | DnsDone(ok: bool)
    | Configure(on: bool, host: bool)

  predicate ReconnectDue(c: Client, now: Word) {
    c.enabled && !c.connected && c.resolved && !c.pending && Elapsed(now, c.lastReconnect) >= c.delay
  }

  function Doubled(delay: Word): Word {
    var d := delay * 2 % WRAP;
    if d > MAX_DELAY_MS then MAX_DELAY_MS else d
  }

  function OnTick(c: Client, now: Word): Client {
    if ReconnectDue(c, now) then
      c.(lastReconnect := now, delay := Doubled(c.delay))
    else if c.enabled && c.connected && Elapsed(now, c.lastPublish) >= STATUS_INTERVAL_MS then
      c.(lastPublish := now)
    else
      c
  }

  function OnInit(c: Client, dns: Dns): Client {
    if !c.enabled || !c.hasHost then c
    else c.(connected := false, resolved := dns.Resolved?, pending := dns.InProgress?, delay := FIRST_DELAY_MS)
  }

  function Apply(c: Client, op: Op): Client {
    match op
    case Ticked(t) => OnTick(c, ClockAt(t))
    case Accepted => c.(connected := true, delay := FIRST_DELAY_MS)
    case Refused => c.(connected := false)
    case Init(dns) => OnInit(c, dns)
    case DnsDone(ok) => c.(pending := false, resolved := c.resolved || ok)
    case Configure(on, host) => c.(enabled := on, hasHost := host)
  }

  function Play(c: Client, ops: seq<Op>): Client {
    if ops == [] then c else Apply(Play(c, ops[..|ops| - 1]), ops[|ops| - 1])
  }

  // --- In place ---

  class MqttClient {
    var c: Client

    constructor (on: bool, host: bool)
      ensures c == Client(on, host, false, false, false, 0, FIRST_DELAY_MS, 0)
    {
      c := Client(on, host, false, false, false, 0, FIRST_DELAY_MS, 0);
    }

    /** `bae_mqtt_tick` */
    method Tick(now: Word) returns (reconnect: bool, publish: bool)
      modifies this
      ensures c == OnTick(old(c), now)
      ensures reconnect <==> old(c).enabled && !old(c).connected && old(c).resolved && !old(c).pending &&
                             (now - old(c).lastReconnect) % 0x1_0000_0000 >= old(c).delay
      ensures publish <==> old(c).enabled && old(c).connected && (now - old(c).lastPublish) % 0x1_0000_0000 >= 60000
      ensures c.lastReconnect == (if reconnect then now else old(c).lastReconnect)
      ensures c.lastPublish == (if publish then now else old(c).lastPublish)
      ensures !reconnect ==> c.delay == old(c).delay
      ensures reconnect && old(c).delay <= 60000 ==>
                c.delay == if 2 * old(c).delay <= 60000 then 2 * old(c).delay else 60000
      ensures c.enabled == old(c).enabled && c.hasHost == old(c).hasHost && c.connected == old(c).connected
      ensures c.resolved == old(c).resolved && c.pending == old(c).pending
    {
      reconnect, publish := false, false;
      if !c.enabled {
        return;
      }
      if !c.connected && c.resolved && !c.pending {
        if Elapsed(now, c.lastReconnect) >= c.delay {
          c := c.(lastReconnect := now);
          reconnect := true;
          c := c.(delay := c.delay * 2 % WRAP);
          if c.delay > MAX_DELAY_MS {
            c := c.(delay := MAX_DELAY_MS);
          }
        }
      }
      if c.connected && Elapsed(now, c.lastPublish) >= STATUS_INTERVAL_MS {
        c := c.(lastPublish := now);
        publish := true;
      }
    }

    /** `bae_mqtt_init`; `dns` is how the host resolves. */
    method Start(dns: Dns)
      modifies this
      ensures c == OnInit(old(c), dns)
      ensures !old(c).enabled || !old(c).hasHost ==> c == old(c)
      ensures old(c).enabled && old(c).hasHost ==>
                && !c.connected && (c.resolved <==> dns == Resolved) && (c.pending <==> dns == InProgress)
                && c.delay == 5000 && c.lastReconnect == old(c).lastReconnect && c.lastPublish == old(c).lastPublish
                && c.enabled && c.hasHost
    {
      if !c.enabled || !c.hasHost {
        return;
      }
      c := c.(connected := false, resolved := false, pending := false);
      c := c.(delay := FIRST_DELAY_MS);
      match dns {
        case Resolved => c := c.(resolved := true);
        case InProgress => c := c.(pending := true);
        case Failed =>
      }
    }

    /** `mqtt_connection_cb` */
    method ConnectionChanged(accepted: bool)
      modifies this
      ensures c == Apply(old(c), if accepted then Accepted else Refused)
      ensures c.connected == accepted && c.delay == (if accepted then 5000 else old(c).delay)
      ensures c == old(c).(connected := c.connected, delay := c.delay)
    {
      if accepted {
        c := c.(connected := true);
        c := c.(delay := FIRST_DELAY_MS);
      } else {
        c := c.(connected := false);
      }
    }

    /** `dns_callback`; `found` is whether the host has an address. */
    method DnsAnswered(found: bool)
      modifies this
      ensures c == Apply(old(c), DnsDone(found))
      ensures !c.pending && (c.resolved <==> old(c).resolved || found)
      ensures c == old(c).(pending := c.pending, resolved := c.resolved)
    {
      c := c.(pending := false);
      if found {
        c := c.(resolved := true);
      }
    }
  }

  // --- Closed form ---

  function Pow2(k: nat): (p: nat)
    ensures p >= 1
  {
    if k == 0 then 1 else 2 * Pow2(k - 1)
  }

  /** The delay after `k` reconnects since the last reset. */
  function DelayAfter(k: nat): (d: nat)
    ensures FIRST_DELAY_MS <= d <= MAX_DELAY_MS
  {
    if FIRST_DELAY_MS * Pow2(k) <= MAX_DELAY_MS then FIRST_DELAY_MS * Pow2(k) else MAX_DELAY_MS
  }

  predicate Resets(c: Client, op: Op) {
    op.Accepted? || (op.Init? && c.enabled && c.hasHost)
  }

  predicate Reconnects(c: Client, op: Op) {
    op.Ticked? && ReconnectDue(c, ClockAt(op.t))
  }

  /** Reconnects since the last reset, `k` of them before the run. */
  function Since(c: Client, k: nat, ops: seq<Op>): nat {
    if ops == [] then
      k
    else
      var n := |ops| - 1;
      Next(Play(c, ops[..n]), Since(c, k, ops[..n]), ops[n])
  }

  lemma DoubledIs(k: nat)
    ensures Doubled(DelayAfter(k)) == DelayAfter(k + 1)
  {
    assert Pow2(k + 1) == 2 * Pow2(k);
  }

  /** Reconnects since the last reset after one more operation. */
  function Next(c: Client, k: nat, op: Op): nat {
    if Resets(c, op) then 0 else k + if Reconnects(c, op) then 1 else 0
  }

  lemma StepDelay(c: Client, k: nat, op: Op)
    requires c.delay == DelayAfter(k)
    ensures Apply(c, op).delay == DelayAfter(Next(c, k, op))
  {
    DoubledIs(k);
    assert DelayAfter(0) == FIRST_DELAY_MS;
  }

  /** In every run, whatever connects, fails or restarts in between, the delay is
      min(5000 * 2^k, 60000) after `k` reconnects since the last reset. */
  lemma {:induction false} DelayIsClosedForm(c: Client, k: nat, ops: seq<Op>)
    requires c.delay == DelayAfter(k)
    ensures Play(c, ops).delay == DelayAfter(Since(c, k, ops))
  {
    if ops != [] {
      var n := |ops| - 1;
      DelayIsClosedForm(c, k, ops[..n]);
      StepDelay(Play(c, ops[..n]), Since(c, k, ops[..n]), ops[n]);
    }
  }

  // --- Spacing ---

  /** The true times of the reconnects in a run. */
  function Times(c: Client, ops: seq<Op>): seq<nat> {
    if ops == [] then
      []
    else
      var n := |ops| - 1;
      Times(c, ops[..n]) + if Reconnects(Play(c, ops[..n]), ops[n]) then [ops[n].t] else []
  }

  predicate TicksInOrder(ops: seq<Op>) {
    forall i, j :: 0 <= i < j < |ops| && ops[i].Ticked? && ops[j].Ticked? ==> ops[i].t <= ops[j].t
  }

  /** No connection is accepted and nothing restarts. */
  predicate Unbroken(ops: seq<Op>) {
    forall i :: 0 <= i < |ops| ==> !ops[i].Accepted? && !ops[i].Init?
  }

  /** The least delay between reconnects `i` and `i + 1`, counted from 0. */
  predicate Backed(times: seq<nat>, k: nat) {
    forall i :: 0 <= i < |times| - 1 ==> times[i] + DelayAfter(k + i + 1) <= times[i + 1]
  }

  /** Times of reconnects after one more operation at or after the last of them. */
  lemma OneMore(c: Client, k: nat, times: seq<nat>, op: Op)
    requires !op.Accepted? && !op.Init? && Backed(times, k)
    requires c.delay == DelayAfter(k + |times|)
    requires times != [] ==> c.lastReconnect == ClockAt(times[|times| - 1])
    requires times != [] && op.Ticked? ==> times[|times| - 1] <= op.t
    ensures var times' := times + if Reconnects(c, op) then [op.t] else [];
            && Next(c, k + |times|, op) == k + |times'|
            && Backed(times', k)
            && (times' != [] ==> Apply(c, op).lastReconnect == ClockAt(times'[|times'| - 1]))
  {
    if times != [] && op.Ticked? {
      ElapsedNeverOverstates(op.t, times[|times| - 1]);
    }
  }

  lemma {:induction false} ReconnectsAreBacked(c: Client, k: nat, ops: seq<Op>)
    requires c.delay == DelayAfter(k) && TicksInOrder(ops) && Unbroken(ops)
    ensures var times := Times(c, ops);
            && Since(c, k, ops) == k + |times|
            && Backed(times, k)
            && (times != [] ==> Play(c, ops).lastReconnect == ClockAt(times[|times| - 1]))
            && (times != [] ==> AtTick(ops, times[|times| - 1]))
  {
    if ops != [] {
      var n := |ops| - 1;
      var init := ops[..n];
      ReconnectsAreBacked(c, k, init);
      DelayIsClosedForm(c, k, init);
      var times := Times(c, init);
      if times != [] {
        AtTickLonger(init, ops, times[|times| - 1]);
      }
      OneMore(Play(c, init), k, times, ops[n]);
    }
  }

  lemma AtTickLonger(init: seq<Op>, ops: seq<Op>, t: nat)
    requires ops != [] && init == ops[..|ops| - 1] && TicksInOrder(ops) && AtTick(init, t)
    ensures AtTick(ops, t) && (ops[|ops| - 1].Ticked? ==> t <= ops[|ops| - 1].t)
  {
    var i :| 0 <= i < |init| && init[i] == Ticked(t);
    assert ops[i] == Ticked(t);
  }

  /** The run has a tick at `t`. */
  ghost predicate AtTick(ops: seq<Op>, t: nat) {
    exists i :: 0 <= i < |ops| && ops[i] == Ticked(t)
  }

  /** DelayAfter(k + 1) + ... + DelayAfter(k + n) */
  function DelaySum(k: nat, n: nat): nat {
    if n == 0 then 0 else DelaySum(k, n - 1) + DelayAfter(k + n)
  }

  lemma {:induction false} BackedSpan(times: seq<nat>, k: nat, n: nat)
    requires Backed(times, k) && n < |times|
    ensures times[0] + DelaySum(k, n) <= times[n]
  {
    if n > 0 {
      BackedSpan(times, k, n - 1);
      assert times[n - 1] + DelayAfter(k + n - 1 + 1) <= times[n - 1 + 1];
    }
  }

  /** From a reset on, while nothing connects or restarts, reconnect number `n` (the first
      being number 0) comes at least min(5000 * 2, 60000) + ... + min(5000 * 2^n, 60000)
      ms after the first, however the ticks fall and the clock wraps. */
  lemma NthReconnectIsLate(c: Client, ops: seq<Op>, n: nat)
    requires c.delay == FIRST_DELAY_MS && TicksInOrder(ops) && Unbroken(ops) && n < |Times(c, ops)|
    ensures Times(c, ops)[0] + DelaySum(0, n) <= Times(c, ops)[n]
  {
    assert DelayAfter(0) == FIRST_DELAY_MS;
    ReconnectsAreBacked(c, 0, ops);
    BackedSpan(Times(c, ops), 0, n);
  }

  // --- And that they come ---

  /** Enabled, not connected, with an address to connect to: only time keeps it from reconnecting. */
  predicate Eager(c: Client) {
    c.enabled && !c.connected && c.resolved && !c.pending
  }

  ghost predicate EagerThroughout(c: Client, ops: seq<Op>) {
    forall k :: 0 <= k <= |ops| ==> Eager(Play(c, ops[..k]))
  }

  /** The times of the ticks. */
  function TickTimes(ops: seq<Op>): seq<nat> {
    if ops == [] then
      []
    else
      var n := |ops| - 1;
      TickTimes(ops[..n]) + if ops[n].Ticked? then [ops[n].t] else []
  }

  /** Ticks in order, at most `gap` apart. */
  predicate Steady(ticks: seq<nat>, gap: nat) {
    forall i :: 0 <= i < |ticks| - 1 ==> ticks[i] <= ticks[i + 1] <= ticks[i] + gap
  }

  /** The reconnects are as late as the delays allow and at most a gap later. */
  predicate Prompt(times: seq<nat>, k: nat, gap: nat) {
    forall i :: 0 <= i < |times| - 1 ==> times[i + 1] <= times[i] + DelayAfter(k + i + 1) + gap
  }

  /** After the ticks so far, the latest reconnect is less than the current delay ago. */
  predicate Waiting(c: Client, k: nat, ticks: seq<nat>, times: seq<nat>, gap: nat) {
    && c.delay == DelayAfter(k + |times|) && Prompt(times, k, gap)
    && (times != [] ==>
          && ticks != [] && c.lastReconnect == ClockAt(times[|times| - 1])
          && times[|times| - 1] <= ticks[|ticks| - 1] < times[|times| - 1] + c.delay)
  }

  lemma TickIsPrompt(c: Client, k: nat, ticks: seq<nat>, times: seq<nat>, t: nat, gap: nat)
    requires Eager(c) && Waiting(c, k, ticks, times, gap) && gap + MAX_DELAY_MS < WRAP
    requires ticks != [] ==> ticks[|ticks| - 1] <= t <= ticks[|ticks| - 1] + gap
    ensures var due := ReconnectDue(c, ClockAt(t));
            Waiting(OnTick(c, ClockAt(t)), k, ticks + [t], times + if due then [t] else [], gap)
  {
    DoubledIs(k + |times|);
    if times != [] {
      ElapsedIsExact(t, times[|times| - 1]);
    }
  }

  lemma {:induction false} RunIsPrompt(c: Client, k: nat, ops: seq<Op>, gap: nat)
    requires c.delay == DelayAfter(k) && Unbroken(ops) && EagerThroughout(c, ops)
    requires Steady(TickTimes(ops), gap) && gap + MAX_DELAY_MS < WRAP
    ensures Waiting(Play(c, ops), k, TickTimes(ops), Times(c, ops), gap)
  {
    if ops != [] {
      var n := |ops| - 1;
      var init := ops[..n];
      EagerPrefix(c, ops);
      SteadyPrefix(ops, gap);
      RunIsPrompt(c, k, init, gap);
      var ticks, times := TickTimes(init), Times(c, init);
      if ops[n].Ticked? {
        LastTick(ops, gap);
        TickIsPrompt(Play(c, init), k, ticks, times, ops[n].t, gap);
      } else {
        assert ticks + [] == ticks && times + [] == times;
      }
    }
  }

  lemma EagerPrefix(c: Client, ops: seq<Op>)
    requires ops != [] && EagerThroughout(c, ops)
    ensures EagerThroughout(c, ops[..|ops| - 1]) && Eager(Play(c, ops[..|ops| - 1]))
  {
    var init := ops[..|ops| - 1];
    forall k | 0 <= k <= |init| ensures Eager(Play(c, init[..k])) {
      assert init[..k] == ops[..k];
    }
  }

  lemma SteadyPrefix(ops: seq<Op>, gap: nat)
    requires ops != [] && Steady(TickTimes(ops), gap)
    ensures Steady(TickTimes(ops[..|ops| - 1]), gap)
  {
    var init, all := TickTimes(ops[..|ops| - 1]), TickTimes(ops);
    forall i | 0 <= i < |init| - 1 ensures init[i] <= init[i + 1] <= init[i] + gap {
      assert init[i] == all[i] && init[i + 1] == all[i + 1];
    }
  }

  /** DelaySum(k, n) with a gap added to every delay. */
  function MaxSpan(k: nat, n: nat, gap: nat): nat {
    if n == 0 then 0 else MaxSpan(k, n - 1, gap) + DelayAfter(k + n) + gap
  }

  lemma {:induction false} MaxSpanIs(k: nat, n: nat, gap: nat)
    ensures MaxSpan(k, n, gap) == DelaySum(k, n) + n * gap
  {
    if n > 0 {
      MaxSpanIs(k, n - 1, gap);
      assert n * gap == (n - 1) * gap + gap;
    }
  }

  lemma {:induction false} MaxSpanGrows(k: nat, m: nat, n: nat, gap: nat)
    requires m <= n
    ensures MaxSpan(k, m, gap) <= MaxSpan(k, n, gap)
    decreases n
  {
    if m < n {
      MaxSpanGrows(k, m, n - 1, gap);
    }
  }

  lemma {:induction false} PromptSpan(times: seq<nat>, k: nat, n: nat, gap: nat)
    requires Prompt(times, k, gap) && n < |times|
    ensures times[n] <= times[0] + MaxSpan(k, n, gap)
  {
    if n > 0 {
      PromptSpan(times, k, n - 1, gap);
      assert times[n - 1 + 1] <= times[n - 1] + DelayAfter(k + n - 1 + 1) + gap;
    }
  }

  /** The ticks so far do not reach the latest time of the next reconnect. */
  lemma WaitingReaches(c: Client, k: nat, ticks: seq<nat>, times: seq<nat>, gap: nat)
    requires Waiting(c, k, ticks, times, gap) && times != []
    ensures ticks != [] && ticks[|ticks| - 1] < times[0] + MaxSpan(k, |times|, gap)
  {
    PromptSpan(times, k, |times| - 1, gap);
  }

  /** From a reset on, while nothing connects or restarts and ticks are at most `gap` apart, reconnect
      number `n` comes no later than the first plus the sum of the delays plus n * gap... */
  lemma NthReconnectIsPrompt(c: Client, ops: seq<Op>, n: nat, gap: nat)
    requires c.delay == FIRST_DELAY_MS && Unbroken(ops) && EagerThroughout(c, ops)
    requires Steady(TickTimes(ops), gap) && gap + MAX_DELAY_MS < WRAP && n < |Times(c, ops)|
    ensures Times(c, ops)[n] <= Times(c, ops)[0] + DelaySum(0, n) + n * gap
  {
    assert DelayAfter(0) == FIRST_DELAY_MS;
    RunIsPrompt(c, 0, ops, gap);
    PromptSpan(Times(c, ops), 0, n, gap);
    MaxSpanIs(0, n, gap);
  }

  /** ... and it does come, once there has been a first and the ticks reach that far. */
  lemma NthReconnectComes(c: Client, ops: seq<Op>, n: nat, gap: nat)
    requires c.delay == FIRST_DELAY_MS && Unbroken(ops) && EagerThroughout(c, ops)
    requires Steady(TickTimes(ops), gap) && gap + MAX_DELAY_MS < WRAP
    requires var ticks, times := TickTimes(ops), Times(c, ops);
             times != [] && ticks != [] && ticks[|ticks| - 1] >= times[0] + DelaySum(0, n) + n * gap
    ensures n < |Times(c, ops)|
  {
    assert DelayAfter(0) == FIRST_DELAY_MS;
    RunIsPrompt(c, 0, ops, gap);
    WaitingReaches(Play(c, ops), 0, TickTimes(ops), Times(c, ops), gap);
    MaxSpanIs(0, n, gap);
    if |Times(c, ops)| <= n {
      MaxSpanGrows(0, |Times(c, ops)|, n, gap);
    }
  }

  /** The first reconnect comes within the delay and one gap of the first tick, however old or strange
      the stamp it is counted from. */
  lemma FirstReconnectComes(c: Client, ops: seq<Op>, gap: nat)
    requires c.delay == FIRST_DELAY_MS && Unbroken(ops) && EagerThroughout(c, ops)
    requires Steady(TickTimes(ops), gap) && gap + MAX_DELAY_MS < WRAP
    requires var ticks := TickTimes(ops); ticks != [] && ticks[|ticks| - 1] >= ticks[0] + FIRST_DELAY_MS
    ensures Times(c, ops) != [] && Times(c, ops)[0] <= TickTimes(ops)[0] + FIRST_DELAY_MS + gap
  {
    var anchor := FirstOrWaiting(c, ops, gap);
  }

  /** Before any reconnect, the stamp reads like one made at `anchor`, less than the delay ago. */
  predicate Anchored(c: Client, ticks: seq<nat>, anchor: int) {
    && c.delay == FIRST_DELAY_MS
    && (ticks != [] ==>
          && c.lastReconnect == ClockAt(anchor) && anchor <= ticks[0]
          && anchor <= ticks[|ticks| - 1] < anchor + FIRST_DELAY_MS)
  }

  lemma WaitOneMore(c: Client, ticks: seq<nat>, t: nat, anchor: int, gap: nat) returns (anchor': int)
    requires Eager(c) && Anchored(c, ticks, anchor) && gap + MAX_DELAY_MS < WRAP
    requires ticks != [] ==> ticks[|ticks| - 1] <= t <= ticks[|ticks| - 1] + gap
    ensures var all := ticks + [t];
            if ReconnectDue(c, ClockAt(t)) then t <= all[0] + FIRST_DELAY_MS + gap
            else Anchored(OnTick(c, ClockAt(t)), all, anchor')
  {
    anchor' := anchor;
    if ticks == [] {
      anchor' := t - Elapsed(ClockAt(t), c.lastReconnect);
      StampBack(t, c.lastReconnect);
    } else {
      ElapsedIsExact(t, anchor);
    }
  }

  predicate FirstSoFar(c: Client, ops: seq<Op>, anchor: int, gap: nat) {
    var ticks, times := TickTimes(ops), Times(c, ops);
    if times == [] then Anchored(Play(c, ops), ticks, anchor)
    else ticks != [] && times[0] <= ticks[0] + FIRST_DELAY_MS + gap
  }

  lemma FirstStep(c: Client, ops: seq<Op>, anchor: int, gap: nat) returns (anchor': int)
    requires ops != [] && Steady(TickTimes(ops), gap) && gap + MAX_DELAY_MS < WRAP
    requires !ops[|ops| - 1].Accepted? && !ops[|ops| - 1].Init?
    requires var init := ops[..|ops| - 1]; Eager(Play(c, init)) && FirstSoFar(c, init, anchor, gap)
    ensures FirstSoFar(c, ops, anchor', gap)
  {
    anchor' := anchor;
    var init, op := ops[..|ops| - 1], ops[|ops| - 1];
    FirstTimeStays(c, ops);
    if op.Ticked? {
      LastTick(ops, gap);
      if Times(c, init) == [] {
        anchor' := WaitOneMore(Play(c, init), TickTimes(init), op.t, anchor, gap);
      }
    }
  }

  lemma {:induction false} FirstOrWaiting(c: Client, ops: seq<Op>, gap: nat) returns (anchor: int)
    requires c.delay == FIRST_DELAY_MS && Unbroken(ops) && EagerThroughout(c, ops)
    requires Steady(TickTimes(ops), gap) && gap + MAX_DELAY_MS < WRAP
    ensures FirstSoFar(c, ops, anchor, gap)
  {
    anchor := 0;
    if ops != [] {
      EagerPrefix(c, ops);
      SteadyPrefix(ops, gap);
      anchor := FirstOrWaiting(c, ops[..|ops| - 1], gap);
      anchor := FirstStep(c, ops, anchor, gap);
    }
  }

  /** Later operations change neither the first reconnect nor, unless they are ticks, any list of times. */
  lemma FirstTimeStays(c: Client, ops: seq<Op>)
    requires ops != []
    ensures var times, all := Times(c, ops[..|ops| - 1]), Times(c, ops);
            && (times != [] ==> all != [] && all[0] == times[0])
            && (!ops[|ops| - 1].Ticked? ==> all == times && TickTimes(ops) == TickTimes(ops[..|ops| - 1]))
            && (times == [] && ops[|ops| - 1].Ticked? ==>
                  all == if Reconnects(Play(c, ops[..|ops| - 1]), ops[|ops| - 1]) then [ops[|ops| - 1].t] else [])
  {
  }

  lemma LastTick(ops: seq<Op>, gap: nat)
    requires ops != [] && ops[|ops| - 1].Ticked? && Steady(TickTimes(ops), gap)
    ensures var ticks, t := TickTimes(ops[..|ops| - 1]), ops[|ops| - 1].t;
            && TickTimes(ops) == ticks + [t] && TickTimes(ops)[0] == (if ticks == [] then t else ticks[0])
            && (ticks != [] ==> ticks[|ticks| - 1] <= t <= ticks[|ticks| - 1] + gap)
  {
    var ticks, all := TickTimes(ops[..|ops| - 1]), TickTimes(ops);
    assert all[|ticks|] == ops[|ops| - 1].t;
    assert ticks != [] ==> all[|ticks| - 1] == ticks[|ticks| - 1];
  }

  /** Any stamp reads like one made as long ago as the wrapped difference says. */
  lemma StampBack(t: nat, w: Word)
    ensures ClockAt(t - Elapsed(ClockAt(t), w)) == w
  {
    var q, e, r := t / WRAP, Elapsed(ClockAt(t), w), (ClockAt(t) - w) / WRAP;
    assert t - e == w + WRAP * (q + r);
    ModShift(w, q + r);
  }
}
