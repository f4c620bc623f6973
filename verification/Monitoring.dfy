/** What one server's monitor does: the arithmetic and branching of `wol.c`
    on a single slot, as functions of the state the slot sees. */
module Monitoring {
  import opened Words
  import opened Config

  const PING_TIMEOUT_MS := 3000
  const HEALTH_INTERVAL_MS := 300000
  const WOL_PING_INTERVAL_MS := 10000
  const WOL_PINGS_PER_ATTEMPT := 6
  const WOL_MAX_ATTEMPTS := 5

  /** How one `ping_send` call ended: returned at once (no address or no ICMP
      socket), found no packet buffer, or sent an echo request. */
  datatype Echo = Skipped | NoBuffer | Sent

  /** Packets sent, webhook notifications raised and the auto-wake decision. */
  datatype Notice = Magic(ok: bool) | Ping(echo: Echo) | Up | Down | AutoWake

  datatype Event = Event(who: string, what: Notice)

  /** What the environment answers during one wake: whether the magic packet
      goes out, whether a ping buffer is available, and the boot clock that
      `ping_send` reads. */
  datatype Radio = Radio(magicOk: bool, buffer: bool, clock: Word)

  /** One loop body may send twice: an auto-wake, then a retry or health ping. */
  datatype TickEnv = TickEnv(first: Radio, second: Radio)

  /** The state one slot's code touches. */
  datatype Cell = Cell(mon: Monitor, seqNo: Half, log: seq<Event>)

  function Emit(c: Cell, s: Server, what: Notice): Cell {
    c.(log := c.log + [Event(NameOf(s), what)])
  }

  function PingSend(c: Cell, s: Server, ready: bool, r: Radio): Cell {
    if s.ip == 0 || !ready then
      Emit(c, s, Ping(Skipped))
    else
      var q := NextHalf(c.seqNo);
      if !r.buffer then
        Emit(c.(seqNo := q), s, Ping(NoBuffer))
      else
        Emit(c.(mon := c.mon.(pingPending := true, pingSeq := q, lastPing := r.clock), seqNo := q), s, Ping(Sent))
  }

  function WakeServer(c: Cell, s: Server, r: Radio): Cell {
    Emit(c, s, Magic(r.magicOk))
  }

  function WakeMonitored(c: Cell, s: Server, ready: bool, r: Radio): Cell {
    var c1 := WakeServer(c, s, r);
    if s.ip != 0 then
      PingSend(c1.(mon := c1.mon.(wolActive := true, wolCount := 1, pingCount := 0, up := false)), s, ready, r)
    else
      c1
  }

  /** The ping-timeout test. */
  predicate PingLate(m: Monitor, now: Word) {
    m.pingPending && Elapsed(now, m.lastPing) >= PING_TIMEOUT_MS
  }

  /** The retry test of the wake campaign. */
  predicate RetryDue(m: Monitor, now: Word) {
    m.wolActive && !m.pingPending && Elapsed(now, m.lastPing) >= WOL_PING_INTERVAL_MS
  }

  /** The health-check test. */
  predicate HealthDue(m: Monitor, now: Word) {
    Elapsed(now, m.lastHealth) >= HEALTH_INTERVAL_MS
  }

  /** Step 1 of the loop body, given the outcome of the timeout test. */
  function CheckTimeout(c: Cell, s: Server, ready: bool, autowake: bool, late: bool, r: Radio): Cell {
    if late then
      var wasUp := c.mon.up;
      var c1 := c.(mon := c.mon.(pingPending := false, up := false));
      var c2 := if wasUp then Emit(c1, s, Down) else c1;
      if wasUp && !c2.mon.wolActive && autowake then
        WakeMonitored(Emit(c2, s, AutoWake), s, ready, r)
      else
        c2
    else
      c
  }

  /** Step 2, inside a campaign, given the outcome of the retry test. */
  function Retry(c: Cell, s: Server, ready: bool, due: bool, r: Radio): Cell {
    if !due then
      c
    else
      var c1 := c.(mon := c.mon.(pingCount := NextByte(c.mon.pingCount)));
      if c1.mon.pingCount >= WOL_PINGS_PER_ATTEMPT then
        if c1.mon.wolCount >= WOL_MAX_ATTEMPTS then
          c1.(mon := c1.mon.(wolActive := false, wolCount := 0, pingCount := 0))
        else
          var c2 := c1.(mon := c1.mon.(wolCount := NextByte(c1.mon.wolCount), pingCount := 0));
          PingSend(WakeServer(c2, s, r), s, ready, r)
      else
        PingSend(c1, s, ready, r)
  }

  /** Step 3, outside a campaign, given the outcome of the health-check test. */
  function Health(c: Cell, s: Server, ready: bool, due: bool, now: Word, r: Radio): Cell {
    if due then
      var c1 := c.(mon := c.mon.(lastHealth := now));
      if !c1.mon.pingPending then PingSend(c1, s, ready, r) else c1
    else
      c
  }

  /** One body of the `monitor_tick` loop. */
  function TickBody(c: Cell, s: Server, ready: bool, autowake: bool, now: Word, env: TickEnv): Cell {
    if !s.active || s.ip == 0 then
      c
    else
      var c1 := CheckTimeout(c, s, ready, autowake, PingLate(c.mon, now), env.first);
      if c1.mon.wolActive then
        Retry(c1, s, ready, RetryDue(c1.mon, now), env.second)
      else
        Health(c1, s, ready, HealthDue(c1.mon, now), now, env.second)
  }

  /** The test `ping_recv_callback` puts to each slot. */
  predicate Matches(s: Server, m: Monitor, ip: Word, seqNo: Half) {
    s.active && s.ip != 0 && s.ip == ip && m.pingPending && m.pingSeq == seqNo
  }

  /** What the callback does to the slot that matches. */
  function Answer(c: Cell, s: Server): Cell {
    var wasDown := !c.mon.up;
    var m1 := c.mon.(pingPending := false, up := true);
    var m2 := if m1.wolActive then m1.(wolActive := false, wolCount := 0, pingCount := 0) else m1;
    var c1 := c.(mon := m2);
    if wasDown then Emit(c1, s, Up) else c1
  }

  /** What each function adds to the log does not depend on what is in it. */
  lemma TickFrame(c: Cell, s: Server, ready: bool, autowake: bool, now: Word, env: TickEnv, log: seq<Event>)
    ensures var here := TickBody(c, s, ready, autowake, now, env);
            TickBody(c.(log := log + c.log), s, ready, autowake, now, env) == here.(log := log + here.log)
  {
    if s.active && s.ip != 0 {
      TimeoutFrame(c, s, ready, autowake, PingLate(c.mon, now), env.first, log);
      var c1 := CheckTimeout(c, s, ready, autowake, PingLate(c.mon, now), env.first);
      RetryFrame(c1, s, ready, RetryDue(c1.mon, now), env.second, log);
      HealthFrame(c1, s, ready, HealthDue(c1.mon, now), now, env.second, log);
    }
  }

  lemma EmitFrame(c: Cell, s: Server, what: Notice, log: seq<Event>)
    ensures var here := Emit(c, s, what);
            Emit(c.(log := log + c.log), s, what) == here.(log := log + here.log)
  {
    var e := [Event(NameOf(s), what)];
    assert (log + c.log) + e == log + (c.log + e);
  }

  lemma PingFrame(c: Cell, s: Server, ready: bool, r: Radio, log: seq<Event>)
    ensures var here := PingSend(c, s, ready, r);
            PingSend(c.(log := log + c.log), s, ready, r) == here.(log := log + here.log)
  {
    forall e: Echo { EmitFrame(c, s, Ping(e), log); }
  }

  lemma WakeFrame(c: Cell, s: Server, ready: bool, r: Radio, log: seq<Event>)
    ensures var here := WakeMonitored(c, s, ready, r);
            WakeMonitored(c.(log := log + c.log), s, ready, r) == here.(log := log + here.log)
  {
    EmitFrame(c, s, Magic(r.magicOk), log);
    var c1 := WakeServer(c, s, r);
    PingFrame(c1.(mon := c1.mon.(wolActive := true, wolCount := 1, pingCount := 0, up := false)), s, ready, r, log);
  }

  lemma TimeoutFrame(c: Cell, s: Server, ready: bool, autowake: bool, late: bool, r: Radio, log: seq<Event>)
    ensures var here := CheckTimeout(c, s, ready, autowake, late, r);
            CheckTimeout(c.(log := log + c.log), s, ready, autowake, late, r) == here.(log := log + here.log)
  {
    var c1 := c.(mon := c.mon.(pingPending := false, up := false));
    EmitFrame(c1, s, Down, log);
    var c2 := if c.mon.up then Emit(c1, s, Down) else c1;
    EmitFrame(c2, s, AutoWake, log);
    WakeFrame(Emit(c2, s, AutoWake), s, ready, r, log);
  }

  lemma RetryFrame(c: Cell, s: Server, ready: bool, due: bool, r: Radio, log: seq<Event>)
    ensures var here := Retry(c, s, ready, due, r);
            Retry(c.(log := log + c.log), s, ready, due, r) == here.(log := log + here.log)
  {
    var c1 := c.(mon := c.mon.(pingCount := NextByte(c.mon.pingCount)));
    PingFrame(c1, s, ready, r, log);
    var c2 := c1.(mon := c1.mon.(wolCount := NextByte(c1.mon.wolCount), pingCount := 0));
    EmitFrame(c2, s, Magic(r.magicOk), log);
    PingFrame(WakeServer(c2, s, r), s, ready, r, log);
  }

  lemma HealthFrame(c: Cell, s: Server, ready: bool, due: bool, now: Word, r: Radio, log: seq<Event>)
    ensures var here := Health(c, s, ready, due, now, r);
            Health(c.(log := log + c.log), s, ready, due, now, r) == here.(log := log + here.log)
  {
    PingFrame(c.(mon := c.mon.(lastHealth := now)), s, ready, r, log);
  }

  lemma AnswerFrame(c: Cell, s: Server, log: seq<Event>)
    ensures var here := Answer(c, s);
            Answer(c.(log := log + c.log), s) == here.(log := log + here.log)
  {
    var m1 := c.mon.(pingPending := false, up := true);
    var m2 := if m1.wolActive then m1.(wolActive := false, wolCount := 0, pingCount := 0) else m1;
    EmitFrame(c.(mon := m2), s, Up, log);
  }
}
