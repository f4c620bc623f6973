/** What every run of the appliance keeps: table limits, counter ranges, the
    numbering of pings and the order of up, down and auto-wake notices. */
module Invariants {
  import opened Words
  import opened CStrings
  import opened Config
  import opened Monitoring
  import opened System

  /** The campaign counters of one monitor. */
  predicate MonOk(m: Monitor) {
    && (m.wolActive ==> !m.up && 1 <= m.wolCount <= WOL_MAX_ATTEMPTS && m.pingCount < WOL_PINGS_PER_ATTEMPT)
    && (!m.wolActive ==> m.wolCount == 0 && m.pingCount == 0)
  }

  /** The last up or down notice of the history was an up. */
  predicate Armed(trace: seq<Notice>) {
    trace != [] &&
    var k := |trace| - 1;
    trace[k] == Up || (trace[k] != Down && Armed(trace[..k]))
  }

  /** Every down comes after an up that no earlier down has used, and every
      auto-wake directly follows a down. */
  predicate Calm(trace: seq<Notice>) {
    trace == [] ||
    var k := |trace| - 1;
    && Calm(trace[..k])
    && (trace[k] == Down ==> Armed(trace[..k]))
    && (trace[k] == AutoWake ==> k > 0 && trace[k - 1] == Down)
  }

  predicate HistoryOk(m: Monitor, trace: seq<Notice>) {
    Calm(trace) && (m.up ==> Armed(trace))
  }

  /** A pending ping carries the low 16 bits of its running number. */
  predicate NumberOk(m: Monitor, last: nat, sends: nat) {
    && last <= sends
    && (m.pingPending ==> 0 < last && m.pingSeq == last % SEQ_WRAP)
  }

  predicate RecOk(r: Rec, sends: nat) {
    && r.server.active
    && r.server.name[NAME_LEN - 1] == NUL
    && MonOk(r.mon)
    && HistoryOk(r.mon, r.aux.trace)
    && NumberOk(r.mon, r.aux.sendNo, sends)
  }

  predicate NamesDistinct(recs: seq<Rec>) {
    forall i, j :: 0 <= i < j < |recs| ==> NameOf(recs[i].server) != NameOf(recs[j].server)
  }

  predicate NumbersDistinct(recs: seq<Rec>) {
    forall i, j :: 0 <= i < j < |recs| && recs[i].aux.sendNo == recs[j].aux.sendNo ==> recs[i].aux.sendNo == 0
  }

  predicate Inv(st: State) {
    && |st.recs| <= MAX_SERVERS
    && |st.schedules| <= MAX_SCHEDULES
    && st.seqNo == st.sends % SEQ_WRAP
    && (forall i :: 0 <= i < |st.recs| ==> RecOk(st.recs[i], st.sends))
    && NamesDistinct(st.recs)
    && NumbersDistinct(st.recs)
  }

  // --- One slot ---

  /** A cell reached from slot `r` of a state with `sends` pings numbered so far. */
  predicate CellOk(c: Cell, r: Rec, sends: nat) {
    var (total, last) := Numbered(c.log, sends, r.aux.sendNo);
    && MonOk(c.mon)
    && HistoryOk(c.mon, r.aux.trace + Notices(c.log))
    && sends <= total
    && c.seqNo == total % SEQ_WRAP
    && NumberOk(c.mon, last, total)
    && (last == r.aux.sendNo || sends < last)
  }

  lemma {:induction false} NumberedSnoc(events: seq<Event>, e: Event, sends: nat, last: nat)
    ensures var (s, l) := Numbered(events, sends, last);
            Numbered(events + [e], sends, last) == Numbered([e], s, l)
  {
    if events == [] {
      assert events + [e] == [e];
    } else {
      assert (events + [e])[1..] == events[1..] + [e];
      match events[0].what {
        case Ping(Sent) => NumberedSnoc(events[1..], e, sends + 1, sends + 1);
        case Ping(NoBuffer) => NumberedSnoc(events[1..], e, sends + 1, last);
        case _ => NumberedSnoc(events[1..], e, sends, last);
      }
    }
  }

  lemma TraceSnoc(trace: seq<Notice>, events: seq<Event>, e: Event)
    ensures var t, t' := trace + Notices(events), trace + Notices(events + [e]);
            t' == t + [e.what] && t'[..|t'| - 1] == t
  {
  }

  /** The one way a cell's log grows. */
  lemma EmitKeeps(c: Cell, s: Server, what: Notice, r: Rec, sends: nat)
    requires CellOk(c, r, sends)
    requires what == Down ==> Armed(r.aux.trace + Notices(c.log)) && !c.mon.up
    requires what == AutoWake ==> c.log != [] && c.log[|c.log| - 1].what == Down
    requires !what.Ping? || what.echo == Skipped
    ensures CellOk(Emit(c, s, what), r, sends)
  {
    var e := Event(NameOf(s), what);
    NumberedSnoc(c.log, e, sends, r.aux.sendNo);
    TraceSnoc(r.aux.trace, c.log, e);
  }

  lemma NextHalfIs(n: nat)
    ensures NextHalf(n % SEQ_WRAP) == (n + 1) % SEQ_WRAP
  {
  }

  lemma PingKeeps(c: Cell, s: Server, ready: bool, radio: Radio, r: Rec, sends: nat)
    requires CellOk(c, r, sends)
    ensures CellOk(PingSend(c, s, ready, radio), r, sends)
  {
    if s.ip == 0 || !ready {
      EmitKeeps(c, s, Ping(Skipped), r, sends);
    } else if radio.buffer {
      SentKeeps(c, s, radio.clock, r, sends);
    } else {
      NoBufferKeeps(c, s, r, sends);
    }
  }

  lemma SentKeeps(c: Cell, s: Server, clock: Word, r: Rec, sends: nat)
    requires CellOk(c, r, sends)
    ensures var q := NextHalf(c.seqNo);
            var m := c.mon.(pingPending := true, pingSeq := q, lastPing := clock);
            CellOk(Emit(c.(mon := m, seqNo := q), s, Ping(Sent)), r, sends)
  {
    var e := Event(NameOf(s), Ping(Sent));
    NumberedSnoc(c.log, e, sends, r.aux.sendNo);
    TraceSnoc(r.aux.trace, c.log, e);
    NextHalfIs(Numbered(c.log, sends, r.aux.sendNo).0);
  }

  lemma NoBufferKeeps(c: Cell, s: Server, r: Rec, sends: nat)
    requires CellOk(c, r, sends)
    ensures CellOk(Emit(c.(seqNo := NextHalf(c.seqNo)), s, Ping(NoBuffer)), r, sends)
  {
    var e := Event(NameOf(s), Ping(NoBuffer));
    NumberedSnoc(c.log, e, sends, r.aux.sendNo);
    TraceSnoc(r.aux.trace, c.log, e);
    NextHalfIs(Numbered(c.log, sends, r.aux.sendNo).0);
  }

  lemma WakeKeeps(c: Cell, s: Server, ready: bool, radio: Radio, r: Rec, sends: nat)
    requires CellOk(c, r, sends)
    ensures CellOk(WakeMonitored(c, s, ready, radio), r, sends)
  {
    EmitKeeps(c, s, Magic(radio.magicOk), r, sends);
    var c1 := WakeServer(c, s, radio);
    var c2 := c1.(mon := c1.mon.(wolActive := true, wolCount := 1, pingCount := 0, up := false));
    PingKeeps(c2, s, ready, radio, r, sends);
  }

  lemma TimeoutKeeps(c: Cell, s: Server, ready: bool, autowake: bool, late: bool, radio: Radio, r: Rec, sends: nat)
    requires CellOk(c, r, sends)
    ensures CellOk(CheckTimeout(c, s, ready, autowake, late, radio), r, sends)
  {
    var c1 := c.(mon := c.mon.(pingPending := false, up := false));
    if c.mon.up {
      EmitKeeps(c1, s, Down, r, sends);
      var c2 := Emit(c1, s, Down);
      EmitKeeps(c2, s, AutoWake, r, sends);
      WakeKeeps(Emit(c2, s, AutoWake), s, ready, radio, r, sends);
    }
  }

  /** The campaign counters may be set to anything in range without disturbing the rest. */
  lemma RecountKeeps(c: Cell, active: bool, wols: Byte, pings: Byte, r: Rec, sends: nat)
    requires CellOk(c, r, sends)
    requires MonOk(c.mon.(wolActive := active, wolCount := wols, pingCount := pings))
    ensures CellOk(c.(mon := c.mon.(wolActive := active, wolCount := wols, pingCount := pings)), r, sends)
  {
  }

  /** In range, the `uint8_t` increments never wrap. */
  lemma CountersDoNotWrap(m: Monitor)
    requires MonOk(m) && m.wolActive
    ensures NextByte(m.pingCount) == m.pingCount + 1 <= WOL_PINGS_PER_ATTEMPT
    ensures NextByte(m.wolCount) == m.wolCount + 1
  {
  }

  lemma AttemptKeeps(c: Cell, s: Server, ready: bool, radio: Radio, r: Rec, sends: nat)
    requires CellOk(c, r, sends) && c.mon.wolActive && c.mon.wolCount < WOL_MAX_ATTEMPTS
    ensures var c2 := c.(mon := c.mon.(wolCount := c.mon.wolCount + 1, pingCount := 0));
            CellOk(PingSend(WakeServer(c2, s, radio), s, ready, radio), r, sends)
  {
    RecountKeeps(c, true, c.mon.wolCount + 1, 0, r, sends);
    var c2 := c.(mon := c.mon.(wolCount := c.mon.wolCount + 1, pingCount := 0));
    EmitKeeps(c2, s, Magic(radio.magicOk), r, sends);
    PingKeeps(WakeServer(c2, s, radio), s, ready, radio, r, sends);
  }

  lemma RetryKeeps(c: Cell, s: Server, ready: bool, due: bool, radio: Radio, r: Rec, sends: nat)
    requires CellOk(c, r, sends) && (due ==> c.mon.wolActive)
    ensures CellOk(Retry(c, s, ready, due, radio), r, sends)
  {
    if due {
      CountersDoNotWrap(c.mon);
      if c.mon.pingCount + 1 < WOL_PINGS_PER_ATTEMPT {
        RecountKeeps(c, true, c.mon.wolCount, c.mon.pingCount + 1, r, sends);
        PingKeeps(c.(mon := c.mon.(pingCount := c.mon.pingCount + 1)), s, ready, radio, r, sends);
      } else if c.mon.wolCount < WOL_MAX_ATTEMPTS {
        AttemptKeeps(c, s, ready, radio, r, sends);
      } else {
        RecountKeeps(c, false, 0, 0, r, sends);
      }
    }
  }

  lemma TickKeeps(c: Cell, s: Server, ready: bool, autowake: bool, now: Word, env: TickEnv, r: Rec, sends: nat)
    requires CellOk(c, r, sends)
    ensures CellOk(TickBody(c, s, ready, autowake, now, env), r, sends)
  {
    TimeoutKeeps(c, s, ready, autowake, PingLate(c.mon, now), env.first, r, sends);
    var c1 := CheckTimeout(c, s, ready, autowake, PingLate(c.mon, now), env.first);
    if c1.mon.wolActive {
      RetryKeeps(c1, s, ready, RetryDue(c1.mon, now), env.second, r, sends);
    } else {
      PingKeeps(c1.(mon := c1.mon.(lastHealth := now)), s, ready, env.second, r, sends);
    }
  }

  lemma AnswerKeeps(c: Cell, s: Server, r: Rec, sends: nat)
    requires CellOk(c, r, sends)
    ensures CellOk(Answer(c, s), r, sends)
  {
    if !c.mon.up {
      var e := Event(NameOf(s), Up);
      NumberedSnoc(c.log, e, sends, r.aux.sendNo);
      TraceSnoc(r.aux.trace, c.log, e);
    }
  }

  lemma CellStartsOk(st: State, i: nat)
    requires Inv(st) && i < |st.recs|
    ensures CellOk(CellAt(st, i), st.recs[i], st.sends)
  {
    assert RecOk(st.recs[i], st.sends);
    assert st.recs[i].aux.trace + Notices([]) == st.recs[i].aux.trace;
  }

  lemma SettleKeeps(st: State, i: nat, c: Cell)
    requires Inv(st) && i < |st.recs| && CellOk(c, st.recs[i], st.sends)
    ensures Inv(Settle(st, i, c))
  {
    var st' := Settle(st, i, c);
    forall j | 0 <= j < |st'.recs|
      ensures RecOk(st'.recs[j], st'.sends)
    {
      assert RecOk(st.recs[j], st.sends);
    }
  }

  // --- Every step and every run ---

  lemma StoredNameFits(name: string)
    requires NulFree(name)
    ensures NameOf(Server(NameBuffer(name), ZERO_MAC, true, 0)) == name[..Min(|name|, NAME_LEN - 1)]
    ensures NameBuffer(name)[NAME_LEN - 1] == NUL
  {
    CopiedHolds(BLANK_NAME, name);
  }

  /** Names reach the table through scanners that cut them to 31 characters. */
  predicate NameFits(op: Op) {
    op.Add? ==> |op.name| < NAME_LEN
  }

  /** Replacing a record's server part by one of the same name and good standing, and its
      monitor by a kept or cleared one. */
  lemma UpdateKeeps(st: State, i: nat, r: Rec)
    requires Inv(st) && i < |st.recs|
    requires NameOf(r.server) == NameOf(st.recs[i].server) && r.aux == st.recs[i].aux
    requires RecOk(r, st.sends)
    ensures Inv(st.(recs := st.recs[i := r]))
  {
  }

  lemma AppendKeeps(st: State, r: Rec)
    requires Inv(st) && |st.recs| < MAX_SERVERS && RecOk(r, st.sends) && r.aux == NEW_AUX
    requires forall j :: 0 <= j < |st.recs| ==> NameOf(st.recs[j].server) != NameOf(r.server)
    ensures Inv(st.(recs := st.recs + [r]))
  {
  }

  lemma AddKeeps(st: State, name: string, mac: MacScan, addr: Option<Word>)
    requires Inv(st) && NulFree(name) && mac.WellFormed() && |name| < NAME_LEN
    ensures Inv(Added(st, name, mac, addr))
  {
    var i := Find(st.recs, name);
    if i < |st.recs| {
      var r, st' := st.recs[i], Added(st, name, mac, addr);
      assert RecOk(r, st.sends);
      UpdateKeeps(st, i, r.(server := st'.recs[i].server));
    } else if |st.recs| < MAX_SERVERS && mac.Ok() {
      StoredNameFits(name);
      assert name[..|name|] == name;
      forall j | 0 <= j < |st.recs| ensures NameOf(st.recs[j].server) != name {
        assert RecOk(st.recs[j], st.sends);
        assert !Named(st.recs[j].server, name);
      }
      AppendKeeps(st, NewRec(name, mac.mac, if addr.Some? then addr.value else 0));
    }
  }

  lemma RemoveKeeps(st: State, i: nat)
    requires Inv(st) && i < |st.recs|
    ensures Inv(st.(recs := Without(st.recs, i)))
  {
    var recs := Without(st.recs, i);
    forall j | 0 <= j < |recs| ensures recs[j] == st.recs[if j < i then j else j + 1] {}
  }

  lemma EditKeeps(st: State, op: Op)
    requires Inv(st) && OpOk(op) && (op.Remove? || op.SetIp? || op.ClearIp?)
    ensures Inv(Step(st, op))
  {
    var i := Find(st.recs, op.name);
    if i < |st.recs| {
      var r := st.recs[i];
      assert RecOk(r, st.sends);
      match op
      case Remove(_) => RemoveKeeps(st, i);
      case SetIp(_, ip) => UpdateKeeps(st, i, r.(server := r.server.(ip := ip)));
      case ClearIp(_) => UpdateKeeps(st, i, r.(server := r.server.(ip := 0), mon := ZERO_MONITOR));
    }
  }

  lemma StepKeeps(st: State, op: Op)
    requires Inv(st) && OpOk(op) && NameFits(op)
    ensures Inv(Step(st, op))
  {
    match op
    case Tick(i, now, env) =>
      if i < |st.recs| {
        CellStartsOk(st, i);
        TickKeeps(CellAt(st, i), st.recs[i].server, st.ready, st.autowake, now, env, st.recs[i], st.sends);
        SettleKeeps(st, i, TickBody(CellAt(st, i), st.recs[i].server, st.ready, st.autowake, now, env));
      }
    case Reply(ip, seqNo) =>
      var i := FirstMatch(st.recs, ip, seqNo);
      if i < |st.recs| {
        CellStartsOk(st, i);
        AnswerKeeps(CellAt(st, i), st.recs[i].server, st.recs[i], st.sends);
        SettleKeeps(st, i, Answer(CellAt(st, i), st.recs[i].server));
      }
    case Wake(i, radio) =>
      if i < |st.recs| {
        CellStartsOk(st, i);
        WakeKeeps(CellAt(st, i), st.recs[i].server, st.ready, radio, st.recs[i], st.sends);
        SettleKeeps(st, i, WakeMonitored(CellAt(st, i), st.recs[i].server, st.ready, radio));
      }
    case Add(name, mac, addr) => AddKeeps(st, name, mac, addr);
    case Remove(_) => EditKeeps(st, op);
    case SetIp(_, _) => EditKeeps(st, op);
    case ClearIp(_) => EditKeeps(st, op);
    case _ =>
  }

  /** What every procedure in place promises beside its effect. */
  predicate Kept(was: State, now: State) {
    Inv(was) ==> Inv(now)
  }

  lemma StepKept(st: State, op: Op)
    requires OpOk(op) && NameFits(op)
    ensures Kept(st, Step(st, op))
  {
    if Inv(st) {
      StepKeeps(st, op);
    }
  }

  predicate Boot(st: State) {
    && DefaultsOk(Defaults(seq(|st.recs|, i requires 0 <= i < |st.recs| => st.recs[i].server), false, 0))
    && (forall i :: 0 <= i < |st.recs| ==> st.recs[i].mon == ZERO_MONITOR && st.recs[i].aux == NEW_AUX)
    && |st.schedules| <= MAX_SCHEDULES
    && st.seqNo == st.sends == 0
  }

  ghost predicate GoodRun(ops: seq<Op>) {
    forall k :: 0 <= k < |ops| ==> OpOk(ops[k]) && NameFits(ops[k])
  }

  lemma BootIsOk(st: State)
    requires Boot(st)
    ensures Inv(st)
  {
    var servers := seq(|st.recs|, i requires 0 <= i < |st.recs| => st.recs[i].server);
    forall i | 0 <= i < |st.recs| ensures servers[i] == st.recs[i].server {}
    forall i | 0 <= i < |st.recs| ensures RecOk(st.recs[i], st.sends) {
      assert servers[i].active;
    }
    forall i, j | 0 <= i < j < |st.recs| ensures NameOf(st.recs[i].server) != NameOf(st.recs[j].server) {
      assert NameOf(servers[i]) != NameOf(servers[j]);
    }
  }

  lemma {:induction false} RunKeeps(st: State, ops: seq<Op>)
    requires Inv(st) && GoodRun(ops)
    ensures Inv(Run(st, ops))
  {
    if ops != [] {
      var k := |ops| - 1;
      RunKeeps(st, ops[..k]);
      StepKeeps(Run(st, ops[..k]), ops[k]);
    }
  }
}
