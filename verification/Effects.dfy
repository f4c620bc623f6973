/** What wakes, visits and replies send, report and change, read off the fields and the log. */
module Effects {
  import opened Words
  import opened Config
  import opened Monitoring
  import opened System
  import opened Invariants
  import opened Loops

  // --- One ping ---

  /** How an attempt to ping a server with an address ends. */
  function EchoOf(ready: bool, buffer: bool): Echo {
    if !ready then Skipped else if buffer then Sent else NoBuffer
  }

  /** A ping without an address or an ICMP socket does nothing; without a buffer it uses up a number;
      otherwise the monitor awaits the reply to that number, stamped with the clock read. */
  lemma PingEffect(c: Cell, s: Server, ready: bool, r: Radio)
    ensures var d := PingSend(c, s, ready, r);
            && d.log == c.log + [Event(NameOf(s), Ping(EchoOf(s.ip != 0 && ready, r.buffer)))]
            && d.seqNo == (if s.ip != 0 && ready then (c.seqNo + 1) % 65536 else c.seqNo)
            && (s.ip == 0 || !ready || !r.buffer ==> d.mon == c.mon)
            && (s.ip != 0 && ready && r.buffer ==>
                  && d.mon.pingPending && d.mon.pingSeq == d.seqNo && d.mon.lastPing == r.clock
                  && d.mon.up == c.mon.up && d.mon.lastHealth == c.mon.lastHealth
                  && d.mon.wolActive == c.mon.wolActive && d.mon.wolCount == c.mon.wolCount
                  && d.mon.pingCount == c.mon.pingCount)
  {
  }

  // --- One wake ---

  /** What a wake reports: always the magic packet first, then one ping if there is an address. */
  function WakeNotices(s: Server, ready: bool, r: Radio): seq<Notice> {
    [Magic(r.magicOk)] + if s.ip == 0 then [] else [Ping(EchoOf(ready, r.buffer))]
  }

  function EventsOf(s: Server, ns: seq<Notice>): (es: seq<Event>)
    ensures |es| == |ns| && forall i :: 0 <= i < |ns| ==> es[i].who == NameOf(s) && es[i].what == ns[i]
  {
    seq(|ns|, i requires 0 <= i < |ns| => Event(NameOf(s), ns[i]))
  }

  /** Every server, with or without an address: one magic packet, logged first; without an address
      nothing else at all, with one a ping and a fresh campaign on a server taken as down. */
  lemma WakeEffect(c: Cell, s: Server, ready: bool, r: Radio)
    ensures var d := WakeMonitored(c, s, ready, r);
            && d.log == c.log + EventsOf(s, WakeNotices(s, ready, r))
            && (s.ip == 0 ==> d.mon == c.mon && d.seqNo == c.seqNo)
            && (s.ip != 0 ==>
                  && d.mon.wolActive && d.mon.wolCount == 1 && d.mon.pingCount == 0 && !d.mon.up
                  && d.mon.lastHealth == c.mon.lastHealth
                  && d.seqNo == (if ready then (c.seqNo + 1) % 65536 else c.seqNo)
                  && (ready && r.buffer ==>
                        d.mon.pingPending && d.mon.pingSeq == d.seqNo && d.mon.lastPing == r.clock)
                  && (!ready || !r.buffer ==>
                        && d.mon.pingPending == c.mon.pingPending && d.mon.pingSeq == c.mon.pingSeq
                        && d.mon.lastPing == c.mon.lastPing))
  {
    var d, who := WakeMonitored(c, s, ready, r), NameOf(s);
    var magic := [Event(who, Magic(r.magicOk))];
    if s.ip == 0 {
      assert EventsOf(s, WakeNotices(s, ready, r)) == magic;
    } else {
      var c1 := WakeServer(c, s, r);
      PingEffect(c1.(mon := c1.mon.(wolActive := true, wolCount := 1, pingCount := 0, up := false)), s, ready, r);
      var ping := [Event(who, Ping(EchoOf(ready, r.buffer)))];
      assert EventsOf(s, WakeNotices(s, ready, r)) == magic + ping;
      assert (c.log + magic) + ping == c.log + (magic + ping);
    }
  }

  lemma NoticesOfEvents(s: Server, ns: seq<Notice>)
    ensures Notices(EventsOf(s, ns)) == ns
  {
  }

  /** The record at `i` went through a wake and nothing else did: its history and the log grow by
      the magic packet and, with an address, one ping. */
  predicate WokenAt(was: State, now: State, i: nat, r: Radio)
    requires i < |was.recs|
  {
    var s := was.recs[i].server;
    && |now.recs| == |was.recs|
    && (forall j :: 0 <= j < |was.recs| && j != i ==> now.recs[j] == was.recs[j])
    && now.recs[i].server == s
    && now.recs[i].aux.trace == was.recs[i].aux.trace + WakeNotices(s, was.ready, r)
    && now.log == was.log + EventsOf(s, WakeNotices(s, was.ready, r))
    && (s.ip == 0 ==> now.recs[i].mon == was.recs[i].mon && now.seqNo == was.seqNo)
    && (s.ip != 0 ==> now.recs[i].mon.wolActive && now.recs[i].mon.wolCount == 1 && !now.recs[i].mon.up)
    && now.ready == was.ready && now.schedules == was.schedules
    && now.autowake == was.autowake && now.offset == was.offset
  }

  lemma WakeStepEffect(st: State, i: nat, r: Radio)
    requires i < |st.recs|
    ensures WokenAt(st, Step(st, Wake(i, r)), i, r)
  {
    var s := st.recs[i].server;
    WakeEffect(CellAt(st, i), s, st.ready, r);
    NoticesOfEvents(s, WakeNotices(s, st.ready, r));
    var events := EventsOf(s, WakeNotices(s, st.ready, r));
    assert [] + events == events;
  }

  /** Every active record below `n` was woken exactly once, no other was touched. */
  predicate WokenBelow(was: State, now: State, n: nat, env: nat -> Radio) {
    && |now.recs| == |was.recs| && now.ready == was.ready
    && forall i :: 0 <= i < |was.recs| ==> WokenRecord(was.recs[i], now.recs[i], was.ready, i < n, env(i))
  }

  predicate WokenRecord(was: Rec, now: Rec, ready: bool, reached: bool, r: Radio) {
    && now.server == was.server
    && (!(reached && was.server.active) ==> now == was)
    && (reached && was.server.active ==>
          && now.aux.trace == was.aux.trace + WakeNotices(was.server, ready, r)
          && (was.server.ip == 0 ==> now.mon == was.mon)
          && (was.server.ip != 0 ==> now.mon.wolActive && now.mon.wolCount == 1 && !now.mon.up))
  }

  /** A wake-all sends every active server, with or without an address, exactly one magic packet. */
  lemma {:induction false} WakeAllEffect(st: State, n: nat, env: nat -> Radio)
    requires n <= |st.recs|
    ensures WokenBelow(st, WakeUpTo(st, n, env), n, env)
  {
    if n == 0 {
      NoneWoken(st, env);
    } else {
      WakeAllEffect(st, n - 1, env);
      WakeOneMoreEffect(st, WakeUpTo(st, n - 1, env), n - 1, env);
    }
  }

  lemma NoneWoken(st: State, env: nat -> Radio)
    ensures WokenBelow(st, st, 0, env)
  {
  }

  lemma WakeOneMoreEffect(st: State, mid: State, i: nat, env: nat -> Radio)
    requires i < |st.recs| && WokenBelow(st, mid, i, env)
    ensures WokenBelow(st, WakeIfActive(mid, i, env(i)), i + 1, env)
  {
    assert WokenRecord(st.recs[i], mid.recs[i], st.ready, false, env(i));
    if mid.recs[i].server.active {
      WakeStepEffect(mid, i, env(i));
    }
  }

  // --- A reply ---

  predicate AnsweredMonitor(m: Monitor, n: Monitor) {
    && n.up && !n.pingPending && !n.wolActive
    && (m.wolActive ==> n.wolCount == 0 && n.pingCount == 0)
    && (!m.wolActive ==> n.wolCount == m.wolCount && n.pingCount == m.pingCount)
    && n.lastPing == m.lastPing && n.lastHealth == m.lastHealth && n.pingSeq == m.pingSeq
  }

  /** The first record waiting for the reply comes out up, awaiting nothing and in no campaign, with
      its stamps as they were; an up notice is raised exactly if it was down. */
  predicate AnsweredAt(was: State, now: State, i: nat)
    requires i < |was.recs|
  {
    var up := if was.recs[i].mon.up then [] else [Up];
    && |now.recs| == |was.recs|
    && (forall j :: 0 <= j < |was.recs| && j != i ==> now.recs[j] == was.recs[j])
    && now.recs[i].server == was.recs[i].server
    && AnsweredMonitor(was.recs[i].mon, now.recs[i].mon)
    && now.recs[i].aux.trace == was.recs[i].aux.trace + up
    && now.log == was.log + EventsOf(was.recs[i].server, up)
    && now.seqNo == was.seqNo && now.schedules == was.schedules && now.ready == was.ready
    && now.autowake == was.autowake && now.offset == was.offset
  }

  /** The record at `i` waits for the reply numbered `seqNo` from `ip`. */
  predicate AwaitsAt(st: State, i: nat, ip: Word, seqNo: Half) {
    && i < |st.recs| && st.recs[i].server.active && st.recs[i].server.ip == ip && ip != 0
    && st.recs[i].mon.pingPending && st.recs[i].mon.pingSeq == seqNo
  }

  /** A reply is taken by the first record waiting for it, and by nobody if none waits. */
  lemma ReplyEffect(st: State, ip: Word, seqNo: Half, i: nat)
    requires forall j :: 0 <= j < i && j < |st.recs| ==> !AwaitsAt(st, j, ip, seqNo)
    requires i >= |st.recs| || AwaitsAt(st, i, ip, seqNo)
    ensures if i >= |st.recs| then Step(st, Reply(ip, seqNo)) == st
            else AnsweredAt(st, Step(st, Reply(ip, seqNo)), i)
  {
    var m := FirstMatch(st.recs, ip, seqNo);
    assert m < |st.recs| ==> AwaitsAt(st, m, ip, seqNo);
    if i < |st.recs| {
      assert Matches(st.recs[i].server, st.recs[i].mon, ip, seqNo);
      assert m == i;
      AnswerEffect(st, i);
    }
  }

  lemma AnswerEffect(st: State, i: nat)
    requires i < |st.recs|
    ensures AnsweredAt(st, Settle(st, i, Answer(CellAt(st, i), st.recs[i].server)), i)
  {
    var s, up := st.recs[i].server, if st.recs[i].mon.up then [] else [Up];
    var c := Answer(CellAt(st, i), s);
    assert EventsOf(s, [Up]) == [Event(NameOf(s), Up)] && EventsOf(s, []) == [];
    assert c.log == EventsOf(s, up);
    NoticesOfEvents(s, up);
  }

  // --- One visit outside a campaign ---

  /** The ping out has gone unanswered for three seconds. */
  predicate Unanswered(m: Monitor, now: Word) {
    m.pingPending && (now - m.lastPing) % 0x1_0000_0000 >= 3000
  }

  /** What a visit of `monitor_tick` reports outside a campaign, unless it wakes: a down notice for
      an up server with an unanswered ping, and a ping if five minutes have passed since the last
      check and none is out. */
  function IdleNotices(m: Monitor, ready: bool, now: Word, buffer: bool): seq<Notice> {
    (if Unanswered(m, now) && m.up then [Down] else []) +
    if (now - m.lastHealth) % 0x1_0000_0000 >= 300000 && (!m.pingPending || Unanswered(m, now))
    then [Ping(EchoOf(ready, buffer))] else []
  }

  /** A visit that does not wake: what it reports, and that it starts no campaign. */
  lemma IdleVisitEffect(c: Cell, s: Server, ready: bool, autowake: bool, now: Word, env: TickEnv)
    requires s.active && s.ip != 0 && !c.mon.wolActive
    requires !(Unanswered(c.mon, now) && c.mon.up && autowake)
    ensures var d := TickBody(c, s, ready, autowake, now, env);
            && d.log == c.log + EventsOf(s, IdleNotices(c.mon, ready, now, env.second.buffer))
            && d.mon.up == (c.mon.up && !Unanswered(c.mon, now))
            && d.mon.lastHealth ==
               (if (now - c.mon.lastHealth) % 0x1_0000_0000 >= 300000 then now else c.mon.lastHealth)
            && !d.mon.wolActive && d.mon.wolCount == c.mon.wolCount && d.mon.pingCount == c.mon.pingCount
            && (d.mon.pingPending <==>
                  || (c.mon.pingPending && !Unanswered(c.mon, now))
                  || ((now - c.mon.lastHealth) % 0x1_0000_0000 >= 300000 && ready && env.second.buffer))
  {
    var late := Unanswered(c.mon, now);
    var c1 := CheckTimeout(c, s, ready, autowake, late, env.first);
    QuietTimeout(c, s, ready, autowake, late, env.first);
    HealthEffect(c1, s, ready, now, env.second);
    var down := if late && c.mon.up then [Down] else [];
    var ping := if HealthDue(c1.mon, now) && !c1.mon.pingPending then [Ping(EchoOf(ready, env.second.buffer))] else [];
    EventsJoin(s, down, ping);
    assert (c.log + EventsOf(s, down)) + EventsOf(s, ping) == c.log + (EventsOf(s, down) + EventsOf(s, ping));
  }

  lemma EventsJoin(s: Server, a: seq<Notice>, b: seq<Notice>)
    ensures EventsOf(s, a + b) == EventsOf(s, a) + EventsOf(s, b)
  {
  }

  lemma QuietTimeout(c: Cell, s: Server, ready: bool, autowake: bool, late: bool, r: Radio)
    requires !(late && c.mon.up && autowake)
    ensures var d := CheckTimeout(c, s, ready, autowake, late, r);
            && d.log == c.log + EventsOf(s, if late && c.mon.up then [Down] else [])
            && d.seqNo == c.seqNo
            && d.mon == if late then c.mon.(pingPending := false, up := false) else c.mon
  {
    assert EventsOf(s, []) == [] && c.log + [] == c.log;
    assert EventsOf(s, [Down]) == [Event(NameOf(s), Down)];
  }

  lemma HealthEffect(c: Cell, s: Server, ready: bool, now: Word, r: Radio)
    requires s.ip != 0
    ensures var due := HealthDue(c.mon, now);
            var d := Health(c, s, ready, due, now, r);
            && d.log == c.log + EventsOf(s, if due && !c.mon.pingPending then [Ping(EchoOf(ready, r.buffer))] else [])
            && d.mon.up == c.mon.up && d.mon.wolActive == c.mon.wolActive
            && d.mon.wolCount == c.mon.wolCount && d.mon.pingCount == c.mon.pingCount
            && (d.mon.pingPending <==> c.mon.pingPending || (due && ready && r.buffer))
            && d.mon.lastHealth == if due then now else c.mon.lastHealth
  {
    var echo := EchoOf(ready, r.buffer);
    assert EventsOf(s, []) == [] && c.log + [] == c.log;
    assert EventsOf(s, [Ping(echo)]) == [Event(NameOf(s), Ping(echo))];
    PingEffect(c.(mon := c.mon.(lastHealth := now)), s, ready, r);
  }

  /** A visit wakes exactly if the server was up, its ping is unanswered and auto-wake is on; it then
      reports down, auto-wake, the magic packet and a ping, in this order. */
  lemma AutoWakeEffect(c: Cell, s: Server, ready: bool, autowake: bool, now: Word, env: TickEnv)
    requires s.active && s.ip != 0 && !c.mon.wolActive
    requires Unanswered(c.mon, now) && c.mon.up && autowake
    ensures var d := TickBody(c, s, ready, autowake, now, env);
            var first := EventsOf(s, [Down, AutoWake, Magic(env.first.magicOk), Ping(EchoOf(ready, env.first.buffer))]);
            && |c.log| + 4 <= |d.log| && d.log[..|c.log| + 4] == c.log + first
            && d.mon.wolActive && !d.mon.up && d.mon.wolCount == 1
  {
    var who := NameOf(s);
    var c1 := c.(mon := c.mon.(pingPending := false, up := false));
    var c2 := Emit(Emit(c1, s, Down), s, AutoWake);
    WakeEffect(c2, s, ready, env.first);
    var c3 := WakeMonitored(c2, s, ready, env.first);
    var first := EventsOf(s, [Down, AutoWake, Magic(env.first.magicOk), Ping(EchoOf(ready, env.first.buffer))]);
    assert c3.log == c.log + first;
    AfterAutoWake(c3, s, ready, now, env.second);
  }

  /** What follows in the same visit is at most one retry ping. */
  lemma AfterAutoWake(c: Cell, s: Server, ready: bool, now: Word, r: Radio)
    requires s.ip != 0 && c.mon.wolActive && c.mon.wolCount == 1 && c.mon.pingCount == 0 && !c.mon.up
    ensures var d := Retry(c, s, ready, RetryDue(c.mon, now), r);
            |c.log| <= |d.log| && d.log[..|c.log|] == c.log && d.mon.wolActive && d.mon.wolCount == 1 && !d.mon.up
  {
    PingEffect(c.(mon := c.mon.(pingCount := 1)), s, ready, r);
  }

  /** No visit touches a server that is inactive or has no address. */
  lemma NoVisitEffect(c: Cell, s: Server, ready: bool, autowake: bool, now: Word, env: TickEnv)
    requires !s.active || s.ip == 0
    ensures TickBody(c, s, ready, autowake, now, env) == c
  {
  }
}
