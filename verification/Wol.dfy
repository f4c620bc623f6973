/** The procedures of `wol.c`, in place over the appliance's arrays, each
    proved against its function or step of the abstract state. */
module Wol {
  import opened Words
  import opened Config
  import M = Monitoring
  import opened System
  import opened Device
  import opened Invariants
  import Loops
  import Effects

  /** The slot's own monitor is the only one touched. */
  twostate predicate OthersKept(d: Appliance, i: nat)
    reads d.monitors
  {
    forall j :: 0 <= j < d.monitors.Length && j != i ==> d.monitors[j] == old(d.monitors[j])
  }

  method Notify(d: Appliance, s: Server, what: M.Notice)
    modifies d`log
    ensures d.log == old(d.log) + [M.Event(NameOf(s), what)]
  {
    d.log := d.log + [M.Event(NameOf(s), what)];
  }

  method PingSend(d: Appliance, i: nat, r: M.Radio)
    requires d.Shape() && i < MAX_SERVERS
    modifies d`seqNo, d`log, d.monitors
    ensures d.Here(i) == M.PingSend(old(d.Here(i)), d.servers[i], d.ready, r)
    ensures OthersKept(d, i)
  {
    var s := d.servers[i];
    if s.ip == 0 || !d.ready {
      Notify(d, s, M.Ping(M.Skipped));
      return;
    }
    d.seqNo := NextHalf(d.seqNo);
    var seqNo := d.seqNo;
    if !r.buffer {
      Notify(d, s, M.Ping(M.NoBuffer));
      return;
    }
    Notify(d, s, M.Ping(M.Sent));
    d.monitors[i] := d.monitors[i].(pingPending := true);
    d.monitors[i] := d.monitors[i].(pingSeq := seqNo);
    d.monitors[i] := d.monitors[i].(lastPing := r.clock);
  }

  method WakeServerMonitored(d: Appliance, i: nat, r: M.Radio)
    requires d.Shape() && i < MAX_SERVERS
    modifies d`seqNo, d`log, d.monitors
    ensures d.Here(i) == M.WakeMonitored(old(d.Here(i)), d.servers[i], d.ready, r)
    ensures d.log == old(d.log) + Effects.EventsOf(d.servers[i], Effects.WakeNotices(d.servers[i], d.ready, r))
    ensures OthersKept(d, i)
  {
    Effects.WakeEffect(d.Here(i), d.servers[i], d.ready, r);
    var s := d.servers[i];
    Notify(d, s, M.Magic(r.magicOk));
    if s.ip != 0 {
      d.monitors[i] := d.monitors[i].(wolActive := true);
      d.monitors[i] := d.monitors[i].(wolCount := 1);
      d.monitors[i] := d.monitors[i].(pingCount := 0);
      d.monitors[i] := d.monitors[i].(up := false);
      PingSend(d, i, r);
    }
  }

  method CheckTimeout(d: Appliance, i: nat, now: Word, r: M.Radio)
    requires d.Shape() && i < MAX_SERVERS
    modifies d`seqNo, d`log, d.monitors
    ensures d.Here(i) == M.CheckTimeout(old(d.Here(i)), d.servers[i], d.ready, d.autowake,
                                        M.PingLate(old(d.monitors[i]), now), r)
    ensures OthersKept(d, i)
  {
    var s := d.servers[i];
    if d.monitors[i].pingPending && Elapsed(now, d.monitors[i].lastPing) >= M.PING_TIMEOUT_MS {
      d.monitors[i] := d.monitors[i].(pingPending := false);
      var wasUp := d.monitors[i].up;
      d.monitors[i] := d.monitors[i].(up := false);
      if wasUp {
        Notify(d, s, M.Down);
      }
      if wasUp && !d.monitors[i].wolActive && d.autowake {
        Notify(d, s, M.AutoWake);
        WakeServerMonitored(d, i, r);
      }
    }
  }

  method Retry(d: Appliance, i: nat, now: Word, r: M.Radio)
    requires d.Shape() && i < MAX_SERVERS && d.monitors[i].wolActive
    modifies d`seqNo, d`log, d.monitors
    ensures d.Here(i) == M.Retry(old(d.Here(i)), d.servers[i], d.ready, M.RetryDue(old(d.monitors[i]), now), r)
    ensures OthersKept(d, i)
  {
    var s := d.servers[i];
    if !d.monitors[i].pingPending && Elapsed(now, d.monitors[i].lastPing) >= M.WOL_PING_INTERVAL_MS {
      d.monitors[i] := d.monitors[i].(pingCount := NextByte(d.monitors[i].pingCount));
      if d.monitors[i].pingCount >= M.WOL_PINGS_PER_ATTEMPT {
        if d.monitors[i].wolCount >= M.WOL_MAX_ATTEMPTS {
          d.monitors[i] := d.monitors[i].(wolActive := false);
          d.monitors[i] := d.monitors[i].(wolCount := 0);
          d.monitors[i] := d.monitors[i].(pingCount := 0);
        } else {
          d.monitors[i] := d.monitors[i].(wolCount := NextByte(d.monitors[i].wolCount));
          d.monitors[i] := d.monitors[i].(pingCount := 0);
          Notify(d, s, M.Magic(r.magicOk));
          PingSend(d, i, r);
        }
      } else {
        PingSend(d, i, r);
      }
    }
  }

  method Health(d: Appliance, i: nat, now: Word, r: M.Radio)
    requires d.Shape() && i < MAX_SERVERS
    modifies d`seqNo, d`log, d.monitors
    ensures d.Here(i) == M.Health(old(d.Here(i)), d.servers[i], d.ready, M.HealthDue(old(d.monitors[i]), now), now, r)
    ensures OthersKept(d, i)
  {
    if Elapsed(now, d.monitors[i].lastHealth) >= M.HEALTH_INTERVAL_MS {
      d.monitors[i] := d.monitors[i].(lastHealth := now);
      if !d.monitors[i].pingPending {
        PingSend(d, i, r);
      }
    }
  }

  /** The body of the `monitor_tick` loop. */
  method TickBody(d: Appliance, i: nat, now: Word, env: M.TickEnv)
    requires d.Shape() && i < MAX_SERVERS
    modifies d`seqNo, d`log, d.monitors
    ensures d.Here(i) == M.TickBody(old(d.Here(i)), d.servers[i], d.ready, d.autowake, now, env)
    ensures OthersKept(d, i)
  {
    if !d.servers[i].active || d.servers[i].ip == 0 {
      return;
    }
    CheckTimeout(d, i, now, env.first);
    if d.monitors[i].wolActive {
      Retry(d, i, now, env.second);
    } else {
      Health(d, i, now, env.second);
    }
  }

  method MonitorTick(d: Appliance, now: Word, env: nat -> M.TickEnv)
    requires d.Valid()
    modifies d`seqNo, d`log, d`st, d.monitors
    ensures d.Valid() && d.st == TickUpTo(old(d.st), |old(d.st).recs|, now, env) && Kept(old(d.st), d.st)
  {
    Loops.TickUpToKeeps(d.st, |d.st.recs|, now, env);
    var i := 0;
    while i < d.serverCount
      invariant i <= d.serverCount == |old(d.st).recs|
      invariant d.Valid() && d.st == TickUpTo(old(d.st), i, now, env)
    {
      MonitorVisit(d, i, now, env(i));
      i := i + 1;
    }
  }

  method MonitorVisit(d: Appliance, i: nat, now: Word, env: M.TickEnv)
    requires d.Valid() && i < d.serverCount
    modifies d`seqNo, d`log, d`st, d.monitors
    ensures d.Valid() && d.st == TickAt(old(d.st), i, now, env) && Kept(old(d.st), d.st)
  {
    ghost var was := d.st;
    StepKept(was, Tick(i, now, env));
    TickBody(d, i, now, env);
    M.TickFrame(CellAt(was, i), was.recs[i].server, was.ready, was.autowake, now, env, was.log);
    assert was.log + [] == was.log;
    d.st := TickAt(was, i, now, env);
  }

  /** `wake_server_monitored` as the front ends call it. */
  method Wake(d: Appliance, i: nat, r: M.Radio)
    requires d.Valid() && i < d.serverCount
    modifies d`seqNo, d`log, d`st, d.monitors
    ensures d.Valid() && d.st == WakeAt(old(d.st), i, r) && Kept(old(d.st), d.st)
    ensures Effects.WokenAt(old(d.st), d.st, i, r)
  {
    ghost var was := d.st;
    StepKept(was, Op.Wake(i, r));
    Effects.WakeStepEffect(was, i, r);
    WakeServerMonitored(d, i, r);
    M.WakeFrame(CellAt(was, i), was.recs[i].server, was.ready, r, was.log);
    assert was.log + [] == was.log;
    d.st := WakeAt(was, i, r);
  }

  /** `wake_all` */
  method WakeAll(d: Appliance, env: nat -> M.Radio)
    requires d.Valid()
    modifies d`seqNo, d`log, d`st, d.monitors
    ensures d.Valid() && d.st == WakeUpTo(old(d.st), |old(d.st).recs|, env) && Kept(old(d.st), d.st)
    ensures Effects.WokenBelow(old(d.st), d.st, |old(d.st).recs|, env)
  {
    Loops.WakeAllKeeps(d.st, env);
    Effects.WakeAllEffect(d.st, |d.st.recs|, env);
    WakeSlots(d, env);
  }

  method WakeSlots(d: Appliance, env: nat -> M.Radio)
    requires d.Valid()
    modifies d`seqNo, d`log, d`st, d.monitors
    ensures d.Valid() && d.st == WakeUpTo(old(d.st), |old(d.st).recs|, env)
  {
    var i := 0;
    while i < d.serverCount
      invariant i <= d.serverCount == |old(d.st).recs|
      invariant d.Valid() && d.st == WakeUpTo(old(d.st), i, env)
    {
      WakeSlot(d, i, env(i));
      i := i + 1;
    }
  }

  /** The body of the loop. */
  method WakeSlot(d: Appliance, i: nat, r: M.Radio)
    requires d.Valid() && i < d.serverCount
    modifies d`seqNo, d`log, d`st, d.monitors
    ensures d.Valid() && d.st == WakeIfActive(old(d.st), i, r)
  {
    if d.servers[i].active {
      Wake(d, i, r);
    }
  }

  /** The matching branch of the callback. */
  method AnswerSlot(d: Appliance, i: nat)
    requires d.Shape() && i < MAX_SERVERS
    modifies d`log, d.monitors
    ensures d.Here(i) == M.Answer(old(d.Here(i)), d.servers[i])
    ensures OthersKept(d, i)
  {
    d.monitors[i] := d.monitors[i].(pingPending := false);
    var wasDown := !d.monitors[i].up;
    d.monitors[i] := d.monitors[i].(up := true);
    if d.monitors[i].wolActive {
      d.monitors[i] := d.monitors[i].(wolActive := false);
      d.monitors[i] := d.monitors[i].(wolCount := 0);
      d.monitors[i] := d.monitors[i].(pingCount := 0);
    }
    if wasDown {
      Notify(d, d.servers[i], M.Up);
    }
  }

  method AnswerMatch(d: Appliance, i: nat)
    requires d.Valid() && i < d.serverCount
    modifies d`log, d`st, d.monitors
    ensures d.Valid()
    ensures d.st == Settle(old(d.st), i, M.Answer(CellAt(old(d.st), i), old(d.st).recs[i].server))
  {
    ghost var was := d.st;
    AnswerSlot(d, i);
    M.AnswerFrame(CellAt(was, i), was.recs[i].server, was.log);
    assert was.log + [] == was.log;
    d.st := Settle(was, i, M.Answer(CellAt(was, i), was.recs[i].server));
  }

  /** The callback on an echo reply with our identifier. */
  method PingReceived(d: Appliance, ip: Word, seqNo: Half) returns (handled: bool)
    requires d.Valid()
    modifies d`log, d`st, d.monitors
    ensures d.Valid() && d.st == ReplyTo(old(d.st), ip, seqNo) && Kept(old(d.st), d.st)
    ensures handled <==> FirstMatch(old(d.st).recs, ip, seqNo) < |old(d.st).recs|
  {
    ghost var was := d.st;
    StepKept(was, Reply(ip, seqNo));
    var i := 0;
    while i < d.serverCount
      invariant i <= d.serverCount && d.Valid() && d.st == was
      invariant forall j :: 0 <= j < i ==> !M.Matches(was.recs[j].server, was.recs[j].mon, ip, seqNo)
    {
      if d.servers[i].active && d.servers[i].ip != 0 && d.servers[i].ip == ip &&
         d.monitors[i].pingPending && d.monitors[i].pingSeq == seqNo {
        assert FirstMatch(was.recs, ip, seqNo) == i;
        AnswerMatch(d, i);
        return true;
      }
      i := i + 1;
    }
    return false;
  }
}
