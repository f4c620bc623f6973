/** The wake-on-LAN retry campaign of one server: exactly how many packets it
    sends, and when it gives up. */
module Campaign {
  import opened Words
  import opened Config
  import opened Monitoring
  import opened Invariants

  /** One visit of `monitor_tick` to the slot, at true time `t`: the counter as other servers
      left it, the auto-wake setting, and the true time at which a ping sent during it is stamped. */
  datatype Beat = Beat(t: nat, seqNo: Half, autowake: bool, env: TickEnv, sentAt: nat)

  function Visit(c: Cell, s: Server, ready: bool, b: Beat): Cell {
    TickBody(c.(seqNo := b.seqNo), s, ready, b.autowake, ClockAt(b.t), b.env)
  }

  function Visits(c: Cell, s: Server, ready: bool, beats: seq<Beat>): Cell {
    if beats == [] then
      c
    else
      Visit(Visits(c, s, ready, beats[..|beats| - 1]), s, ready, beats[|beats| - 1])
  }

  predicate IsMagic(e: Event) {
    e.what.Magic?
  }

  predicate IsPing(e: Event) {
    e.what.Ping?
  }

  function Magics(log: seq<Event>): nat {
    if log == [] then 0 else Magics(log[..|log| - 1]) + if IsMagic(log[|log| - 1]) then 1 else 0
  }

  function Pings(log: seq<Event>): nat {
    if log == [] then 0 else Pings(log[..|log| - 1]) + if IsPing(log[|log| - 1]) then 1 else 0
  }

  /** Retry firings left before the campaign gives up. */
  function Left(m: Monitor): int {
    if m.wolActive then
      WOL_PINGS_PER_ATTEMPT * (WOL_MAX_ATTEMPTS - m.wolCount) + (WOL_PINGS_PER_ATTEMPT - m.pingCount)
    else
      0
  }

  lemma EmitCounts(c: Cell, s: Server, what: Notice)
    ensures Magics(Emit(c, s, what).log) == Magics(c.log) + if what.Magic? then 1 else 0
    ensures Pings(Emit(c, s, what).log) == Pings(c.log) + if what.Ping? then 1 else 0
  {
    var log := Emit(c, s, what).log;
    assert log[..|log| - 1] == c.log;
  }

  lemma PingCounts(c: Cell, s: Server, ready: bool, r: Radio)
    ensures var d := PingSend(c, s, ready, r);
            && |d.log| == |c.log| + 1 && Magics(d.log) == Magics(c.log) && Pings(d.log) == Pings(c.log) + 1
            && d.mon == c.mon.(pingPending := d.mon.pingPending, pingSeq := d.mon.pingSeq, lastPing := d.mon.lastPing)
  {
    EmitCounts(c, s, Ping(Skipped));
    EmitCounts(c, s, Ping(NoBuffer));
    EmitCounts(c, s, Ping(Sent));
  }

  /** Whether a visit fires the retry step. */
  predicate Fires(c: Cell, b: Beat) {
    RetryDue(if PingLate(c.mon, ClockAt(b.t)) then c.mon.(pingPending := false) else c.mon, ClockAt(b.t))
  }

  lemma AttemptCounts(c: Cell, s: Server, ready: bool, r: Radio)
    ensures var d := PingSend(WakeServer(c, s, r), s, ready, r);
            && |d.log| == |c.log| + 2 && Magics(d.log) == Magics(c.log) + 1 && Pings(d.log) == Pings(c.log) + 1
            && d.mon == c.mon.(pingPending := d.mon.pingPending, pingSeq := d.mon.pingSeq, lastPing := d.mon.lastPing)
  {
    EmitCounts(c, s, Magic(r.magicOk));
    PingCounts(WakeServer(c, s, r), s, ready, r);
  }

  lemma RetryIsExact(c: Cell, s: Server, ready: bool, due: bool, r: Radio)
    requires MonOk(c.mon) && c.mon.wolActive
    ensures var d := Retry(c, s, ready, due, r);
            && MonOk(d.mon) && !d.mon.up
            && Left(d.mon) == Left(c.mon) - (if due then 1 else 0)
            && Pings(d.log) == Pings(c.log) + (if due && d.mon.wolActive then 1 else 0)
            && Magics(d.log) == Magics(c.log) + (if d.mon.wolActive then d.mon.wolCount - c.mon.wolCount else 0)
            && |d.log| == |c.log| + (Pings(d.log) - Pings(c.log)) + (Magics(d.log) - Magics(c.log))
            && (!d.mon.wolActive ==> c.mon.wolCount == WOL_MAX_ATTEMPTS && c.mon.pingCount == WOL_PINGS_PER_ATTEMPT - 1)
  {
    if due {
      CountersDoNotWrap(c.mon);
      if c.mon.pingCount + 1 < WOL_PINGS_PER_ATTEMPT {
        PingCounts(c.(mon := c.mon.(pingCount := c.mon.pingCount + 1)), s, ready, r);
      } else if c.mon.wolCount < WOL_MAX_ATTEMPTS {
        AttemptCounts(c.(mon := c.mon.(wolCount := c.mon.wolCount + 1, pingCount := 0)), s, ready, r);
      }
    }
  }

  /** A visit during a campaign either leaves counters and packets alone or fires:
      one retry spent, one ping sent unless that was the last retry, and a magic
      packet when an attempt starts. */
  lemma FiringIsExact(c: Cell, s: Server, ready: bool, b: Beat)
    requires s.active && s.ip != 0 && MonOk(c.mon) && c.mon.wolActive
    ensures var d := Visit(c, s, ready, b);
            && MonOk(d.mon) && !d.mon.up
            && Left(d.mon) == Left(c.mon) - (if Fires(c, b) then 1 else 0)
            && Pings(d.log) == Pings(c.log) + (if Fires(c, b) && d.mon.wolActive then 1 else 0)
            && Magics(d.log) == Magics(c.log) + (if d.mon.wolActive then d.mon.wolCount - c.mon.wolCount else 0)
            && |d.log| == |c.log| + (Pings(d.log) - Pings(c.log)) + (Magics(d.log) - Magics(c.log))
            && (!d.mon.wolActive ==> c.mon.wolCount == WOL_MAX_ATTEMPTS && c.mon.pingCount == WOL_PINGS_PER_ATTEMPT - 1)
  {
    var c0 := c.(seqNo := b.seqNo);
    var c1 := CheckTimeout(c0, s, ready, b.autowake, PingLate(c0.mon, ClockAt(b.t)), b.env.first);
    assert c1.log == c.log;
    RetryIsExact(c1, s, ready, RetryDue(c1.mon, ClockAt(b.t)), b.env.second);
  }

  function Started(m: Monitor, s: Server, seqNo: Half, ready: bool, r: Radio): Cell {
    WakeMonitored(Cell(m, seqNo, []), s, ready, r)
  }

  lemma StartIsExact(m: Monitor, s: Server, seqNo: Half, ready: bool, r: Radio)
    requires s.ip != 0
    ensures var c := Started(m, s, seqNo, ready, r);
            && MonOk(c.mon) && c.mon.wolActive && c.mon.wolCount == 1 && Left(c.mon) == 30
            && Magics(c.log) == 1 && Pings(c.log) == 1
  {
    var c := Cell(m, seqNo, []);
    EmitCounts(c, s, Magic(r.magicOk));
    var c1 := WakeServer(c, s, r);
    PingCounts(c1.(mon := c1.mon.(wolActive := true, wolCount := 1, pingCount := 0, up := false)), s, ready, r);
  }

  /** Firings over a run of visits. */
  function Firings(c: Cell, s: Server, ready: bool, beats: seq<Beat>): nat {
    if beats == [] then
      0
    else
      var k := |beats| - 1;
      Firings(c, s, ready, beats[..k]) +
      if Fires(Visits(c, s, ready, beats[..k]), beats[k]) then 1 else 0
  }

  /** The campaign was still on before each of the visits. */
  ghost predicate OnThroughout(c: Cell, s: Server, ready: bool, beats: seq<Beat>) {
    forall k :: 0 <= k < |beats| ==> Visits(c, s, ready, beats[..k]).mon.wolActive
  }

  lemma OnPrefix(c: Cell, s: Server, ready: bool, beats: seq<Beat>)
    requires beats != [] && OnThroughout(c, s, ready, beats)
    ensures OnThroughout(c, s, ready, beats[..|beats| - 1])
    ensures Visits(c, s, ready, beats[..|beats| - 1]).mon.wolActive
  {
    var init := beats[..|beats| - 1];
    forall k | 0 <= k < |init| ensures Visits(c, s, ready, init[..k]).mon.wolActive {
      assert init[..k] == beats[..k];
    }
  }

  /** A wake that is never answered: whatever happens to its packets, whenever the visits
      come and whatever other servers do, every firing spends one of 30 retries, and
      the campaign ends, server down, after exactly 5 magic packets and 30 pings. */
  lemma {:induction false} CampaignIsExact(
      m: Monitor, s: Server, seqNo: Half, ready: bool, r: Radio, beats: seq<Beat>)
    requires s.active && s.ip != 0
    requires OnThroughout(Started(m, s, seqNo, ready, r), s, ready, beats)
    ensures var c0 := Started(m, s, seqNo, ready, r);
            var c := Visits(c0, s, ready, beats);
            && MonOk(c.mon) && !c.mon.up
            && Firings(c0, s, ready, beats) + Left(c.mon) == 30
            && (c.mon.wolActive ==> Magics(c.log) == c.mon.wolCount && Pings(c.log) + Left(c.mon) == 31)
            && (!c.mon.wolActive ==> Magics(c.log) == 5 && Pings(c.log) == 30
                                     && Firings(c0, s, ready, beats) == 30)
  {
    StartIsExact(m, s, seqNo, ready, r);
    if beats != [] {
      var c0 := Started(m, s, seqNo, ready, r);
      var k := |beats| - 1;
      OnPrefix(c0, s, ready, beats);
      CampaignIsExact(m, s, seqNo, ready, r, beats[..k]);
      FiringIsExact(Visits(c0, s, ready, beats[..k]), s, ready, beats[k]);
    }
  }

  // --- How long it takes ---

  /** The true time of the visit before the `k`-th, or of the start. */
  function Before(beats: seq<Beat>, start: nat): nat {
    if beats == [] then start else beats[|beats| - 1].t
  }

  /** Visits at most `gap` apart, never earlier than a stamp already made; every ping
      finds a buffer and is stamped at most `lag` after the visit's own reading of the clock. */
  ghost predicate Paced(beats: seq<Beat>, start: nat, gap: nat, lag: nat) {
    forall k :: 0 <= k < |beats| ==> BeatOk(beats[k], Before(beats[..k], start), Stamped(beats[..k], start), gap, lag)
  }

  function Stamped(beats: seq<Beat>, start: nat): nat {
    if beats == [] then start else beats[|beats| - 1].sentAt
  }

  predicate BeatOk(b: Beat, before: nat, stamped: nat, gap: nat, lag: nat) {
    && before <= b.t <= before + gap && stamped <= b.t
    && b.t <= b.sentAt <= b.t + lag
    && b.env.first.buffer && b.env.second.buffer
    && b.env.first.clock == b.env.second.clock == ClockAt(b.sentAt)
  }

  lemma PacedPrefix(beats: seq<Beat>, n: nat, start: nat, gap: nat, lag: nat)
    requires n <= |beats| && Paced(beats, start, gap, lag)
    ensures Paced(beats[..n], start, gap, lag)
  {
    forall k | 0 <= k < n
      ensures BeatOk(beats[..n][k], Before(beats[..n][..k], start), Stamped(beats[..n][..k], start), gap, lag)
    {
      assert beats[..n][..k] == beats[..k];
    }
  }

  lemma PacedLast(beats: seq<Beat>, start: nat, gap: nat, lag: nat)
    requires beats != [] && Paced(beats, start, gap, lag)
    ensures var k := |beats| - 1;
            && Paced(beats[..k], start, gap, lag)
            && BeatOk(beats[k], Before(beats[..k], start), Stamped(beats[..k], start), gap, lag)
  {
    PacedPrefix(beats, |beats| - 1, start, gap, lag);
  }

  /** From one ping to the next at most: the visit before the retry still came less than ten
      seconds after the first, its own visit a gap later, its stamp a lag later. */
  function MaxStep(gap: nat, lag: nat): nat {
    WOL_PING_INTERVAL_MS - 1 + gap + lag
  }

  /** The latest end of a campaign: 29 further pings, then a last visit that sends none. */
  function MaxLength(gap: nat, lag: nat): nat {
    29 * MaxStep(gap, lag) + WOL_PING_INTERVAL_MS - 1 + gap
  }

  /** The state of a running campaign whose last ping went out at true time `last`,
      `prev` being the time of the latest visit. */
  predicate Running(m: Monitor, start: nat, last: nat, prev: nat, gap: nat, lag: nat) {
    && MonOk(m) && m.wolActive
    && m.lastPing == ClockAt(last)
    && prev < last + WOL_PING_INTERVAL_MS
    && (30 - Left(m)) * WOL_PING_INTERVAL_MS <= last - start <= (30 - Left(m)) * MaxStep(gap, lag)
  }

  /** One visit: the retry fires exactly when ten seconds have truly passed. */
  lemma PacedVisit(c: Cell, s: Server, b: Beat, start: nat, last: nat, prev: nat, stamped: nat,
                   gap: nat, lag: nat)
    returns (last': nat)
    requires s.active && s.ip != 0 && gap + WOL_PING_INTERVAL_MS < WRAP
    requires Running(c.mon, start, last, prev, gap, lag) && last <= stamped && BeatOk(b, prev, stamped, gap, lag)
    ensures Fires(c, b) <==> b.t - last >= WOL_PING_INTERVAL_MS
    ensures var d := Visit(c, s, true, b);
            && last' <= b.sentAt
            && (d.mon.wolActive ==> Running(d.mon, start, last', b.t, gap, lag))
            && (!d.mon.wolActive ==> 30 * WOL_PING_INTERVAL_MS <= b.t - start <= MaxLength(gap, lag))
  {
    ElapsedIsExact(b.t, last);
    FiringIsExact(c, s, true, b);
    CountersDoNotWrap(c.mon);
    last' := if Fires(c, b) then b.sentAt else last;
    var step := MaxStep(gap, lag);
    var n := 30 - Left(c.mon);
    assert (n + 1) * WOL_PING_INTERVAL_MS == n * WOL_PING_INTERVAL_MS + WOL_PING_INTERVAL_MS;
    assert (n + 1) * step == n * step + step;
    if Fires(c, b) {
      var d := Visit(c, s, true, b);
      if d.mon.wolActive {
        assert d.mon.lastPing == ClockAt(b.sentAt);
      } else {
        assert n + 1 == 30;
      }
    }
  }

  lemma {:induction false} PacedRun(
      m: Monitor, s: Server, seqNo: Half, r: Radio, beats: seq<Beat>, start: nat, gap: nat, lag: nat)
    returns (last: nat)
    requires s.active && s.ip != 0 && gap + WOL_PING_INTERVAL_MS < WRAP
    requires r.buffer && r.clock == ClockAt(start) && Paced(beats, start, gap, lag)
    requires OnThroughout(Started(m, s, seqNo, true, r), s, true, beats)
    ensures var c := Visits(Started(m, s, seqNo, true, r), s, true, beats);
            && last <= Stamped(beats, start)
            && (c.mon.wolActive ==> Running(c.mon, start, last, Before(beats, start), gap, lag))
            && (!c.mon.wolActive ==>
                  30 * WOL_PING_INTERVAL_MS <= Before(beats, start) - start <= MaxLength(gap, lag))
  {
    var c0 := Started(m, s, seqNo, true, r);
    StartIsExact(m, s, seqNo, true, r);
    if beats == [] {
      last := start;
    } else {
      var k := |beats| - 1;
      PacedLast(beats, start, gap, lag);
      OnPrefix(c0, s, true, beats);
      var last0 := PacedRun(m, s, seqNo, r, beats[..k], start, gap, lag);
      last := PacedVisit(Visits(c0, s, true, beats[..k]), s, beats[k], start, last0,
                         Before(beats[..k], start), Stamped(beats[..k], start), gap, lag);
    }
  }

  /** An unanswered campaign whose first ping is stamped at `start` ends: once visits
      reach far enough, there is one visit at which it gives up, no sooner than 300 s and
      no later than 30 * (9.999 s + gap) + 29 * lag after the start. */
  lemma CampaignGivesUp(
      m: Monitor, s: Server, seqNo: Half, r: Radio, beats: seq<Beat>, start: nat, gap: nat, lag: nat)
    returns (k: nat)
    requires s.active && s.ip != 0 && gap + WOL_PING_INTERVAL_MS < WRAP
    requires r.buffer && r.clock == ClockAt(start) && Paced(beats, start, gap, lag)
    requires Before(beats, start) >= start + 29 * MaxStep(gap, lag) + WOL_PING_INTERVAL_MS
    ensures var c0 := Started(m, s, seqNo, true, r);
            && k < |beats|
            && OnThroughout(c0, s, true, beats[..k + 1])
            && !Visits(c0, s, true, beats[..k + 1]).mon.wolActive
            && start + 30 * WOL_PING_INTERVAL_MS <= beats[k].t <= start + MaxLength(gap, lag)
  {
    var c0 := Started(m, s, seqNo, true, r);
    k := FirstOff(c0, s, beats);
    if k == |beats| {
      NotOnForever(m, s, seqNo, r, beats, start, gap, lag);
    } else {
      PacedPrefix(beats, k + 1, start, gap, lag);
      var last := PacedRun(m, s, seqNo, r, beats[..k + 1], start, gap, lag);
    }
  }

  /** The first visit after which the campaign is off, if there is one. */
  lemma FirstOff(c: Cell, s: Server, beats: seq<Beat>) returns (k: nat)
    requires c.mon.wolActive
    ensures k <= |beats|
    ensures k < |beats| ==> OnThroughout(c, s, true, beats[..k + 1])
                            && !Visits(c, s, true, beats[..k + 1]).mon.wolActive
    ensures k == |beats| ==> OnThroughout(c, s, true, beats) && Visits(c, s, true, beats).mon.wolActive
  {
    assert beats[..0] == [];
    k := 0;
    while k < |beats| && Visits(c, s, true, beats[..k + 1]).mon.wolActive
      invariant k <= |beats|
      invariant forall j :: 0 <= j <= k ==> Visits(c, s, true, beats[..j]).mon.wolActive
    {
      k := k + 1;
    }
    assert beats[..|beats|] == beats;
    OnBefore(c, s, beats, if k < |beats| then k + 1 else k);
  }

  lemma OnBefore(c: Cell, s: Server, beats: seq<Beat>, n: nat)
    requires n <= |beats| && forall j :: 0 <= j < n ==> Visits(c, s, true, beats[..j]).mon.wolActive
    ensures OnThroughout(c, s, true, beats[..n])
  {
    forall j | 0 <= j < n ensures Visits(c, s, true, beats[..n][..j]).mon.wolActive {
      assert beats[..n][..j] == beats[..j];
    }
  }

  lemma NotOnForever(
      m: Monitor, s: Server, seqNo: Half, r: Radio, beats: seq<Beat>, start: nat, gap: nat, lag: nat)
    requires s.active && s.ip != 0 && gap + WOL_PING_INTERVAL_MS < WRAP
    requires r.buffer && r.clock == ClockAt(start) && Paced(beats, start, gap, lag)
    requires Before(beats, start) >= start + 29 * MaxStep(gap, lag) + WOL_PING_INTERVAL_MS
    requires OnThroughout(Started(m, s, seqNo, true, r), s, true, beats)
    ensures !Visits(Started(m, s, seqNo, true, r), s, true, beats).mon.wolActive
  {
    var last := PacedRun(m, s, seqNo, r, beats, start, gap, lag);
    var c := Visits(Started(m, s, seqNo, true, r), s, true, beats);
    if c.mon.wolActive {
      RunningIsRecent(c.mon, start, last, Before(beats, start), gap, lag);
    }
  }

  lemma RunningIsRecent(m: Monitor, start: nat, last: nat, prev: nat, gap: nat, lag: nat)
    requires Running(m, start, last, prev, gap, lag)
    ensures prev < start + 29 * MaxStep(gap, lag) + WOL_PING_INTERVAL_MS
  {
    assert 1 <= Left(m) <= 30;
    Scale(30 - Left(m), 29, MaxStep(gap, lag));
  }

  lemma Scale(n: nat, k: nat, x: nat)
    requires n <= k
    ensures n * x <= k * x
  {
  }
}
