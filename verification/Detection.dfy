/** How long a failed server goes unnoticed. */
module Detection {
  import opened Words
  import opened Config
  import opened Monitoring
  import opened Invariants
  import opened Campaign

  /** A stamp younger than `limit` at the time `tick`, or, at the start of the watch, one the
      next visit still sees less than a wrap old. */
  predicate Fresh(stamp: int, limit: nat, tick: nat, t0: nat, gap: nat) {
    tick < stamp + limit || (tick == t0 && tick - stamp + gap < WRAP)
  }

  /** An up server at the time `tick`: either no ping is out and the last health check was at
      true time `checked`, or a ping stamped at `sent` is out. */
  predicate Watching(m: Monitor, t0: nat, tick: nat, checked: int, sent: int, gap: nat, lag: nat) {
    && MonOk(m) && m.up
    && (!m.pingPending ==>
          && m.lastHealth == ClockAt(checked) && checked <= t0 && checked <= tick
          && Fresh(checked, HEALTH_INTERVAL_MS, tick, t0, gap))
    && (m.pingPending ==>
          && m.lastPing == ClockAt(sent) && sent <= t0 + HEALTH_INTERVAL_MS + gap + lag
          && Fresh(sent, PING_TIMEOUT_MS, tick, t0, gap))
  }

  /** This visit marked the server down and, with auto-wake on, attempted a magic packet. */
  predicate MarkedDown(before: Cell, after: Cell, s: Server, b: Beat) {
    var n := |before.log|;
    && before.mon.up && !after.mon.up
    && n < |after.log| && after.log[..n] == before.log
    && after.log[n] == Event(NameOf(s), Down)
    && (b.autowake ==>
          && n + 2 < |after.log| && after.log[n + 1] == Event(NameOf(s), AutoWake)
          && after.log[n + 2] == Event(NameOf(s), Magic(b.env.first.magicOk))
          && after.mon.wolActive && after.mon.wolCount == 1)
  }

  /** The longest a failure counted from `t` goes unnoticed: health interval, ping timeout and
      the wait for a visit at the end of each. */
  function Deadline(t: nat, gap: nat, lag: nat): nat {
    t + HEALTH_INTERVAL_MS + PING_TIMEOUT_MS + 2 * gap + lag
  }

  lemma LateMarksDown(c: Cell, s: Server, b: Beat)
    requires s.active && s.ip != 0 && MonOk(c.mon) && c.mon.up && b.env.first.buffer
    requires PingLate(c.mon, ClockAt(b.t))
    ensures MarkedDown(c, Visit(c, s, true, b), s, b)
  {
    var c0 := c.(seqNo := b.seqNo);
    var c1 := CheckTimeout(c0, s, true, b.autowake, true, b.env.first);
    if b.autowake {
      assert c1.mon.pingPending;
      assert Visit(c, s, true, b) == c1;
    }
  }

  lemma WatchStep(c: Cell, s: Server, b: Beat, t0: nat, tick: nat, stamped: nat,
                  checked: int, sent: int, gap: nat, lag: nat) returns (sent': int)
    requires s.active && s.ip != 0 && gap + HEALTH_INTERVAL_MS < WRAP
    requires Watching(c.mon, t0, tick, checked, sent, gap, lag) && BeatOk(b, tick, stamped, gap, lag)
    requires c.mon.pingPending ==> sent <= b.t
    ensures var d := Visit(c, s, true, b);
            if d.mon.up then
              Watching(d.mon, t0, b.t, checked, sent', gap, lag) && (d.mon.pingPending ==> sent' <= b.sentAt)
            else
              MarkedDown(c, d, s, b) && b.t <= Deadline(t0, gap, lag)
  {
    sent' := sent;
    if c.mon.pingPending {
      ElapsedIsExact(b.t, sent);
      if PingLate(c.mon, ClockAt(b.t)) {
        LateMarksDown(c, s, b);
      }
    } else {
      ElapsedIsExact(b.t, checked);
      if b.t - checked >= HEALTH_INTERVAL_MS {
        sent' := b.sentAt;
      }
    }
  }

  /** A watched server, unanswered from `t0` on, is found down at some visit no later than the
      deadline, if only visits go on that long. */
  lemma WatchedIsDetected(c: Cell, s: Server, beats: seq<Beat>, t0: nat, checked: int, sent: int, gap: nat, lag: nat)
    returns (k: nat)
    requires s.active && s.ip != 0 && gap + HEALTH_INTERVAL_MS < WRAP
    requires Watching(c.mon, t0, t0, checked, sent, gap, lag)
    requires Paced(beats, t0, gap, lag) && (c.mon.pingPending && beats != [] ==> sent <= beats[0].t)
    requires Before(beats, t0) > t0 && Before(beats, t0) + gap >= Deadline(t0, gap, lag)
    ensures k < |beats| && beats[k].t <= Deadline(t0, gap, lag)
    ensures MarkedDown(Visits(c, s, true, beats[..k]), Visits(c, s, true, beats[..k + 1]), s, beats[k])
  {
    k := 0;
    var out := sent;
    assert beats[..0] == [];
    while k < |beats| && Visits(c, s, true, beats[..k + 1]).mon.up
      invariant k <= |beats|
      invariant Watching(Visits(c, s, true, beats[..k]).mon, t0, Before(beats[..k], t0), checked, out, gap, lag)
      invariant Visits(c, s, true, beats[..k]).mon.pingPending && k < |beats| ==> out <= beats[k].t
    {
      out := Next(c, s, beats, k, t0, checked, out, gap, lag);
      k := k + 1;
      assert k < |beats| ==> BeatOk(beats[k], Before(beats[..k], t0), Stamped(beats[..k], t0), gap, lag);
    }
    assert beats[..|beats|] == beats;
    if k < |beats| {
      var o := Next(c, s, beats, k, t0, checked, out, gap, lag);
    }
  }

  lemma Next(c: Cell, s: Server, beats: seq<Beat>, k: nat, t0: nat, checked: int, sent: int, gap: nat, lag: nat)
    returns (sent': int)
    requires s.active && s.ip != 0 && gap + HEALTH_INTERVAL_MS < WRAP
    requires k < |beats| && Paced(beats, t0, gap, lag)
    requires Watching(Visits(c, s, true, beats[..k]).mon, t0, Before(beats[..k], t0), checked, sent, gap, lag)
    requires Visits(c, s, true, beats[..k]).mon.pingPending ==> sent <= beats[k].t
    ensures var b, d := beats[k], Visits(c, s, true, beats[..k + 1]);
            && Before(beats[..k + 1], t0) == b.t && Stamped(beats[..k + 1], t0) == b.sentAt
            && if d.mon.up then
                 Watching(d.mon, t0, b.t, checked, sent', gap, lag) && (d.mon.pingPending ==> sent' <= b.sentAt)
               else
                 MarkedDown(Visits(c, s, true, beats[..k]), d, s, b) && b.t <= Deadline(t0, gap, lag)
  {
    assert beats[..k + 1][..k] == beats[..k];
    sent' := WatchStep(Visits(c, s, true, beats[..k]), s, beats[k], t0, Before(beats[..k], t0),
                       Stamped(beats[..k], t0), checked, sent, gap, lag);
  }

  // --- From any moment ---

  /** The visits reach past the deadline counted from `t`. */
  predicate LongEnough(beats: seq<Beat>, t: nat, gap: nat, lag: nat) {
    Before(beats, t) >= Deadline(t, gap, lag)
  }

  /** The stamp a 32-bit field holds at time `t`: in the past, and still less than a wrap old
      at the next visit. */
  predicate Recent(stamp: Word, at: int, t: nat, gap: nat) {
    stamp == ClockAt(at) && at <= t && t - at + gap < WRAP
  }

  /** An up server that stops answering at any time `t`, be it between two visits and right
      after its last reply, is marked down by `t` + 300 s + 3 s + 2 * gap + lag. */
  lemma Detected(c: Cell, s: Server, beats: seq<Beat>, t: nat, checked: int, sent: int, gap: nat, lag: nat)
    returns (k: nat)
    requires s.active && s.ip != 0 && gap + HEALTH_INTERVAL_MS < WRAP
    requires MonOk(c.mon) && c.mon.up
    requires if c.mon.pingPending then Recent(c.mon.lastPing, sent, t, gap)
             else Recent(c.mon.lastHealth, checked, t, gap)
    requires Paced(beats, t, gap, lag) && LongEnough(beats, t, gap, lag)
    ensures k < |beats| && beats[k].t <= Deadline(t, gap, lag)
    ensures MarkedDown(Visits(c, s, true, beats[..k]), Visits(c, s, true, beats[..k + 1]), s, beats[k])
  {
    FirstBeat(beats, t, gap, lag);
    k := WatchedIsDetected(c, s, beats, t, checked, sent, gap, lag);
  }

  lemma FirstBeat(beats: seq<Beat>, t: nat, gap: nat, lag: nat)
    requires Paced(beats, t, gap, lag) && beats != []
    ensures t <= beats[0].t <= beats[0].sentAt && beats[0].t <= t + gap
  {
    assert beats[..0] == [];
    assert BeatOk(beats[0], Before(beats[..0], t), Stamped(beats[..0], t), gap, lag);
  }

  /** A visit outside a campaign leaves the health stamp less than five minutes old, whatever
      the monitor held before. */
  lemma VisitStampsHealth(c: Cell, s: Server, b: Beat) returns (checked: int)
    requires s.active && s.ip != 0 && !Visit(c, s, true, b).mon.wolActive && MonOk(c.mon) && !c.mon.wolActive
    ensures Visit(c, s, true, b).mon.lastHealth == ClockAt(checked) && checked <= b.t < checked + HEALTH_INTERVAL_MS
  {
    var d := Visit(c, s, true, b);
    checked := b.t - Elapsed(ClockAt(b.t), d.mon.lastHealth);
    ClockBack(b.t, d.mon.lastHealth);
  }

  /** A visit that leaves the server up starts a watch: the last health check is then under five
      minutes old and a pending ping under three seconds, whatever the monitor held before. */
  lemma VisitStartsWatch(c: Cell, s: Server, b: Beat, gap: nat, lag: nat)
    returns (checked: int, sent: int)
    requires s.active && s.ip != 0 && MonOk(c.mon)
    requires b.t <= b.sentAt <= b.t + lag && b.env.second.clock == ClockAt(b.sentAt)
    ensures var d := Visit(c, s, true, b);
            d.mon.up ==>
              && Watching(d.mon, b.t, b.t, checked, sent, gap, lag)
              && (!d.mon.pingPending ==> b.t < checked + HEALTH_INTERVAL_MS)
              && (d.mon.pingPending ==> b.t < sent + PING_TIMEOUT_MS && sent <= b.sentAt)
  {
    var d := Visit(c, s, true, b);
    checked := b.t - Elapsed(ClockAt(b.t), d.mon.lastHealth);
    ClockBack(b.t, d.mon.lastHealth);
    if !c.mon.pingPending {
      sent := b.sentAt;
    } else {
      ClockBack(b.t, c.mon.lastPing);
      var e := Elapsed(ClockAt(b.t), c.mon.lastPing);
      sent := if e < PING_TIMEOUT_MS then b.t - e else 0;
    }
  }

  /** No reply after a visit that leaves the server up: no premise on the stamps is needed. */
  lemma DetectedAfterVisit(c: Cell, s: Server, b: Beat, beats: seq<Beat>, gap: nat, lag: nat)
    returns (k: nat)
    requires s.active && s.ip != 0 && gap + HEALTH_INTERVAL_MS < WRAP
    requires MonOk(c.mon) && Visit(c, s, true, b).mon.up
    requires b.t <= b.sentAt <= b.t + lag && b.env.second.clock == ClockAt(b.sentAt)
    requires Paced(beats, b.t, gap, lag) && LongEnough(beats, b.t, gap, lag) && (beats != [] ==> b.sentAt <= beats[0].t)
    ensures k < |beats| && beats[k].t <= Deadline(b.t, gap, lag)
    ensures var d := Visit(c, s, true, b);
            MarkedDown(Visits(d, s, true, beats[..k]), Visits(d, s, true, beats[..k + 1]), s, beats[k])
  {
    var checked, sent := VisitStartsWatch(c, s, b, gap, lag);
    k := WatchedIsDetected(Visit(c, s, true, b), s, beats, b.t, checked, sent, gap, lag);
  }

  /** The last reply comes after a visit outside a campaign, whether that left the server up or
      down: the same bound, still counted from the visit. */
  lemma DetectedAfterReply(c: Cell, s: Server, b: Beat, beats: seq<Beat>, gap: nat, lag: nat)
    returns (k: nat)
    requires s.active && s.ip != 0 && gap + HEALTH_INTERVAL_MS < WRAP
    requires MonOk(c.mon) && !c.mon.wolActive && !Visit(c, s, true, b).mon.wolActive
    requires Paced(beats, b.t, gap, lag) && LongEnough(beats, b.t, gap, lag)
    ensures k < |beats| && beats[k].t <= Deadline(b.t, gap, lag)
    ensures var a := Answer(Visit(c, s, true, b), s);
            MarkedDown(Visits(a, s, true, beats[..k]), Visits(a, s, true, beats[..k + 1]), s, beats[k])
  {
    var checked := VisitStampsHealth(c, s, b);
    k := Detected(Answer(Visit(c, s, true, b), s), s, beats, b.t, checked, 0, gap, lag);
  }

  /** An up server with no ping out, whatever age its health stamp has, as after the reply that
      ends a campaign or an address taken away and restored: a stamp that whole wraps make
      look fresh costs one gap more. */
  lemma DetectedWhateverStamp(c: Cell, s: Server, beats: seq<Beat>, t: nat, gap: nat, lag: nat)
    returns (k: nat)
    requires s.active && s.ip != 0 && gap + HEALTH_INTERVAL_MS < WRAP
    requires MonOk(c.mon) && c.mon.up && !c.mon.pingPending
    requires Paced(beats, t, gap, lag) && LongEnough(beats, t + gap, gap, lag)
    ensures k < |beats| && beats[k].t <= Deadline(t, gap, lag) + gap
    ensures MarkedDown(Visits(c, s, true, beats[..k]), Visits(c, s, true, beats[..k + 1]), s, beats[k])
  {
    FirstBeat(beats, t, gap, lag);
    var b, rest := beats[0], beats[1..];
    RestIsPaced(beats, t, gap, lag);
    VisitKeepsUp(c, s, b);
    var j := DetectedAfterVisit(c, s, b, rest, gap, lag);
    k := j + 1;
    VisitsFromSecond(c, s, beats, j);
    VisitsFromSecond(c, s, beats, j + 1);
  }

  /** In particular after the reply that ends a campaign at time `t`. */
  lemma DetectedAfterCampaign(c: Cell, s: Server, beats: seq<Beat>, t: nat, gap: nat, lag: nat)
    returns (k: nat)
    requires s.active && s.ip != 0 && gap + HEALTH_INTERVAL_MS < WRAP
    requires MonOk(c.mon) && c.mon.wolActive
    requires Paced(beats, t, gap, lag) && LongEnough(beats, t + gap, gap, lag)
    ensures k < |beats| && beats[k].t <= Deadline(t, gap, lag) + gap
    ensures var a := Answer(c, s);
            MarkedDown(Visits(a, s, true, beats[..k]), Visits(a, s, true, beats[..k + 1]), s, beats[k])
  {
    k := DetectedWhateverStamp(Answer(c, s), s, beats, t, gap, lag);
  }

  lemma VisitKeepsUp(c: Cell, s: Server, b: Beat)
    requires MonOk(c.mon) && c.mon.up && !c.mon.pingPending
    ensures Visit(c, s, true, b).mon.up
  {
  }

  lemma RestIsPaced(beats: seq<Beat>, t: nat, gap: nat, lag: nat)
    requires beats != [] && Paced(beats, t, gap, lag)
    ensures Paced(beats[1..], beats[0].t, gap, lag)
    ensures |beats| > 1 ==> beats[0].sentAt <= beats[1].t
    ensures beats[0].t <= beats[0].sentAt <= beats[0].t + lag && beats[0].env.second.clock == ClockAt(beats[0].sentAt)
    ensures |beats| > 1 ==> Before(beats[1..], beats[0].t) == Before(beats, t)
  {
    assert beats[..0] == [];
    assert BeatOk(beats[0], Before(beats[..0], t), Stamped(beats[..0], t), gap, lag);
    forall k | 0 <= k < |beats| - 1
      ensures BeatOk(beats[1..][k], Before(beats[1..][..k], beats[0].t), Stamped(beats[1..][..k], beats[0].t), gap, lag)
    {
      assert BeatOk(beats[k + 1], Before(beats[..k + 1], t), Stamped(beats[..k + 1], t), gap, lag);
    }
    if |beats| > 1 {
      assert BeatOk(beats[1], Before(beats[..1], t), Stamped(beats[..1], t), gap, lag);
    }
  }

  lemma {:induction false} VisitsFromSecond(c: Cell, s: Server, beats: seq<Beat>, n: nat)
    requires n < |beats|
    ensures Visits(Visit(c, s, true, beats[0]), s, true, beats[1..][..n]) == Visits(c, s, true, beats[..n + 1])
  {
    assert beats[..n + 1][..n] == beats[..n];
    if n == 0 {
      assert beats[..0] == [] && beats[1..][..0] == [];
    } else {
      VisitsFromSecond(c, s, beats, n - 1);
      assert beats[1..][..n][..n - 1] == beats[1..][..n - 1];
    }
  }

  lemma ClockBack(t: nat, w: Word)
    ensures ClockAt(t - Elapsed(ClockAt(t), w)) == w
  {
    var q := t / WRAP;
    var e := Elapsed(ClockAt(t), w);
    var r := (ClockAt(t) - w) / WRAP;
    assert t - e == w + WRAP * (q + r);
    ModShift(w, q + r);
  }
}
