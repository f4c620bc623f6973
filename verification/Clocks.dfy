/** The 32-bit millisecond clock against one that never wraps. */
module Clocks {
  import opened Words
  import opened Config
  import opened Monitoring
  import opened Invariants
  import opened Campaign

  /** What can happen to one server's slot. `at` and a beat's `t` are true times. */
  datatype SlotOp =
    | Visited(beat: Beat)
    | Woken(at: nat, seqNo: Half, radio: Radio)
    | Answered
    | Edited(mac: Mac, ip: Word)
    | Cleared

  /** A slot with the true times of its last ping stamp, its last health stamp and its
      last visit. A zeroed stamp stands for time 0. */
  datatype Slot = Slot(server: Server, cell: Cell, last: nat, checked: nat, tick: nat)

  /** A ping was stamped exactly when the counter moved, buffers being available; a health stamp
      that reads the visit's own clock counts as made by the visit. */
  function StampedAt(before: Half, after: Half, at: nat, last: nat): nat {
    if after != before then at else last
  }

  // --- The three tests on either clock; the wide one compares true times ---

  predicate LateOn(wide: bool, sl: Slot, m: Monitor, t: nat) {
    if wide then m.pingPending && t - sl.last >= PING_TIMEOUT_MS else PingLate(m, ClockAt(t))
  }

  predicate RetryOn(wide: bool, m: Monitor, last: nat, t: nat) {
    if wide then m.wolActive && !m.pingPending && t - last >= WOL_PING_INTERVAL_MS else RetryDue(m, ClockAt(t))
  }

  predicate HealthOn(wide: bool, sl: Slot, m: Monitor, t: nat) {
    if wide then t - sl.checked >= HEALTH_INTERVAL_MS else HealthDue(m, ClockAt(t))
  }

  /** The slot after the timeout step of a visit. */
  function AfterTimeout(wide: bool, sl: Slot, b: Beat): Slot {
    var c := sl.cell.(seqNo := b.seqNo);
    var d := CheckTimeout(c, sl.server, true, b.autowake, LateOn(wide, sl, c.mon, b.t), b.env.first);
    sl.(cell := d, last := StampedAt(c.seqNo, d.seqNo, b.sentAt, sl.last))
  }

  /** The rest of the visit: retry or health check. */
  function AfterRest(wide: bool, sl: Slot, b: Beat): Slot {
    var c := sl.cell;
    if c.mon.wolActive then
      var d := Retry(c, sl.server, true, RetryOn(wide, c.mon, sl.last, b.t), b.env.second);
      sl.(cell := d, last := StampedAt(c.seqNo, d.seqNo, b.sentAt, sl.last), tick := b.t)
    else
      var due := HealthOn(wide, sl, c.mon, b.t);
      var d := Health(c, sl.server, true, due, ClockAt(b.t), b.env.second);
      sl.(cell := d, last := StampedAt(c.seqNo, d.seqNo, b.sentAt, sl.last),
          checked := if d.mon.lastHealth == ClockAt(b.t) then b.t else sl.checked, tick := b.t)
  }

  function VisitOn(wide: bool, sl: Slot, b: Beat): Slot {
    if !sl.server.active || sl.server.ip == 0 then
      sl.(cell := sl.cell.(seqNo := b.seqNo), tick := b.t)
    else
      AfterRest(wide, AfterTimeout(wide, sl, b), b)
  }

  /** On the wrapping clock that is the visit the firmware pays. */
  lemma NarrowIsVisit(sl: Slot, b: Beat)
    ensures VisitOn(false, sl, b).cell == Visit(sl.cell, sl.server, true, b)
  {
  }

  /** One event on the slot; `wide` selects the clock that never wraps. */
  function Play(wide: bool, sl: Slot, op: SlotOp): Slot {
    match op
    case Visited(b) => VisitOn(wide, sl, b)
    case Woken(at, seqNo, radio) =>
      var c := WakeMonitored(sl.cell.(seqNo := seqNo), sl.server, true, radio);
      sl.(cell := c, last := StampedAt(seqNo, c.seqNo, at, sl.last))
    case Answered => sl.(cell := Answer(sl.cell, sl.server))
    case Edited(mac, ip) => sl.(server := sl.server.(mac := mac, ip := ip))
    case Cleared => sl.(server := sl.server.(ip := 0), cell := sl.cell.(mon := ZERO_MONITOR), checked := 0)
  }

  function PlayAll(wide: bool, sl: Slot, ops: seq<SlotOp>): Slot {
    if ops == [] then sl else Play(wide, PlayAll(wide, sl, ops[..|ops| - 1]), ops[|ops| - 1])
  }

  /** Awaiting a reply or inside a campaign. */
  predicate Busy(m: Monitor) {
    m.pingPending || m.wolActive
  }

  /** The premises on one event: visits come in time order, at most `gap` apart and never
      with a clock reading older than the last stamp; pings find a buffer and are stamped
      with the true time; the address is not set to zero while the slot is busy. */
  predicate Timely(sl: Slot, op: SlotOp, gap: nat) {
    match op
    case Visited(b) => sl.last <= b.t <= b.sentAt && BeatOk(b, sl.tick, sl.last, gap, b.sentAt - b.t)
    case Woken(at, _, radio) => sl.last <= at && sl.tick <= at && radio.buffer && radio.clock == ClockAt(at)
    case Answered => sl.cell.mon.pingPending
    case Edited(_, ip) => ip != 0 || !Busy(sl.cell.mon)
    case Cleared => true
  }

  ghost predicate AllTimely(sl: Slot, ops: seq<SlotOp>, gap: nat) {
    forall k :: 0 <= k < |ops| ==> Timely(PlayAll(false, sl, ops[..k]), ops[k], gap)
  }

  /** While the slot is busy the ping stamp is the true time of the last ping, and recent;
      the health stamp is the low half of its true time, however old. */
  predicate Tied(sl: Slot) {
    var m := sl.cell.mon;
    && MonOk(m)
    && sl.server.active
    && (Busy(m) ==> sl.server.ip != 0 && m.lastPing == ClockAt(sl.last))
    && (m.pingPending ==> sl.tick < sl.last + PING_TIMEOUT_MS)
    && (m.wolActive && !m.pingPending ==> sl.tick < sl.last + WOL_PING_INTERVAL_MS)
    && m.lastHealth == ClockAt(sl.checked) && sl.checked <= sl.tick
  }

  /** The visit gets as far as the health check. */
  predicate ReachesHealth(sl: Slot, b: Beat) {
    sl.server.active && sl.server.ip != 0 && !AfterTimeout(false, sl, b).cell.mon.wolActive
  }

  /** Whole wraps do not hide that a stamp is old enough for a check; or they hide all of its
      age, and with a ping still out the check would have done nothing but stamp. */
  predicate AgeShows(age: int, pending: bool) {
    age < WRAP || age % WRAP >= HEALTH_INTERVAL_MS || (age % WRAP == 0 && pending)
  }

  /** The event is no visit that puts a health stamp to the test whose age is hidden. */
  predicate HealthClear(sl: Slot, op: SlotOp) {
    op.Visited? && ReachesHealth(sl, op.beat) ==>
      AgeShows(op.beat.t - sl.checked, AfterTimeout(false, sl, op.beat).cell.mon.pingPending)
  }

  /** After the timeout step the counter has moved exactly if an auto-wake was sent. */
  lemma TimeoutStamps(c: Cell, s: Server, autowake: bool, late: bool, r: Radio)
    requires MonOk(c.mon) && s.ip != 0 && r.buffer
    ensures var d := CheckTimeout(c, s, true, autowake, late, r);
            && MonOk(d.mon) && d.mon.lastHealth == c.mon.lastHealth
            && (d.seqNo == c.seqNo ==>
                  d.mon == if late then c.mon.(pingPending := false, up := false) else c.mon)
            && (d.seqNo != c.seqNo ==>
                  late && d.mon.pingPending && d.mon.wolActive && d.mon.lastPing == r.clock)
  {
  }

  /** The ping stamp is recent enough for the two clocks to agree on it. */
  predicate PingTied(sl: Slot, t: nat, gap: nat) {
    && MonOk(sl.cell.mon) && sl.server.active && sl.server.ip != 0
    && (Busy(sl.cell.mon) ==> sl.cell.mon.lastPing == ClockAt(sl.last) && t < sl.last + WRAP
                              && (sl.last <= t || sl.cell.mon.pingPending))
    && sl.cell.mon.lastHealth == ClockAt(sl.checked) && sl.checked <= sl.tick <= t <= sl.tick + gap
  }

  /** The timeout test agrees below a full wrap. */
  lemma TimeoutAgrees(sl: Slot, b: Beat, gap: nat)
    requires Tied(sl) && Timely(sl, Visited(b), gap) && gap + WOL_PING_INTERVAL_MS < WRAP && sl.server.ip != 0
    ensures AfterTimeout(true, sl, b) == AfterTimeout(false, sl, b)
    ensures var mid := AfterTimeout(false, sl, b);
            && PingTied(mid, b.t, gap) && mid.checked == sl.checked && mid.tick == sl.tick && mid.server == sl.server
            && (mid.cell.mon.pingPending ==> b.t < mid.last + PING_TIMEOUT_MS && mid.last <= b.sentAt)
  {
    var c := sl.cell.(seqNo := b.seqNo);
    if Busy(c.mon) {
      ElapsedIsExact(b.t, sl.last);
    }
    TimeoutStamps(c, sl.server, b.autowake, LateOn(false, sl, c.mon, b.t), b.env.first);
  }

  /** Then so does the retry test, and what it leaves is tied again. */
  lemma RetryAgrees(sl: Slot, b: Beat, gap: nat)
    requires PingTied(sl, b.t, gap) && sl.cell.mon.wolActive && b.t <= b.sentAt
    requires b.env.second.buffer && b.env.second.clock == ClockAt(b.sentAt)
    requires sl.cell.mon.pingPending ==> b.t < sl.last + PING_TIMEOUT_MS
    ensures AfterRest(true, sl, b) == AfterRest(false, sl, b) && Tied(AfterRest(false, sl, b))
  {
    if !sl.cell.mon.pingPending {
      ElapsedIsExact(b.t, sl.last);
    }
    CountersDoNotWrap(sl.cell.mon);
  }

  /** The health test agrees exactly for a stamp no whole wraps of which are hidden. */
  lemma HealthAgreesIff(sl: Slot, b: Beat, gap: nat)
    requires PingTied(sl, b.t, gap) && !sl.cell.mon.wolActive
    ensures HealthOn(true, sl, sl.cell.mon, b.t) == HealthOn(false, sl, sl.cell.mon, b.t) <==>
            var age := b.t - sl.checked; age < WRAP || age % WRAP >= HEALTH_INTERVAL_MS
    ensures HealthOn(false, sl, sl.cell.mon, b.t) ==> HealthOn(true, sl, sl.cell.mon, b.t)
  {
    ElapsedIsReduced(b.t, sl.checked);
  }

  /** A health check the narrow clock misses shows in the monitor or in the log. */
  lemma MissedCheckShows(sl: Slot, b: Beat, gap: nat)
    requires PingTied(sl, b.t, gap) && !sl.cell.mon.wolActive
    requires HealthOn(true, sl, sl.cell.mon, b.t) && !HealthOn(false, sl, sl.cell.mon, b.t)
    ensures AfterRest(true, sl, b).cell == AfterRest(false, sl, b).cell <==>
            (b.t - sl.checked) % WRAP == 0 && sl.cell.mon.pingPending
    ensures (b.t - sl.checked) % WRAP == 0 && sl.cell.mon.pingPending ==>
              AfterRest(true, sl, b) == AfterRest(false, sl, b)
  {
    ElapsedIsReduced(b.t, sl.checked);
    var wide, narrow := AfterRest(true, sl, b).cell, AfterRest(false, sl, b).cell;
    assert narrow == sl.cell && wide.mon.lastHealth == ClockAt(b.t);
    assert (b.t - sl.checked) % WRAP == 0 <==> ClockAt(b.t) == ClockAt(sl.checked);
    if !sl.cell.mon.pingPending {
      assert |wide.log| == |narrow.log| + 1;
    }
  }

  lemma HealthStepTied(sl: Slot, b: Beat, gap: nat)
    requires PingTied(sl, b.t, gap) && !sl.cell.mon.wolActive && b.t <= b.sentAt
    requires b.env.second.buffer && b.env.second.clock == ClockAt(b.sentAt)
    requires sl.cell.mon.pingPending ==> b.t < sl.last + PING_TIMEOUT_MS
    ensures Tied(AfterRest(false, sl, b))
  {
  }

  lemma HealthStepIff(sl: Slot, b: Beat, gap: nat)
    requires PingTied(sl, b.t, gap) && !sl.cell.mon.wolActive
    ensures var shows := AgeShows(b.t - sl.checked, sl.cell.mon.pingPending);
            && (AfterRest(true, sl, b).cell == AfterRest(false, sl, b).cell <==> shows)
            && (shows ==> AfterRest(true, sl, b) == AfterRest(false, sl, b))
  {
    HealthAgreesIff(sl, b, gap);
    if HealthOn(true, sl, sl.cell.mon, b.t) != HealthOn(false, sl, sl.cell.mon, b.t) {
      MissedCheckShows(sl, b, gap);
    }
  }

  /** One visit leaves the same monitor and packets on both clocks exactly if its health check
      is clear, and then the same stamps. */
  lemma VisitAgreesIff(sl: Slot, b: Beat, gap: nat)
    requires Tied(sl) && Timely(sl, Visited(b), gap) && gap + WOL_PING_INTERVAL_MS < WRAP
    ensures VisitOn(true, sl, b).cell == VisitOn(false, sl, b).cell <==> HealthClear(sl, Visited(b))
    ensures HealthClear(sl, Visited(b)) ==> VisitOn(true, sl, b) == VisitOn(false, sl, b)
    ensures Tied(VisitOn(false, sl, b))
  {
    if sl.server.ip != 0 {
      TimeoutAgrees(sl, b, gap);
      var mid := AfterTimeout(false, sl, b);
      if mid.cell.mon.wolActive {
        RetryAgrees(mid, b, gap);
      } else {
        HealthStepTied(mid, b, gap);
        HealthStepIff(mid, b, gap);
      }
    }
  }

  lemma StepAgreesIff(sl: Slot, op: SlotOp, gap: nat)
    requires Tied(sl) && Timely(sl, op, gap) && gap + WOL_PING_INTERVAL_MS < WRAP
    ensures Play(true, sl, op).cell == Play(false, sl, op).cell <==> HealthClear(sl, op)
    ensures HealthClear(sl, op) ==> Play(true, sl, op) == Play(false, sl, op)
    ensures Tied(Play(false, sl, op))
  {
    match op
    case Visited(b) => VisitAgreesIff(sl, b, gap);
    case _ =>
  }

  lemma {:induction false} RunStaysTied(sl: Slot, ops: seq<SlotOp>, gap: nat, k: nat)
    requires Tied(sl) && AllTimely(sl, ops, gap) && gap + WOL_PING_INTERVAL_MS < WRAP && k <= |ops|
    ensures Tied(PlayAll(false, sl, ops[..k]))
    decreases k
  {
    if k > 0 {
      RunStaysTied(sl, ops, gap, k - 1);
      PlaySnoc(false, sl, ops, k - 1);
      StepAgreesIff(PlayAll(false, sl, ops[..k - 1]), ops[k - 1], gap);
    }
  }

  lemma PlaySnoc(wide: bool, sl: Slot, ops: seq<SlotOp>, k: nat)
    requires k < |ops|
    ensures PlayAll(wide, sl, ops[..k + 1]) == Play(wide, PlayAll(wide, sl, ops[..k]), ops[k])
  {
    assert ops[..k + 1][..k] == ops[..k];
  }

  /** The two runs have the same monitor, counter and log after each of the first `n` events. */
  ghost predicate SameRuns(sl: Slot, ops: seq<SlotOp>, n: nat)
    requires n <= |ops|
  {
    forall k :: 0 <= k <= n ==> PlayAll(true, sl, ops[..k]).cell == PlayAll(false, sl, ops[..k]).cell
  }

  ghost predicate AllClear(sl: Slot, ops: seq<SlotOp>, n: nat)
    requires n <= |ops|
  {
    forall k :: 0 <= k < n ==> HealthClear(PlayAll(false, sl, ops[..k]), ops[k])
  }

  lemma {:induction false} OneMoreAgrees(sl: Slot, ops: seq<SlotOp>, gap: nat, k: nat)
    requires Tied(sl) && AllTimely(sl, ops, gap) && gap + WOL_PING_INTERVAL_MS < WRAP && k < |ops|
    requires PlayAll(true, sl, ops[..k]) == PlayAll(false, sl, ops[..k])
    ensures var clear := HealthClear(PlayAll(false, sl, ops[..k]), ops[k]);
            && (PlayAll(true, sl, ops[..k + 1]).cell == PlayAll(false, sl, ops[..k + 1]).cell <==> clear)
            && (clear ==> PlayAll(true, sl, ops[..k + 1]) == PlayAll(false, sl, ops[..k + 1]))
  {
    RunStaysTied(sl, ops, gap, k);
    PlaySnoc(true, sl, ops, k);
    PlaySnoc(false, sl, ops, k);
    StepAgreesIff(PlayAll(false, sl, ops[..k]), ops[k], gap);
  }

  lemma {:induction false} RunsAgreeIff(sl: Slot, ops: seq<SlotOp>, gap: nat, n: nat)
    requires Tied(sl) && AllTimely(sl, ops, gap) && gap + WOL_PING_INTERVAL_MS < WRAP && n <= |ops|
    ensures SameRuns(sl, ops, n) <==> AllClear(sl, ops, n)
    ensures AllClear(sl, ops, n) ==> PlayAll(true, sl, ops[..n]) == PlayAll(false, sl, ops[..n])
    decreases n
  {
    if n > 0 {
      RunsAgreeIff(sl, ops, gap, n - 1);
      SameRunsSplit(sl, ops, n);
      AllClearSplit(sl, ops, n);
      if AllClear(sl, ops, n - 1) {
        OneMoreAgrees(sl, ops, gap, n - 1);
      }
    }
  }

  lemma SameRunsSplit(sl: Slot, ops: seq<SlotOp>, n: nat)
    requires 0 < n <= |ops|
    ensures SameRuns(sl, ops, n) <==>
            SameRuns(sl, ops, n - 1) && PlayAll(true, sl, ops[..n]).cell == PlayAll(false, sl, ops[..n]).cell
  {
  }

  lemma AllClearSplit(sl: Slot, ops: seq<SlotOp>, n: nat)
    requires 0 < n <= |ops|
    ensures AllClear(sl, ops, n) <==>
            AllClear(sl, ops, n - 1) && HealthClear(PlayAll(false, sl, ops[..n - 1]), ops[n - 1])
  {
  }

  /** Every timely run of a slot on the wrapping clock has, after every event, the monitor and
      the packets of its run on a clock that never wraps, exactly if no visit tests a health stamp
      whose age of 2^32 ms or more is hidden. */
  lemma WrappingClockRefines(sl: Slot, ops: seq<SlotOp>, gap: nat)
    requires Tied(sl) && AllTimely(sl, ops, gap) && gap + WOL_PING_INTERVAL_MS < WRAP
    ensures SameRuns(sl, ops, |ops|) <==> AllClear(sl, ops, |ops|)
    ensures AllClear(sl, ops, |ops|) ==> PlayAll(true, sl, ops) == PlayAll(false, sl, ops)
  {
    RunsAgreeIff(sl, ops, gap, |ops|);
    assert ops[..|ops|] == ops;
  }

  lemma CheckedIsRecent(sl: Slot, b: Beat, gap: nat)
    requires PingTied(sl, b.t, gap) && !sl.cell.mon.wolActive && AgeShows(b.t - sl.checked, sl.cell.mon.pingPending)
    ensures AfterRest(false, sl, b).checked <= b.t < AfterRest(false, sl, b).checked + HEALTH_INTERVAL_MS
  {
    ElapsedIsReduced(b.t, sl.checked);
    var age := b.t - sl.checked;
    assert age < WRAP ==> age % WRAP == age;
    if !HealthOn(false, sl, sl.cell.mon, b.t) {
      assert AfterRest(false, sl, b).cell.mon == sl.cell.mon;
      assert age % WRAP == 0 ==> sl.cell.mon.lastHealth == ClockAt(b.t);
    }
  }

  /** A visit that got to the health check leaves the stamp young enough for the next: only the
      first after a campaign, a new address or the slot's creation can be unclear. */
  lemma HealthStaysClear(sl: Slot, b: Beat, next: Beat, gap: nat)
    requires Tied(sl) && Timely(sl, Visited(b), gap) && gap + HEALTH_INTERVAL_MS < WRAP
    requires HealthClear(sl, Visited(b)) && ReachesHealth(sl, b) && b.t <= next.t <= b.t + gap
    ensures HealthClear(VisitOn(false, sl, b), Visited(next))
  {
    TimeoutAgrees(sl, b, gap);
    var mid := AfterTimeout(false, sl, b);
    CheckedIsRecent(mid, b, gap);
    var after := VisitOn(false, sl, b);
    assert after == AfterRest(false, mid, b);
    assert next.t - after.checked < WRAP;
  }

  /** It does happen: a server without an address since boot gets one just after the clock
      first wraps, and the visit skips the overdue check. */
  lemma LongIdleHidesAge(s: Server, b: Beat)
    requires s.active && s.ip != 0 && b.t == WRAP + 1000 && b.env.first.buffer && b.env.second.buffer
    ensures var sl := Slot(s, Cell(ZERO_MONITOR, 0, []), 0, 0, b.t);
            && Tied(sl) && !HealthClear(sl, Visited(b))
            && VisitOn(false, sl, b).cell.log == [] && VisitOn(true, sl, b).cell.log == [Event(NameOf(s), Ping(Sent))]
  {
  }

  /** Exactly when a 32-bit test is right about a stamp less than a wrap away: when the
      stamp is not in the future, or so far in it that the wrapped difference stays
      below the limit. */
  lemma TestIsRightIff(t: int, s: int, limit: nat)
    requires -WRAP < t - s < WRAP && 0 < limit < WRAP
    ensures (Elapsed(ClockAt(t), ClockAt(s)) >= limit <==> t - s >= limit)
            <==> (s <= t || WRAP - (s - t) < limit)
  {
    ElapsedIsReduced(t, s);
  }

  /** So a visit that still holds a clock reading taken before the ping was stamped, as when
      a wake command is served between the main loop's clock read and this slot's turn,
      times the fresh ping out at once. */
  lemma StaleReadingTimesOut(c: Cell, s: Server, b: Beat, last: nat)
    requires s.active && s.ip != 0 && c.mon.pingPending && MonOk(c.mon)
    requires c.mon.lastPing == ClockAt(last) && b.t < last <= b.t + WRAP - PING_TIMEOUT_MS
    requires c.mon.wolActive
    ensures PingLate(c.mon, ClockAt(b.t))
    ensures Fires(c, b) <==> last <= b.t + WRAP - WOL_PING_INTERVAL_MS
    ensures last <= b.t + WRAP - WOL_PING_INTERVAL_MS ==>
              Left(Visit(c, s, true, b).mon) == Left(c.mon) - 1
  {
    ElapsedIsReduced(b.t, last);
    FiringIsExact(c, s, true, b);
  }
}
