/** `scheduler.c`: the one-minute gate, the UTC-to-local arithmetic and the
    matching loop, against a weekly timetable of minutes. */
module Scheduler {
  import opened Words
  import opened Config
  import M = Monitoring
  import opened System
  import opened Device
  import opened Invariants
  import opened Loops
  import Wol

  const CHECK_INTERVAL_MS := 60000
  const DAY := 1440
  const WEEK := 10080

  /** The RTC's day of week (0 is Sunday), hour and minute, in UTC. */
  datatype Rtc = Rtc(dotw: nat, hour: nat, minute: nat)

  predicate RtcOk(t: Rtc) {
    t.dotw < 7 && t.hour < 24 && t.minute < 60
  }

  /** Local day of week with hour and minute narrowed to bytes for comparison. */
  datatype Local = Local(dotw: nat, hour: Byte, minute: Byte)

  /** C division and remainder, which truncate toward zero. */
  function Quot(a: int, b: int): int
    requires b > 0
  {
    if a >= 0 then a / b else -((-a) / b)
  }

  function Rem(a: int, b: int): int
    requires b > 0
  {
    a - Quot(a, b) * b
  }

  /** The firmware's conversion: at most one day of carry. */
  function LocalTime(t: Rtc, offset: Int16): (l: Local)
    requires RtcOk(t)
    ensures l.dotw < 7
  {
    var total := t.hour * 60 + t.minute + offset;
    var (day, rest) :=
      if total < 0 then (-1, total + DAY) else if total >= DAY then (1, total - DAY) else (0, total);
    Local((t.dotw + day + 7) % 7, Quot(rest, 60) % 256, Rem(rest, 60) % 256)
  }

  /** The minute of the local week. */
  function WeekMinute(t: Rtc, offset: Int16): (w: nat)
    ensures w < WEEK
  {
    (t.dotw * DAY + t.hour * 60 + t.minute + offset) % WEEK
  }

  function Split(w: nat): Local
    requires w < WEEK
  {
    Local(w / DAY, w % DAY / 60, w % 60)
  }

  lemma WeekShift(x: int, k: int)
    requires 0 <= x + WEEK * k < WEEK
    ensures x % WEEK == x + WEEK * k
  {
    var q := x / WEEK;
    assert x % WEEK == x - WEEK * q;
  }

  /** One day of carry moves the week minute by whole weeks at most. */
  lemma WeekMinuteIs(t: Rtc, offset: Int16, day: int, rest: nat)
    requires RtcOk(t) && -1 <= day <= 1 && rest < DAY
    requires t.hour * 60 + t.minute + offset == day * DAY + rest
    ensures WeekMinute(t, offset) == (t.dotw + day + 7) % 7 * DAY + rest
  {
    var x := (t.dotw + day) * DAY + rest;
    assert x == t.dotw * DAY + t.hour * 60 + t.minute + offset;
    if t.dotw + day < 0 {
      WeekShift(x, 1);
    } else if t.dotw + day > 6 {
      WeekShift(x, -1);
    } else {
      WeekShift(x, 0);
    }
  }

  lemma SplitIs(d: nat, rest: nat)
    requires d < 7 && rest < DAY
    ensures d * DAY + rest < WEEK && Split(d * DAY + rest) == Local(d, rest / 60, rest % 60)
  {
    var w := d * DAY + rest;
    DaysAre(w, d, rest);
    MinutesAre(w, 24 * d + rest / 60, rest % 60);
  }

  /** Division by a constant is linear in the quotient. */
  lemma DaysAre(w: nat, q: nat, r: nat)
    requires r < DAY && w == q * DAY + r
    ensures w / DAY == q && w % DAY == r
  {
    var p := w / DAY;
    assert p * DAY <= w < p * DAY + DAY;
  }

  lemma MinutesAre(w: nat, q: nat, r: nat)
    requires r < 60 && w == q * 60 + r
    ensures w / 60 == q && w % 60 == r
  {
    var p := w / 60;
    assert p * 60 <= w < p * 60 + 60;
  }

  /** Within one day of carry the conversion is the week minute. */
  lemma LocalTimeInRange(t: Rtc, offset: Int16)
    requires RtcOk(t) && -DAY <= t.hour * 60 + t.minute + offset < 2 * DAY
    ensures LocalTime(t, offset) == Split(WeekMinute(t, offset))
  {
    var total := t.hour * 60 + t.minute + offset;
    var day := if total < 0 then -1 else if total >= DAY then 1 else 0;
    var rest := total - day * DAY;
    WeekMinuteIs(t, offset, day, rest);
    SplitIs((t.dotw + day + 7) % 7, rest);
    TimeOfDay(rest);
  }

  lemma TimeOfDay(rest: nat)
    requires rest < DAY
    ensures Quot(rest, 60) % 256 == rest / 60 && Rem(rest, 60) % 256 == rest % 60
  {
    assert rest / 60 < 24 && rest % 60 < 60;
  }

  /** Beyond it the hour or minute byte is no time of day at all. */
  lemma LocalTimeOutOfRange(t: Rtc, offset: Int16)
    requires RtcOk(t) && !(-DAY <= t.hour * 60 + t.minute + offset < 2 * DAY)
    ensures LocalTime(t, offset) != Split(WeekMinute(t, offset))
  {
    var total, tod := t.hour * 60 + t.minute + offset, WeekMinute(t, offset) % DAY;
    var q := WholeDays(t, offset);
    MinuteOfDay(WeekMinute(t, offset));
    if total < -DAY {
      NegativeMisses(total + DAY, tod, q + 1);
    } else {
      LargeMisses(total - DAY, tod, q - 1);
    }
  }

  lemma MinuteOfDay(w: nat)
    requires w < WEEK
    ensures Split(w).minute == w % DAY % 60
  {
    var tod := w % DAY;
    assert w == w / DAY * DAY + tod && tod == tod / 60 * 60 + tod % 60;
    MinutesAre(w, 24 * (w / DAY) + tod / 60, tod % 60);
  }

  /** UTC time plus offset is the local time of day up to whole days. */
  lemma WholeDays(t: Rtc, offset: Int16) returns (q: int)
    requires RtcOk(t)
    ensures t.hour * 60 + t.minute + offset == WeekMinute(t, offset) % DAY + DAY * q
  {
    var x, w := t.dotw * DAY + t.hour * 60 + t.minute + offset, WeekMinute(t, offset);
    var k, d := x / WEEK, w / DAY;
    assert x == WEEK * k + w && w == DAY * d + w % DAY;
    q := d + 7 * k - t.dotw;
  }

  lemma NegativeMisses(rest: int, tod: nat, n: int)
    requires -40000 < rest < 0 && tod < DAY && rest == tod + DAY * n
    ensures Quot(rest, 60) % 256 != tod / 60 || Rem(rest, 60) % 256 != tod % 60
  {
    var h, m := (-rest) / 60, (-rest) % 60;
    assert Quot(rest, 60) == -h && Rem(rest, 60) == -m;
    if m == 0 {
      assert tod / 60 == -h - 24 * n;
      assert 0 < h < 670 && -28 <= n < 0;
      Congruence(-h, n);
    } else {
      assert (-m) % 256 == 256 - m;
    }
  }

  lemma LargeMisses(rest: int, tod: nat, n: int)
    requires DAY <= rest < 40000 && tod < DAY && rest == tod + DAY * n
    ensures Quot(rest, 60) % 256 != tod / 60
  {
    var h := rest / 60;
    assert tod / 60 == h - 24 * n;
    assert 0 < n < 28;
    Congruence(h, n);
  }

  /** Hours that differ by 1 to 28 days never agree as bytes with the hour of day. */
  lemma Congruence(h: int, n: int)
    requires -28 <= n <= 28 && n != 0 && 0 <= h - 24 * n < 24
    ensures h % 256 != h - 24 * n
  {
    var q := h / 256;
    assert h % 256 == h - 256 * q;
  }

  /** The conversion is right exactly when UTC time plus offset stays within one day of carry. */
  lemma LocalTimeIsExactIff(t: Rtc, offset: Int16)
    requires RtcOk(t)
    ensures LocalTime(t, offset) == Split(WeekMinute(t, offset)) <==>
            -DAY <= t.hour * 60 + t.minute + offset < 2 * DAY
  {
    if -DAY <= t.hour * 60 + t.minute + offset < 2 * DAY {
      LocalTimeInRange(t, offset);
    } else {
      LocalTimeOutOfRange(t, offset);
    }
  }

  /** So an offset is right at every time of the week exactly when it is at most one day;
      the web form accepts others. */
  lemma OffsetIsExactIff(offset: Int16)
    ensures (forall t: Rtc :: RtcOk(t) ==> LocalTime(t, offset) == Split(WeekMinute(t, offset))) <==>
            -DAY <= offset <= DAY
  {
    if -DAY <= offset <= DAY {
      forall t: Rtc | RtcOk(t) ensures LocalTime(t, offset) == Split(WeekMinute(t, offset)) {
        LocalTimeIsExactIff(t, offset);
      }
    } else {
      var t := if offset < 0 then Rtc(0, 0, 0) else Rtc(0, 23, 59);
      LocalTimeIsExactIff(t, offset);
      assert RtcOk(t);
    }
  }

  // --- Matching ---

  predicate Matches(e: Schedule, l: Local)
    requires l.dotw < 7
  {
    HasDay(e.dayMask, l.dotw) && e.hour == l.hour && e.minute == l.minute
  }

  /** The week minutes an entry stands for; none if its time is not a time of day. */
  function WeekMinutes(e: Schedule): set<nat> {
    set d | 0 <= d < 7 && HasDay(e.dayMask, d) && e.hour < 24 && e.minute < 60 :: d * DAY + e.hour * 60 + e.minute
  }

  lemma MatchesIffDue(e: Schedule, w: nat)
    requires w < WEEK
    ensures Split(w).dotw < 7
    ensures Matches(e, Split(w)) <==> w in WeekMinutes(e)
  {
    SplitJoins(w);
    if w in WeekMinutes(e) {
      var k :| 0 <= k < 7 && HasDay(e.dayMask, k) && e.hour < 24 && e.minute < 60 &&
               w == k * DAY + e.hour * 60 + e.minute;
      SplitIs(k, e.hour * 60 + e.minute);
      MinutesAre(e.hour * 60 + e.minute, e.hour, e.minute);
    }
  }

  lemma SplitJoins(w: nat)
    requires w < WEEK
    ensures var l := Split(w); l.dotw < 7 && OnClock(l) && w == l.dotw * DAY + l.hour * 60 + l.minute
  {
    var rest := w % DAY;
    assert w == w / DAY * DAY + rest && rest == rest / 60 * 60 + rest % 60;
    MinutesAre(w, 24 * (w / DAY) + rest / 60, rest % 60);
  }

  // --- Waking ---

  /** The slots an entry wakes, in order. */
  function Slots(st: State, e: Schedule): seq<nat> {
    if e.target < 0 then AllSlots(st, |st.recs|)
    else if e.target < |st.recs| && st.recs[e.target].server.active then [e.target]
    else []
  }

  /** The timetable's wakes: entries in table order, those whose week minutes contain `w`. */
  function Due(st: State, n: nat, w: nat, env: nat -> nat -> M.Radio): (r: State)
    requires n <= |st.schedules|
    ensures |r.recs| == |st.recs| && r.schedules == st.schedules && r.offset == st.offset
    ensures forall i :: 0 <= i < |st.recs| ==> r.recs[i].server == st.recs[i].server
  {
    if n == 0 then
      st
    else
      var before := Due(st, n - 1, w, env);
      if w in WeekMinutes(st.schedules[n - 1]) then
        WakeEach(before, Slots(st, st.schedules[n - 1]), env(n - 1))
      else
        before
  }

  /** The same loop as the firmware runs it, on its own local time. */
  function Matched(st: State, n: nat, l: Local, env: nat -> nat -> M.Radio): (r: State)
    requires n <= |st.schedules| && l.dotw < 7
    ensures |r.recs| == |st.recs| && r.schedules == st.schedules && r.offset == st.offset
    ensures forall i :: 0 <= i < |st.recs| ==> r.recs[i].server == st.recs[i].server
  {
    if n == 0 then
      st
    else
      var before := Matched(st, n - 1, l, env);
      if Matches(st.schedules[n - 1], l) then
        WakeEach(before, Slots(st, st.schedules[n - 1]), env(n - 1))
      else
        before
  }

  lemma {:induction false} MatchedIsDue(st: State, n: nat, w: nat, env: nat -> nat -> M.Radio)
    requires n <= |st.schedules| && w < WEEK
    ensures Split(w).dotw < 7 && Matched(st, n, Split(w), env) == Due(st, n, w, env)
  {
    if n > 0 {
      MatchedIsDue(st, n - 1, w, env);
      MatchesIffDue(st.schedules[n - 1], w);
    }
  }

  lemma {:induction false} SameSlots(st: State, other: State, n: nat)
    requires n <= |st.recs| == |other.recs|
    requires forall i :: 0 <= i < |st.recs| ==> other.recs[i].server == st.recs[i].server
    ensures AllSlots(st, n) == AllSlots(other, n)
  {
    if n > 0 {
      SameSlots(st, other, n - 1);
    }
  }

  /** The wakes of the matching loop, in the order it issues them. */
  function MatchedOps(st: State, n: nat, l: Local, env: nat -> nat -> M.Radio): (ops: seq<Op>)
    requires n <= |st.schedules| && l.dotw < 7
    ensures GoodRun(ops)
  {
    if n == 0 then
      []
    else
      var e := st.schedules[n - 1];
      MatchedOps(st, n - 1, l, env) + if Matches(e, l) then WakeOps(Slots(st, e), env(n - 1)) else []
  }

  /** The matching loop is a run of wakes. */
  lemma {:induction false} MatchedIsRun(st: State, n: nat, l: Local, env: nat -> nat -> M.Radio)
    requires n <= |st.schedules| && l.dotw < 7
    ensures Matched(st, n, l, env) == Run(st, MatchedOps(st, n, l, env))
  {
    if n > 0 {
      MatchedIsRun(st, n - 1, l, env);
      var e, before := st.schedules[n - 1], MatchedOps(st, n - 1, l, env);
      if Matches(e, l) {
        WakeEachIsRun(Run(st, before), Slots(st, e), env(n - 1));
        RunJoins(st, before, WakeOps(Slots(st, e), env(n - 1)));
      } else {
        assert before + [] == before;
      }
    }
  }

  /** And so is the timetable's due minute. */
  lemma DueIsRun(st: State, n: nat, w: nat, env: nat -> nat -> M.Radio)
    requires n <= |st.schedules| && w < WEEK
    ensures Split(w).dotw < 7 && Due(st, n, w, env) == Run(st, MatchedOps(st, n, Split(w), env))
  {
    MatchedIsDue(st, n, w, env);
    MatchedIsRun(st, n, Split(w), env);
  }

  lemma MatchedKeeps(st: State, n: nat, l: Local, env: nat -> nat -> M.Radio)
    requires n <= |st.schedules| && l.dotw < 7
    ensures Kept(st, Matched(st, n, l, env))
  {
    MatchedIsRun(st, n, l, env);
    if Inv(st) {
      RunKeeps(st, MatchedOps(st, n, l, env));
    }
  }

  // --- Entries with impossible times, such as the web form lets through ---

  predicate Impossible(e: Schedule) {
    e.hour >= 24 || e.minute >= 60
  }

  /** A time a clock can show. */
  predicate OnClock(l: Local) {
    l.hour < 24 && l.minute < 60
  }

  /** With an offset of at most a day such an entry never fires. */
  lemma ImpossibleTimesNeverFire(e: Schedule, t: Rtc, offset: Int16)
    requires RtcOk(t) && -DAY <= offset <= DAY && Impossible(e)
    ensures !Matches(e, LocalTime(t, offset))
  {
    LocalTimeInRange(t, offset);
    MatchesIffDue(e, WeekMinute(t, offset));
  }

  /** The offsets whose conversion always yields a time a clock can show: those of at most a day,
      and two others whose hours are exactly 256 or 512 too large and lose that as bytes. */
  predicate ShowsClock(offset: Int16) {
    -DAY <= offset <= DAY || offset == 256 * 60 + DAY || offset == 512 * 60 + DAY
  }

  lemma HourByteWraps(t: Rtc, offset: Int16, q: int)
    requires RtcOk(t) && 1 <= q <= 2 && offset == 256 * q * 60 + DAY
    ensures OnClock(LocalTime(t, offset))
  {
    var rest := t.hour * 60 + t.minute + offset - DAY;
    assert rest / 60 == 256 * q + t.hour && rest % 60 == t.minute;
    assert Quot(rest, 60) == 256 * q + t.hour && Rem(rest, 60) == t.minute;
  }

  /** A time of day at which any other offset yields none. */
  function OffClock(offset: Int16): Rtc {
    if offset < 0 then Rtc(0, 0, if (offset + DAY) % 60 == 0 then 1 else 0)
    else if (offset - 1) / 60 % 256 >= 24 then Rtc(0, 23, 59)
    else Rtc(0, 0, 0)
  }

  lemma TooEarly(offset: Int16)
    requires offset < -DAY
    ensures RtcOk(OffClock(offset)) && !OnClock(LocalTime(OffClock(offset), offset))
  {
    var t := OffClock(offset);
    var back := -(t.minute + offset + DAY);
    assert 0 < back % 60 < 60 && Rem(-back, 60) == -(back % 60);
    assert (-(back % 60)) % 256 == 256 - back % 60;
  }

  lemma TooLate(offset: Int16)
    requires offset > DAY && !ShowsClock(offset)
    ensures RtcOk(OffClock(offset)) && !OnClock(LocalTime(OffClock(offset), offset))
  {
    var last, first := (offset - 1) / 60, (offset - DAY) / 60;
    if last % 256 < 24 {
      HoursApart(offset, first, last);
    }
  }

  /** Both ends of the 24 hours fall on a clock as bytes only if the first is a multiple of 256. */
  lemma HoursApart(offset: Int16, first: int, last: int)
    requires offset > DAY && !ShowsClock(offset)
    requires first == (offset - DAY) / 60 && last == (offset - 1) / 60 && last % 256 < 24
    ensures first % 256 >= 24
  {
    var q := last / 256;
    assert last == 256 * q + last % 256 && 23 <= last - first <= 24;
    assert first == 256 * q ==> offset == 256 * q * 60 + DAY && 0 <= q <= 2;
    assert first == 256 * (q - 1) + (256 + last % 256 - (last - first));
  }

  lemma SomeImpossibleMatches(l: Local) returns (e: Schedule)
    requires l.dotw < 7 && !OnClock(l)
    ensures Impossible(e) && Matches(e, l)
  {
    e := Schedule(0x7F, l.hour, l.minute, 0);
  }

  /** Exactly for these offsets no entry with an impossible time ever fires. */
  lemma ImpossibleTimesNeverFireIff(offset: Int16)
    ensures (forall e: Schedule, t: Rtc :: RtcOk(t) && Impossible(e) ==> !Matches(e, LocalTime(t, offset)))
            <==> ShowsClock(offset)
  {
    if ShowsClock(offset) {
      forall e: Schedule, t: Rtc | RtcOk(t) && Impossible(e) ensures !Matches(e, LocalTime(t, offset)) {
        if -DAY <= offset <= DAY {
          ImpossibleTimesNeverFire(e, t, offset);
        } else {
          HourByteWraps(t, offset, if offset == 256 * 60 + DAY then 1 else 2);
        }
      }
    } else {
      if offset < 0 {
        TooEarly(offset);
      } else {
        TooLate(offset);
      }
      var e := SomeImpossibleMatches(LocalTime(OffClock(offset), offset));
      assert Matches(e, LocalTime(OffClock(offset), offset));
    }
  }

  /** The statics of `scheduler.c`. */
  class Gate {
    var synced: bool
    var lastCheck: Word

    constructor ()
      ensures !synced && lastCheck == 0
    {
      synced, lastCheck := false, 0;
    }
  }

  predicate GateOpens(lastCheck: Word, now: Word) {
    Elapsed(now, lastCheck) >= CHECK_INTERVAL_MS
  }

  /** The gate's stamp and the state after one tick of a synchronised scheduler. */
  function Ticked(last: Word, st: State, now: Word, rtc: Option<Rtc>, env: nat -> nat -> M.Radio): (Word, State)
    requires rtc.Some? ==> RtcOk(rtc.value)
  {
    if st.schedules == [] || !GateOpens(last, now) then (last, st)
    else if rtc.None? then (now, st)
    else (now, Matched(st, |st.schedules|, LocalTime(rtc.value, st.offset), env))
  }

  /** One `scheduler_tick`; a `None` clock is one the RTC could not be read. With an offset of
      at most a day, an open gate wakes exactly what the timetable has for this minute. */
  method SchedulerTick(g: Gate, d: Appliance, now: Word, rtc: Option<Rtc>, env: nat -> nat -> M.Radio)
    requires d.Valid() && (rtc.Some? ==> RtcOk(rtc.value))
    modifies g`lastCheck, d`seqNo, d`log, d`st, d.monitors
    ensures d.Valid() && Kept(old(d.st), d.st)
    ensures (g.lastCheck, d.st) ==
            if g.synced then Ticked(old(g.lastCheck), old(d.st), now, rtc, env) else (old(g.lastCheck), old(d.st))
    ensures var open := g.synced && old(d.st).schedules != [] && GateOpens(old(g.lastCheck), now);
            && g.lastCheck == (if open then now else old(g.lastCheck))
            && (!open || rtc.None? ==> d.st == old(d.st))
            && (open && rtc.Some? ==>
                  d.st == Matched(old(d.st), |old(d.st).schedules|, LocalTime(rtc.value, d.offset), env))
            && (open && rtc.Some? && -DAY <= d.offset <= DAY ==>
                  d.st == Due(old(d.st), |old(d.st).schedules|, WeekMinute(rtc.value, d.offset), env))
  {
    if !g.synced || d.scheduleCount == 0 {
      return;
    }
    if Elapsed(now, g.lastCheck) < CHECK_INTERVAL_MS {
      return;
    }
    g.lastCheck := now;
    if rtc.None? {
      return;
    }
    var t := rtc.value;
    var local := ToLocal(t, d.offset);
    if -DAY <= d.offset <= DAY {
      LocalTimeInRange(t, d.offset);
      MatchedIsDue(d.st, |d.st.schedules|, WeekMinute(t, d.offset), env);
    }
    MatchedKeeps(d.st, |d.st.schedules|, local, env);
    FireMatching(d, local, env);
  }

  /** The conversion, as the tick computes it. */
  method ToLocal(t: Rtc, offset: Int16) returns (l: Local)
    requires RtcOk(t)
    ensures l == LocalTime(t, offset)
  {
    var total := t.hour * 60 + t.minute + offset;
    var dayOffset := 0;
    if total < 0 {
      total := total + 24 * 60;
      dayOffset := -1;
    } else if total >= 24 * 60 {
      total := total - 24 * 60;
      dayOffset := 1;
    }
    l := Local((t.dotw + dayOffset + 7) % 7, Quot(total, 60) % 256, Rem(total, 60) % 256);
  }

  method FireMatching(d: Appliance, local: Local, env: nat -> nat -> M.Radio)
    requires d.Valid() && local.dotw < 7
    modifies d`seqNo, d`log, d`st, d.monitors
    ensures d.Valid() && d.st == Matched(old(d.st), |old(d.st).schedules|, local, env)
  {
    ghost var was := d.st;
    var i := 0;
    while i < d.scheduleCount
      invariant i <= d.scheduleCount && d.Valid() && d.st == Matched(was, i, local, env)
    {
      var e := d.schedules[i];
      if HasDay(e.dayMask, local.dotw) && e.hour == local.hour && e.minute == local.minute {
        FireEntry(d, was, e, env(i));
      }
      i := i + 1;
    }
  }

  method FireEntry(d: Appliance, ghost was: State, e: Schedule, env: nat -> M.Radio)
    requires d.Valid() && |was.recs| == |d.st.recs|
    requires forall i :: 0 <= i < |was.recs| ==> d.st.recs[i].server == was.recs[i].server
    modifies d`seqNo, d`log, d`st, d.monitors
    ensures d.Valid() && d.st == WakeEach(old(d.st), Slots(was, e), env)
  {
    if e.target < 0 {
      SameSlots(was, d.st, |was.recs|);
      WakeUpToIsEach(d.st, |d.st.recs|, env);
      Wol.WakeAll(d, env);
    } else if e.target < d.serverCount && d.servers[e.target].active {
      Wol.Wake(d, e.target, env(e.target));
      assert Slots(was, e)[..0] == [];
    }
  }

  // --- The minute gate over time ---

  /** The times at which ticks at true times `ticks` pass the gate, and the gate's stamp after. */
  function Checks(last: Word, ticks: seq<nat>): (r: (Word, seq<nat>)) {
    if ticks == [] then
      (last, [])
    else
      var k := |ticks| - 1;
      var (stamp, checks) := Checks(last, ticks[..k]);
      if GateOpens(stamp, ClockAt(ticks[k])) then (ClockAt(ticks[k]), checks + [ticks[k]]) else (stamp, checks)
  }

  predicate InOrder(ticks: seq<nat>) {
    forall i, j :: 0 <= i < j < |ticks| ==> ticks[i] <= ticks[j]
  }

  /** The RTC minute at a tick, the RTC running in step with the millisecond clock. */
  function MinuteAt(base: nat, t: nat): nat {
    (base + t) / CHECK_INTERVAL_MS
  }

  predicate Spaced(checks: seq<nat>) {
    forall i :: 0 <= i < |checks| - 1 ==> checks[i] + CHECK_INTERVAL_MS <= checks[i + 1]
  }

  lemma {:induction false} ChecksAreSpaced(last: Word, ticks: seq<nat>)
    requires InOrder(ticks)
    ensures var (stamp, checks) := Checks(last, ticks);
            && Spaced(checks)
            && (checks != [] ==> stamp == ClockAt(checks[|checks| - 1]) && checks[|checks| - 1] <= ticks[|ticks| - 1])
            && (checks == [] ==> stamp == last)
            && (checks != [] ==> ticks != [])
  {
    if ticks != [] {
      var k := |ticks| - 1;
      ChecksAreSpaced(last, ticks[..k]);
      var checks := Checks(last, ticks[..k]).1;
      if checks != [] {
        assert ticks[..k][k - 1] == ticks[k - 1];
        ElapsedNeverOverstates(ticks[k], checks[|checks| - 1]);
      }
    }
  }

  lemma {:induction false} SpacedMinutes(base: nat, checks: seq<nat>, i: nat, j: nat)
    requires Spaced(checks) && i < j < |checks|
    ensures MinuteAt(base, checks[i]) + (j - i) <= MinuteAt(base, checks[j])
    decreases j - i
  {
    if i + 1 < j {
      SpacedMinutes(base, checks, i, j - 1);
      assert checks[j - 1] + CHECK_INTERVAL_MS <= checks[j - 1 + 1];
    }
  }

  /** However ticks fall and the clock wraps, no minute passes the gate twice. */
  lemma NoMinuteTwice(base: nat, last: Word, ticks: seq<nat>, i: nat, j: nat)
    requires InOrder(ticks) && i < j < |Checks(last, ticks).1|
    ensures var checks := Checks(last, ticks).1; MinuteAt(base, checks[i]) < MinuteAt(base, checks[j])
  {
    ChecksAreSpaced(last, ticks);
    SpacedMinutes(base, Checks(last, ticks).1, i, j);
  }

  predicate Close(ticks: seq<nat>, gap: nat) {
    forall i :: 0 <= i < |ticks| - 1 ==> ticks[i + 1] <= ticks[i] + gap
  }

  /** With ticks at most `gap` apart, each check follows the last within a minute and a gap,
      and the latest is less than a minute before the current tick. */
  lemma {:induction false} ChecksAreClose(last: Word, ticks: seq<nat>, gap: nat)
    requires InOrder(ticks) && Close(ticks, gap) && gap + CHECK_INTERVAL_MS < WRAP
    ensures var checks := Checks(last, ticks).1;
            && Close(checks, CHECK_INTERVAL_MS + gap)
            && (checks != [] ==> ticks[|ticks| - 1] < checks[|checks| - 1] + CHECK_INTERVAL_MS)
  {
    if ticks != [] {
      var k := |ticks| - 1;
      ChecksAreClose(last, ticks[..k], gap);
      ChecksAreSpaced(last, ticks[..k]);
      var checks := Checks(last, ticks[..k]).1;
      if checks != [] {
        var c := checks[|checks| - 1];
        assert ticks[..k][k - 1] == ticks[k - 1] <= ticks[k - 1 + 1] <= ticks[k - 1] + gap;
        ElapsedIsExact(ticks[k], c);
      }
    }
  }

  /** `x / y` rounded up. */
  function Ceil(x: nat, y: nat): nat
    requires y > 0
  {
    (x + y - 1) / y
  }

  /** The minutes `k` waits of up to `gap` can cost. */
  function MostSkipped(k: nat, gap: nat): nat {
    Ceil(k * gap, CHECK_INTERVAL_MS)
  }

  lemma {:induction false} CloseSpan(checks: seq<nat>, n: nat, step: nat)
    requires Close(checks, step) && n < |checks|
    ensures checks[n] <= checks[0] + n * step
  {
    if n > 0 {
      CloseSpan(checks, n - 1, step);
      assert checks[n - 1 + 1] <= checks[n - 1] + step;
      assert n * step == (n - 1) * step + step;
    }
  }

  /** Over `n` consecutive checks the minutes passed without a check number at most
      ceil((n - 1) * gap / 60000). */
  lemma FewMinutesSkipped(base: nat, last: Word, ticks: seq<nat>, gap: nat, from: nat, n: nat)
    requires InOrder(ticks) && Close(ticks, gap) && gap + CHECK_INTERVAL_MS < WRAP
    requires 0 < n && from + n <= |Checks(last, ticks).1|
    ensures var checks := Checks(last, ticks).1;
            var span := MinuteAt(base, checks[from + n - 1]) - MinuteAt(base, checks[from]) + 1;
            n <= span <= n + MostSkipped(n - 1, gap)
  {
    ChecksAreSpaced(last, ticks);
    ChecksAreClose(last, ticks, gap);
    var checks := Checks(last, ticks).1;
    var part := checks[from..from + n];
    CloseSpan(part, n - 1, CHECK_INTERVAL_MS + gap);
    if n > 1 {
      SpacedMinutes(base, checks, from, from + n - 1);
    }
    SpanMinutes(base + part[0], base + part[n - 1], n - 1, gap);
  }

  lemma SpanMinutes(a: nat, b: nat, k: nat, gap: nat)
    requires a <= b <= a + k * (CHECK_INTERVAL_MS + gap)
    ensures b / CHECK_INTERVAL_MS - a / CHECK_INTERVAL_MS <= k + MostSkipped(k, gap)
  {
    var c := MostSkipped(k, gap);
    assert k * (CHECK_INTERVAL_MS + gap) == k * CHECK_INTERVAL_MS + k * gap;
    assert k * gap <= c * CHECK_INTERVAL_MS;
  }
}
