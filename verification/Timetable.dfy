/** Runs of scheduler ticks: which entries fire, when, and how often. */
module Timetable {
  import opened Words
  import opened Config
  import M = Monitoring
  import opened System
  import opened Loops
  import opened Scheduler

  /** Entry number `entry` is acted on at the tick at true time `t`. */
  datatype Firing = Firing(t: nat, entry: nat)

  /** What the RTC reads at true time `t`, in step with the millisecond clock. */
  function RtcAt(base: nat, t: nat): (rtc: Rtc)
    ensures RtcOk(rtc)
  {
    var w := MinuteAt(base, t) % WEEK;
    SplitJoins(w);
    Rtc(Split(w).dotw, Split(w).hour, Split(w).minute)
  }

  /** A run of ticks at the given times, the scheduler synchronised. */
  function Ticks(last: Word, st: State, ticks: seq<nat>, base: nat, env: nat -> nat -> nat -> M.Radio): (Word, State) {
    if ticks == [] then
      (last, st)
    else
      var k := |ticks| - 1;
      var (stamp, mid) := Ticks(last, st, ticks[..k], base, env);
      Ticked(stamp, mid, ClockAt(ticks[k]), Some(RtcAt(base, ticks[k])), env(ticks[k]))
  }

  /** The entries below `n` that match, in table order. */
  function Matching(schedules: seq<Schedule>, n: nat, l: Local, t: nat): seq<Firing>
    requires n <= |schedules| && l.dotw < 7
  {
    if n == 0 then [] else Matching(schedules, n - 1, l, t) + OneMatch(schedules, n - 1, l, t)
  }

  /** The firings of a run, in order. */
  function Firings(schedules: seq<Schedule>, offset: Int16, last: Word, ticks: seq<nat>, base: nat): seq<Firing> {
    if ticks == [] then
      []
    else
      var k := |ticks| - 1;
      var before := Firings(schedules, offset, last, ticks[..k], base);
      if GateOpens(Checks(last, ticks[..k]).0, ClockAt(ticks[k])) then
        before + Matching(schedules, |schedules|, LocalTime(RtcAt(base, ticks[k]), offset), ticks[k])
      else
        before
  }

  predicate Indexed(fs: seq<Firing>, n: nat) {
    forall i :: 0 <= i < |fs| ==> fs[i].entry < n
  }

  /** Acting on firings, each waking what its entry is for. */
  function Fire(st: State, fs: seq<Firing>, env: nat -> nat -> nat -> M.Radio): (r: State)
    requires Indexed(fs, |st.schedules|)
    ensures |r.recs| == |st.recs| && r.schedules == st.schedules && r.offset == st.offset
    ensures forall i :: 0 <= i < |st.recs| ==> r.recs[i].server == st.recs[i].server
  {
    if fs == [] then
      st
    else
      var k := |fs| - 1;
      var f := fs[k];
      WakeEach(Fire(st, fs[..k], env), Slots(st, st.schedules[f.entry]), env(f.t)(f.entry))
  }

  predicate Ascending(fs: seq<Firing>) {
    forall i, j :: 0 <= i < j < |fs| ==> fs[i].entry < fs[j].entry
  }

  lemma {:induction false} MatchingIsIndexed(schedules: seq<Schedule>, n: nat, l: Local, t: nat)
    requires n <= |schedules| && l.dotw < 7
    ensures forall f :: f in Matching(schedules, n, l, t) <==> f.t == t && f.entry < n && Matches(schedules[f.entry], l)
    ensures Ascending(Matching(schedules, n, l, t))
  {
    if n > 0 {
      MatchingIsIndexed(schedules, n - 1, l, t);
      var init := Matching(schedules, n - 1, l, t);
      forall i | 0 <= i < |init| ensures init[i].entry < n - 1 {
        assert init[i] in init;
      }
    }
  }

  lemma {:induction false} FiringsAreIndexed(
      schedules: seq<Schedule>, offset: Int16, last: Word, ticks: seq<nat>, base: nat)
    ensures Indexed(Firings(schedules, offset, last, ticks, base), |schedules|)
  {
    if ticks != [] {
      var k := |ticks| - 1;
      var l, t := LocalTime(RtcAt(base, ticks[k]), offset), ticks[k];
      FiringsAreIndexed(schedules, offset, last, ticks[..k], base);
      MatchingIsIndexed(schedules, |schedules|, l, t);
      var more := Matching(schedules, |schedules|, l, t);
      assert forall i :: 0 <= i < |more| ==> more[i] in more;
    }
  }

  lemma SlotsKept(st: State, mid: State, e: Schedule)
    requires |mid.recs| == |st.recs|
    requires forall i :: 0 <= i < |st.recs| ==> mid.recs[i].server == st.recs[i].server
    ensures Slots(mid, e) == Slots(st, e)
  {
    SameSlots(st, mid, |st.recs|);
  }

  function OneMatch(schedules: seq<Schedule>, i: nat, l: Local, t: nat): seq<Firing>
    requires i < |schedules| && l.dotw < 7
  {
    if Matches(schedules[i], l) then [Firing(t, i)] else []
  }

  /** One firing acted on after `acc`. */
  lemma FireSnoc(st: State, acc: State, fs: seq<Firing>, f: Firing, env: nat -> nat -> nat -> M.Radio)
    requires Indexed(fs, |st.schedules|) && f.entry < |st.schedules| && acc == Fire(st, fs, env)
    ensures Indexed(fs + [f], |st.schedules|)
    ensures Fire(st, fs + [f], env) == WakeEach(acc, Slots(st, st.schedules[f.entry]), env(f.t)(f.entry))
  {
    var all := fs + [f];
    assert all[..|all| - 1] == fs;
  }

  /** The matching loop acts on the matching entries. */
  lemma {:induction false} MatchedIsFire(st: State, n: nat, l: Local, t: nat, env: nat -> nat -> nat -> M.Radio)
    requires n <= |st.schedules| && l.dotw < 7
    ensures Indexed(Matching(st.schedules, n, l, t), |st.schedules|)
    ensures Fire(st, Matching(st.schedules, n, l, t), env) == Matched(st, n, l, env(t))
  {
    if n > 0 {
      MatchedIsFire(st, n - 1, l, t, env);
      FireOneMore(st, Matched(st, n - 1, l, env(t)), Matching(st.schedules, n - 1, l, t), n - 1, l, t, env);
    }
  }

  /** One more entry, acted on after `acc` if it matches. */
  lemma FireOneMore(st: State, acc: State, fs: seq<Firing>, i: nat, l: Local, t: nat, env: nat -> nat -> nat -> M.Radio)
    requires i < |st.schedules| && l.dotw < 7 && Indexed(fs, |st.schedules|) && acc == Fire(st, fs, env)
    ensures var all, e := fs + OneMatch(st.schedules, i, l, t), st.schedules[i];
            && Indexed(all, |st.schedules|)
            && Fire(st, all, env) == if Matches(e, l) then WakeEach(acc, Slots(st, e), env(t)(i)) else acc
  {
    if Matches(st.schedules[i], l) {
      FireSnoc(st, acc, fs, Firing(t, i), env);
    } else {
      assert fs + [] == fs;
    }
  }

  lemma {:induction false} FireJoins(
      st: State, mid: State, a: seq<Firing>, b: seq<Firing>, env: nat -> nat -> nat -> M.Radio)
    requires Indexed(a, |st.schedules|) && Indexed(b, |st.schedules|) && mid == Fire(st, a, env)
    ensures Indexed(a + b, |st.schedules|) && Fire(st, a + b, env) == Fire(mid, b, env)
    decreases |b|
  {
    if b == [] {
      assert a + b == a;
    } else {
      var init, f := b[..|b| - 1], b[|b| - 1];
      LastApart(a, b);
      FireJoins(st, mid, a, init, env);
      FireBoth(st, mid, Fire(mid, init, env), a + init, init, f, env);
    }
  }

  lemma LastApart<T>(a: seq<T>, b: seq<T>)
    requires b != []
    ensures var init, f := b[..|b| - 1], b[|b| - 1]; init + [f] == b && (a + init) + [f] == a + b
  {
  }

  /** One more firing of the whole and of the part. */
  lemma FireBoth(st: State, mid: State, acc: State, all: seq<Firing>, part: seq<Firing>, f: Firing,
                 env: nat -> nat -> nat -> M.Radio)
    requires Indexed(all, |st.schedules|) && Indexed(part, |st.schedules|) && f.entry < |st.schedules|
    requires mid.schedules == st.schedules && |mid.recs| == |st.recs|
    requires forall i :: 0 <= i < |st.recs| ==> mid.recs[i].server == st.recs[i].server
    requires acc == Fire(st, all, env) == Fire(mid, part, env)
    ensures Indexed(all + [f], |st.schedules|) && Indexed(part + [f], |st.schedules|)
    ensures Fire(st, all + [f], env) == Fire(mid, part + [f], env)
  {
    SlotsKept(st, mid, st.schedules[f.entry]);
    FireSnoc(st, acc, all, f, env);
    FireSnoc(mid, acc, part, f, env);
  }

  /** A run of scheduler ticks does exactly its firings, in order, and stamps the gate at its checks. */
  lemma {:induction false} RunIsFirings(
      last: Word, st: State, ticks: seq<nat>, base: nat, env: nat -> nat -> nat -> M.Radio)
    requires st.schedules != []
    ensures var fs := Firings(st.schedules, st.offset, last, ticks, base);
            && Indexed(fs, |st.schedules|)
            && Ticks(last, st, ticks, base, env) == (Checks(last, ticks).0, Fire(st, fs, env))
  {
    FiringsAreIndexed(st.schedules, st.offset, last, ticks, base);
    if ticks != [] {
      var k := |ticks| - 1;
      RunIsFirings(last, st, ticks[..k], base, env);
      var before, t := Firings(st.schedules, st.offset, last, ticks[..k], base), ticks[k];
      var l, mid := LocalTime(RtcAt(base, t), st.offset), Fire(st, before, env);
      MatchedIsFire(mid, |st.schedules|, l, t, env);
      FireJoins(st, mid, before, Matching(st.schedules, |st.schedules|, l, t), env);
    }
  }

  /** The minute of the local week at true time `t`. */
  function LocalMinute(base: nat, t: nat, offset: Int16): (w: nat)
    ensures w < WEEK
  {
    (MinuteAt(base, t) + offset) % WEEK
  }

  lemma LocalMinuteIs(base: nat, t: nat, offset: Int16)
    ensures WeekMinute(RtcAt(base, t), offset) == LocalMinute(base, t, offset)
  {
    var m := MinuteAt(base, t);
    SplitJoins(m % WEEK);
    var q, r := (m % WEEK + offset) / WEEK, (m % WEEK + offset) % WEEK;
    assert m + offset == WEEK * (m / WEEK + q) + r;
    WeekShift(m + offset, -(m / WEEK + q));
  }

  /** An entry matches at a tick exactly if the tick's local minute of the week is one of its own. */
  lemma MatchesAtTick(e: Schedule, base: nat, t: nat, offset: Int16)
    requires -DAY <= offset <= DAY
    ensures Matches(e, LocalTime(RtcAt(base, t), offset)) <==> LocalMinute(base, t, offset) in WeekMinutes(e)
  {
    LocalTimeInRange(RtcAt(base, t), offset);
    LocalMinuteIs(base, t, offset);
    MatchesIffDue(e, LocalMinute(base, t, offset));
  }

  /** Over any run of ticks, an entry fires exactly at the checks whose minute it contains. */
  lemma {:induction false} FiresExactly(
      schedules: seq<Schedule>, offset: Int16, last: Word, ticks: seq<nat>, base: nat, f: Firing)
    requires -DAY <= offset <= DAY
    ensures f in Firings(schedules, offset, last, ticks, base) <==>
            && f.t in Checks(last, ticks).1 && f.entry < |schedules|
            && LocalMinute(base, f.t, offset) in WeekMinutes(schedules[f.entry])
  {
    if ticks != [] {
      var k := |ticks| - 1;
      FiresExactly(schedules, offset, last, ticks[..k], base, f);
      MatchingIsIndexed(schedules, |schedules|, LocalTime(RtcAt(base, ticks[k]), offset), ticks[k]);
      if f.entry < |schedules| {
        MatchesAtTick(schedules[f.entry], base, ticks[k], offset);
      }
    }
  }

  lemma {:induction false} FiredAreChecked(
      schedules: seq<Schedule>, offset: Int16, last: Word, ticks: seq<nat>, base: nat, f: Firing)
    requires f in Firings(schedules, offset, last, ticks, base)
    ensures f.t in Checks(last, ticks).1
  {
    if ticks != [] {
      var k := |ticks| - 1;
      MatchingIsIndexed(schedules, |schedules|, LocalTime(RtcAt(base, ticks[k]), offset), ticks[k]);
      if f in Firings(schedules, offset, last, ticks[..k], base) {
        FiredAreChecked(schedules, offset, last, ticks[..k], base, f);
      }
    }
  }

  /** A check comes in a later minute than every one before it. */
  lemma CheckIsLater(base: nat, last: Word, ticks: seq<nat>, t: nat)
    requires ticks != [] && InOrder(ticks) && t in Checks(last, ticks[..|ticks| - 1]).1
    requires GateOpens(Checks(last, ticks[..|ticks| - 1]).0, ClockAt(ticks[|ticks| - 1]))
    ensures MinuteAt(base, t) < MinuteAt(base, ticks[|ticks| - 1])
  {
    var k := |ticks| - 1;
    var before := Checks(last, ticks[..k]).1;
    var i :| 0 <= i < |before| && before[i] == t;
    assert Checks(last, ticks).1 == before + [ticks[k]];
    NoMinuteTwice(base, last, ticks, i, |before|);
  }

  /** Of two firings of one entry, the later in the firings of one check, the other is from before. */
  lemma SameEntryIsEarlier(before: seq<Firing>, more: seq<Firing>, i: nat, j: nat)
    requires Ascending(more) && i < j < |before + more| && |before| <= j
    requires (before + more)[i].entry == (before + more)[j].entry
    ensures i < |before|
  {
    var fs := before + more;
    forall a, b | |before| <= a < b < |fs| ensures fs[a].entry < fs[b].entry {
      assert fs[a] == more[a - |before|] && fs[b] == more[b - |before|];
    }
  }

  /** However ticks fall and the clock wraps, one entry never fires twice in one minute, whatever
      the offset. */
  lemma {:induction false} OncePerMinute(
      schedules: seq<Schedule>, offset: Int16, last: Word, ticks: seq<nat>, base: nat, i: nat, j: nat)
    requires InOrder(ticks)
    requires i < j < |Firings(schedules, offset, last, ticks, base)|
    requires var fs := Firings(schedules, offset, last, ticks, base); fs[i].entry == fs[j].entry
    ensures var fs := Firings(schedules, offset, last, ticks, base);
            MinuteAt(base, fs[i].t) < MinuteAt(base, fs[j].t)
  {
    if ticks != [] {
      var k := |ticks| - 1;
      var before := Firings(schedules, offset, last, ticks[..k], base);
      if j < |before| {
        OncePerMinute(schedules, offset, last, ticks[..k], base, i, j);
      } else {
        var l, t := LocalTime(RtcAt(base, ticks[k]), offset), ticks[k];
        var more := Matching(schedules, |schedules|, l, t);
        MatchingIsIndexed(schedules, |schedules|, l, t);
        assert more[j - |before|] in more && more[j - |before|].t == t;
        var fs := Firings(schedules, offset, last, ticks, base);
        assert fs == before + more;
        assert fs[j] == more[j - |before|];
        SameEntryIsEarlier(before, more, i, j);
        FiredAreChecked(schedules, offset, last, ticks[..k], base, before[i]);
        CheckIsLater(base, last, ticks, before[i].t);
      }
    }
  }
}
