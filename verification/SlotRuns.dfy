/** One record seen through a run of the whole appliance: whatever happens to the
    other servers and however the table shifts, it only sees its own visits. */
module SlotRuns {
  import opened Words
  import opened Config
  import opened Monitoring
  import opened System
  import opened Campaign
  import Detection
  import Invariants

  /** Steps that are not about record `i`: anything but a wake of it, a reply to it, an
      edit of it or a factory reset. */
  predicate Apart(st: State, op: Op, i: nat)
    requires i < |st.recs|
  {
    match op
    case Tick(_, _, _) => true
    case Wake(j, _) => j != i
    case Reply(ip, seqNo) => FirstMatch(st.recs, ip, seqNo) != i
    case Add(name, _, _) => Find(st.recs, name) != i
    case Remove(name) => Find(st.recs, name) != i
    case SetIp(name, _) => Find(st.recs, name) != i
    case ClearIp(name) => Find(st.recs, name) != i
    case SetAutowake(_) => true
    case AddSchedule(_) => true
    case RemoveSchedule(_) => true
    case SetOffset(_) => true
    case _ => false
  }

  /** Where record `i` is after the step. */
  function Moved(st: State, op: Op, i: nat): nat {
    if op.Remove? && Find(st.recs, op.name) < i then i - 1 else i
  }

  /** Where a run leaves the record that started at `i`. */
  function Track(st: State, ops: seq<Op>, i: nat): nat
    requires OpsOk(ops)
  {
    if ops == [] then i else Moved(Run(st, ops[..|ops| - 1]), ops[|ops| - 1], Track(st, ops[..|ops| - 1], i))
  }

  /** A step visits the record at `i`. */
  predicate IsVisit(op: Op, i: nat) {
    op.Tick? && op.i == i
  }

  predicate BeatShows(b: Beat, st: State, op: Op)
    requires op.Tick?
  {
    b.seqNo == st.seqNo && b.autowake == st.autowake && ClockAt(b.t) == op.now && b.env == op.env
  }

  /** The run stays apart from record `i`, and `beats` are the visits it pays to it. */
  predicate Describes(st: State, ops: seq<Op>, i: nat, beats: seq<Beat>)
    requires OpsOk(ops)
    decreases |ops|
  {
    if ops == [] then
      beats == []
    else
      var k := |ops| - 1;
      var mid, op, was := Run(st, ops[..k]), ops[k], Track(st, ops[..k], i);
      && was < |mid.recs| && Apart(mid, op, was)
      && if IsVisit(op, was) then
           beats != [] && BeatShows(beats[|beats| - 1], mid, op) && Describes(st, ops[..k], i, beats[..|beats| - 1])
         else
           Describes(st, ops[..k], i, beats)
  }

  /** One step apart from a record, its own visit excepted, leaves it as it was. */
  lemma ApartLeaves(st: State, op: Op, i: nat)
    requires OpOk(op) && i < |st.recs| && Apart(st, op, i) && !IsVisit(op, i)
    ensures var st' := Step(st, op);
            && Moved(st, op, i) < |st'.recs| && st'.recs[Moved(st, op, i)] == st.recs[i]
            && st'.ready == st.ready
  {
  }

  lemma VisitShows(st: State, op: Op, b: Beat, c: Cell)
    requires op.Tick? && op.i < |st.recs|
    requires c.mon == st.recs[op.i].mon
    requires BeatShows(b, st, op)
    ensures var r, r' := st.recs[op.i], Step(st, op).recs[op.i];
            var d := Visit(c, r.server, st.ready, b);
            && r'.server == r.server && r'.mon == d.mon
            && |c.log| <= |d.log| && d.log[..|c.log|] == c.log
            && r'.aux.trace == r.aux.trace + Notices(d.log[|c.log|..])
  {
    var here := CellAt(st, op.i);
    var s := st.recs[op.i].server;
    TickFrame(here, s, st.ready, st.autowake, op.now, op.env, c.log);
    assert c.log + [] == c.log;
    var out := TickBody(here, s, st.ready, st.autowake, op.now, op.env);
    assert (c.log + out.log)[|c.log|..] == out.log;
  }

  lemma NoticesJoin(a: seq<Event>, b: seq<Event>)
    ensures Notices(a + b) == Notices(a) + Notices(b)
  {
  }

  /** What a record shows of the visits it went through. */
  predicate Shows(st: State, i: nat, c: Cell, end: State, at: nat)
    requires i < |st.recs|
  {
    && at < |end.recs| && end.ready == st.ready
    && end.recs[at].server == st.recs[i].server
    && end.recs[at].mon == c.mon
    && end.recs[at].aux.trace == st.recs[i].aux.trace + Notices(c.log)
  }

  lemma ShowsVisit(st: State, i: nat, c: Cell, mid: State, op: Op, b: Beat)
    requires i < |st.recs| && op.Tick? && Shows(st, i, c, mid, op.i) && BeatShows(b, mid, op)
    ensures Shows(st, i, Visit(c, st.recs[i].server, st.ready, b), Step(mid, op), op.i)
  {
    VisitShows(mid, op, b, c);
    var d := Visit(c, st.recs[i].server, st.ready, b);
    TraceGrows(st.recs[i].aux.trace, c.log, d.log);
  }

  lemma TraceGrows(trace: seq<Notice>, a: seq<Event>, b: seq<Event>)
    requires |a| <= |b| && b[..|a|] == a
    ensures trace + Notices(a) + Notices(b[|a|..]) == trace + Notices(b)
  {
    var rest := b[|a|..];
    NoticesJoin(a, rest);
    assert a + rest == b;
    assert trace + Notices(a) + Notices(rest) == trace + (Notices(a) + Notices(rest));
  }

  /** In a run of the appliance, the record goes exactly through its visits, and its
      history grows by exactly what they log. */
  lemma {:induction false} RunShowsVisits(st: State, ops: seq<Op>, i: nat, beats: seq<Beat>, seqNo: Half)
    requires OpsOk(ops) && i < |st.recs| && Describes(st, ops, i, beats)
    ensures Shows(st, i, Visits(Cell(st.recs[i].mon, seqNo, []), st.recs[i].server, st.ready, beats),
                  Run(st, ops), Track(st, ops, i))
    decreases |ops|
  {
    if ops == [] {
      assert st.recs[i].aux.trace + Notices([]) == st.recs[i].aux.trace;
    } else {
      var k := |ops| - 1;
      var mid, op, was := Run(st, ops[..k]), ops[k], Track(st, ops[..k], i);
      if IsVisit(op, was) {
        var j := |beats| - 1;
        RunShowsVisits(st, ops[..k], i, beats[..j], seqNo);
        var c := Visits(Cell(st.recs[i].mon, seqNo, []), st.recs[i].server, st.ready, beats[..j]);
        ShowsVisit(st, i, c, mid, op, beats[j]);
      } else {
        RunShowsVisits(st, ops[..k], i, beats, seqNo);
        ApartLeaves(mid, op, was);
      }
    }
  }

  lemma {:induction false} VisitsFrame(c: Cell, s: Server, ready: bool, beats: seq<Beat>, log: seq<Event>)
    ensures var here := Visits(c, s, ready, beats);
            Visits(c.(log := log + c.log), s, ready, beats) == here.(log := log + here.log)
  {
    if beats != [] {
      var k := |beats| - 1;
      VisitsFrame(c, s, ready, beats[..k], log);
      var b := beats[k];
      TickFrame(Visits(c, s, ready, beats[..k]).(seqNo := b.seqNo), s, ready, b.autowake, ClockAt(b.t), b.env, log);
    }
  }

  lemma VisitsContinue(c: Cell, s: Server, ready: bool, beats: seq<Beat>, trace: seq<Notice>)
    ensures var d, e := Visits(c, s, ready, beats), Visits(Cell(c.mon, c.seqNo, []), s, ready, beats);
            && d.mon == e.mon
            && (trace + Notices(c.log)) + Notices(e.log) == trace + Notices(d.log)
  {
    var e := Cell(c.mon, c.seqNo, []);
    assert e.(log := c.log + e.log) == c;
    VisitsFrame(e, s, ready, beats, c.log);
    var out := Visits(e, s, ready, beats).log;
    NoticesJoin(c.log, out);
    assert (trace + Notices(c.log)) + Notices(out) == trace + (Notices(c.log) + Notices(out));
  }

  /** The same, counted from a cell whose log the history already holds. */
  lemma {:induction false} RunContinues(st: State, i: nat, c: Cell, trace: seq<Notice>, ops: seq<Op>, beats: seq<Beat>)
    requires i < |st.recs| && OpsOk(ops) && Describes(st, ops, i, beats)
    requires st.recs[i].mon == c.mon && st.recs[i].aux.trace == trace + Notices(c.log)
    ensures var end, at := Run(st, ops), Track(st, ops, i);
            var d := Visits(c, st.recs[i].server, st.ready, beats);
            && at < |end.recs| && end.recs[at].server == st.recs[i].server && end.recs[at].mon == d.mon
            && end.recs[at].aux.trace == trace + Notices(d.log)
  {
    RunShowsVisits(st, ops, i, beats, c.seqNo);
    VisitsContinue(c, st.recs[i].server, st.ready, beats, trace);
  }

  lemma WakeShows(st: State, i: nat, radio: Radio)
    requires i < |st.recs|
    ensures var r, st' := st.recs[i], Step(st, Wake(i, radio));
            var c := Started(r.mon, r.server, st.seqNo, st.ready, radio);
            && |st'.recs| == |st.recs| && st'.ready == st.ready
            && st'.recs[i].server == r.server && st'.recs[i].mon == c.mon
            && st'.recs[i].aux.trace == r.aux.trace + Notices(c.log)
  {
  }

  /** A wake in the middle of a run of the whole appliance, the run then staying apart from
      the record: once its campaign is over, the server is down and its history has grown
      by exactly 5 magic packets and 30 pings. */
  lemma {:induction false} CampaignInRun(st: State, i: nat, radio: Radio, ops: seq<Op>, beats: seq<Beat>)
    requires i < |st.recs| && st.recs[i].server.active && st.recs[i].server.ip != 0 && OpsOk(ops)
    requires Describes(Step(st, Wake(i, radio)), ops, i, beats)
    requires OnThroughout(Started(st.recs[i].mon, st.recs[i].server, st.seqNo, st.ready, radio),
                          st.recs[i].server, st.ready, beats)
    ensures var r, st1 := st.recs[i], Step(st, Wake(i, radio));
            var end, at := Run(st1, ops), Track(st1, ops, i);
            var c := Visits(Started(r.mon, r.server, st.seqNo, st.ready, radio), r.server, st.ready, beats);
            && at < |end.recs| && end.recs[at].server == r.server && end.recs[at].mon == c.mon && !c.mon.up
            && end.recs[at].aux.trace == r.aux.trace + Notices(c.log)
            && (!c.mon.wolActive ==> Magics(c.log) == 5 && Pings(c.log) == 30)
  {
    var r := st.recs[i];
    WakeShows(st, i, radio);
    var c := Started(r.mon, r.server, st.seqNo, st.ready, radio);
    RunContinues(Step(st, Wake(i, radio)), i, c, r.aux.trace, ops, beats);
    CampaignIsExact(r.mon, r.server, st.seqNo, st.ready, radio, beats);
  }

  // --- The time bounds, in runs of the whole appliance ---

  /** The visits described by a run are described in order by its prefixes. */
  lemma {:induction false} PrefixDescribes(st: State, ops: seq<Op>, i: nat, beats: seq<Beat>, k: nat)
    returns (n: nat)
    requires OpsOk(ops) && Describes(st, ops, i, beats) && k <= |beats|
    ensures n <= |ops| && Describes(st, ops[..n], i, beats[..k])
    decreases |ops|
  {
    n := |ops|;
    if k == |beats| {
      assert ops[..n] == ops && beats[..k] == beats;
    } else {
      var j := |ops| - 1;
      var init := if IsVisit(ops[j], Track(st, ops[..j], i)) then beats[..|beats| - 1] else beats;
      n := PrefixDescribes(st, ops[..j], i, init, k);
      assert ops[..j][..n] == ops[..n] && init[..k] == beats[..k];
    }
  }

  /** A wake in the middle of a run that stays apart from the record and visits it for long
      enough: at some point of the run, within the time bounds of `CampaignGivesUp`, the
      campaign is over, having sent exactly 5 magic packets and 30 pings. */
  lemma {:induction false} CampaignEndsInRun(
      st: State, i: nat, radio: Radio, ops: seq<Op>, beats: seq<Beat>, start: nat, gap: nat, lag: nat)
    returns (n: nat, k: nat)
    requires i < |st.recs| && st.recs[i].server.active && st.recs[i].server.ip != 0 && st.ready && OpsOk(ops)
    requires Describes(Step(st, Wake(i, radio)), ops, i, beats)
    requires radio.buffer && radio.clock == ClockAt(start) && gap + WOL_PING_INTERVAL_MS < WRAP
    requires Paced(beats, start, gap, lag)
    requires Before(beats, start) >= start + 29 * MaxStep(gap, lag) + WOL_PING_INTERVAL_MS
    ensures n <= |ops| && k < |beats| && Describes(Step(st, Wake(i, radio)), ops[..n], i, beats[..k + 1])
    ensures start + 30 * WOL_PING_INTERVAL_MS <= beats[k].t <= start + MaxLength(gap, lag)
    ensures var r, st1 := st.recs[i], Step(st, Wake(i, radio));
            var end, at := Run(st1, ops[..n]), Track(st1, ops[..n], i);
            var c := Visits(Started(r.mon, r.server, st.seqNo, st.ready, radio), r.server, st.ready, beats[..k + 1]);
            && at < |end.recs| && end.recs[at].server == r.server
            && !end.recs[at].mon.wolActive && !end.recs[at].mon.up
            && end.recs[at].aux.trace == r.aux.trace + Notices(c.log) && Magics(c.log) == 5 && Pings(c.log) == 30
  {
    var r := st.recs[i];
    k := CampaignGivesUp(r.mon, r.server, st.seqNo, radio, beats, start, gap, lag);
    n := PrefixDescribes(Step(st, Wake(i, radio)), ops, i, beats, k + 1);
    CampaignInRun(st, i, radio, ops[..n], beats[..k + 1]);
  }

  /** An up server that stops answering at time `t` in the middle of a run that stays apart
      from it: at some point of the run, no later than 303 s + 2 * gap + lag after `t`, its
      record is down, as that visit marked it. */
  lemma {:induction false} DetectedInRun(
      st: State, i: nat, ops: seq<Op>, beats: seq<Beat>, t: nat, checked: int, sent: int, gap: nat, lag: nat)
    returns (n: nat, k: nat)
    requires i < |st.recs| && st.recs[i].server.active && st.recs[i].server.ip != 0 && st.ready && OpsOk(ops)
    requires Describes(st, ops, i, beats) && gap + HEALTH_INTERVAL_MS < WRAP
    requires var m := st.recs[i].mon;
             && Invariants.MonOk(m) && m.up
             && if m.pingPending then Detection.Recent(m.lastPing, sent, t, gap)
                else Detection.Recent(m.lastHealth, checked, t, gap)
    requires Paced(beats, t, gap, lag) && Detection.LongEnough(beats, t, gap, lag)
    ensures n <= |ops| && k < |beats| && Describes(st, ops[..n], i, beats[..k + 1])
    ensures beats[k].t <= Detection.Deadline(t, gap, lag)
    ensures var r, end, at := st.recs[i], Run(st, ops[..n]), Track(st, ops[..n], i);
            var c := Cell(r.mon, st.seqNo, []);
            var before, after := Visits(c, r.server, true, beats[..k]), Visits(c, r.server, true, beats[..k + 1]);
            && at < |end.recs| && end.recs[at].server == r.server && end.recs[at].mon == after.mon && !after.mon.up
            && Detection.MarkedDown(before, after, r.server, beats[k])
            && end.recs[at].aux.trace == r.aux.trace + Notices(after.log)
  {
    var r := st.recs[i];
    k := Detection.Detected(Cell(r.mon, st.seqNo, []), r.server, beats, t, checked, sent, gap, lag);
    n := PrefixDescribes(st, ops, i, beats, k + 1);
    RunShowsVisits(st, ops[..n], i, beats[..k + 1], st.seqNo);
  }

  /** The same for an up server with no ping out, whatever age its health stamp has, one gap later. */
  lemma {:induction false} DetectedWhateverStampInRun(
      st: State, i: nat, ops: seq<Op>, beats: seq<Beat>, t: nat, gap: nat, lag: nat)
    returns (n: nat, k: nat)
    requires i < |st.recs| && st.recs[i].server.active && st.recs[i].server.ip != 0 && st.ready && OpsOk(ops)
    requires Describes(st, ops, i, beats) && gap + HEALTH_INTERVAL_MS < WRAP
    requires var m := st.recs[i].mon; Invariants.MonOk(m) && m.up && !m.pingPending
    requires Paced(beats, t, gap, lag) && Detection.LongEnough(beats, t + gap, gap, lag)
    ensures n <= |ops| && k < |beats| && Describes(st, ops[..n], i, beats[..k + 1])
    ensures beats[k].t <= Detection.Deadline(t, gap, lag) + gap
    ensures var r, end, at := st.recs[i], Run(st, ops[..n]), Track(st, ops[..n], i);
            var c := Cell(r.mon, st.seqNo, []);
            var before, after := Visits(c, r.server, true, beats[..k]), Visits(c, r.server, true, beats[..k + 1]);
            && at < |end.recs| && end.recs[at].server == r.server && end.recs[at].mon == after.mon && !after.mon.up
            && Detection.MarkedDown(before, after, r.server, beats[k])
            && end.recs[at].aux.trace == r.aux.trace + Notices(after.log)
  {
    var r := st.recs[i];
    k := Detection.DetectedWhateverStamp(Cell(r.mon, st.seqNo, []), r.server, beats, t, gap, lag);
    n := PrefixDescribes(st, ops, i, beats, k + 1);
    RunShowsVisits(st, ops[..n], i, beats[..k + 1], st.seqNo);
  }
}
