/** A record's part of a run of the whole appliance - its visits, wakes, replies and edits -
    as one run of a slot, and so on a clock that never wraps. */
module TrueClock {
  import opened Words
  import opened Config
  import opened Monitoring
  import opened System
  import opened Campaign
  import opened SlotRuns
  import opened Clocks
  import Invariants

  /** What the add command makes of a known server's MAC and address. */
  function EditOf(s: Server, mac: MacScan, addr: Option<Word>): SlotOp
    requires mac.WellFormed()
  {
    Edited(mac.WriteTo(s.mac), if mac.Ok() && addr.Some? then addr.value else s.ip)
  }

  /** The step is about record `i`, and `part` is what it does to it. */
  predicate Concerns(part: SlotOp, st: State, op: Op, i: nat)
    requires i < |st.recs| && OpOk(op)
  {
    var s := st.recs[i].server;
    match op
    case Tick(j, _, _) => j == i && part.Visited? && BeatShows(part.beat, st, op)
    case Wake(j, radio) => j == i && part.Woken? && part.seqNo == st.seqNo && part.radio == radio
    case Reply(ip, seqNo) => FirstMatch(st.recs, ip, seqNo) == i && part == Answered
    case Add(name, mac, addr) => Find(st.recs, name) == i && part == EditOf(s, mac, addr)
    case SetIp(name, ip) => Find(st.recs, name) == i && part == Edited(s.mac, ip)
    case ClearIp(name) => Find(st.recs, name) == i && part == Cleared
    case _ => false
  }

  /** The run neither removes record `i` nor resets the table, and `parts` is what it does to the
      record, in order. */
  predicate Portrays(st: State, ops: seq<Op>, i: nat, parts: seq<SlotOp>)
    requires OpsOk(ops)
    decreases |ops|
  {
    if ops == [] then
      parts == []
    else
      var k := |ops| - 1;
      var mid, op, was := Run(st, ops[..k]), ops[k], Track(st, ops[..k], i);
      && was < |mid.recs|
      && if Apart(mid, op, was) && !IsVisit(op, was) then
           Portrays(st, ops[..k], i, parts)
         else
           && parts != [] && Concerns(parts[|parts| - 1], mid, op, was)
           && Portrays(st, ops[..k], i, parts[..|parts| - 1])
  }

  /** The record at `at` is the slot, its history the slot's log after `trace`. */
  predicate Holds(sl: Slot, trace: seq<Notice>, st: State, at: nat) {
    && at < |st.recs| && st.ready
    && st.recs[at].server == sl.server && st.recs[at].mon == sl.cell.mon
    && st.recs[at].aux.trace == trace + Notices(sl.cell.log)
  }

  /** What slot `i`'s code turns the cell into shows in the record, its log appended. */
  lemma SettleHolds(sl: Slot, trace: seq<Notice>, st: State, i: nat, out: Cell, sl': Slot)
    requires Holds(sl, trace, st, i)
    requires sl'.server == sl.server && sl'.cell.mon == out.mon && sl'.cell.log == sl.cell.log + out.log
    ensures Holds(sl', trace, Settle(st, i, out), i)
  {
    NoticesJoin(sl.cell.log, out.log);
    assert (trace + Notices(sl.cell.log)) + Notices(out.log) == trace + (Notices(sl.cell.log) + Notices(out.log));
  }

  lemma VisitHolds(sl: Slot, trace: seq<Notice>, st: State, op: Op, b: Beat)
    requires op.Tick? && Holds(sl, trace, st, op.i) && BeatShows(b, st, op)
    ensures Holds(VisitOn(false, sl, b), trace, Step(st, op), op.i)
  {
    var here, s := CellAt(st, op.i), sl.server;
    NarrowIsVisit(sl, b);
    TickFrame(here, s, st.ready, st.autowake, op.now, op.env, sl.cell.log);
    assert sl.cell.log + [] == sl.cell.log;
    assert sl.cell.(seqNo := b.seqNo) == here.(log := sl.cell.log);
    var out := TickBody(here, s, st.ready, st.autowake, op.now, op.env);
    SettleHolds(sl, trace, st, op.i, out, VisitOn(false, sl, b));
  }

  lemma WakeHolds(sl: Slot, trace: seq<Notice>, st: State, i: nat, at: nat, radio: Radio)
    requires Holds(sl, trace, st, i)
    ensures Holds(Play(false, sl, Woken(at, st.seqNo, radio)), trace, Step(st, Wake(i, radio)), i)
  {
    var here, s := CellAt(st, i), sl.server;
    WakeFrame(here, s, st.ready, radio, sl.cell.log);
    assert sl.cell.log + [] == sl.cell.log;
    assert sl.cell.(seqNo := st.seqNo) == here.(log := sl.cell.log);
    SettleHolds(sl, trace, st, i, WakeMonitored(here, s, st.ready, radio), Play(false, sl, Woken(at, st.seqNo, radio)));
  }

  lemma ReplyHolds(sl: Slot, trace: seq<Notice>, st: State, ip: Word, seqNo: Half)
    requires Holds(sl, trace, st, FirstMatch(st.recs, ip, seqNo))
    ensures Holds(Play(false, sl, Answered), trace, Step(st, Reply(ip, seqNo)), FirstMatch(st.recs, ip, seqNo))
  {
    var i := FirstMatch(st.recs, ip, seqNo);
    var here, s := CellAt(st, i), sl.server;
    AnswerFrame(here, s, sl.cell.log);
    assert sl.cell.log + [] == sl.cell.log;
    AnswerIgnoresCounter(sl.cell, s, st.seqNo);
    assert sl.cell.(seqNo := st.seqNo) == here.(log := sl.cell.log);
    SettleHolds(sl, trace, st, i, Answer(here, s), Play(false, sl, Answered));
  }

  lemma AnswerIgnoresCounter(c: Cell, s: Server, seqNo: Half)
    ensures Answer(c.(seqNo := seqNo), s) == Answer(c, s).(seqNo := seqNo)
  {
  }

  lemma EditHolds(sl: Slot, trace: seq<Notice>, st: State, op: Op, i: nat, part: SlotOp)
    requires OpOk(op) && (op.Add? || op.SetIp? || op.ClearIp?)
    requires Holds(sl, trace, st, i) && Concerns(part, st, op, i)
    ensures Holds(Play(false, sl, part), trace, Step(st, op), i)
  {
  }

  /** One step about the record is one event of the slot. */
  lemma PartHolds(sl: Slot, trace: seq<Notice>, st: State, op: Op, i: nat, part: SlotOp)
    requires OpOk(op) && Holds(sl, trace, st, i) && Concerns(part, st, op, i)
    ensures Holds(Play(false, sl, part), trace, Step(st, op), Moved(st, op, i))
  {
    match op
    case Tick(_, _, _) => VisitHolds(sl, trace, st, op, part.beat);
    case Wake(_, radio) => WakeHolds(sl, trace, st, i, part.at, radio);
    case Reply(ip, seqNo) => ReplyHolds(sl, trace, st, ip, seqNo);
    case _ => EditHolds(sl, trace, st, op, i, part);
  }

  /** In a run of the appliance, the record goes exactly through its part of it. */
  lemma {:induction false} RunHolds(
      sl: Slot, trace: seq<Notice>, st: State, ops: seq<Op>, i: nat, parts: seq<SlotOp>)
    requires OpsOk(ops) && Portrays(st, ops, i, parts) && Holds(sl, trace, st, i)
    ensures Holds(PlayAll(false, sl, parts), trace, Run(st, ops), Track(st, ops, i))
    decreases |ops|
  {
    if ops != [] {
      var k := |ops| - 1;
      var mid, op, was := Run(st, ops[..k]), ops[k], Track(st, ops[..k], i);
      if Apart(mid, op, was) && !IsVisit(op, was) {
        RunHolds(sl, trace, st, ops[..k], i, parts);
        ApartLeaves(mid, op, was);
      } else {
        var j := |parts| - 1;
        RunHolds(sl, trace, st, ops[..k], i, parts[..j]);
        PartHolds(PlayAll(false, sl, parts[..j]), trace, mid, op, was, parts[j]);
      }
    }
  }

  /** So, in a run of the whole appliance whose part for a record is timely, the record ends with
      the monitor and the history that a clock that never wraps would have given it, unless some
      visit tested a health stamp whose age is hidden. */
  lemma RecordOnTrueClock(
      sl: Slot, trace: seq<Notice>, st: State, ops: seq<Op>, i: nat, parts: seq<SlotOp>, gap: nat)
    requires OpsOk(ops) && Portrays(st, ops, i, parts) && Holds(sl, trace, st, i)
    requires Tied(sl) && AllTimely(sl, parts, gap) && gap + WOL_PING_INTERVAL_MS < WRAP
    requires AllClear(sl, parts, |parts|)
    ensures Holds(PlayAll(true, sl, parts), trace, Run(st, ops), Track(st, ops, i))
  {
    RunHolds(sl, trace, st, ops, i, parts);
    WrappingClockRefines(sl, parts, gap);
  }

  /** A record as the table first holds it, at any time `tick`, is such a slot. */
  lemma NewRecordIsSlot(st: State, i: nat, tick: nat)
    requires i < |st.recs| && st.ready && st.recs[i].server.active
    requires st.recs[i].mon == ZERO_MONITOR && st.recs[i].aux == NEW_AUX
    ensures var sl := Slot(st.recs[i].server, Cell(ZERO_MONITOR, st.seqNo, []), 0, 0, tick);
            Holds(sl, [], st, i) && Tied(sl)
  {
  }
}
