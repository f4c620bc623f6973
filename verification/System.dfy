/** The appliance as one state machine: an ordered list of (server, monitor)
    records, the schedule table and the shared ping counter, with every
    operation of the firmware's front ends and callbacks as one atomic step. */
module System {
  import opened Words
  import opened CStrings
  import opened Config
  import opened Monitoring

  /** Bookkeeping the firmware does not hold: what has happened to a record since
      it was added, and the running number of the last ping sent for it. */
  datatype Aux = Aux(trace: seq<Notice>, sendNo: nat)

  datatype Rec = Rec(server: Server, mon: Monitor, aux: Aux)

  /** `sends` is the ping counter without its 16-bit wrap. */
  datatype State = State(
    recs: seq<Rec>, schedules: seq<Schedule>, seqNo: Half, sends: nat,
    ready: bool, autowake: bool, offset: Int16, log: seq<Event>)

  const NEW_AUX := Aux([], 0)

  /** What `config_load_defaults` builds. */
  datatype Defaults = Defaults(servers: seq<Server>, autowake: bool, offset: Int16)

  datatype Op =
    | Tick(i: nat, now: Word, env: TickEnv)
    | Reply(ip: Word, seqNo: Half)
    | Wake(i: nat, radio: Radio)
    | Add(name: string, mac: MacScan, addr: Option<Word>)
    | Remove(name: string)
    | SetIp(name: string, ip: Word)
    | ClearIp(name: string)
    | SetAutowake(on: bool)
    | AddSchedule(entry: Schedule)
    | RemoveSchedule(idx: int)
    | SetOffset(offset: Int16)
    | Factory(defaults: Defaults)

  // --- One slot ---

  /** Numbering of the counter values a run of notices consumed: the new total and
      the number of the last ping sent. */
  function Numbered(events: seq<Event>, sends: nat, last: nat): (nat, nat) {
    if events == [] then
      (sends, last)
    else
      match events[0].what
      case Ping(Sent) => Numbered(events[1..], sends + 1, sends + 1)
      case Ping(NoBuffer) => Numbered(events[1..], sends + 1, last)
      case _ => Numbered(events[1..], sends, last)
  }

  function Notices(events: seq<Event>): (ns: seq<Notice>)
    ensures |ns| == |events|
  {
    seq(|events|, i requires 0 <= i < |events| => events[i].what)
  }

  function CellAt(st: State, i: nat): Cell
    requires i < |st.recs|
  {
    Cell(st.recs[i].mon, st.seqNo, [])
  }

  /** The state after slot `i`'s code turned `CellAt(st, i)` into `c`. */
  function Settle(st: State, i: nat, c: Cell): State
    requires i < |st.recs|
  {
    var r := st.recs[i];
    var (sends, last) := Numbered(c.log, st.sends, r.aux.sendNo);
    var r' := Rec(r.server, c.mon, Aux(r.aux.trace + Notices(c.log), last));
    st.(recs := st.recs[i := r'], seqNo := c.seqNo, sends := sends, log := st.log + c.log)
  }

  function TickAt(st: State, i: nat, now: Word, env: TickEnv): (r: State)
    ensures |r.recs| == |st.recs|
  {
    if i < |st.recs| then
      Settle(st, i, TickBody(CellAt(st, i), st.recs[i].server, st.ready, st.autowake, now, env))
    else
      st
  }

  function WakeAt(st: State, i: nat, radio: Radio): (r: State)
    ensures |r.recs| == |st.recs|
  {
    if i < |st.recs| then
      Settle(st, i, WakeMonitored(CellAt(st, i), st.recs[i].server, st.ready, radio))
    else
      st
  }

  // --- Loops over the table ---

  /** The first `n` bodies of `monitor_tick`. */
  function TickUpTo(st: State, n: nat, now: Word, env: nat -> TickEnv): (r: State)
    ensures |r.recs| == |st.recs|
  {
    if n == 0 then st else TickAt(TickUpTo(st, n - 1, now, env), n - 1, now, env(n - 1))
  }

  function WakeIfActive(st: State, i: nat, radio: Radio): (r: State)
    requires i < |st.recs|
    ensures |r.recs| == |st.recs|
  {
    if st.recs[i].server.active then WakeAt(st, i, radio) else st
  }

  /** The first `n` bodies of `wake_all`. */
  function WakeUpTo(st: State, n: nat, env: nat -> Radio): (r: State)
    requires n <= |st.recs|
    ensures |r.recs| == |st.recs|
  {
    if n == 0 then
      st
    else
      WakeIfActive(WakeUpTo(st, n - 1, env), n - 1, env(n - 1))
  }

  /** The first record at or after `from` whose pending ping the reply answers. */
  function FirstMatch(recs: seq<Rec>, ip: Word, seqNo: Half, from: nat := 0): (i: nat)
    requires from <= |recs|
    ensures from <= i <= |recs|
    ensures i < |recs| ==> Matches(recs[i].server, recs[i].mon, ip, seqNo)
    ensures forall j :: from <= j < i ==> !Matches(recs[j].server, recs[j].mon, ip, seqNo)
    decreases |recs| - from
  {
    if from == |recs| || Matches(recs[from].server, recs[from].mon, ip, seqNo) then
      from
    else
      FirstMatch(recs, ip, seqNo, from + 1)
  }

  function ReplyTo(st: State, ip: Word, seqNo: Half): State {
    var i := FirstMatch(st.recs, ip, seqNo);
    if i < |st.recs| then Settle(st, i, Answer(CellAt(st, i), st.recs[i].server)) else st
  }

  // --- The tables ---

  /** The first active record at or after `from` with the given name. */
  function Find(recs: seq<Rec>, name: string, from: nat := 0): (i: nat)
    requires from <= |recs|
    ensures from <= i <= |recs|
    ensures i < |recs| ==> Named(recs[i].server, name)
    ensures forall j :: from <= j < i ==> !Named(recs[j].server, name)
    decreases |recs| - from
  {
    if from == |recs| || Named(recs[from].server, name) then from else Find(recs, name, from + 1)
  }

  function Without<T>(s: seq<T>, i: nat): seq<T>
    requires i < |s|
  {
    s[..i] + s[i + 1..]
  }

  /** Where the record at `i` is after the removal of the one at `b`. */
  function IndexAfterRemoval(i: nat, b: nat): nat
    requires i != b
  {
    if i < b then i else i - 1
  }

  function NewRec(name: string, mac: Mac, ip: Word): Rec {
    Rec(Server(NameBuffer(name), mac, true, ip), ZERO_MONITOR, NEW_AUX)
  }

  /** Adding updates a known name in place, even when the new MAC is rejected half way. */
  function Added(st: State, name: string, mac: MacScan, addr: Option<Word>): State
    requires mac.WellFormed()
  {
    var i := Find(st.recs, name);
    if i < |st.recs| then
      var s := st.recs[i].server;
      var s1 := s.(mac := mac.WriteTo(s.mac));
      var s2 := if mac.Ok() && addr.Some? then s1.(ip := addr.value) else s1;
      st.(recs := st.recs[i := st.recs[i].(server := s2)])
    else if |st.recs| >= MAX_SERVERS || !mac.Ok() then
      st
    else
      st.(recs := st.recs + [NewRec(name, mac.mac, if addr.Some? then addr.value else 0)])
  }

  function Removed(st: State, name: string): State {
    var i := Find(st.recs, name);
    if i < |st.recs| then st.(recs := Without(st.recs, i)) else st
  }

  function Readdressed(st: State, name: string, ip: Word): State {
    var i := Find(st.recs, name);
    if i < |st.recs| then
      st.(recs := st.recs[i := st.recs[i].(server := st.recs[i].server.(ip := ip))])
    else
      st
  }

  /** Clearing an address forgets the monitor too, but not the record's history. */
  function Unaddressed(st: State, name: string): State {
    var i := Find(st.recs, name);
    if i < |st.recs| then
      var r := st.recs[i];
      st.(recs := st.recs[i := r.(server := r.server.(ip := 0), mon := ZERO_MONITOR)])
    else
      st
  }

  function FreshRecs(servers: seq<Server>): (recs: seq<Rec>)
    ensures |recs| == |servers|
  {
    seq(|servers|, i requires 0 <= i < |servers| => Rec(servers[i], ZERO_MONITOR, NEW_AUX))
  }

  function Reset(st: State, d: Defaults): State {
    st.(recs := FreshRecs(d.servers), schedules := [], autowake := d.autowake, offset := d.offset)
  }

  // --- Runs ---

  predicate OpOk(op: Op) {
    match op
    case Add(name, mac, _) => NulFree(name) && mac.WellFormed()
    case Factory(d) => DefaultsOk(d)
    case _ => true
  }

  predicate DefaultsOk(d: Defaults) {
    && |d.servers| <= MAX_SERVERS
    && (forall i :: 0 <= i < |d.servers| ==> d.servers[i].active && d.servers[i].name[NAME_LEN - 1] == NUL)
    && (forall i, j :: 0 <= i < j < |d.servers| ==> NameOf(d.servers[i]) != NameOf(d.servers[j]))
  }

  function Step(st: State, op: Op): State
    requires OpOk(op)
  {
    match op
    case Tick(i, now, env) => TickAt(st, i, now, env)
    case Reply(ip, seqNo) => ReplyTo(st, ip, seqNo)
    case Wake(i, radio) => WakeAt(st, i, radio)
    case Add(name, mac, addr) => Added(st, name, mac, addr)
    case Remove(name) => Removed(st, name)
    case SetIp(name, ip) => Readdressed(st, name, ip)
    case ClearIp(name) => Unaddressed(st, name)
    case SetAutowake(on) => st.(autowake := on)
    case AddSchedule(e) => if |st.schedules| < MAX_SCHEDULES then st.(schedules := st.schedules + [e]) else st
    case RemoveSchedule(k) => if 0 <= k < |st.schedules| then st.(schedules := Without(st.schedules, k)) else st
    case SetOffset(o) => st.(offset := o)
    case Factory(d) => Reset(st, d)
  }

  predicate OpsOk(ops: seq<Op>) {
    forall k :: 0 <= k < |ops| ==> OpOk(ops[k])
  }

  function Run(st: State, ops: seq<Op>): State
    requires OpsOk(ops)
  {
    if ops == [] then st else Step(Run(st, ops[..|ops| - 1]), ops[|ops| - 1])
  }
}
