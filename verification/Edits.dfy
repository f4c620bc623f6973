/** What each edit of the tables does, on the fields of the records and entries. */
module Edits {
  import opened Words
  import opened CStrings
  import opened Config
  import opened System
  import opened Invariants

  /** Everything but the records is as before. */
  predicate OnlyRecs(was: State, now: State) {
    && now.schedules == was.schedules && now.seqNo == was.seqNo && now.sends == was.sends && now.ready == was.ready
    && now.autowake == was.autowake && now.offset == was.offset && now.log == was.log
  }

  predicate Knows(st: State, name: string) {
    exists i :: 0 <= i < |st.recs| && st.recs[i].server.active && NameOf(st.recs[i].server) == name
  }

  /** The first active record of the name. */
  predicate IsFirst(st: State, i: nat, name: string) {
    && i < |st.recs| && st.recs[i].server.active && NameOf(st.recs[i].server) == name
    && forall j :: 0 <= j < i ==> !(st.recs[j].server.active && NameOf(st.recs[j].server) == name)
  }

  lemma FindIs(st: State, name: string)
    ensures Knows(st, name) <==> Find(st.recs, name) < |st.recs|
    ensures Knows(st, name) ==> IsFirst(st, Find(st.recs, name), name)
    ensures forall i: nat :: IsFirst(st, i, name) ==> i == Find(st.recs, name)
  {
    var m := Find(st.recs, name);
    forall j | 0 <= j < m ensures !(st.recs[j].server.active && NameOf(st.recs[j].server) == name) {
      assert !Named(st.recs[j].server, name);
    }
    forall i: nat | IsFirst(st, i, name) ensures i == m {
      assert Named(st.recs[i].server, name);
    }
  }

  /** One last record more: active, with this name, MAC and address, knowing and recalling nothing. */
  predicate Appended(was: State, now: State, name: string, mac: Mac, ip: Word) {
    && OnlyRecs(was, now)
    && |now.recs| == |was.recs| + 1 && now.recs[..|was.recs|] == was.recs
    && var r := now.recs[|was.recs|];
    && r.server.active && NameOf(r.server) == name && r.server.mac == mac && r.server.ip == ip
    && !r.mon.up && !r.mon.wolActive && !r.mon.pingPending && r.mon.wolCount == r.mon.pingCount == 0
    && r.mon.lastPing == r.mon.lastHealth == 0 && r.mon.pingSeq == 0
    && r.aux.trace == []
  }

  /** The record at `i` has this MAC and address; its name, activity, monitor and history, and every
      other record, are as before. */
  predicate Edited(was: State, now: State, i: nat, mac: Mac, ip: Word)
    requires i < |was.recs|
  {
    && OnlyRecs(was, now)
    && |now.recs| == |was.recs|
    && (forall j :: 0 <= j < |was.recs| && j != i ==> now.recs[j] == was.recs[j])
    && now.recs[i].server.name == was.recs[i].server.name && now.recs[i].server.active == was.recs[i].server.active
    && now.recs[i].server.mac == mac && now.recs[i].server.ip == ip
    && now.recs[i].mon == was.recs[i].mon && now.recs[i].aux == was.recs[i].aux
  }

  /** A new name with an accepted MAC and room for it is appended with its address, or none. */
  lemma AddsNew(st: State, name: string, mac: Mac, addr: Option<Word>)
    requires NulFree(name) && |name| < NAME_LEN && !Knows(st, name) && |st.recs| < MAX_SERVERS
    ensures Appended(st, Added(st, name, Octets(mac), addr), name, mac, if addr.Some? then addr.value else 0)
  {
    FindIs(st, name);
    StoredNameFits(name);
    assert name[..|name|] == name;
  }

  /** A known name gets the scanned octets, and the address if the MAC is accepted and one is given. */
  lemma AddsKnown(st: State, name: string, mac: MacScan, addr: Option<Word>, i: nat)
    requires IsFirst(st, i, name) && mac.WellFormed()
    ensures var s := st.recs[i].server;
            Edited(st, Added(st, name, mac, addr), i,
                   match mac case NoMatch => s.mac case TooLarge(p) => p + s.mac[|p|..] case Octets(m) => m,
                   if mac.Octets? && addr.Some? then addr.value else s.ip)
  {
    FindIs(st, name);
  }

  /** A new name is refused if the table is full or the MAC not accepted. */
  lemma AddRefuses(st: State, name: string, mac: MacScan, addr: Option<Word>)
    requires mac.WellFormed() && !Knows(st, name) && (|st.recs| >= MAX_SERVERS || !mac.Octets?)
    ensures Added(st, name, mac, addr) == st
  {
    FindIs(st, name);
  }

  /** The record at `i` is gone, those after it one place lower. */
  predicate Removes(was: State, now: State, i: nat) {
    && OnlyRecs(was, now) && i < |was.recs| && |now.recs| == |was.recs| - 1
    && forall j :: 0 <= j < |now.recs| ==> now.recs[j] == was.recs[if j < i then j else j + 1]
  }

  lemma RemoveEffect(st: State, name: string)
    ensures !Knows(st, name) ==> Removed(st, name) == st
    ensures forall i: nat :: IsFirst(st, i, name) ==> Removes(st, Removed(st, name), i)
  {
    FindIs(st, name);
  }

  lemma SetIpEffect(st: State, name: string, ip: Word)
    ensures !Knows(st, name) ==> Readdressed(st, name, ip) == st
    ensures forall i: nat :: IsFirst(st, i, name) ==>
              Edited(st, Readdressed(st, name, ip), i, st.recs[i].server.mac, ip)
  {
    FindIs(st, name);
  }

  /** The record at `i` has no address and its monitor is cleared; its name, MAC, activity and
      history, and every other record, are as before. */
  predicate Forgets(was: State, now: State, i: nat)
    requires i < |was.recs|
  {
    && OnlyRecs(was, now)
    && |now.recs| == |was.recs|
    && (forall j :: 0 <= j < |was.recs| && j != i ==> now.recs[j] == was.recs[j])
    && now.recs[i].server.name == was.recs[i].server.name && now.recs[i].server.active == was.recs[i].server.active
    && now.recs[i].server.mac == was.recs[i].server.mac && now.recs[i].server.ip == 0
    && now.recs[i].mon == Monitor(false, false, 0, 0, false, 0, 0, 0)
    && now.recs[i].aux == was.recs[i].aux
  }

  lemma ClearIpEffect(st: State, name: string)
    ensures !Knows(st, name) ==> Unaddressed(st, name) == st
    ensures forall i: nat :: IsFirst(st, i, name) ==> Forgets(st, Unaddressed(st, name), i)
  {
    FindIs(st, name);
  }

  // --- The timetable ---

  predicate OnlySchedules(was: State, now: State) {
    && now.recs == was.recs && now.seqNo == was.seqNo && now.sends == was.sends && now.ready == was.ready
    && now.autowake == was.autowake && now.offset == was.offset && now.log == was.log
  }

  /** One last entry more, with these days and time, for every server or for the one named. */
  predicate Scheduled(was: State, now: State, mask: bv8, hour: int, minute: int, target: string) {
    && OnlySchedules(was, now)
    && |now.schedules| == |was.schedules| + 1 && now.schedules[..|was.schedules|] == was.schedules
    && var e := now.schedules[|was.schedules|];
    && e.dayMask == mask && e.hour == hour && e.minute == minute
    && (target == "all" ==> e.target < 0)
    && (target != "all" ==> e.target >= 0 && IsFirst(was, e.target, target))
  }

  /** The entry at `k` is gone, those after it one place lower. */
  predicate Unscheduled(was: State, now: State, k: nat) {
    && OnlySchedules(was, now) && k < |was.schedules| && |now.schedules| == |was.schedules| - 1
    && forall j :: 0 <= j < |now.schedules| ==> now.schedules[j] == was.schedules[if j < k then j else j + 1]
  }

  lemma UnscheduleEffect(st: State, k: int)
    ensures if 0 <= k < |st.schedules| then Unscheduled(st, Step(st, RemoveSchedule(k)), k)
            else Step(st, RemoveSchedule(k)) == st
  {
  }

  /** The appliance as after power-on with these servers and settings, but for the ping counter, the
      socket and what has been reported. */
  predicate ResetTo(was: State, now: State, servers: seq<Server>, autowake: bool, offset: Int16) {
    && |now.recs| == |servers| && now.schedules == [] && now.autowake == autowake && now.offset == offset
    && (forall i :: 0 <= i < |servers| ==>
          && now.recs[i].server == servers[i] && now.recs[i].mon == Monitor(false, false, 0, 0, false, 0, 0, 0)
          && now.recs[i].aux.trace == [])
    && now.seqNo == was.seqNo && now.ready == was.ready && now.log == was.log
  }
}
