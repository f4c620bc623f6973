/** The branches of `tcp_cmd.c` and `http_server.c` that edit the server and schedule
    tables. The two front ends run the same code once they have their arguments,
    except where methods are named for one of them. */
module Tables {
  import opened Words
  import opened CStrings
  import opened Config
  import opened System
  import opened Device
  import opened Invariants
  import opened Edits
  import Effects
  import M = Monitoring
  import Wol
  import opened Util

  /** The address argument: not given, rejected by `parse_ip`, or its value. */
  datatype Addr = Absent | Bad | Good(ip: Word)

  datatype Response = Saved | BadAddress | BadMac | TableFull | NotFound | BadIndex | BadTime | BadDays | BadOffset

  function AddrOption(a: Addr): Option<Word> {
    if a.Good? then Some(a.ip) else None
  }

  // --- Servers ---

  /** The lookup loop every branch starts with. */
  method FindServer(d: Appliance, name: string) returns (i: nat)
    requires d.Valid()
    ensures i == Find(d.st.recs, name)
  {
    i := 0;
    while i < d.serverCount
      invariant i <= d.serverCount
      invariant forall j :: 0 <= j < i ==> !Named(d.st.recs[j].server, name)
    {
      if Named(d.servers[i], name) {
        return;
      }
      i := i + 1;
    }
  }

  method AddServer(d: Appliance, name: string, macText: string, addr: Addr) returns (r: Response)
    requires d.Valid() && NulFree(name) && |name| < NAME_LEN
    modifies d`serverCount, d`st, d.servers, d.monitors
    ensures d.Valid() && Kept(old(d.st), d.st)
    ensures d.st == if addr.Bad? then old(d.st) else Added(old(d.st), name, ParseMac(macText), AddrOption(addr))
    ensures r == if addr.Bad? then BadAddress
                 else if Find(old(d.st).recs, name) == |old(d.st).recs| == MAX_SERVERS then TableFull
                 else if ParseMac(macText).Ok() then Saved else BadMac
    ensures !addr.Bad? && !Knows(old(d.st), name) && |old(d.st).recs| < MAX_SERVERS && ParseMac(macText).Octets? ==>
              Appended(old(d.st), d.st, name, ParseMac(macText).mac, if addr.Good? then addr.ip else 0)
  {
    if addr.Bad? {
      return BadAddress;
    }
    var scan := ParseMac(macText);
    if scan.Octets? && !Knows(d.st, name) && |d.st.recs| < MAX_SERVERS {
      AddsNew(d.st, name, scan.mac, AddrOption(addr));
    }
    StepKept(d.st, Add(name, scan, AddrOption(addr)));
    r := Enter(d, name, scan, AddrOption(addr));
  }

  /** Updating a known server, appending a new one, or refusing it. */
  method Enter(d: Appliance, name: string, scan: MacScan, addr: Option<Word>) returns (r: Response)
    requires d.Valid() && NulFree(name) && |name| < NAME_LEN && scan.WellFormed()
    modifies d`serverCount, d`st, d.servers, d.monitors
    ensures d.Valid() && d.st == Added(old(d.st), name, scan, addr)
    ensures r == if Find(old(d.st).recs, name) == |old(d.st).recs| == MAX_SERVERS then TableFull
                 else if scan.Ok() then Saved else BadMac
  {
    var i := FindServer(d, name);
    if i < d.serverCount {
      UpdateServer(d, i, name, scan, addr);
      r := if scan.Ok() then Saved else BadMac;
    } else if d.serverCount >= MAX_SERVERS {
      r := TableFull;
    } else {
      r := AppendServer(d, name, scan, addr);
    }
  }

  /** Updating a known server; a rejected MAC may have overwritten leading octets. */
  method UpdateServer(d: Appliance, i: nat, ghost name: string, scan: MacScan, addr: Option<Word>)
    requires d.Valid() && i < d.serverCount && i == Find(d.st.recs, name) && scan.WellFormed()
    modifies d`st, d.servers
    ensures d.Valid() && d.st == Added(old(d.st), name, scan, addr)
    ensures var s, s' := old(d.st).recs[i].server, d.st.recs[i].server;
            s' == s.(mac := scan.WriteTo(s.mac), ip := if scan.Ok() && addr.Some? then addr.value else s.ip)
  {
    ghost var now := Added(d.st, name, scan, addr);
    d.servers[i] := d.servers[i].(mac := scan.WriteTo(d.servers[i].mac));
    if scan.Ok() && addr.Some? {
      d.servers[i] := d.servers[i].(ip := addr.value);
    }
    d.st := now;
  }

  /** Exactly when an add command with a rejected MAC leaves the table as it was. */
  lemma RejectedAddKeepsIff(st: State, name: string, macText: string, addr: Option<Word>)
    requires !ParseMac(macText).Ok()
    ensures var i := Find(st.recs, name);
            Added(st, name, ParseMac(macText), addr) == st <==>
            i == |st.recs| || Harmless(macText, st.recs[i].server.mac)
  {
    var i := Find(st.recs, name);
    if i < |st.recs| {
      var s := st.recs[i].server;
      RejectedKeepsIff(macText, s.mac);
      assert Added(st, name, ParseMac(macText), addr).recs[i].server.mac == ParseMac(macText).WriteTo(s.mac);
    }
  }

  /** It may not: this rejected command changes the first octet of a known server's MAC. */
  lemma RejectedAddChanges(st: State, name: string)
    requires Find(st.recs, name) < |st.recs| && st.recs[Find(st.recs, name)].server.mac[0] != 0xAA
    ensures !ParseMac(TooLargeText()).Ok()
    ensures var i, st' := Find(st.recs, name), Added(st, name, ParseMac(TooLargeText()), None);
            st' != st && st'.recs[i].server.mac == st.recs[i].server.mac[0 := 0xAA]
  {
    TooLargeOverwrites(st.recs[Find(st.recs, name)].server.mac);
  }

  /** Filling the first free slot; a rejected MAC may leave octets in it. */
  method AppendServer(d: Appliance, name: string, scan: MacScan, addr: Option<Word>) returns (r: Response)
    requires d.Valid() && NulFree(name) && |name| < NAME_LEN && scan.WellFormed()
    requires d.serverCount < MAX_SERVERS && Find(d.st.recs, name) == d.serverCount
    modifies d`serverCount, d`st, d.servers, d.monitors
    ensures d.Valid() && d.st == Added(old(d.st), name, scan, addr)
    ensures r == if scan.Ok() then Saved else BadMac
    ensures if scan.Octets? then Appended(old(d.st), d.st, name, scan.mac, if addr.Some? then addr.value else 0)
            else d.st == old(d.st)
  {
    FindIs(d.st, name);
    if scan.Octets? {
      AddsNew(d.st, name, scan.mac, addr);
    }
    var n := d.serverCount;
    ScanIntoFree(d, n, scan);
    if !scan.Ok() {
      return BadMac;
    }
    AppendScanned(d, NewRec(name, scan.mac, if addr.Some? then addr.value else 0), name);
    return Saved;
  }

  /** `parse_mac` into a slot above the count. */
  method ScanIntoFree(d: Appliance, n: nat, scan: MacScan)
    requires d.Valid() && d.serverCount <= n < MAX_SERVERS && scan.WellFormed()
    modifies d.servers
    ensures d.Valid() && d.servers[n].mac == scan.WriteTo(old(d.servers[n].mac))
  {
    d.servers[n] := d.servers[n].(mac := scan.WriteTo(d.servers[n].mac));
  }

  /** The rest of the new record, its MAC being in place. */
  method AppendScanned(d: Appliance, r: Rec, name: string)
    requires d.Valid() && d.serverCount < MAX_SERVERS && NulFree(name)
    requires r == NewRec(name, d.servers[d.serverCount].mac, r.server.ip)
    modifies d`serverCount, d`st, d.servers, d.monitors
    ensures d.Valid() && d.st == old(d.st).(recs := old(d.st).recs + [r])
  {
    var n := d.serverCount;
    FillFreeSlot(d, n, name, r.server.ip);
    d.monitors[n] := ZERO_MONITOR;
    d.serverCount := n + 1;
    d.st := d.st.(recs := d.st.recs + [r]);
  }

  /** The fields besides the MAC; the slot's old name leaves nothing behind. */
  method FillFreeSlot(d: Appliance, n: nat, name: string, ip: Word)
    requires d.Shape() && n < MAX_SERVERS && d.servers[n].name[NAME_LEN - 1] == NUL
    modifies d.servers
    ensures d.servers[n] == Server(NameBuffer(name), old(d.servers[n]).mac, true, ip)
    ensures forall k :: 0 <= k < MAX_SERVERS && k != n ==> d.servers[k] == old(d.servers[k])
  {
    SlotNameIs(d.servers[n].name, name);
    d.servers[n] := d.servers[n].(name := Copied(d.servers[n].name, name, NAME_LEN - 1));
    d.servers[n] := d.servers[n].(active := true);
    d.servers[n] := d.servers[n].(ip := ip);
  }

  /** Storing a name leaves nothing of what the slot's buffer held before. */
  lemma SlotNameIs(buf: NameBuf, name: string)
    requires buf[NAME_LEN - 1] == NUL
    ensures Copied(buf, name, NAME_LEN - 1) == NameBuffer(name)
  {
    assert buf[NAME_LEN - 1..] == BLANK_NAME[NAME_LEN - 1..];
  }

  method RemoveServer(d: Appliance, name: string) returns (r: Response)
    requires d.Valid()
    modifies d`serverCount, d`st, d.servers, d.monitors
    ensures d.Valid() && d.st == Removed(old(d.st), name) && Kept(old(d.st), d.st)
    ensures r == if Knows(old(d.st), name) then Saved else NotFound
    ensures r == NotFound ==> d.st == old(d.st)
    ensures forall i: nat :: IsFirst(old(d.st), i, name) ==> Removes(old(d.st), d.st, i)
  {
    FindIs(d.st, name);
    RemoveEffect(d.st, name);
    StepKept(d.st, Remove(name));
    var i := FindServer(d, name);
    if i == d.serverCount {
      return NotFound;
    }
    DropSlot(d, i);
    return Saved;
  }

  method DropSlot(d: Appliance, i: nat)
    requires d.Valid() && i < d.serverCount
    modifies d`serverCount, d`st, d.servers, d.monitors
    ensures d.Valid() && d.st == old(d.st).(recs := Without(old(d.st).recs, i))
  {
    ghost var kept := Without(d.st.recs, i);
    var n := d.serverCount - 1;
    ShiftDown(d, i);
    ClearSlot(d, n);
    d.serverCount := n;
    d.st := d.st.(recs := kept);
  }

  /** The two `memset` calls. */
  method ClearSlot(d: Appliance, n: nat)
    requires d.Shape() && n < MAX_SERVERS
    modifies d.servers, d.monitors
    ensures d.servers[n] == ZERO_SERVER && d.monitors[n] == ZERO_MONITOR
    ensures forall k :: 0 <= k < MAX_SERVERS && k != n ==> d.servers[k] == old(d.servers[k])
    ensures forall k :: 0 <= k < MAX_SERVERS && k != n ==> d.monitors[k] == old(d.monitors[k])
  {
    d.servers[n] := ZERO_SERVER;
    d.monitors[n] := ZERO_MONITOR;
  }

  /** The shifting loop: both arrays move down one place from `i` on. */
  method ShiftDown(d: Appliance, i: nat)
    requires d.Valid() && i < d.serverCount
    modifies d.servers, d.monitors
    ensures forall k :: 0 <= k < d.serverCount - 1 ==> d.servers[k] == Without(d.st.recs, i)[k].server
    ensures forall k :: 0 <= k < d.serverCount - 1 ==> d.monitors[k] == Without(d.st.recs, i)[k].mon
    ensures forall k :: d.serverCount <= k < MAX_SERVERS ==> d.servers[k] == old(d.servers[k])
    ensures forall k :: d.serverCount <= k < MAX_SERVERS ==> d.monitors[k] == old(d.monitors[k])
  {
    ghost var kept := Without(d.st.recs, i);
    var j := i;
    while j < d.serverCount - 1
      invariant i <= j < d.serverCount
      invariant forall k :: 0 <= k < j ==> d.servers[k] == kept[k].server
      invariant forall k :: 0 <= k < j ==> d.monitors[k] == kept[k].mon
      invariant forall k :: j <= k < MAX_SERVERS ==> d.servers[k] == old(d.servers[k])
      invariant forall k :: j <= k < MAX_SERVERS ==> d.monitors[k] == old(d.monitors[k])
    {
      assert kept[j] == d.st.recs[j + 1];
      MoveDown(d, j);
      j := j + 1;
    }
  }

  method MoveDown(d: Appliance, j: nat)
    requires d.Shape() && j + 1 < MAX_SERVERS
    modifies d.servers, d.monitors
    ensures d.servers[j] == old(d.servers[j + 1]) && d.monitors[j] == old(d.monitors[j + 1])
    ensures forall k :: 0 <= k < MAX_SERVERS && k != j ==> d.servers[k] == old(d.servers[k])
    ensures forall k :: 0 <= k < MAX_SERVERS && k != j ==> d.monitors[k] == old(d.monitors[k])
  {
    d.servers[j] := d.servers[j + 1];
    d.monitors[j] := d.monitors[j + 1];
  }

  /** The wake command for one server: the first of that name is woken, or nothing happens. */
  method WakeNamed(d: Appliance, name: string, r: M.Radio) returns (found: bool)
    requires d.Valid()
    modifies d`seqNo, d`log, d`st, d.monitors
    ensures d.Valid() && Kept(old(d.st), d.st)
    ensures found <==> Knows(old(d.st), name)
    ensures !found ==> d.st == old(d.st)
    ensures forall i: nat :: IsFirst(old(d.st), i, name) ==> Effects.WokenAt(old(d.st), d.st, i, r)
  {
    FindIs(d.st, name);
    var i := FindServer(d, name);
    if i == d.serverCount {
      return false;
    }
    Wol.Wake(d, i, r);
    return true;
  }

  /** A `None` address is one `parse_ip` rejects. */
  method SetServerIp(d: Appliance, name: string, ip: Option<Word>) returns (r: Response)
    requires d.Valid()
    modifies d`st, d.servers
    ensures d.Valid() && Kept(old(d.st), d.st)
    ensures d.st == if ip.Some? then Readdressed(old(d.st), name, ip.value) else old(d.st)
    ensures r == if ip.None? then BadAddress else if Knows(old(d.st), name) then Saved else NotFound
    ensures r != Saved ==> d.st == old(d.st)
    ensures r == Saved ==> forall i: nat :: IsFirst(old(d.st), i, name) ==>
              Edited(old(d.st), d.st, i, old(d.st).recs[i].server.mac, ip.value)
  {
    if ip.None? {
      return BadAddress;
    }
    FindIs(d.st, name);
    SetIpEffect(d.st, name, ip.value);
    var i := FindServer(d, name);
    if i == d.serverCount {
      return NotFound;
    }
    StepKept(d.st, SetIp(name, ip.value));
    StoreIp(d, i, ip.value);
    return Saved;
  }

  method StoreIp(d: Appliance, i: nat, ip: Word)
    requires d.Valid() && i < d.serverCount
    modifies d`st, d.servers
    ensures d.Valid()
    ensures var r := old(d.st).recs[i];
            d.st == old(d.st).(recs := old(d.st).recs[i := r.(server := r.server.(ip := ip))])
  {
    ghost var r := d.st.recs[i];
    d.servers[i] := d.servers[i].(ip := ip);
    d.st := d.st.(recs := d.st.recs[i := r.(server := r.server.(ip := ip))]);
  }

  method ClearServerIp(d: Appliance, name: string) returns (r: Response)
    requires d.Valid()
    modifies d`st, d.servers, d.monitors
    ensures d.Valid() && d.st == Unaddressed(old(d.st), name) && Kept(old(d.st), d.st)
    ensures r == if Knows(old(d.st), name) then Saved else NotFound
    ensures r == NotFound ==> d.st == old(d.st)
    ensures forall i: nat :: IsFirst(old(d.st), i, name) ==> Forgets(old(d.st), d.st, i)
  {
    FindIs(d.st, name);
    ClearIpEffect(d.st, name);
    var i := FindServer(d, name);
    if i == d.serverCount {
      return NotFound;
    }
    StepKept(d.st, ClearIp(name));
    Forget(d, i);
    return Saved;
  }

  /** The found record loses its address and its monitor's memory. */
  method Forget(d: Appliance, i: nat)
    requires d.Valid() && i < d.serverCount
    modifies d`st, d.servers, d.monitors
    ensures d.Valid()
    ensures var r := old(d.st).recs[i];
            d.st == old(d.st).(recs := old(d.st).recs[i := r.(server := r.server.(ip := 0), mon := ZERO_MONITOR)])
  {
    StoreIp(d, i, 0);
    ClearMonitor(d, i);
  }

  method ClearMonitor(d: Appliance, i: nat)
    requires d.Valid() && i < d.serverCount
    modifies d`st, d.monitors
    ensures d.Valid()
    ensures d.st == old(d.st).(recs := old(d.st).recs[i := old(d.st).recs[i].(mon := ZERO_MONITOR)])
  {
    ghost var r := d.st.recs[i];
    d.monitors[i] := ZERO_MONITOR;
    d.st := d.st.(recs := d.st.recs[i := r.(mon := ZERO_MONITOR)]);
  }

  // --- Schedules ---

  const DAY_LETTERS := "umtwhfs"

  lemma WithDayBit(mask: bv8, day: nat)
    requires day < 7
    ensures forall k :: 0 <= k < 7 ==> (HasDay(mask | DayBit(day), k) <==> k == day || HasDay(mask, k))
  {
    forall k | 0 <= k < 7 ensures HasDay(mask | DayBit(day), k) <==> k == day || HasDay(mask, k) {
      OrBit(mask, DayBit(day), DayBit(k));
    }
  }

  lemma OrBit(m: bv8, a: bv8, b: bv8)
    ensures (m | a) & b == (m & b) | (a & b)
    ensures (m & b) | (a & b) != 0 <==> m & b != 0 || a & b != 0
  {
  }

  /** Day letters of the command line, Sunday first. */
  function DayOf(c: char): (day: Option<nat>)
    ensures day.Some? ==> day.value < 7 && DAY_LETTERS[day.value] == c
    ensures day.None? ==> c !in DAY_LETTERS
  {
    if c == 'u' then Some(0) else if c == 'm' then Some(1) else if c == 't' then Some(2)
    else if c == 'w' then Some(3) else if c == 'h' then Some(4) else if c == 'f' then Some(5)
    else if c == 's' then Some(6) else None
  }

  lemma LettersDiffer(j: nat, k: nat)
    requires j < 7 && k < 7 && DAY_LETTERS[j] == DAY_LETTERS[k]
    ensures j == k
  {
  }

  /** A mask holds exactly the days whose letters occur. */
  predicate MaskSays(mask: bv8, days: string) {
    && (forall d :: 0 <= d < 7 ==> (HasDay(mask, d) <==> DAY_LETTERS[d] in days))
    && mask < 128
  }

  /** Each set of days has one mask. */
  lemma MaskIsUnique(a: bv8, b: bv8, days: string)
    requires MaskSays(a, days) && MaskSays(b, days)
    ensures a == b
  {
    assert forall d :: 0 <= d < 7 ==> HasDay(a, d) == HasDay(b, d);
    assert HasDay(a, 0) == HasDay(b, 0) && HasDay(a, 1) == HasDay(b, 1) && HasDay(a, 2) == HasDay(b, 2);
    assert HasDay(a, 3) == HasDay(b, 3) && HasDay(a, 4) == HasDay(b, 4) && HasDay(a, 5) == HasDay(b, 5);
    assert HasDay(a, 6) == HasDay(b, 6);
    SameBits(a, b);
  }

  lemma SameBits(a: bv8, b: bv8)
    requires a < 128 && b < 128
    requires (a & 1 != 0) == (b & 1 != 0) && (a & 2 != 0) == (b & 2 != 0) && (a & 4 != 0) == (b & 4 != 0)
    requires (a & 8 != 0) == (b & 8 != 0) && (a & 16 != 0) == (b & 16 != 0) && (a & 32 != 0) == (b & 32 != 0)
    requires (a & 64 != 0) == (b & 64 != 0)
    ensures a == b
  {
  }

  /** Day `d` is bit `d` of the mask, so the form's number 2^d is that day alone, and 127 is every day. */
  lemma DayIsBit(mask: bv8, d: nat)
    requires d < 7
    ensures HasDay(mask, d) <==> mask & ((1 as bv8) << d) != 0
    ensures HasDay(0x7F, d)
  {
    assert (1 as bv8) << 0 == 1 && (1 as bv8) << 1 == 2 && (1 as bv8) << 2 == 4 && (1 as bv8) << 3 == 8;
    assert (1 as bv8) << 4 == 16 && (1 as bv8) << 5 == 32 && (1 as bv8) << 6 == 64;
  }

  /** What the days argument means: every day for `daily`, else the days of its letters,
      and nothing if it holds any other character. */
  ghost predicate MaskOf(mask: Option<bv8>, days: string) {
    && (days == "daily" ==> mask == Some(0x7F))
    && (days != "daily" ==> (mask.Some? <==> forall c :: c in days ==> c in DAY_LETTERS))
    && (days != "daily" && mask.Some? ==> MaskSays(mask.value, days))
  }

  /** The days argument: `daily`, or letters only. */
  method ParseDays(days: string) returns (mask: Option<bv8>)
    ensures MaskOf(mask, days)
  {
    if days == "daily" {
      return Some(0x7F);
    }
    var m: bv8 := 0;
    for i := 0 to |days|
      invariant MaskSays(m, days[..i])
      invariant forall c :: c in days[..i] ==> c in DAY_LETTERS
    {
      var day := DayOf(days[i]);
      if day.None? {
        return None;
      }
      WithDayBit(m, day.value);
      assert days[..i + 1] == days[..i] + [days[i]];
      forall k | 0 <= k < 7 ensures HasDay(m | DayBit(day.value), k) <==> DAY_LETTERS[k] in days[..i + 1] {
        if DAY_LETTERS[k] == days[i] {
          LettersDiffer(k, day.value);
        }
      }
      m := m | DayBit(day.value);
    }
    assert days[..|days|] == days;
    return Some(m);
  }

  /** What a target names: every server, or one table index. */
  function TargetOf(st: State, target: string): Option<Int8>
    requires |st.recs| <= MAX_SERVERS
  {
    var everyone: Int8 := -1;
    if target == "all" then Some(everyone)
    else
      var i: int := Find(st.recs, target);
      if i < |st.recs| then (var index: Int8 := i; Some(index)) else None
  }

  /** The command line checks time, days and target before the table's size. */
  function TcpScheduled(st: State, mask: Option<bv8>, time: Option<(int, int)>, target: string): (Response, State)
    requires |st.recs| <= MAX_SERVERS
  {
    if time.None? || !(0 <= time.value.0 <= 23) || !(0 <= time.value.1 <= 59) then (BadTime, st)
    else if mask.None? then (BadDays, st)
    else if TargetOf(st, target).None? then (NotFound, st)
    else if |st.schedules| >= MAX_SCHEDULES then (TableFull, st)
    else
      (Saved, st.(schedules := st.schedules +
        [Schedule(mask.value, time.value.0, time.value.1, TargetOf(st, target).value)]))
  }

  /** The web form's numbers are narrowed to bytes without a range check. */
  function HttpScheduled(st: State, days: int, hour: int, minute: int, target: string): (Response, State)
    requires |st.recs| <= MAX_SERVERS
  {
    if |st.schedules| >= MAX_SCHEDULES then (TableFull, st)
    else if TargetOf(st, target).None? then (NotFound, st)
    else
      (Saved, st.(schedules := st.schedules +
        [Schedule((days % 256) as bv8, hour % 256, minute % 256, TargetOf(st, target).value)]))
  }

  /** What a command-line entry comes to: the first error found, or one entry more. */
  predicate TcpOutcome(was: State, r: Response, now: State, mask: Option<bv8>, time: Option<(int, int)>,
                       target: string) {
    && r == (if time.None? || !(0 <= time.value.0 <= 23) || !(0 <= time.value.1 <= 59) then BadTime
             else if mask.None? then BadDays
             else if target != "all" && !Knows(was, target) then NotFound
             else if |was.schedules| >= 16 then TableFull
             else Saved)
    && (r != Saved ==> now == was)
    && (r == Saved ==> Scheduled(was, now, mask.value, time.value.0, time.value.1, target))
  }

  /** The same for the web form, whose numbers are cut to bytes. */
  predicate HttpOutcome(was: State, r: Response, now: State, days: int, hour: int, minute: int, target: string) {
    && r == (if |was.schedules| >= 16 then TableFull
             else if target != "all" && !Knows(was, target) then NotFound
             else Saved)
    && (r != Saved ==> now == was)
    && (r == Saved ==> Scheduled(was, now, (days % 256) as bv8, hour % 256, minute % 256, target))
  }

  lemma TcpScheduledIs(st: State, mask: Option<bv8>, time: Option<(int, int)>, target: string)
    requires |st.recs| <= MAX_SERVERS
    ensures var (r, now) := TcpScheduled(st, mask, time, target); TcpOutcome(st, r, now, mask, time, target)
  {
    FindIs(st, target);
  }

  lemma HttpScheduledIs(st: State, days: int, hour: int, minute: int, target: string)
    requires |st.recs| <= MAX_SERVERS
    ensures var (r, now) := HttpScheduled(st, days, hour, minute, target);
            HttpOutcome(st, r, now, days, hour, minute, target)
  {
    FindIs(st, target);
  }

  method AppendSchedule(d: Appliance, e: Schedule)
    requires d.Valid() && d.scheduleCount < MAX_SCHEDULES
    modifies d`scheduleCount, d`st, d.schedules
    ensures d.Valid() && d.st == old(d.st).(schedules := old(d.st).schedules + [e]) && Kept(old(d.st), d.st)
  {
    StepKept(d.st, AddSchedule(e));
    d.schedules[d.scheduleCount] := e;
    d.scheduleCount := d.scheduleCount + 1;
    d.st := d.st.(schedules := d.st.schedules + [e]);
  }

  /** `time` is what `sscanf` read as HH:MM, if it read both numbers. */
  method TcpScheduleAdd(d: Appliance, days: string, time: Option<(int, int)>, target: string) returns (r: Response)
    requires d.Valid()
    modifies d`scheduleCount, d`st, d.schedules
    ensures d.Valid() && Kept(old(d.st), d.st)
    ensures exists mask: Option<bv8> :: MaskOf(mask, days) && TcpOutcome(old(d.st), r, d.st, mask, time, target)
  {
    var mask := ParseDays(days);
    r := TcpScheduleStore(d, mask, time, target);
  }

  method TcpScheduleStore(d: Appliance, mask: Option<bv8>, time: Option<(int, int)>, target: string)
    returns (r: Response)
    requires d.Valid()
    modifies d`scheduleCount, d`st, d.schedules
    ensures d.Valid() && Kept(old(d.st), d.st)
    ensures (r, d.st) == TcpScheduled(old(d.st), mask, time, target)
    ensures TcpOutcome(old(d.st), r, d.st, mask, time, target)
  {
    TcpScheduledIs(d.st, mask, time, target);
    if time.None? || !(0 <= time.value.0 <= 23) || !(0 <= time.value.1 <= 59) {
      return BadTime;
    }
    if mask.None? {
      return BadDays;
    }
    var index: int := -1;
    if target != "all" {
      index := FindServer(d, target);
      if index == d.serverCount {
        return NotFound;
      }
    }
    if d.scheduleCount >= MAX_SCHEDULES {
      return TableFull;
    }
    AppendSchedule(d, Schedule(mask.value, time.value.0, time.value.1, index));
    return Saved;
  }

  method HttpScheduleAdd(d: Appliance, days: int, hour: int, minute: int, target: string) returns (r: Response)
    requires d.Valid()
    modifies d`scheduleCount, d`st, d.schedules
    ensures d.Valid() && (r, d.st) == HttpScheduled(old(d.st), days, hour, minute, target) && Kept(old(d.st), d.st)
    ensures HttpOutcome(old(d.st), r, d.st, days, hour, minute, target)
  {
    HttpScheduledIs(d.st, days, hour, minute, target);
    if d.scheduleCount >= MAX_SCHEDULES {
      return TableFull;
    }
    var index: int := -1;
    if target != "all" {
      index := FindServer(d, target);
      if index == d.serverCount {
        return NotFound;
      }
    }
    AppendSchedule(d, Schedule((days % 256) as bv8, hour % 256, minute % 256, index));
    return Saved;
  }

  /** Where both front ends accept the same schedule they leave the same state; and where
      the numbers are in range, one accepts exactly when the other does. */
  lemma SchedulesAgree(st: State, mask: bv8, hour: int, minute: int, target: string)
    requires |st.recs| <= MAX_SERVERS && 0 <= hour <= 23 && 0 <= minute <= 59
    ensures var tcp := TcpScheduled(st, Some(mask), Some((hour, minute)), target);
            var http := HttpScheduled(st, mask as int, hour, minute, target);
            tcp.1 == http.1 && (tcp.0 == Saved <==> http.0 == Saved)
  {
    ByteMask(mask);
  }

  /** Over all numbers: they leave the same state exactly if the numbers are in range, or the
      web form refuses too. */
  lemma SchedulesAgreeIff(st: State, mask: bv8, hour: int, minute: int, target: string)
    requires |st.recs| <= MAX_SERVERS
    ensures var tcp := TcpScheduled(st, Some(mask), Some((hour, minute)), target);
            var http := HttpScheduled(st, mask as int, hour, minute, target);
            tcp.1 == http.1 <==> (0 <= hour <= 23 && 0 <= minute <= 59) || http.0 != Saved
  {
    ByteMask(mask);
    var http := HttpScheduled(st, mask as int, hour, minute, target);
    assert http.0 == Saved ==> |http.1.schedules| == |st.schedules| + 1;
  }

  lemma ByteMask(mask: bv8)
    ensures (mask as int % 256) as bv8 == mask
  {
    assert mask as int % 256 == mask as int;
  }

  method ShiftSchedules(d: Appliance, idx: nat)
    requires d.Valid() && idx < d.scheduleCount
    modifies d.schedules
    ensures forall k :: 0 <= k < d.scheduleCount - 1 ==> d.schedules[k] == Without(d.st.schedules, idx)[k]
  {
    ghost var all, kept := d.st.schedules, Without(d.st.schedules, idx);
    var j := idx;
    while j < d.scheduleCount - 1
      invariant idx <= j <= d.scheduleCount - 1
      invariant forall k :: 0 <= k < j ==> d.schedules[k] == kept[k]
      invariant forall k :: j <= k < d.scheduleCount ==> d.schedules[k] == all[k]
    {
      assert kept[j] == all[j + 1];
      d.schedules[j] := d.schedules[j + 1];
      j := j + 1;
    }
  }

  method DropSchedule(d: Appliance, idx: nat)
    requires d.Valid() && idx < d.scheduleCount
    modifies d`scheduleCount, d`st, d.schedules
    ensures d.Valid() && d.st == old(d.st).(schedules := Without(old(d.st).schedules, idx)) && Kept(old(d.st), d.st)
  {
    StepKept(d.st, RemoveSchedule(idx));
    ghost var kept := Without(d.st.schedules, idx);
    ShiftSchedules(d, idx);
    d.scheduleCount := d.scheduleCount - 1;
    d.st := d.st.(schedules := kept);
  }

  /** The command line clears the vacated slot... */
  method TcpScheduleRemove(d: Appliance, idx: int) returns (r: Response)
    requires d.Valid()
    modifies d`scheduleCount, d`st, d.schedules
    ensures d.Valid() && d.st == Step(old(d.st), RemoveSchedule(idx)) && Kept(old(d.st), d.st)
    ensures r == if 0 <= idx < |old(d.st).schedules| then Saved else BadIndex
    ensures if r == Saved then Unscheduled(old(d.st), d.st, idx) else d.st == old(d.st)
    ensures r == Saved ==> d.schedules[d.scheduleCount] == ZERO_SCHEDULE
  {
    UnscheduleEffect(d.st, idx);
    if idx < 0 || idx >= d.scheduleCount {
      return BadIndex;
    }
    DropSchedule(d, idx);
    d.schedules[d.scheduleCount] := ZERO_SCHEDULE;
    return Saved;
  }

  /** ... the web form leaves it; the live table is the same. */
  method HttpScheduleRemove(d: Appliance, idx: int) returns (r: Response)
    requires d.Valid()
    modifies d`scheduleCount, d`st, d.schedules
    ensures d.Valid() && d.st == Step(old(d.st), RemoveSchedule(idx)) && Kept(old(d.st), d.st)
    ensures r == if 0 <= idx < |old(d.st).schedules| then Saved else BadIndex
    ensures if r == Saved then Unscheduled(old(d.st), d.st, idx) else d.st == old(d.st)
  {
    UnscheduleEffect(d.st, idx);
    if idx < 0 || idx >= d.scheduleCount {
      return BadIndex;
    }
    DropSchedule(d, idx);
    return Saved;
  }

  // --- Settings ---

  method TcpTimezone(d: Appliance, offset: int) returns (r: Response)
    requires d.Valid()
    modifies d`offset, d`st
    ensures d.Valid() && Kept(old(d.st), d.st)
    ensures d.st == if -720 <= offset <= 840 then old(d.st).(offset := offset) else old(d.st)
    ensures r == if -720 <= offset <= 840 then Saved else BadOffset
  {
    if offset < -720 || offset > 840 {
      return BadOffset;
    }
    StepKept(d.st, SetOffset(offset));
    d.offset := offset;
    d.st := d.st.(offset := offset);
    return Saved;
  }

  /** The cast `(int16_t)offset`. */
  function Narrow(offset: int): Int16 {
    (offset + 0x8000) % 0x1_0000 - 0x8000
  }

  method HttpTimezone(d: Appliance, offset: int)
    requires d.Valid()
    modifies d`offset, d`st
    ensures d.Valid() && d.st == old(d.st).(offset := Narrow(offset)) && Kept(old(d.st), d.st)
    ensures (offset - d.st.offset) % 65536 == 0 && (-32768 <= offset < 32768 ==> d.st.offset == offset)
  {
    StepKept(d.st, SetOffset(Narrow(offset)));
    d.offset := Narrow(offset);
    d.st := d.st.(offset := Narrow(offset));
  }

  method Autowake(d: Appliance, on: bool)
    requires d.Valid()
    modifies d`autowake, d`st
    ensures d.Valid() && d.st == old(d.st).(autowake := on) && Kept(old(d.st), d.st)
  {
    StepKept(d.st, SetAutowake(on));
    d.autowake := on;
    d.st := d.st.(autowake := on);
  }
}
