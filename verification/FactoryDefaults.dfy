/** `config_load_defaults`: the `name=mac[,ip]|...` list compiled into the firmware,
    cut up in place and loaded into the server table. */
module FactoryDefaults {
  import opened Words
  import opened CStrings
  import opened Config
  import opened System
  import opened Device
  import opened Invariants
  import opened Edits
  import opened Util

  const TEXT_MAX := 511

  function SkipBars(s: string): (r: string)
    ensures |r| <= |s|
    ensures r != "" ==> r[0] != '|'
  {
    if s != "" && s[0] == '|' then SkipBars(s[1..]) else s
  }

  function AfterBar(s: string, k: nat): string
    requires k <= |s|
  {
    if k < |s| then s[k + 1..] else ""
  }

  /** The table slot an entry fills, if its MAC is well formed; `parseIp` stands for the
      network stack's address parser. */
  function ParseEntry(tok: string, parseIp: string -> Option<Word>): Option<Server> {
    var eq := IndexOf(tok, '=');
    if eq == |tok| then
      None
    else
      var value := tok[eq + 1..];
      var comma := IndexOf(value, ',');
      match ParseMac(value[..comma])
      case Octets(mac) => Some(Server(NameBuffer(tok[..eq]), mac, true, IpOf(AfterBar(value, comma), parseIp)))
      case _ => None
  }

  function IpOf(text: string, parseIp: string -> Option<Word>): Word {
    if text == "" then 0
    else
      match parseIp(text)
      case Some(ip) => ip
      case None => 0
  }

  function Consider(table: seq<Server>, tok: string, parseIp: string -> Option<Word>): (r: seq<Server>)
    ensures |table| <= |r| <= |table| + 1
  {
    match ParseEntry(tok, parseIp)
    case Some(s) => table + [s]
    case None => table
  }

  /** The loop over the text still to be read. */
  function Load(text: string, table: seq<Server>, parseIp: string -> Option<Word>): seq<Server>
    decreases |text|
  {
    var t := SkipBars(text);
    if t == "" || |table| >= MAX_SERVERS then
      table
    else
      var k := IndexOf(t, '|');
      Load(AfterBar(t, k), Consider(table, t[..k], parseIp), parseIp)
  }

  // --- In place ---

  /** The C string that starts at `p`. */
  function At(buf: seq<char>, p: nat): string
    requires p <= |buf|
  {
    CStr(buf[p..])
  }

  /** A C string starts at `p` and ends inside the buffer. */
  predicate Ends(buf: seq<char>, p: nat) {
    p < |buf| && |At(buf, p)| < |buf| - p
  }

  lemma AtStep(buf: seq<char>, p: nat)
    requires p < |buf|
    ensures At(buf, p) == if buf[p] == NUL then "" else [buf[p]] + At(buf, p + 1)
  {
    assert buf[p..][1..] == buf[p + 1..];
  }

  /** The C string at `p` depends only on its own bytes and its NUL. */
  lemma AtKept(a: seq<char>, b: seq<char>, p: nat)
    requires |a| == |b| && Ends(a, p)
    requires forall j :: p <= j <= p + |At(a, p)| ==> a[j] == b[j]
    ensures At(b, p) == At(a, p)
  {
    var s := At(a, p);
    assert b[p..][..|s|] == a[p..][..|s|];
    CStrIs(b[p..], s);
  }

  /** A NUL written inside the string at `p` ends it there and leaves the rest as its own string. */
  lemma Cut(buf: seq<char>, p: nat, k: nat)
    requires Ends(buf, p) && k < |At(buf, p)|
    ensures var s, cut := At(buf, p), buf[p + k := NUL];
            && At(cut, p) == s[..k] && Ends(cut, p)
            && At(cut, p + k + 1) == s[k + 1..] && Ends(cut, p + k + 1)
  {
    var s, cut := At(buf, p), buf[p + k := NUL];
    assert cut[p..] == buf[p..][k := NUL];
    forall c | c in s[..k] ensures c != NUL {}
    CStrIs(cut[p..], s[..k]);
    var rest, tail := cut[p + k + 1..], s[k + 1..];
    assert rest == buf[p..][k + 1..];
    assert rest[..|tail|] == tail;
    CStrIs(rest, tail);
  }

  /** `strchr`, with the position of the terminating NUL when there is no `c`. */
  method Strchr(buf: array<char>, p: nat, c: char) returns (q: nat, found: bool)
    requires Ends(buf[..], p) && c != NUL
    ensures var s := At(buf[..], p); var k := IndexOf(s, c);
            q == p + k && (found <==> k < |s|)
  {
    q := p;
    ghost var s := At(buf[..], p);
    while buf[q] != NUL && buf[q] != c
      invariant p <= q && Ends(buf[..], q)
      invariant q - p <= |s| && At(buf[..], q) == s[q - p..]
      invariant IndexOf(s, c) == q - p + IndexOf(s[q - p..], c)
      decreases buf.Length - q
    {
      AtStep(buf[..], q);
      assert s[q - p..][1..] == s[q + 1 - p..];
      q := q + 1;
    }
    AtStep(buf[..], q);
    found := buf[q] != NUL;
  }

  /** The string at `p` ended at its first `c`, if it has one, with `next` what follows. */
  ghost predicate WasCut(was: seq<char>, now: seq<char>, p: nat, c: char, next: Option<nat>) {
    && Ends(was, p) && |now| == |was|
    && var k := IndexOf(At(was, p), c);
       && next == (if k < |At(was, p)| then Some(p + k + 1) else None)
       && now == (if k < |At(was, p)| then was[p + k := NUL] else was)
  }

  lemma CutGives(was: seq<char>, now: seq<char>, p: nat, c: char, next: Option<nat>)
    requires WasCut(was, now, p, c, next)
    ensures var s := At(was, p); var k := IndexOf(s, c);
            && Ends(now, p) && At(now, p) == s[..k]
            && (next.Some? ==> Ends(now, next.value) && At(now, next.value) == AfterBar(s, k))
  {
    var k := IndexOf(At(was, p), c);
    if k < |At(was, p)| {
      Cut(was, p, k);
    }
  }

  /** Overwrites the first `c` of the string at `p` with a NUL and returns what follows it. */
  method CutAt(buf: array<char>, p: nat, c: char) returns (next: Option<nat>)
    requires Ends(buf[..], p) && c != NUL
    modifies buf
    ensures WasCut(old(buf[..]), buf[..], p, c, next)
  {
    var e, found := Strchr(buf, p, c);
    if !found {
      return None;
    }
    buf[e] := NUL;
    next := Some(e + 1);
  }

  method SkipDelimiters(buf: array<char>, p: nat) returns (q: nat)
    requires Ends(buf[..], p)
    ensures p <= q && Ends(buf[..], q) && At(buf[..], q) == SkipBars(At(buf[..], p))
  {
    q := p;
    while buf[q] == '|'
      invariant p <= q && Ends(buf[..], q)
      invariant SkipBars(At(buf[..], q)) == SkipBars(At(buf[..], p))
      decreases buf.Length - q
    {
      AtStep(buf[..], q);
      q := q + 1;
    }
    AtStep(buf[..], q);
  }

  method StringEnd(buf: array<char>, p: nat) returns (q: nat)
    requires Ends(buf[..], p)
    ensures q == p + |At(buf[..], p)| && Ends(buf[..], q) && At(buf[..], q) == ""
  {
    q := p;
    ghost var s := At(buf[..], p);
    while buf[q] != NUL
      invariant p <= q && Ends(buf[..], q)
      invariant q - p <= |s| && At(buf[..], q) == s[q - p..]
      decreases buf.Length - q
    {
      AtStep(buf[..], q);
      q := q + 1;
    }
    AtStep(buf[..], q);
  }

  /** `strtok` continuing at `p`: the next token's start and where to continue. */
  method Strtok(buf: array<char>, p: nat) returns (tok: Option<nat>, next: nat)
    requires Ends(buf[..], p)
    modifies buf
    ensures var t := SkipBars(At(old(buf[..]), p)); var k := IndexOf(t, '|');
            && (t == "" <==> tok == None)
            && (tok.Some? ==>
                  && p <= tok.value && tok.value + k <= next
                  && Ends(buf[..], tok.value) && Ends(buf[..], next)
                  && At(buf[..], tok.value) == t[..k] && At(buf[..], next) == AfterBar(t, k))
  {
    var q := SkipDelimiters(buf, p);
    AtStep(buf[..], q);
    if buf[q] == NUL {
      return None, q;
    }
    tok := Some(q);
    ghost var was := buf[..];
    var after := CutAt(buf, q, '|');
    CutGives(was, buf[..], q, '|', after);
    if after.Some? {
      next := after.value;
    } else {
      next := StringEnd(buf, q);
    }
  }

  /** While defaults load: the slots above the count hold no active server and have room for
      a terminated name, whatever a rejected entry left in them. */
  ghost predicate Loading(d: Appliance)
    reads d, d.servers
  {
    && d.Shape() && d.serverCount <= MAX_SERVERS
    && forall i :: d.serverCount <= i < MAX_SERVERS ==> !d.servers[i].active && d.servers[i].name[NAME_LEN - 1] == NUL
  }

  /** A token cut into name, value and address: `now` holds them where the positions say. */
  ghost predicate EntryCut(was: seq<char>, now: seq<char>, tok: nat, value: Option<nat>, addr: Option<nat>)
    requires tok <= |was| == |now|
  {
    var t := At(was, tok);
    var eq := IndexOf(t, '=');
    if eq == |t| then
      value == None
    else
      var v := t[eq + 1..];
      var comma := IndexOf(v, ',');
      && value.Some? && value.value <= |now|
      && At(now, tok) == t[..eq]
      && At(now, value.value) == v[..comma]
      && (addr.Some? <==> comma < |v|)
      && (addr.Some? ==> addr.value <= |now| && At(now, addr.value) == AfterBar(v, comma))
  }

  /** Bytes past the token are untouched. */
  ghost predicate TailKept(was: seq<char>, now: seq<char>, tok: nat)
    requires tok <= |was| == |now|
  {
    forall j :: tok + |At(was, tok)| <= j < |was| ==> now[j] == was[j]
  }

  /** What two successive cuts amount to. */
  lemma EntryCutIs(was: seq<char>, mid: seq<char>, now: seq<char>, tok: nat, value: nat, addr: Option<nat>)
    requires WasCut(was, mid, tok, '=', Some(value)) && WasCut(mid, now, value, ',', addr)
    ensures EntryCut(was, now, tok, Some(value), addr)
  {
    CutGives(was, mid, tok, '=', Some(value));
    CutGives(mid, now, value, ',', addr);
    AtKept(mid, now, tok);
  }

  lemma EntryTailKept(was: seq<char>, mid: seq<char>, now: seq<char>, tok: nat, value: nat, addr: Option<nat>)
    requires WasCut(was, mid, tok, '=', Some(value)) && WasCut(mid, now, value, ',', addr)
    ensures TailKept(was, now, tok)
  {
    CutGives(was, mid, tok, '=', Some(value));
    var t := At(was, tok);
    var eq := IndexOf(t, '=');
    assert |At(mid, value)| == |t| - eq - 1;
  }

  /** Cutting the token at its first '=' and the value at its first ',', both with NULs. */
  method CutEntry(buf: array<char>, tok: nat) returns (value: Option<nat>, addr: Option<nat>)
    requires Ends(buf[..], tok)
    modifies buf
    ensures EntryCut(old(buf[..]), buf[..], tok, value, addr) && TailKept(old(buf[..]), buf[..], tok)
  {
    addr := None;
    ghost var was := buf[..];
    value := CutAt(buf, tok, '=');
    if value.Some? {
      ghost var mid := buf[..];
      CutGives(was, mid, tok, '=', value);
      addr := CutAt(buf, value.value, ',');
      EntryCutIs(was, mid, buf[..], tok, value.value, addr);
      EntryTailKept(was, mid, buf[..], tok, value.value, addr);
    }
  }

  method LoadEntry(d: Appliance, buf: array<char>, tok: nat, parseIp: string -> Option<Word>)
    requires Loading(d) && d.serverCount < MAX_SERVERS && Ends(buf[..], tok)
    modifies buf, d.servers, d`serverCount
    ensures Loading(d)
    ensures TailKept(old(buf[..]), buf[..], tok)
    ensures d.servers[..d.serverCount] ==
            Consider(old(d.servers[..d.serverCount]), At(old(buf[..]), tok), parseIp)
  {
    var value, addr := CutEntry(buf, tok);
    if value.Some? {
      FillSlot(d, At(buf[..], tok), At(buf[..], value.value),
               if addr.Some? then Some(At(buf[..], addr.value)) else None, parseIp);
    }
  }

  /** Filling the next slot, which counts only if the MAC is accepted. */
  method FillSlot(d: Appliance, name: string, macText: string, ipText: Option<string>, parseIp: string -> Option<Word>)
    requires Loading(d) && d.serverCount < MAX_SERVERS && NulFree(name)
    modifies d.servers, d`serverCount
    ensures Loading(d)
    ensures d.servers[..d.serverCount] == old(d.servers[..d.serverCount]) +
              match ParseMac(macText)
              case Octets(mac) =>
                [Server(NameBuffer(name), mac, true, IpOf(if ipText.Some? then ipText.value else "", parseIp))]
              case _ => []
    ensures ParseMac(macText).Octets? ==>
              && d.serverCount == old(d.serverCount) + 1
              && Stores(d.servers[old(d.serverCount)], Entry(name, macText, ipText), parseIp)
  {
    var n := d.serverCount;
    ghost var before := d.servers[..n];
    NameSlot(d, n, name);
    var scan := ParseMac(macText);
    d.servers[n] := d.servers[n].(mac := scan.WriteTo(d.servers[n].mac));
    if scan.Ok() {
      d.servers[n] := d.servers[n].(active := true);
      AddressSlot(d, n, ipText, parseIp);
      d.serverCount := n + 1;
      StoredIs(name, macText, ipText, parseIp);
    }
    assert d.servers[..n] == before;
  }

  method NameSlot(d: Appliance, n: nat, name: string)
    requires d.Shape() && n < MAX_SERVERS && d.servers[n].name[NAME_LEN - 1] == NUL
    modifies d.servers
    ensures d.servers[n] == old(d.servers[n]).(name := NameBuffer(name))
    ensures d.servers[n].name[NAME_LEN - 1] == NUL
    ensures forall k :: 0 <= k < MAX_SERVERS && k != n ==> d.servers[k] == old(d.servers[k])
  {
    assert d.servers[n].name[NAME_LEN - 1..] == BLANK_NAME[NAME_LEN - 1..];
    assert Copied(d.servers[n].name, name, NAME_LEN - 1) == NameBuffer(name);
    assert NameBuffer(name)[NAME_LEN - 1] == BLANK_NAME[NAME_LEN - 1];
    d.servers[n] := d.servers[n].(name := Copied(d.servers[n].name, name, NAME_LEN - 1));
  }

  method AddressSlot(d: Appliance, n: nat, ipText: Option<string>, parseIp: string -> Option<Word>)
    requires d.Shape() && n < MAX_SERVERS
    modifies d.servers
    ensures d.servers[n] == old(d.servers[n]).(ip := AddressIn(ipText, parseIp))
    ensures forall k :: 0 <= k < MAX_SERVERS && k != n ==> d.servers[k] == old(d.servers[k])
  {
    d.servers[n] := d.servers[n].(ip := 0);
    if ipText.Some? && ipText.value != "" {
      var ip := parseIp(ipText.value);
      if ip.Some? {
        d.servers[n] := d.servers[n].(ip := ip.value);
      }
    }
  }

  lemma StoredIs(name: string, macText: string, ipText: Option<string>, parseIp: string -> Option<Word>)
    requires NulFree(name) && ParseMac(macText).Octets?
    ensures Stores(Server(NameBuffer(name), ParseMac(macText).mac, true, AddressIn(ipText, parseIp)),
                   Entry(name, macText, ipText), parseIp)
  {
    CopiedHolds(BLANK_NAME, name);
  }

  /** What the loop still has to do with a token in hand. */
  ghost function LoadFrom(table: seq<Server>, tok: string, rest: string, parseIp: string -> Option<Word>): seq<Server> {
    if |table| >= MAX_SERVERS then table else Load(rest, Consider(table, tok, parseIp), parseIp)
  }

  /** A token is in hand, and the text still to be read starts at or after its end. */
  ghost predicate InHand(buf: seq<char>, tok: nat, next: nat) {
    Ends(buf, tok) && Ends(buf, next) && tok + |At(buf, tok)| <= next
  }

  /** The table the loop ends with, as it stands between two tokens. */
  ghost function Outcome(table: seq<Server>, buf: seq<char>, tok: Option<nat>, next: nat,
                         parseIp: string -> Option<Word>): seq<Server>
    requires tok.Some? ==> InHand(buf, tok.value, next)
  {
    if tok.None? then table else LoadFrom(table, At(buf, tok.value), At(buf, next), parseIp)
  }

  /** The loop over the tokens of the text at the start of `buf`. */
  method LoadTokens(d: Appliance, buf: array<char>, parseIp: string -> Option<Word>)
    requires Loading(d) && d.serverCount == 0 && Ends(buf[..], 0)
    modifies buf, d.servers, d`serverCount
    ensures Loading(d) && d.servers[..d.serverCount] == Load(At(old(buf[..]), 0), [], parseIp)
  {
    ghost var all := Load(At(buf[..], 0), [], parseIp);
    assert d.servers[..0] == [];
    LoadUnfolds(At(buf[..], 0), [], parseIp);
    var tok: Option<nat>, next: nat := Strtok(buf, 0);
    while tok.Some? && d.serverCount < MAX_SERVERS
      invariant Loading(d)
      invariant tok.Some? ==> InHand(buf[..], tok.value, next)
      invariant all == Outcome(d.servers[..d.serverCount], buf[..], tok, next, parseIp)
      decreases if tok.Some? then 1 + |At(buf[..], next)| else 0
    {
      tok, next := LoadNext(d, buf, tok.value, next, parseIp);
    }
  }

  /** The loop body: the entry in hand, then the next token. */
  method LoadNext(d: Appliance, buf: array<char>, tok: nat, next: nat, parseIp: string -> Option<Word>)
    returns (tok': Option<nat>, next': nat)
    requires Loading(d) && d.serverCount < MAX_SERVERS && InHand(buf[..], tok, next)
    modifies buf, d.servers, d`serverCount
    ensures Loading(d)
    ensures tok'.Some? ==> InHand(buf[..], tok'.value, next') && |At(buf[..], next')| < |At(old(buf[..]), next)|
    ensures Outcome(d.servers[..d.serverCount], buf[..], tok', next', parseIp) ==
            old(Outcome(d.servers[..d.serverCount], buf[..], Some(tok), next, parseIp))
  {
    ghost var rest, was := At(buf[..], next), buf[..];
    LoadEntry(d, buf, tok, parseIp);
    AtKept(was, buf[..], next);
    LoadUnfolds(rest, d.servers[..d.serverCount], parseIp);
    tok', next' := Strtok(buf, next);
  }

  lemma LoadUnfolds(text: string, table: seq<Server>, parseIp: string -> Option<Word>)
    ensures var t := SkipBars(text); var k := IndexOf(t, '|');
            Load(text, table, parseIp) == if t == "" then table else LoadFrom(table, t[..k], AfterBar(t, k), parseIp)
    ensures var t := SkipBars(text); t != "" ==> |AfterBar(t, IndexOf(t, '|'))| < |text|
  {
  }

  /** `config_load_defaults`: everything cleared, then the compiled-in list. */
  method LoadDefaults(d: Appliance, text: string, autowake: bool, offset: Int16, parseIp: string -> Option<Word>)
    requires d.Shape() && NulFree(text)
    modifies d.servers, d.schedules, d`serverCount, d`scheduleCount, d`autowake, d`offset
    ensures Loading(d) && d.scheduleCount == 0 && d.autowake == autowake && d.offset == offset
    ensures d.servers[..d.serverCount] == Load(text[..Min(|text|, TEXT_MAX)], [], parseIp)
  {
    forall i | 0 <= i < MAX_SERVERS {
      d.servers[i] := ZERO_SERVER;
    }
    forall i | 0 <= i < MAX_SCHEDULES {
      d.schedules[i] := ZERO_SCHEDULE;
    }
    d.serverCount, d.scheduleCount := 0, 0;
    d.autowake := autowake;
    d.offset := offset;
    var buf := new char[TEXT_MAX + 1];
    Strncpy(buf, text, TEXT_MAX);
    buf[TEXT_MAX] := NUL;
    ghost var kept := text[..Min(|text|, TEXT_MAX)];
    CStrIs(buf[..], kept);
    assert buf[..][0..] == buf[..];
    LoadTokens(d, buf, parseIp);
  }

  /** The factory command of both front ends: defaults, then all monitors cleared. */
  method FactoryReset(d: Appliance, text: string, autowake: bool, offset: Int16, parseIp: string -> Option<Word>)
    requires d.Valid() && NulFree(text)
    modifies d.servers, d.monitors, d.schedules, d`serverCount, d`scheduleCount, d`autowake, d`offset, d`st
    ensures d.Valid()
    ensures d.st == Reset(old(d.st), Defaults(Load(text[..Min(|text|, TEXT_MAX)], [], parseIp), autowake, offset))
    ensures ResetTo(old(d.st), d.st, Load(text[..Min(|text|, TEXT_MAX)], [], parseIp), autowake, offset)
    ensures NamesDiffer(NamesIn(Tokens(text[..Min(|text|, TEXT_MAX)]))) ==> Kept(old(d.st), d.st)
  {
    ghost var was, kept := d.st, text[..Min(|text|, TEXT_MAX)];
    LoadDefaults(d, text, autowake, offset, parseIp);
    forall i | 0 <= i < MAX_SERVERS {
      d.monitors[i] := ZERO_MONITOR;
    }
    ghost var table := d.servers[..d.serverCount];
    d.st := Reset(d.st, Defaults(table, autowake, offset));
    if NamesDiffer(NamesIn(Tokens(kept))) {
      ResetIsKept(was, kept, autowake, offset, parseIp);
    }
  }

  lemma ResetIsKept(st: State, text: string, autowake: bool, offset: Int16, parseIp: string -> Option<Word>)
    requires NulFree(text) && NamesDiffer(NamesIn(Tokens(text)))
    ensures Kept(st, Reset(st, Defaults(Load(text, [], parseIp), autowake, offset)))
  {
    LoadIsOkIff(text, parseIp, autowake, offset);
    StepKept(st, Factory(Defaults(Load(text, [], parseIp), autowake, offset)));
  }

  // --- What the loop loads ---

  /** The non-empty pieces between bars. */
  function Tokens(text: string): seq<string>
    decreases |text|
  {
    var t := SkipBars(text);
    if t == "" then
      []
    else
      var k := IndexOf(t, '|');
      [t[..k]] + Tokens(AfterBar(t, k))
  }

  /** The well-formed entries, in order. */
  function Accepted(toks: seq<string>, parseIp: string -> Option<Word>): seq<Server> {
    if toks == [] then
      []
    else
      match ParseEntry(toks[0], parseIp)
      case Some(s) => [s] + Accepted(toks[1..], parseIp)
      case None => Accepted(toks[1..], parseIp)
  }

  function FirstFit(table: seq<Server>): seq<Server> {
    table[..Min(|table|, MAX_SERVERS)]
  }

  /** The table holds exactly the first 32 well-formed entries, in order. */
  lemma {:induction false} LoadIsFirstAccepted(text: string, table: seq<Server>, parseIp: string -> Option<Word>)
    requires |table| <= MAX_SERVERS
    ensures Load(text, table, parseIp) == FirstFit(table + Accepted(Tokens(text), parseIp))
    decreases |text|
  {
    var t := SkipBars(text);
    if t == "" {
      assert table + [] == table;
    } else if |table| == MAX_SERVERS {
      FullStaysFull(table, Accepted(Tokens(text), parseIp));
    } else {
      var k := IndexOf(t, '|');
      var toks := Tokens(text);
      assert toks[0] == t[..k] && toks[1..] == Tokens(AfterBar(t, k));
      LoadIsFirstAccepted(AfterBar(t, k), Consider(table, t[..k], parseIp), parseIp);
      AcceptOne(table, toks, parseIp);
    }
  }

  lemma FullStaysFull(table: seq<Server>, more: seq<Server>)
    requires |table| == MAX_SERVERS
    ensures FirstFit(table + more) == table
  {
  }

  lemma AcceptOne(table: seq<Server>, toks: seq<string>, parseIp: string -> Option<Word>)
    requires toks != []
    ensures table + Accepted(toks, parseIp) == Consider(table, toks[0], parseIp) + Accepted(toks[1..], parseIp)
  {
    var rest := Accepted(toks[1..], parseIp);
    match ParseEntry(toks[0], parseIp)
    case Some(s) => assert table + ([s] + rest) == (table + [s]) + rest;
    case None =>
  }

  /** The name a token's entry gets, if its MAC is well formed. */
  function NameIn(tok: string): Option<string> {
    var eq := IndexOf(tok, '=');
    if eq == |tok| then
      None
    else
      var value := tok[eq + 1..];
      if ParseMac(value[..IndexOf(value, ',')]).Ok() then Some(StoredName(tok[..eq])) else None
  }

  function StoredName(name: string): string {
    name[..Min(|name|, NAME_LEN - 1)]
  }

  /** The names in a list, in order, read off its text. */
  function NamesIn(toks: seq<string>): seq<string> {
    if toks == [] then
      []
    else
      match NameIn(toks[0])
      case Some(name) => [name] + NamesIn(toks[1..])
      case None => NamesIn(toks[1..])
  }

  /** The names of the first 32 entries with well-formed MACs differ pairwise. */
  predicate NamesDiffer(names: seq<string>) {
    forall i, j :: 0 <= i < j < |names| && j < MAX_SERVERS ==> names[i] != names[j]
  }

  lemma EntryNameIs(tok: string, parseIp: string -> Option<Word>)
    requires NulFree(tok)
    ensures ParseEntry(tok, parseIp).Some? <==> NameIn(tok).Some?
    ensures NameIn(tok).Some? ==> NameOf(ParseEntry(tok, parseIp).value) == NameIn(tok).value
  {
    var eq := IndexOf(tok, '=');
    CopiedHolds(BLANK_NAME, tok[..eq]);
  }

  lemma {:induction false} AcceptedNames(toks: seq<string>, parseIp: string -> Option<Word>)
    requires forall i :: 0 <= i < |toks| ==> NulFree(toks[i])
    ensures |Accepted(toks, parseIp)| == |NamesIn(toks)|
    ensures forall i :: 0 <= i < |NamesIn(toks)| ==> NameOf(Accepted(toks, parseIp)[i]) == NamesIn(toks)[i]
  {
    if toks != [] {
      EntryNameIs(toks[0], parseIp);
      AcceptedNames(toks[1..], parseIp);
    }
  }

  lemma {:induction false} TokensAreNulFree(text: string)
    requires NulFree(text)
    ensures forall i :: 0 <= i < |Tokens(text)| ==> NulFree(Tokens(text)[i])
    decreases |text|
  {
    BarsAreNulFree(text);
    var t := SkipBars(text);
    if t != "" {
      TokensAreNulFree(AfterBar(t, IndexOf(t, '|')));
    }
  }

  lemma {:induction false} BarsAreNulFree(s: string)
    requires NulFree(s)
    ensures NulFree(SkipBars(s))
  {
    if s != "" && s[0] == '|' {
      BarsAreNulFree(s[1..]);
    }
  }

  /** Loaded servers are active, with terminated names; distinct names are left to the list. */
  lemma LoadedAreActive(text: string, parseIp: string -> Option<Word>, autowake: bool, offset: Int16)
    requires NulFree(text)
    ensures var table := Load(text, [], parseIp);
            && table == FirstFit(Accepted(Tokens(text), parseIp))
            && (DefaultsOk(Defaults(table, autowake, offset)) <==>
                forall i, j :: 0 <= i < j < |table| ==> NameOf(table[i]) != NameOf(table[j]))
  {
    LoadIsFirstAccepted(text, [], parseIp);
    assert [] + Accepted(Tokens(text), parseIp) == Accepted(Tokens(text), parseIp);
    AcceptedAreActive(Tokens(text), parseIp);
  }

  /** The loaded table is fit to start from exactly if the first 32 entries of the text with
      well-formed MACs have names that differ within 31 bytes. */
  lemma LoadIsOkIff(text: string, parseIp: string -> Option<Word>, autowake: bool, offset: Int16)
    requires NulFree(text)
    ensures DefaultsOk(Defaults(Load(text, [], parseIp), autowake, offset)) <==> NamesDiffer(NamesIn(Tokens(text)))
  {
    LoadedAreActive(text, parseIp, autowake, offset);
    TokensAreNulFree(text);
    AcceptedNames(Tokens(text), parseIp);
    var names, table := NamesIn(Tokens(text)), Load(text, [], parseIp);
    assert forall i :: 0 <= i < |table| ==> NameOf(table[i]) == names[i];
  }

  lemma {:induction false} AcceptedAreActive(toks: seq<string>, parseIp: string -> Option<Word>)
    ensures forall i :: 0 <= i < |Accepted(toks, parseIp)| ==>
              Accepted(toks, parseIp)[i].active && Accepted(toks, parseIp)[i].name[NAME_LEN - 1] == NUL
  {
    if toks != [] {
      AcceptedAreActive(toks[1..], parseIp);
    }
  }

  // --- Printing the list and reading it back ---

  datatype Entry = Entry(name: string, mac: string, ip: Option<string>)

  predicate EntryOk(e: Entry) {
    && '=' !in e.name && '|' !in e.name
    && ',' !in e.mac && '|' !in e.mac
    && (e.ip.Some? ==> '|' !in e.ip.value)
  }

  function EntryText(e: Entry): string {
    e.name + "=" + e.mac + if e.ip.Some? then "," + e.ip.value else ""
  }

  /** What an entry means: its MAC decides, its name is cut to 31 bytes, a bad address counts as none. */
  function EntryServer(e: Entry, parseIp: string -> Option<Word>): Option<Server> {
    match ParseMac(e.mac)
    case Octets(mac) => Some(Server(NameBuffer(e.name), mac, true, AddressIn(e.ip, parseIp)))
    case _ => None
  }

  /** The address given, if there is one, it is not empty and the parser accepts it. */
  function AddressIn(ip: Option<string>, parseIp: string -> Option<Word>): Word {
    if ip.Some? && ip.value != "" && parseIp(ip.value).Some? then parseIp(ip.value).value else 0
  }

  function Barred(entries: seq<Entry>): string {
    if entries == [] then ""
    else if |entries| == 1 then EntryText(entries[0])
    else EntryText(entries[0]) + "|" + Barred(entries[1..])
  }

  /** What follows an entry's equals sign. */
  function ValuePart(e: Entry): string {
    e.mac + if e.ip.Some? then [','] + e.ip.value else ""
  }

  lemma NameSplits(e: Entry)
    requires EntryOk(e)
    ensures var t := EntryText(e);
            IndexOf(t, '=') == |e.name| < |t| && t[..|e.name|] == e.name && t[|e.name| + 1..] == ValuePart(e)
  {
    assert EntryText(e) == e.name + (['='] + ValuePart(e));
    IndexIs(e.name, '=', ['='] + ValuePart(e));
    Prefixed(e.name + ['='], ValuePart(e));
    assert EntryText(e) == (e.name + ['=']) + ValuePart(e);
  }

  lemma ValueSplits(e: Entry)
    requires EntryOk(e)
    ensures var value := ValuePart(e);
            && IndexOf(value, ',') == |e.mac| && value[..|e.mac|] == e.mac
            && AfterBar(value, |e.mac|) == if e.ip.Some? then e.ip.value else ""
  {
    IndexIs(e.mac, ',', if e.ip.Some? then [','] + e.ip.value else "");
    assert e.ip.Some? ==> ValuePart(e)[|e.mac| + 1..] == e.ip.value;
  }

  lemma EntryReadBack(e: Entry, parseIp: string -> Option<Word>)
    requires EntryOk(e)
    ensures ParseEntry(EntryText(e), parseIp) == EntryServer(e, parseIp)
  {
    NameSplits(e);
    ValueSplits(e);
  }

  function Meant(entries: seq<Entry>, parseIp: string -> Option<Word>): seq<Server> {
    if entries == [] then
      []
    else
      match EntryServer(entries[0], parseIp)
      case Some(s) => [s] + Meant(entries[1..], parseIp)
      case None => Meant(entries[1..], parseIp)
  }

  lemma TokensOfJoin(tok: string, rest: string)
    requires tok != "" && '|' !in tok
    ensures Tokens(tok) == [tok]
    ensures Tokens(tok + "|" + rest) == [tok] + Tokens(rest)
  {
    assert tok[0] in tok;
    assert tok + "" == tok;
    IndexIs(tok, '|', "");
    var s := tok + "|" + rest;
    assert s == tok + (['|'] + rest);
    IndexIs(tok, '|', ['|'] + rest);
    assert s[..|tok|] == tok && s[|tok| + 1..] == rest;
    assert SkipBars(s) == s && SkipBars(tok) == tok;
  }

  lemma {:induction false} AcceptedIsMeant(entries: seq<Entry>, parseIp: string -> Option<Word>)
    requires forall i :: 0 <= i < |entries| ==> EntryOk(entries[i])
    ensures Accepted(Tokens(Barred(entries)), parseIp) == Meant(entries, parseIp)
  {
    if entries != [] {
      var tok := EntryText(entries[0]);
      EntryReadBack(entries[0], parseIp);
      assert '|' !in tok;
      if |entries| == 1 {
        TokensOfJoin(tok, "");
        assert Meant(entries[1..], parseIp) == [];
      } else {
        TokensOfJoin(tok, Barred(entries[1..]));
        AcceptedIsMeant(entries[1..], parseIp);
        var toks := Tokens(Barred(entries));
        assert toks[0] == tok && toks[1..] == Tokens(Barred(entries[1..]));
      }
    }
  }

  /** Any printed list within 511 bytes loads as the first 32 of its well-formed entries. */
  lemma PrintedListLoads(entries: seq<Entry>, parseIp: string -> Option<Word>)
    requires forall i :: 0 <= i < |entries| ==> EntryOk(entries[i])
    requires |Barred(entries)| <= TEXT_MAX
    ensures var text := Barred(entries);
            Load(text[..Min(|text|, TEXT_MAX)], [], parseIp) == FirstFit(Meant(entries, parseIp))
  {
    var text := Barred(entries);
    assert text[..|text|] == text;
    LoadIsFirstAccepted(text, [], parseIp);
    AcceptedIsMeant(entries, parseIp);
    assert [] + Meant(entries, parseIp) == Meant(entries, parseIp);
  }

  function WellFormed(entries: seq<Entry>): seq<Entry> {
    if entries == [] then []
    else if ParseMac(entries[0].mac).Octets? then [entries[0]] + WellFormed(entries[1..])
    else WellFormed(entries[1..])
  }

  /** The record keeps what the entry says: its MAC, 31 bytes of its name, and its address if it gives
      one that the parser accepts. */
  predicate Stores(s: Server, e: Entry, parseIp: string -> Option<Word>) {
    && s.active && ParseMac(e.mac) == Octets(s.mac)
    && NameOf(s) == e.name[..Min(|e.name|, 31)]
    && s.ip == if e.ip.Some? && e.ip.value != "" && parseIp(e.ip.value).Some? then parseIp(e.ip.value).value else 0
  }

  lemma {:induction false} MeantIsStored(entries: seq<Entry>, parseIp: string -> Option<Word>)
    requires forall i :: 0 <= i < |entries| ==> NulFree(entries[i].name)
    ensures |Meant(entries, parseIp)| == |WellFormed(entries)|
    ensures forall k :: 0 <= k < |WellFormed(entries)| ==>
              Stores(Meant(entries, parseIp)[k], WellFormed(entries)[k], parseIp)
  {
    if entries != [] {
      MeantIsStored(entries[1..], parseIp);
      if ParseMac(entries[0].mac).Octets? {
        StoredIs(entries[0].name, entries[0].mac, entries[0].ip, parseIp);
      }
    }
  }

  /** A printed list within 511 bytes, on the fields: one record for each of the first 32 entries with
      a well-formed MAC, in order, holding its name, MAC and address. */
  lemma PrintedListStores(entries: seq<Entry>, parseIp: string -> Option<Word>)
    requires forall i :: 0 <= i < |entries| ==> EntryOk(entries[i]) && NulFree(entries[i].name)
    requires |Barred(entries)| <= TEXT_MAX
    ensures var text := Barred(entries);
            var table, kept := Load(text[..Min(|text|, TEXT_MAX)], [], parseIp), WellFormed(entries);
            |table| == Min(|kept|, 32) && forall k :: 0 <= k < |table| ==> Stores(table[k], kept[k], parseIp)
  {
    PrintedListLoads(entries, parseIp);
    MeantIsStored(entries, parseIp);
  }

  /** The names of the entries with well-formed MACs, as they are stored. */
  function EntryNames(entries: seq<Entry>): seq<string> {
    if entries == [] then []
    else if ParseMac(entries[0].mac).Ok() then [StoredName(entries[0].name)] + EntryNames(entries[1..])
    else EntryNames(entries[1..])
  }

  lemma EntryNameReadBack(e: Entry)
    requires EntryOk(e)
    ensures NameIn(EntryText(e)) == if ParseMac(e.mac).Ok() then Some(StoredName(e.name)) else None
  {
    NameSplits(e);
    ValueSplits(e);
  }

  lemma {:induction false} NamesReadBack(entries: seq<Entry>)
    requires forall i :: 0 <= i < |entries| ==> EntryOk(entries[i])
    ensures NamesIn(Tokens(Barred(entries))) == EntryNames(entries)
  {
    if entries != [] {
      var tok := EntryText(entries[0]);
      EntryNameReadBack(entries[0]);
      assert '|' !in tok;
      NamesReadBack(entries[1..]);
      if |entries| == 1 {
        TokensOfJoin(tok, "");
        assert [tok][1..] == [];
      } else {
        TokensOfJoin(tok, Barred(entries[1..]));
        var toks := Tokens(Barred(entries));
        assert toks[0] == tok && toks[1..] == Tokens(Barred(entries[1..]));
      }
    }
  }

  /** For a printed list: exactly if the names of its first 32 entries with well-formed MACs,
      each cut to 31 bytes, are pairwise distinct. */
  lemma PrintedListIsOkIff(entries: seq<Entry>, parseIp: string -> Option<Word>, autowake: bool, offset: Int16)
    requires forall i :: 0 <= i < |entries| ==> EntryOk(entries[i])
    requires NulFree(Barred(entries)) && |Barred(entries)| <= TEXT_MAX
    ensures var text := Barred(entries);
            DefaultsOk(Defaults(Load(text[..Min(|text|, TEXT_MAX)], [], parseIp), autowake, offset)) <==>
            NamesDiffer(EntryNames(entries))
  {
    var text := Barred(entries);
    assert text[..|text|] == text;
    LoadIsOkIff(text, parseIp, autowake, offset);
    NamesReadBack(entries);
  }

  lemma PairNames(a: Entry, b: Entry)
    requires ParseMac(a.mac).Ok() && ParseMac(b.mac).Ok()
    ensures EntryNames([a, b]) == [StoredName(a.name), StoredName(b.name)]
  {
    assert [a, b][1..] == [b] && [b][1..] == [];
    assert EntryNames([b]) == [StoredName(b.name)];
  }

  lemma PairText(a: Entry, b: Entry)
    requires a.ip.None? && b.ip.None? && NulFree(a.name) && NulFree(b.name) && NulFree(a.mac) && NulFree(b.mac)
    ensures NulFree(Barred([a, b])) && |Barred([a, b])| == |a.name| + |a.mac| + |b.name| + |b.mac| + 3
  {
    assert [a, b][1..] == [b];
    assert Barred([a, b]) == EntryText(a) + "|" + EntryText(b);
  }

  function StemEntry(stem: string, c: char, mac: Mac): Entry {
    Entry(stem + [c], MacText(mac), None)
  }

  lemma StemEntryIs(stem: string, c: char, mac: Mac)
    requires |stem| == NAME_LEN - 1 && 'a' <= c <= 'z' && forall i :: 0 <= i < |stem| ==> 'a' <= stem[i] <= 'z'
    ensures var e := StemEntry(stem, c, mac);
            EntryOk(e) && NulFree(e.name) && NulFree(e.mac) && ParseMac(e.mac).Ok() && StoredName(e.name) == stem
  {
    ParsePairs(mac, true);
  }

  /** Two names that differ only after byte 31 make such a list fail. */
  lemma LongNamesCollide(stem: string, mac: Mac, parseIp: string -> Option<Word>, autowake: bool, offset: Int16)
    requires |stem| == NAME_LEN - 1 && forall i :: 0 <= i < |stem| ==> 'a' <= stem[i] <= 'z'
    ensures var list := [StemEntry(stem, 'a', mac), StemEntry(stem, 'b', mac)];
            && (forall i :: 0 <= i < |list| ==> EntryOk(list[i])) && list[0].name != list[1].name
            && !DefaultsOk(Defaults(Load(Barred(list), [], parseIp), autowake, offset))
  {
    var a, b := StemEntry(stem, 'a', mac), StemEntry(stem, 'b', mac);
    StemEntryIs(stem, 'a', mac);
    StemEntryIs(stem, 'b', mac);
    assert a.name[|stem|] != b.name[|stem|];
    PairText(a, b);
    PairNames(a, b);
    var names, text := EntryNames([a, b]), Barred([a, b]);
    assert names[0] == names[1];
    assert text[..|text|] == text;
    PrintedListIsOkIff([a, b], parseIp, autowake, offset);
  }
}
