/** The add branches of the two front ends from the bytes they receive: a command line
    of `tcp_cmd.c` and a request body of `http_server.c`. */
module FrontEnds {
  import opened Words
  import opened CStrings
  import opened Config
  import opened System
  import opened Device
  import opened Invariants
  import opened Edits
  import opened Util
  import J = Json
  import Tables

  /** The name, MAC and address texts a front end hands on; no address is an empty text. */
  datatype Args = Args(name: string, mac: string, ip: string)

  /** `sscanf` on what follows the command word: at least name and MAC. */
  function TcpArgs(rest: string): Option<Args> {
    var ws := ScanWords(rest, ADD_WIDTHS);
    if |ws| < 2 then None else Some(Args(ws[0], ws[1], if |ws| == 3 then ws[2] else ""))
  }

  /** A body field as `json_get_string` reports it: empty text counts as missing. */
  function Text(body: string, key: string, maxLen: nat): string
    requires maxLen > 0
  {
    match J.GetString(body, key, maxLen)
    case Some(s) => s
    case None => ""
  }

  function HttpArgs(body: string): Option<Args> {
    var name, mac := Text(body, "name", NAME_LEN), Text(body, "mac", 18);
    if name == "" || mac == "" then None else Some(Args(name, mac, Text(body, "ip", 16)))
  }

  /** The addition both branches perform on their arguments. */
  function Effect(st: State, args: Option<Args>, parseIp: string -> Option<Word>): State {
    match args
    case None => st
    case Some(a) =>
      if a.ip == "" then Added(st, a.name, ParseMac(a.mac), None)
      else
        match parseIp(a.ip)
        case None => st
        case Some(ip) => Added(st, a.name, ParseMac(a.mac), Some(ip))
  }

  // --- In place ---

  lemma {:induction false} WordsAreNulFree(s: string, widths: seq<nat>)
    requires NulFree(s)
    ensures forall i :: 0 <= i < |ScanWords(s, widths)| ==> NulFree(ScanWords(s, widths)[i])
    decreases |widths|
  {
    if widths != [] {
      SkipIsNulFree(s);
      match ScanWord(s, widths[0])
      case None =>
      case Some((w, rest)) => WordsAreNulFree(rest, widths[1..]);
    }
  }

  lemma {:induction false} SkipIsNulFree(s: string)
    requires NulFree(s)
    ensures NulFree(SkipSpace(s))
  {
    if s != "" && IsSpace(s[0]) {
      SkipIsNulFree(s[1..]);
    }
  }

  /** The branch both front ends share once they have their arguments. */
  method AddFrom(d: Appliance, a: Args, parseIp: string -> Option<Word>) returns (r: Tables.Response)
    requires d.Valid() && NulFree(a.name) && |a.name| < NAME_LEN
    modifies d`serverCount, d`st, d.servers, d.monitors
    ensures d.Valid() && d.st == Effect(old(d.st), Some(a), parseIp) && Kept(old(d.st), d.st)
  {
    var addr: Tables.Addr := Tables.Absent;
    if a.ip != "" {
      var ip := parseIp(a.ip);
      addr := if ip.Some? then Tables.Good(ip.value) else Tables.Bad;
    }
    r := Tables.AddServer(d, a.name, a.mac, addr);
  }

  method TcpAdd(d: Appliance, rest: string, parseIp: string -> Option<Word>) returns (r: Option<Tables.Response>)
    requires d.Valid() && NulFree(rest)
    modifies d`serverCount, d`st, d.servers, d.monitors
    ensures d.Valid() && d.st == Effect(old(d.st), TcpArgs(rest), parseIp) && Kept(old(d.st), d.st)
    ensures r.None? <==> TcpArgs(rest).None?
  {
    var ws := ScanWords(rest, ADD_WIDTHS);
    if |ws| < 2 {
      return None;
    }
    WordsAreNulFree(rest, ADD_WIDTHS);
    var response := AddFrom(d, Args(ws[0], ws[1], if |ws| == 3 then ws[2] else ""), parseIp);
    return Some(response);
  }

  lemma TextIsNulFree(body: string, key: string, maxLen: nat)
    requires NulFree(body) && maxLen > 0
    ensures NulFree(Text(body, key, maxLen)) && |Text(body, key, maxLen)| < maxLen
  {
    if J.Located(body, key).Some? {
      BlanksAreNulFree(body[J.PastPattern(body, key)..]);
    }
  }

  lemma {:induction false} BlanksAreNulFree(s: string)
    requires NulFree(s)
    ensures NulFree(J.SkipBlanks(s))
  {
    if s != "" && s[0] == ' ' {
      BlanksAreNulFree(s[1..]);
    }
  }

  /** `json_get_string` into a local buffer that starts out holding no text. */
  method TextField(body: string, key: string, maxLen: nat) returns (text: string)
    requires NulFree(body) && maxLen > 0
    ensures text == Text(body, key, maxLen)
  {
    var out := new char[maxLen](_ => NUL);
    CStrIs(out[..], "");
    var ok := J.JsonGetString(body, key, out, maxLen);
    text := CStr(out[..]);
  }

  method HttpAdd(d: Appliance, body: string, parseIp: string -> Option<Word>) returns (r: Option<Tables.Response>)
    requires d.Valid() && NulFree(body)
    modifies d`serverCount, d`st, d.servers, d.monitors
    ensures d.Valid() && d.st == Effect(old(d.st), HttpArgs(body), parseIp) && Kept(old(d.st), d.st)
    ensures r.None? <==> HttpArgs(body).None?
  {
    var name := TextField(body, "name", NAME_LEN);
    var mac := TextField(body, "mac", 18);
    if name == "" || mac == "" {
      return None;
    }
    var ip := TextField(body, "ip", 16);
    TextIsNulFree(body, "name", NAME_LEN);
    var response := AddFrom(d, Args(name, mac, ip), parseIp);
    return Some(response);
  }

  // --- The same server from either side ---

  /** The line a user types, before any line end. */
  function TypedLine(name: string, mac: Mac, ip: string): string {
    "add " + Joined(LineWords(name, MacText(mac), ip))
  }

  function LineWords(name: string, mac: string, ip: string): seq<string> {
    if ip == "" then [name, mac] else [name, mac, ip]
  }

  /** The object the web page posts. */
  function AddFields(name: string, mac: Mac, ip: string): seq<J.Field> {
    [J.Field("name", J.Str(name)), J.Field("mac", J.Str(MacText(mac)))] +
    if ip == "" then [] else [J.Field("ip", J.Str(ip))]
  }

  predicate NameOk(name: string) {
    IsWord(name) && |name| < NAME_LEN && J.Plain(name)
  }

  /** An address text: no longer than its field, without letters, blanks or quotes. */
  predicate IpOk(ip: string) {
    |ip| <= 15 && forall i :: 0 <= i < |ip| ==> '0' <= ip[i] <= '9' || ip[i] == '.'
  }

  lemma LowerJoined(words: seq<string>)
    ensures LowerAll(Joined(words)) == Joined(seq(|words|, i requires 0 <= i < |words| => LowerAll(words[i])))
  {
    if |words| > 1 {
      LowerJoined(words[1..]);
      var low := seq(|words|, i requires 0 <= i < |words| => LowerAll(words[i]));
      assert low[1..] == seq(|words[1..]|, i requires 0 <= i < |words[1..]| => LowerAll(words[1..][i]));
      assert LowerAll(words[0] + [' '] + Joined(words[1..])) ==
             LowerAll(words[0]) + [' '] + LowerAll(Joined(words[1..]));
    }
  }

  lemma LowerLine(name: string, mac: Mac, ip: string)
    requires IpOk(ip)
    ensures LowerAll(TypedLine(name, mac, ip)) == "add " + Joined(LineWords(LowerAll(name), LowerAll(MacText(mac)), ip))
  {
    var words := LineWords(name, MacText(mac), ip);
    LowerJoined(words);
    assert LowerAll(ip) == ip;
    assert seq(|words|, i requires 0 <= i < |words| => LowerAll(words[i])) ==
           LineWords(LowerAll(name), LowerAll(MacText(mac)), ip);
    assert LowerAll("add " + Joined(words)) == "add " + LowerAll(Joined(words));
  }

  lemma {:induction false} JoinedEnds(words: seq<string>)
    requires words != [] && words[|words| - 1] != ""
    ensures var text, last := Joined(words), words[|words| - 1];
            text != "" && text[|text| - 1] == last[|last| - 1]
  {
    if |words| > 1 {
      JoinedEnds(words[1..]);
    }
  }

  lemma LineEnds(name: string, mac: Mac, ip: string)
    requires IpOk(ip)
    ensures var line := TypedLine(name, mac, ip); line != "" && !IsTail(line[|line| - 1])
  {
    JoinedEnds(LineWords(name, MacText(mac), ip));
  }

  lemma WordsOfLine(name: string, mac: Mac, ip: string)
    requires IsWord(name) && |name| < NAME_LEN && IpOk(ip)
    ensures TcpArgs(Joined(LineWords(LowerAll(name), LowerAll(MacText(mac)), ip))) ==
            Some(Args(LowerAll(name), LowerAll(MacText(mac)), ip))
  {
    var words := LineWords(LowerAll(name), LowerAll(MacText(mac)), ip);
    ScanJoined(words, ADD_WIDTHS);
  }

  /** What the command line understands of a typed add command: the name in lower case. */
  lemma TcpUnderstands(name: string, mac: Mac, ip: string, tail: string)
    requires IsWord(name) && |name| < NAME_LEN && IpOk(ip)
    requires forall i :: 0 <= i < |tail| ==> IsTail(tail[i])
    ensures var line := Trimmed(TypedLine(name, mac, ip) + tail);
            && StartsWith(line, "add ")
            && TcpArgs(line[4..]) == Some(Args(LowerAll(name), LowerAll(MacText(mac)), ip))
  {
    LineEnds(name, mac, ip);
    ChopTail(TypedLine(name, mac, ip), tail);
    LowerLine(name, mac, ip);
    WordsOfLine(name, mac, ip);
    Prefixed("add ", Joined(LineWords(LowerAll(name), LowerAll(MacText(mac)), ip)));
  }

  lemma FieldsAreOk(name: string, mac: Mac, ip: string)
    requires NameOk(name) && IpOk(ip)
    ensures J.FieldsOk(AddFields(name, mac, ip))
  {
    assert forall i :: 0 <= i < 17 ==> MacText(mac)[i] != '"';
    assert "name"[0] == 'n' && "mac"[0] == 'm' && "ip"[0] == 'i';
  }

  lemma ObjectFits(name: string, mac: Mac, ip: string)
    requires |name| < NAME_LEN && |ip| <= 15
    ensures |J.ObjectText(AddFields(name, mac, ip))| <= J.BODY_MAX
  {
    var fs := AddFields(name, mac, ip);
    J.TailLength(fs);
    J.TailLength(fs[1..]);
    if |fs| == 3 {
      J.TailLength(fs[1..][1..]);
    }
  }

  /** One text field of a posted object, read into a buffer it fits. */
  lemma FieldReadsBack(fs: seq<J.Field>, i: nat, maxLen: nat, chunks: seq<string>)
    requires i < |fs| && J.FieldsOk(fs) && fs[i].key in {"name", "mac", "ip"} && fs[i].value.Str?
    requires |fs[i].value.s| < maxLen && |J.ObjectText(fs)| <= J.BODY_MAX
    requires J.Flat(chunks) == J.ObjectText(fs)
    ensures Text(J.Received(chunks), fs[i].key, maxLen) == fs[i].value.s
  {
    var key, s := fs[i].key, fs[i].value.s;
    KeyIsOrdinary(key);
    J.ChunkedGettersReadBack(chunks, fs, i, maxLen);
    assert s[..|s|] == s;
  }

  lemma KeyIsOrdinary(key: string)
    requires key in {"name", "mac", "ip"}
    ensures J.ShortKey(key) && !J.Confusable(key)
  {
    assert key[0] == 'n' || key[0] == 'm' || key[0] == 'i';
    J.OrdinaryKeys(key);
  }

  lemma AbsentField(fs: seq<J.Field>, chunks: seq<string>)
    requires J.FieldsOk(fs) && |J.ObjectText(fs)| <= J.BODY_MAX && J.Flat(chunks) == J.ObjectText(fs)
    requires forall i :: 0 <= i < |fs| ==> fs[i].key != "ip"
    ensures Text(J.Received(chunks), "ip", 16) == ""
  {
    KeyIsOrdinary("ip");
    J.ReceivedIsClipped(chunks);
    var body := J.ObjectText(fs);
    assert body[..|body|] == body;
    J.AbsentIsNotFound(fs, "ip");
  }

  /** What the web server understands of a posted object, however it arrives. */
  lemma HttpUnderstands(name: string, mac: Mac, ip: string, chunks: seq<string>)
    requires NameOk(name) && IpOk(ip)
    requires J.Flat(chunks) == J.ObjectText(AddFields(name, mac, ip))
    ensures HttpArgs(J.Received(chunks)) == Some(Args(name, MacText(mac), ip))
  {
    var fs := AddFields(name, mac, ip);
    FieldsAreOk(name, mac, ip);
    ObjectFits(name, mac, ip);
    FieldReadsBack(fs, 0, NAME_LEN, chunks);
    FieldReadsBack(fs, 1, 18, chunks);
    if ip == "" {
      AbsentField(fs, chunks);
    } else {
      FieldReadsBack(fs, 2, 16, chunks);
    }
  }

  /** Adding a server by command line or by web form, in whatever chunks the form arrives: the
      two leave the same state, except that the command line stores the name in lower case. */
  lemma FrontEndsAgree(
      st: State, name: string, mac: Mac, ip: string, tail: string, chunks: seq<string>, parseIp: string -> Option<Word>)
    requires NameOk(name) && IpOk(ip) && forall i :: 0 <= i < |tail| ==> IsTail(tail[i])
    requires J.Flat(chunks) == J.ObjectText(AddFields(name, mac, ip))
    ensures var line := Trimmed(TypedLine(name, mac, ip) + tail);
            var ok := ip == "" || parseIp(ip).Some?;
            var addr := if ip == "" then None else parseIp(ip);
            && StartsWith(line, "add ")
            && Effect(st, TcpArgs(line[4..]), parseIp) ==
               (if ok then Added(st, LowerAll(name), Octets(mac), addr) else st)
            && Effect(st, HttpArgs(J.Received(chunks)), parseIp) ==
               (if ok then Added(st, name, Octets(mac), addr) else st)
    ensures LowerAll(name) == name ==>
              Effect(st, TcpArgs(Trimmed(TypedLine(name, mac, ip) + tail)[4..]), parseIp) ==
              Effect(st, HttpArgs(J.Received(chunks)), parseIp)
  {
    TcpUnderstands(name, mac, ip, tail);
    HttpUnderstands(name, mac, ip, chunks);
    LowerPairs(mac);
    ParsePairs(mac, false);
    ParsePairs(mac, true);
  }

  /** Both commands do the same to this table. */
  predicate SameEffect(st: State, rest: string, body: string, parseIp: string -> Option<Word>) {
    Effect(st, TcpArgs(rest), parseIp) == Effect(st, HttpArgs(body), parseIp)
  }

  /** Two names add two different records to an empty table. */
  lemma NamesTell(st: State, a: string, b: string, mac: Mac, addr: Option<Word>)
    requires st.recs == [] && a != b && NulFree(a) && NulFree(b) && |a| < NAME_LEN && |b| < NAME_LEN
    ensures Added(st, a, Octets(mac), addr) != Added(st, b, Octets(mac), addr)
  {
    StoredNameFits(a);
    StoredNameFits(b);
    assert a[..|a|] == a && b[..|b|] == b;
    assert Added(st, a, Octets(mac), addr).recs[0].server.name == NameBuffer(a);
    assert Added(st, b, Octets(mac), addr).recs[0].server.name == NameBuffer(b);
  }

  /** The two add commands agree on every table exactly if the name has no capitals, or both
      refuse the address. */
  lemma FrontEndsAgreeIff(
      name: string, mac: Mac, ip: string, tail: string, chunks: seq<string>, parseIp: string -> Option<Word>)
    requires NameOk(name) && IpOk(ip) && forall i :: 0 <= i < |tail| ==> IsTail(tail[i])
    requires J.Flat(chunks) == J.ObjectText(AddFields(name, mac, ip))
    ensures var line := Trimmed(TypedLine(name, mac, ip) + tail);
            && StartsWith(line, "add ")
            && ((forall st: State :: SameEffect(st, line[4..], J.Received(chunks), parseIp)) <==>
                LowerAll(name) == name || (ip != "" && parseIp(ip).None?))
  {
    TcpUnderstands(name, mac, ip, tail);
    var rest := Trimmed(TypedLine(name, mac, ip) + tail)[4..];
    forall st: State
      ensures LowerAll(name) == name || (ip != "" && parseIp(ip).None?) ==>
                SameEffect(st, rest, J.Received(chunks), parseIp)
    {
      FrontEndsAgree(st, name, mac, ip, tail, chunks, parseIp);
    }
    var empty := State([], [], 0, 0, false, false, 0, []);
    FrontEndsAgree(empty, name, mac, ip, tail, chunks, parseIp);
    if LowerAll(name) != name && (ip == "" || parseIp(ip).Some?) {
      LowerKeepsNulFree(name);
      NamesTell(empty, LowerAll(name), name, mac, if ip == "" then None else parseIp(ip));
      assert !SameEffect(empty, rest, J.Received(chunks), parseIp);
    }
  }

  /** The address a command gives: none, or what the parser makes of it. */
  function Given(ip: string, parseIp: string -> Option<Word>): Word {
    if ip != "" && parseIp(ip).Some? then parseIp(ip).value else 0
  }

  /** A name the table does not know, with room for it: from either side the table ends with one
      more record, holding the typed or posted name, MAC and address. */
  lemma BothAppend(
      st: State, name: string, mac: Mac, ip: string, tail: string, chunks: seq<string>, parseIp: string -> Option<Word>)
    requires NameOk(name) && IpOk(ip) && forall i :: 0 <= i < |tail| ==> IsTail(tail[i])
    requires J.Flat(chunks) == J.ObjectText(AddFields(name, mac, ip))
    requires |st.recs| < MAX_SERVERS && (ip == "" || parseIp(ip).Some?)
    ensures var line := Trimmed(TypedLine(name, mac, ip) + tail);
            && StartsWith(line, "add ")
            && (!Knows(st, LowerAll(name)) ==>
                  Appended(st, Effect(st, TcpArgs(line[4..]), parseIp), LowerAll(name), mac, Given(ip, parseIp)))
    ensures !Knows(st, name) ==>
              Appended(st, Effect(st, HttpArgs(J.Received(chunks)), parseIp), name, mac, Given(ip, parseIp))
  {
    FrontEndsAgree(st, name, mac, ip, tail, chunks, parseIp);
    LowerKeepsNulFree(name);
    var addr := if ip == "" then None else parseIp(ip);
    if !Knows(st, LowerAll(name)) {
      AddsNew(st, LowerAll(name), mac, addr);
    }
    if !Knows(st, name) {
      AddsNew(st, name, mac, addr);
    }
  }

  /** A name the table knows: its first record gets the MAC, and the address if one is given. */
  lemma BothEdit(
      st: State, name: string, mac: Mac, ip: string, tail: string, chunks: seq<string>, parseIp: string -> Option<Word>)
    requires NameOk(name) && IpOk(ip) && forall i :: 0 <= i < |tail| ==> IsTail(tail[i])
    requires J.Flat(chunks) == J.ObjectText(AddFields(name, mac, ip)) && (ip == "" || parseIp(ip).Some?)
    ensures var line := Trimmed(TypedLine(name, mac, ip) + tail);
            && StartsWith(line, "add ")
            && forall i: nat :: IsFirst(st, i, LowerAll(name)) ==>
                 Edited(st, Effect(st, TcpArgs(line[4..]), parseIp), i, mac,
                        if ip == "" then st.recs[i].server.ip else Given(ip, parseIp))
    ensures forall i: nat :: IsFirst(st, i, name) ==>
              Edited(st, Effect(st, HttpArgs(J.Received(chunks)), parseIp), i, mac,
                     if ip == "" then st.recs[i].server.ip else Given(ip, parseIp))
  {
    FrontEndsAgree(st, name, mac, ip, tail, chunks, parseIp);
    var addr := if ip == "" then None else parseIp(ip);
    forall i: nat | IsFirst(st, i, LowerAll(name))
      ensures Edited(st, Added(st, LowerAll(name), Octets(mac), addr), i, mac,
                     if ip == "" then st.recs[i].server.ip else Given(ip, parseIp))
    {
      AddsKnown(st, LowerAll(name), Octets(mac), addr, i);
    }
    forall i: nat | IsFirst(st, i, name)
      ensures Edited(st, Added(st, name, Octets(mac), addr), i, mac,
                     if ip == "" then st.recs[i].server.ip else Given(ip, parseIp))
    {
      AddsKnown(st, name, Octets(mac), addr, i);
    }
  }

  /** An address the parser refuses changes nothing, from either side. */
  lemma BothRefuse(
      st: State, name: string, mac: Mac, ip: string, tail: string, chunks: seq<string>, parseIp: string -> Option<Word>)
    requires NameOk(name) && IpOk(ip) && forall i :: 0 <= i < |tail| ==> IsTail(tail[i])
    requires J.Flat(chunks) == J.ObjectText(AddFields(name, mac, ip)) && ip != "" && parseIp(ip).None?
    ensures var line := Trimmed(TypedLine(name, mac, ip) + tail);
            StartsWith(line, "add ") && Effect(st, TcpArgs(line[4..]), parseIp) == st
    ensures Effect(st, HttpArgs(J.Received(chunks)), parseIp) == st
  {
    FrontEndsAgree(st, name, mac, ip, tail, chunks, parseIp);
  }
}
