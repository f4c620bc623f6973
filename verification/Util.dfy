/** The text helpers of `util.c`: MAC addresses and command lines, with the part of
    `scanf` they rely on (section 7.21.6.2 of ISO/IEC 9899:2011). */
module Util {
  import opened Words
  import opened CStrings
  import opened Config

  predicate IsSpace(c: char) {
    c == ' ' || c == '\t' || c == '\n' || c == '\r' || c == '\U{000B}' || c == '\U{000C}'
  }

  function SkipSpace(s: string): (r: string)
    ensures |r| <= |s|
    ensures r != "" ==> !IsSpace(r[0])
  {
    if s != "" && IsSpace(s[0]) then SkipSpace(s[1..]) else s
  }

  // --- Hexadecimal conversion, %x ---

  predicate IsHex(c: char) {
    '0' <= c <= '9' || 'a' <= c <= 'f' || 'A' <= c <= 'F'
  }

  function HexValue(c: char): nat
    requires IsHex(c)
  {
    if '0' <= c <= '9' then c as int - '0' as int
    else if 'a' <= c <= 'f' then c as int - 'a' as int + 10
    else c as int - 'A' as int + 10
  }

  /** The value of the longest run of hexadecimal digits, and what follows it. */
  function TakeHex(s: string, acc: nat): (r: (nat, string))
    ensures |r.1| <= |s|
  {
    if s != "" && IsHex(s[0]) then TakeHex(s[1..], 16 * acc + HexValue(s[0])) else (acc, s)
  }

  /** A magnitude as `strtoul` returns it in 32 bits: saturating, and negated modulo 2^32
      after a minus sign. */
  function Unsigned(magnitude: nat, negative: bool): Word {
    if magnitude >= WRAP then WRAP - 1 else if negative then (WRAP - magnitude) % WRAP else magnitude
  }

  /** One `%x`: white space, an optional sign, an optional 0x, at least one digit. */
  function ScanHex(s: string): (r: Option<(Word, string)>)
    ensures r.Some? ==> |r.value.1| <= |s|
  {
    var t := SkipSpace(s);
    var negative := t != "" && t[0] == '-';
    var u := if t != "" && (t[0] == '-' || t[0] == '+') then t[1..] else t;
    var v := if |u| >= 2 && u[0] == '0' && (u[1] == 'x' || u[1] == 'X') then u[2..] else u;
    if v == "" || !IsHex(v[0]) then
      None
    else
      var (magnitude, rest) := TakeHex(v, 0);
      Some((Unsigned(magnitude, negative), rest))
  }

  /** `n` conversions separated by colons; all of them or none. */
  function ScanFields(s: string, n: nat): (r: Option<seq<Word>>)
    ensures r.Some? ==> |r.value| == n
    decreases n
  {
    if n == 0 then
      Some([])
    else
      match ScanHex(s)
      case None => None
      case Some((v, rest)) =>
        if n == 1 then
          Some([v])
        else if rest == "" || rest[0] != ':' then
          None
        else
          match ScanFields(rest[1..], n - 1)
          case None => None
          case Some(vs) => Some([v] + vs)
  }

  /** The octets before the first value above 255. */
  function OctetPrefix(vals: seq<Word>): (p: seq<Byte>)
    ensures |p| <= |vals|
    ensures forall i :: 0 <= i < |p| ==> p[i] == vals[i]
    ensures |p| < |vals| ==> vals[|p|] > 255
  {
    if vals == [] || vals[0] > 255 then [] else [vals[0]] + OctetPrefix(vals[1..])
  }

  function ParseMac(s: string): (r: MacScan)
    ensures r.WellFormed()
  {
    match ScanFields(s, 6)
    case None => NoMatch
    case Some(vals) =>
      var p := OctetPrefix(vals);
      if |p| < 6 then TooLarge(p) else Octets(p)
  }

  /** The loop of `parse_mac`: octets are stored until one is too large. */
  method StoreOctets(vals: seq<Word>, mac: array<Byte>) returns (ok: bool)
    requires |vals| == mac.Length
    modifies mac
    ensures var p := OctetPrefix(vals);
            && (ok <==> |p| == |vals|)
            && (forall j :: 0 <= j < |p| ==> mac[j] == p[j])
            && (forall j :: |p| <= j < mac.Length ==> mac[j] == old(mac[j]))
  {
    for i := 0 to mac.Length
      invariant i <= |OctetPrefix(vals)|
      invariant forall j :: 0 <= j < i ==> mac[j] == vals[j]
      invariant forall j :: i <= j < mac.Length ==> mac[j] == old(mac[j])
    {
      if vals[i] > 255 {
        return false;
      }
      mac[i] := vals[i];
    }
    return true;
  }

  /** `parse_mac`: a rejected text may already have overwritten leading octets. */
  method ParseMacInto(s: string, mac: array<Byte>) returns (ok: bool)
    requires mac.Length == 6
    modifies mac
    ensures mac[..] == ParseMac(s).WriteTo(old(mac[..]))
    ensures ok == ParseMac(s).Ok()
  {
    var fields := ScanFields(s, 6);
    if fields.None? {
      return false;
    }
    ok := StoreOctets(fields.value, mac);
    ghost var p := OctetPrefix(fields.value);
    assert mac[..] == p + old(mac[..])[|p|..];
  }

  /** Field `i` comes before the first one above 255. */
  predicate Stored(vals: seq<Word>, i: nat) {
    i < |vals| && forall j :: 0 <= j <= i ==> vals[j] <= 255
  }

  /** The octets a text would store before its first field above 255 are those already there. */
  predicate Harmless(s: string, was: Mac) {
    match ScanFields(s, 6)
    case None => true
    case Some(vals) => forall i :: 0 <= i < 6 && Stored(vals, i) ==> vals[i] == was[i]
  }

  lemma PrefixIsStored(vals: seq<Word>, i: nat)
    requires i < |vals|
    ensures i < |OctetPrefix(vals)| <==> Stored(vals, i)
  {
    var p := OctetPrefix(vals);
    assert |p| <= i ==> vals[|p|] > 255;
  }

  /** Exactly when a rejected text leaves the array as it was. */
  lemma RejectedKeepsIff(s: string, was: Mac)
    requires !ParseMac(s).Ok()
    ensures ParseMac(s).WriteTo(was) == was <==> Harmless(s, was)
  {
    var fields := ScanFields(s, 6);
    if fields.Some? {
      var vals, p, now := fields.value, OctetPrefix(fields.value), ParseMac(s).WriteTo(was);
      forall i | 0 <= i < 6 ensures now[i] == if Stored(vals, i) then vals[i] else was[i] {
        PrefixIsStored(vals, i);
      }
      assert now == was <==> forall i :: 0 <= i < 6 ==> now[i] == was[i];
    }
  }

  /** The text AA:100:0:0:0:0, from its second field and in full. */
  function SecondText(): string {
    "100" + ([':'] + ZeroText(4))
  }

  function TooLargeText(): string {
    HexPair(0xAA, true) + ([':'] + SecondText())
  }

  function ZeroText(n: nat): (t: string)
    requires 0 < n
    ensures |t| == 2 * n - 1
  {
    if n == 1 then "0" else "0:" + ZeroText(n - 1)
  }

  function ZeroFields(n: nat): (vals: seq<Word>)
    ensures |vals| == n
  {
    if n == 0 then [] else [0] + ZeroFields(n - 1)
  }

  lemma ScanZero(rest: string)
    requires rest == "" || rest[0] == ':'
    ensures ScanHex("0" + rest) == Some((0, rest))
  {
    var t := "0" + rest;
    assert t[1..] == rest;
    assert SkipSpace(t) == t && TakeHex(t, 0) == TakeHex(rest, 0) == (0, rest);
  }

  lemma {:induction false} ScanZeroes(n: nat)
    requires 0 < n
    ensures ScanFields(ZeroText(n), n) == Some(ZeroFields(n))
  {
    if n == 1 {
      ScanZero("");
      assert "0" + "" == "0";
      assert ZeroFields(0) == [] && ZeroFields(1) == [0];
    } else {
      var tail := ZeroText(n - 1);
      ScanZero([':'] + tail);
      assert "0" + ([':'] + tail) == ZeroText(n);
      ScanZeroes(n - 1);
      ScanFieldThen(ZeroText(n), n, 0, tail, ZeroFields(n - 1));
    }
  }

  lemma ScanHundred(tail: string)
    requires tail != "" && tail[0] == ':'
    ensures ScanHex("100" + tail) == Some((256, tail))
  {
    var s := "100" + tail;
    assert SkipSpace(s) == s;
    assert s[1..] == "00" + tail && ("00" + tail)[1..] == "0" + tail && ("0" + tail)[1..] == tail;
    assert TakeHex(s, 0) == TakeHex("00" + tail, 1);
    assert TakeHex("00" + tail, 1) == TakeHex("0" + tail, 16);
    assert TakeHex("0" + tail, 16) == TakeHex(tail, 256) == (256, tail);
  }

  lemma SecondScans()
    ensures ScanFields(SecondText(), 5) == Some([256] + ZeroFields(4))
  {
    ScanHundred([':'] + ZeroText(4));
    ScanZeroes(4);
    ScanFieldThen(SecondText(), 5, 256, ZeroText(4), ZeroFields(4));
  }

  lemma TooLargeScans()
    ensures ScanFields(TooLargeText(), 6) == Some([0xAA] + ([256] + ZeroFields(4)))
  {
    ScanPair(0xAA, true, [':'] + SecondText());
    SecondScans();
    ScanFieldThen(TooLargeText(), 6, 0xAA, SecondText(), [256] + ZeroFields(4));
  }

  lemma StoresOne(s: string, vals: seq<Word>, b: Byte, was: Mac)
    requires ScanFields(s, 6) == Some(vals) && OctetPrefix(vals) == [b]
    ensures ParseMac(s) == MacScan.TooLarge([b]) && ParseMac(s).WriteTo(was) == was[0 := b]
  {
    assert [b] + was[1..] == was[0 := b];
  }

  /** It is rejected, and has overwritten the first octet. */
  lemma TooLargeOverwrites(was: Mac)
    ensures ParseMac(TooLargeText()) == MacScan.TooLarge([0xAA])
    ensures ParseMac(TooLargeText()).WriteTo(was) == was[0 := 0xAA]
  {
    TooLargeScans();
    TooLargeStores(ZeroFields(4));
    StoresOne(TooLargeText(), [0xAA] + ([256] + ZeroFields(4)), 0xAA, was);
  }

  lemma TooLargeStores(vals: seq<Word>)
    ensures OctetPrefix([0xAA] + ([256] + vals)) == [0xAA]
  {
    var all := [0xAA] + ([256] + vals);
    assert all[1..][0] == 256 && OctetPrefix(all[1..]) == [];
  }

  // --- Printing ---

  function HexChar(v: nat, upper: bool): (c: char)
    requires v < 16
    ensures IsHex(c) && HexValue(c) == v
  {
    if v < 10 then '0' + v as char else if upper then 'A' + (v - 10) as char else 'a' + (v - 10) as char
  }

  /** `%02X`, or its lower-case form. */
  function HexPair(b: Byte, upper: bool): string {
    [HexChar(b / 16, upper), HexChar(b % 16, upper)]
  }

  function PairsText(bytes: seq<Byte>, upper: bool): (t: string)
    requires bytes != []
    ensures |t| == 3 * |bytes| - 1
    ensures forall i :: 0 <= i < |t| ==> IsHex(t[i]) || t[i] == ':'
  {
    if |bytes| == 1 then
      HexPair(bytes[0], upper)
    else
      HexPair(bytes[0], upper) + [':'] + PairsText(bytes[1..], upper)
  }

  /** `mac_to_str`; 17 characters, as its callers' buffers assume. */
  function MacText(mac: Mac): (t: string)
    ensures |t| == 17
    ensures forall i :: 0 <= i < |t| ==> IsHex(t[i]) || t[i] == ':'
  {
    PairsText(mac, true)
  }

  /** The printed MAC, character by character: the octets in order, high digit first, upper case. */
  lemma MacTextIs(mac: Mac, i: nat)
    requires i < 6
    ensures var t := MacText(mac);
            && t[3 * i] == "0123456789ABCDEF"[mac[i] / 16] && t[3 * i + 1] == "0123456789ABCDEF"[mac[i] % 16]
            && (i < 5 ==> t[3 * i + 2] == ':')
  {
    PairsAt(mac, i);
    UpperDigit(mac[i] / 16);
    UpperDigit(mac[i] % 16);
  }

  lemma UpperDigit(v: nat)
    requires v < 16
    ensures HexChar(v, true) == "0123456789ABCDEF"[v]
  {
  }

  lemma {:induction false} PairsAt(bytes: seq<Byte>, i: nat)
    requires i < |bytes|
    ensures var t := PairsText(bytes, true);
            && t[3 * i] == HexChar(bytes[i] / 16, true) && t[3 * i + 1] == HexChar(bytes[i] % 16, true)
            && (i < |bytes| - 1 ==> t[3 * i + 2] == ':')
  {
    if i > 0 {
      PairsAt(bytes[1..], i - 1);
      PairsAre(bytes, true);
    }
  }

  lemma ScanPair(b: Byte, upper: bool, rest: string)
    requires rest == "" || rest[0] == ':'
    ensures ScanHex(HexPair(b, upper) + rest) == Some((b, rest))
  {
    var s := HexPair(b, upper) + rest;
    assert s[1..][1..] == rest;
    assert SkipSpace(s) == s;
    assert TakeHex(s, 0) == TakeHex(s[1..], HexValue(s[0])) == TakeHex(rest, b);
  }

  /** One conversion, a colon, and the rest. */
  lemma ScanFieldThen(s: string, n: nat, v: Word, tail: string, vals: seq<Word>)
    requires n > 1 && ScanHex(s) == Some((v, [':'] + tail)) && ScanFields(tail, n - 1) == Some(vals)
    ensures ScanFields(s, n) == Some([v] + vals)
  {
    assert ([':'] + tail)[1..] == tail;
  }

  lemma PairsAre(bytes: seq<Byte>, upper: bool)
    requires |bytes| > 1
    ensures PairsText(bytes, upper) == HexPair(bytes[0], upper) + ([':'] + PairsText(bytes[1..], upper))
  {
  }

  lemma ScanLast(b: Byte, upper: bool)
    ensures ScanFields(PairsText([b], upper), 1) == Some([b])
  {
    assert HexPair(b, upper) + "" == HexPair(b, upper);
    ScanPair(b, upper, "");
  }

  lemma ScanPairThen(b: Byte, upper: bool, tail: string, vals: seq<Byte>)
    requires vals != [] && ScanFields(tail, |vals|) == Some(vals)
    ensures ScanFields(HexPair(b, upper) + ([':'] + tail), |vals| + 1) == Some([b] + vals)
  {
    ScanPair(b, upper, [':'] + tail);
    ScanFieldThen(HexPair(b, upper) + ([':'] + tail), |vals| + 1, b, tail, vals);
  }

  lemma {:induction false} ScanPairs(bytes: seq<Byte>, upper: bool)
    requires bytes != []
    ensures ScanFields(PairsText(bytes, upper), |bytes|) == Some(bytes)
  {
    assert [bytes[0]] + bytes[1..] == bytes;
    if |bytes| == 1 {
      assert bytes == [bytes[0]];
      ScanLast(bytes[0], upper);
    } else {
      PairsAre(bytes, upper);
      ScanPairs(bytes[1..], upper);
      ScanPairThen(bytes[0], upper, PairsText(bytes[1..], upper), bytes[1..]);
    }
  }

  lemma {:induction false} OctetsFit(vals: seq<Word>)
    requires forall i :: 0 <= i < |vals| ==> vals[i] <= 255
    ensures OctetPrefix(vals) == vals
  {
  }

  lemma ParsePairs(mac: Mac, upper: bool)
    ensures ParseMac(PairsText(mac, upper)) == Octets(mac)
  {
    ScanPairs(mac, upper);
    OctetsFit(mac);
  }

  // --- Command lines ---

  function Lower(c: char): char {
    if 'A' <= c <= 'Z' then (c as int + 32) as char else c
  }

  function LowerAll(s: string): (t: string)
    ensures |t| == |s| && forall i :: 0 <= i < |s| ==> t[i] == Lower(s[i])
  {
    seq(|s|, i requires 0 <= i < |s| => Lower(s[i]))
  }

  predicate IsTail(c: char) {
    c == '\n' || c == '\r' || c == ' '
  }

  function Chopped(s: string): (t: string)
    ensures |t| <= |s| && t == s[..|t|]
    ensures t != "" ==> !IsTail(t[|t| - 1])
  {
    if s != "" && IsTail(s[|s| - 1]) then Chopped(s[..|s| - 1]) else s
  }

  function Trimmed(s: string): string {
    LowerAll(Chopped(s))
  }

  /** `trim`: cuts trailing blanks and line ends off a C string and lowers its case, in place. */
  method Trim(str: array<char>)
    requires NUL in str[..]
    modifies str
    ensures CStr(str[..]) == Trimmed(CStr(old(str[..])))
  {
    var len := Strlen(str);
    len := Chop(str, len);
    LowerInPlace(str, len);
  }

  method Strlen(str: array<char>) returns (len: nat)
    requires NUL in str[..]
    ensures len == |CStr(str[..])| < str.Length
  {
    len := 0;
    while str[len] != NUL
      invariant len <= |CStr(str[..])| < str.Length
      decreases |CStr(str[..])| - len
    {
      len := len + 1;
    }
  }

  /** The first loop: NULs from the end over blanks and line ends. */
  method Chop(str: array<char>, n: nat) returns (len: nat)
    requires n == |CStr(str[..])| < str.Length
    modifies str
    ensures len < str.Length && str[..len] == Chopped(CStr(old(str[..]))) && str[len] == NUL
  {
    ghost var was := CStr(str[..]);
    len := n;
    while len > 0 && IsTail(str[len - 1])
      invariant len <= |was| && str[..len] == was[..len] && str[len] == NUL
      invariant Chopped(was[..len]) == Chopped(was)
    {
      len := len - 1;
      assert was[..len + 1][..len] == was[..len];
      str[len] := NUL;
    }
    assert Chopped(was[..len]) == was[..len];
  }

  /** The second loop. */
  method LowerInPlace(str: array<char>, ghost len: nat)
    requires len < str.Length && NulFree(str[..len]) && str[len] == NUL
    modifies str
    ensures CStr(str[..]) == LowerAll(old(str[..len]))
  {
    ghost var kept := str[..len];
    forall j | 0 <= j < len ensures Lower(kept[j]) != NUL && kept[j] != NUL {
      assert kept[j] in kept;
    }
    var i := 0;
    while str[i] != NUL
      invariant i <= len && str[len] == NUL
      invariant forall j :: 0 <= j < i ==> str[j] == Lower(kept[j])
      invariant forall j :: i <= j < len ==> str[j] == kept[j]
      decreases len - i
    {
      assert i < len;
      str[i] := Lower(str[i]);
      i := i + 1;
    }
    LowerKeepsNulFree(kept);
    assert str[..len] == LowerAll(kept);
    CStrIs(str[..], LowerAll(kept));
  }

  /** What trimming leaves: the text up to its last character that is no line feed, carriage return or
      blank, with A-Z in lower case. */
  lemma {:induction false} TrimmedIs(s: string)
    ensures var t := Trimmed(s);
            && |t| <= |s|
            && (forall i :: |t| <= i < |s| ==> s[i] in "\n\r ")
            && (|t| > 0 ==> s[|t| - 1] !in "\n\r ")
            && (forall i :: 0 <= i < |t| ==> t[i] == if 'A' <= s[i] <= 'Z' then (s[i] as int + 32) as char else s[i])
  {
    if s != "" && IsTail(s[|s| - 1]) {
      TrimmedIs(s[..|s| - 1]);
    }
  }

  lemma LowerKeepsNulFree(s: string)
    requires NulFree(s)
    ensures NulFree(LowerAll(s))
  {
    forall i | 0 <= i < |s| ensures Lower(s[i]) != NUL {
      assert s[i] in s;
    }
  }

  lemma LowerPairs(bytes: seq<Byte>)
    requires bytes != []
    ensures LowerAll(PairsText(bytes, true)) == PairsText(bytes, false)
  {
    if |bytes| > 1 {
      LowerPairs(bytes[1..]);
    }
    var t, u := PairsText(bytes, true), PairsText(bytes, false);
    forall i | 0 <= i < |t| ensures Lower(t[i]) == u[i] {
      if i > 2 {
        assert t[i] == PairsText(bytes[1..], true)[i - 3];
      }
    }
  }

  /** `%<width>s`: the next word, cut to `width` characters, and what follows. */
  function ScanWord(s: string, width: nat): (r: Option<(string, string)>)
    ensures r.Some? ==> 0 < |r.value.0| <= width
  {
    var t := SkipSpace(s);
    var k := WordLength(t, width);
    if k == 0 then None else Some((t[..k], t[k..]))
  }

  function WordLength(s: string, width: nat): (k: nat)
    ensures k <= |s| && k <= width
    ensures forall i :: 0 <= i < k ==> !IsSpace(s[i])
    ensures k < |s| && k < width ==> IsSpace(s[k])
  {
    if s == "" || width == 0 || IsSpace(s[0]) then 0 else 1 + WordLength(s[1..], width - 1)
  }

  /** The words one `sscanf` call stores: it stops at the first that is missing. */
  function ScanWords(s: string, widths: seq<nat>): (ws: seq<string>)
    ensures |ws| <= |widths|
    ensures forall i :: 0 <= i < |ws| ==> 0 < |ws[i]| <= widths[i]
    decreases |widths|
  {
    if widths == [] then
      []
    else
      match ScanWord(s, widths[0])
      case None => []
      case Some((w, rest)) => [w] + ScanWords(rest, widths[1..])
  }

  predicate IsWord(w: string) {
    w != "" && forall i :: 0 <= i < |w| ==> !IsSpace(w[i])
  }

  function Joined(words: seq<string>): string {
    if words == [] then "" else if |words| == 1 then words[0] else words[0] + [' '] + Joined(words[1..])
  }

  lemma ScanWordIs(w: string, width: nat, rest: string)
    requires IsWord(w) && |w| <= width && (rest == "" || IsSpace(rest[0]))
    ensures ScanWord(w + rest, width) == Some((w, rest))
    ensures ScanWord([' '] + w + rest, width) == Some((w, rest))
  {
    var s := w + rest;
    assert SkipSpace(s) == s;
    assert ([' '] + w + rest)[1..] == s;
    var k := WordLength(s, width);
    if k < |w| {
      assert false;
    }
    assert s[..|w|] == w && s[|w|..] == rest;
  }

  /** Words that fit their fields are scanned back exactly, with or without the blank a
      previous word left behind. */
  lemma {:induction false} ScanJoined(words: seq<string>, widths: seq<nat>)
    requires |words| <= |widths|
    requires forall i :: 0 <= i < |words| ==> IsWord(words[i]) && |words[i]| <= widths[i]
    ensures ScanWords(Joined(words), widths) == words
    ensures words != [] ==> ScanWords([' '] + Joined(words), widths) == words
  {
    if words != [] {
      var rest := if |words| == 1 then "" else [' '] + Joined(words[1..]);
      assert Joined(words) == words[0] + rest;
      assert [' '] + Joined(words) == [' '] + words[0] + rest;
      ScanWordIs(words[0], widths[0], rest);
      ScanJoined(words[1..], widths[1..]);
      assert [words[0]] + words[1..] == words;
    }
  }

  const ADD_WIDTHS: seq<nat> := [31, 17, 15]

  lemma AddLine(name: string, mac: Mac, tail: string)
    requires forall i :: 0 <= i < |tail| ==> IsTail(tail[i])
    ensures Trimmed("add " + name + " " + MacText(mac) + tail)
            == "add " + Joined([LowerAll(name), LowerAll(MacText(mac))])
  {
    var body := "add " + name + " " + MacText(mac);
    ChopTail(body, tail);
    var low := [LowerAll(name), LowerAll(MacText(mac))];
    assert low[1..] == [low[1]];
    assert LowerAll(body) == "add " + Joined(low);
  }

  /** A MAC printed in a list survives being typed back: trimming lowers its case, it fits
      its field, and the scan returns the six bytes. */
  lemma MacSurvivesCommandLine(name: string, mac: Mac, tail: string)
    requires IsWord(name) && |name| <= 31 && (forall i :: 0 <= i < |tail| ==> IsTail(tail[i]))
    ensures var line := Trimmed("add " + name + " " + MacText(mac) + tail);
            && 4 <= |line| && line[..4] == "add "
            && ScanWords(line[4..], ADD_WIDTHS) == [LowerAll(name), LowerAll(MacText(mac))]
    ensures ParseMac(MacText(mac)) == Octets(mac)
    ensures ParseMac(LowerAll(MacText(mac))) == Octets(mac)
  {
    AddLine(name, mac, tail);
    var low := [LowerAll(name), LowerAll(MacText(mac))];
    var line := "add " + Joined(low);
    assert line[4..] == Joined(low);
    ScanJoined(low, ADD_WIDTHS);
    LowerPairs(mac);
    ParsePairs(mac, false);
    ParsePairs(mac, true);
  }

  lemma {:induction false} ChopTail(s: string, tail: string)
    requires s != "" && !IsTail(s[|s| - 1]) && forall i :: 0 <= i < |tail| ==> IsTail(tail[i])
    ensures Chopped(s + tail) == s
  {
    if tail == "" {
      assert s + tail == s;
    } else {
      var init := tail[..|tail| - 1];
      assert (s + tail)[..|s + tail| - 1] == s + init;
      ChopTail(s, init);
    }
  }
}
