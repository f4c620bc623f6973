/** The JSON field getters and the request body of `http_server.c`, against flat
    objects printed without white space (sections 4 and 7 of RFC 8259). */
module Json {
  import opened CStrings
  import opened Config
  import opened Numbers

  const BODY_MAX := 511
  const PATTERN_MAX := 63

  /** `strstr`: position of the first occurrence, or the length if there is none. */
  function Strstr(s: string, pat: string): (k: nat)
    ensures k <= |s| && (k < |s| ==> k + |pat| <= |s|)
  {
    if s == "" || StartsWith(s, pat) then 0 else 1 + Strstr(s[1..], pat)
  }

  /** The searched text `"key":`, cut to the pattern buffer. */
  function Pattern(key: string): (pat: string)
    ensures pat != "" && pat[0] == '"'
  {
    var full := ['"'] + key + ['"', ':'];
    full[..Min(|full|, PATTERN_MAX)]
  }

  function SkipBlanks(s: string): (r: string)
    ensures |r| <= |s|
  {
    if s != "" && s[0] == ' ' then SkipBlanks(s[1..]) else s
  }

  predicate Found(body: string, key: string) {
    Strstr(body, Pattern(key)) < |body|
  }

  /** The position after the first occurrence of the key's pattern. */
  function PastPattern(body: string, key: string): (v: nat)
    requires Found(body, key)
    ensures v <= |body|
  {
    Strstr(body, Pattern(key)) + |Pattern(key)|
  }

  /** What follows the pattern, blanks skipped. */
  function Located(body: string, key: string): Option<string> {
    if Found(body, key) then Some(SkipBlanks(body[PastPattern(body, key)..])) else None
  }

  /** What `json_get_string` stores; it reports success if that is not empty. */
  function GetString(body: string, key: string, maxLen: nat): Option<string>
    requires maxLen > 0
  {
    match Located(body, key)
    case None => None
    case Some(t) =>
      if t == "" || t[0] != '"' then None else Some(t[1..][..Min(IndexOf(t[1..], '"'), maxLen - 1)])
  }

  function GetInt(body: string, key: string): Option<int> {
    match Located(body, key)
    case None => None
    case Some(t) => if t != "" && (t[0] == '-' || IsDigit(t[0])) then Some(Atoi(t)) else None
  }

  function GetBool(body: string, key: string): Option<bool> {
    match Located(body, key)
    case None => None
    case Some(t) => if StartsWith(t, "true") then Some(true) else if StartsWith(t, "false") then Some(false) else None
  }

  // --- In place ---

  /** The start common to the getters: past the pattern and any blanks. */
  method Locate(body: string, key: string) returns (p: Option<nat>)
    ensures p.Some? <==> Located(body, key).Some?
    ensures p.Some? ==> p.value <= |body| && body[p.value..] == Located(body, key).value
  {
    if !Found(body, key) {
      return None;
    }
    var v := SkipToValue(body, PastPattern(body, key));
    p := Some(v);
  }

  method SkipToValue(body: string, from: nat) returns (p: nat)
    requires from <= |body|
    ensures from <= p <= |body| && body[p..] == SkipBlanks(body[from..])
  {
    p := from;
    while p < |body| && body[p] == ' '
      invariant from <= p <= |body| && SkipBlanks(body[p..]) == SkipBlanks(body[from..])
    {
      assert body[p..][1..] == body[p + 1..];
      p := p + 1;
    }
  }

  /** The copy loop: up to a quote, the end or the limit. */
  method CopyText(body: string, from: nat, out: array<char>, limit: nat)
    requires from <= |body| && limit < out.Length && NulFree(body)
    modifies out
    ensures var text := body[from..]; CStr(out[..]) == text[..Min(IndexOf(text, '"'), limit)]
  {
    var p, i := from, 0;
    while p < |body| && body[p] != '"' && i < limit
      invariant p == from + i <= |body| && i <= limit
      invariant forall j :: 0 <= j < i ==> out[j] == body[from + j] && body[from + j] != '"'
    {
      out[i] := body[p];
      i := i + 1;
      p := p + 1;
    }
    out[i] := NUL;
    ghost var text := body[from..];
    forall j | 0 <= j < i ensures text[j] == out[j] && text[j] != '"' {
      assert text[j] == body[from + j];
    }
    QuoteAt(text, i, limit);
    assert out[..][..i] == text[..i];
    CStrIs(out[..], text[..i]);
  }

  lemma QuoteAt(text: string, i: nat, n: nat)
    requires i <= |text| && i <= n && (forall j :: 0 <= j < i ==> text[j] != '"')
    requires i == |text| || text[i] == '"' || i == n
    ensures i == Min(IndexOf(text, '"'), n)
  {
    var k := IndexOf(text, '"');
    if i < |text| && text[i] == '"' {
      IndexAt(text, '"', i);
    }
  }

  /** `json_get_string`: `out` keeps what it held unless a string is found. */
  method JsonGetString(body: string, key: string, out: array<char>, maxLen: nat) returns (ok: bool)
    requires NulFree(body) && 0 < maxLen <= out.Length
    modifies out
    ensures var r := GetString(body, key, maxLen);
            && ok == (r.Some? && r.value != "")
            && (r.None? ==> out[..] == old(out[..]))
            && (r.Some? ==> CStr(out[..]) == r.value)
  {
    var p := Locate(body, key);
    if p.None? || p.value == |body| || body[p.value] != '"' {
      return false;
    }
    TextAfterQuote(body, key, p.value, maxLen);
    CopyText(body, p.value + 1, out, maxLen - 1);
    ok := CStr(out[..]) != "";
  }

  lemma TextAfterQuote(body: string, key: string, p: nat, maxLen: nat)
    requires Located(body, key).Some? && p < |body| && body[p..] == Located(body, key).value
    requires body[p] == '"' && maxLen > 0
    ensures var text := body[p + 1..];
            GetString(body, key, maxLen) == Some(text[..Min(IndexOf(text, '"'), maxLen - 1)])
  {
    assert body[p..][1..] == body[p + 1..];
  }

  method JsonGetInt(body: string, key: string) returns (r: Option<int>)
    ensures r == GetInt(body, key)
  {
    var p := Locate(body, key);
    if p.Some? && p.value < |body| && (body[p.value] == '-' || IsDigit(body[p.value])) {
      return Some(Atoi(body[p.value..]));
    }
    return None;
  }

  method JsonGetBool(body: string, key: string) returns (r: Option<bool>)
    ensures r == GetBool(body, key)
  {
    var p := Locate(body, key);
    if p.None? {
      return None;
    }
    if StartsWith(body[p.value..], "true") {
      return Some(true);
    }
    if StartsWith(body[p.value..], "false") {
      return Some(false);
    }
    return None;
  }

  /** The POST body as the server collects it. */
  class PostBody {
    const body: array<char>
    var len: nat

    ghost predicate Valid()
      reads this, body
    {
      body.Length == BODY_MAX + 1 && len <= BODY_MAX && body[len] == NUL
    }

    function Text(): string
      requires Valid()
      reads this, body
    {
      body[..len]
    }

    /** `httpd_post_begin` */
    constructor ()
      ensures Valid() && Text() == "" && fresh(body)
    {
      body := new char[BODY_MAX + 1](_ => NUL);
      len := 0;
    }

    /** `httpd_post_receive_data`: a chunk is appended as far as it fits. */
    method Receive(chunk: string)
      requires Valid()
      modifies this, body
      ensures Valid() && Text() == Clipped(old(Text()) + chunk)
    {
      var copy := |chunk|;
      if len + copy >= BODY_MAX {
        copy := BODY_MAX - len;
      }
      if copy > 0 {
        forall j | len <= j < len + copy {
          body[j] := chunk[j - len];
        }
        len := len + copy;
        body[len] := NUL;
      }
    }
  }

  function Clipped(s: string): string {
    s[..Min(|s|, BODY_MAX)]
  }

  function Flat(chunks: seq<string>): string {
    if chunks == [] then "" else Flat(chunks[..|chunks| - 1]) + chunks[|chunks| - 1]
  }

  /** What successive chunks leave in the body. */
  function Received(chunks: seq<string>): string {
    if chunks == [] then "" else Clipped(Received(chunks[..|chunks| - 1]) + chunks[|chunks| - 1])
  }

  /** However the body is split, its first 511 bytes arrive. */
  lemma {:induction false} ReceivedIsClipped(chunks: seq<string>)
    ensures Received(chunks) == Clipped(Flat(chunks))
  {
    if chunks != [] {
      ReceivedIsClipped(chunks[..|chunks| - 1]);
    }
  }

  // --- Flat objects ---

  datatype Value = Str(s: string) | Num(n: int) | Flag(b: bool)

  datatype Field = Field(key: string, value: Value)

  function ValueText(v: Value): string {
    match v
    case Str(s) => ['"'] + s + ['"']
    case Num(n) => IntText(n)
    case Flag(b) => if b then "true" else "false"
  }

  /** Text in quotes before `rest`. */
  function Quoted(w: string, rest: string): string {
    ['"'] + (w + (['"'] + rest))
  }

  function FieldText(f: Field, rest: string): string {
    Quoted(f.key, [':'] + (ValueText(f.value) + rest))
  }

  /** The fields from the first on, with the closing brace. */
  function Tail(fs: seq<Field>): string
    requires fs != []
  {
    FieldText(fs[0], Rest(fs))
  }

  function Rest(fs: seq<Field>): string
    requires fs != []
    decreases |fs|, 0
  {
    if |fs| == 1 then "}" else [','] + FieldText(fs[1], Rest(fs[1..]))
  }

  function ObjectText(fs: seq<Field>): string {
    if fs == [] then "{}" else ['{'] + Tail(fs)
  }

  /** No quotes, backslashes or NULs: such text is printed as it is. */
  predicate Plain(s: string) {
    '"' !in s && '\\' !in s && NUL !in s
  }

  predicate FieldsOk(fs: seq<Field>) {
    && (forall i :: 0 <= i < |fs| ==> Plain(fs[i].key) && (fs[i].value.Str? ==> Plain(fs[i].value.s)))
    && (forall i, j :: 0 <= i < j < |fs| ==> fs[i].key != fs[j].key)
  }

  predicate ShortKey(key: string) {
    '"' !in key && |key| <= 60
  }

  // --- Where a pattern can occur ---

  lemma {:induction false} SkipQuoteFree(u: string, rest: string, pat: string)
    requires pat != "" && pat[0] == '"' && '"' !in u
    ensures Strstr(u + rest, pat) == |u| + Strstr(rest, pat)
  {
    if u == "" {
      assert u + rest == rest;
    } else {
      assert u[0] in u;
      assert (u + rest)[1..] == u[1..] + rest;
      SkipQuoteFree(u[1..], rest, pat);
    }
  }

  predicate ColonFirst(r: string) {
    r != "" && r[0] == ':'
  }

  lemma PatternChars(key: string)
    requires ShortKey(key)
    ensures var pat := Pattern(key);
            && |pat| == |key| + 3 && pat[0] == '"' && pat[|key| + 1] == '"' && pat[|key| + 2] == ':'
            && (forall i :: 0 <= i < |key| ==> pat[i + 1] == key[i] && key[i] != '"')
  {
    assert Pattern(key) == ['"'] + key + ['"', ':'];
  }

  lemma QuotedChars(w: string, r: string)
    requires '"' !in w
    ensures var s := Quoted(w, r);
            && |s| == |w| + 2 + |r| && s[0] == '"' && s[|w| + 1] == '"'
            && (forall i :: 0 <= i < |w| ==> s[i + 1] == w[i] && w[i] != '"')
            && (r != "" ==> s[|w| + 2] == r[0])
  {
  }

  /** At an opening or closing quote the pattern matches only the text up to the next quote. */
  lemma MatchAtQuote(w: string, r: string, key: string)
    requires '"' !in w && ShortKey(key)
    ensures StartsWith(Quoted(w, r), Pattern(key)) <==> w == key && ColonFirst(r)
  {
    var s, pat := Quoted(w, r), Pattern(key);
    PatternChars(key);
    QuotedChars(w, r);
    if StartsWith(s, pat) {
      assert s[|key| + 1] == '"';
      assert |w| == |key|;
      forall i | 0 <= i < |w| ensures w[i] == key[i] {
        assert s[i + 1] == pat[i + 1];
      }
      assert s[|w| + 2] == ':';
    }
  }

  lemma StepQuote(w: string, r: string, key: string)
    requires '"' !in w && ShortKey(key)
    ensures Strstr(Quoted(w, r), Pattern(key)) ==
            if w == key && ColonFirst(r) then 0 else 1 + |w| + Strstr(['"'] + r, Pattern(key))
  {
    MatchAtQuote(w, r, key);
    var s := Quoted(w, r);
    assert s[1..] == w + (['"'] + r);
    SkipQuoteFree(w, ['"'] + r, Pattern(key));
  }

  /** A last quote starts no match. */
  lemma LastQuote(r: string, key: string)
    requires '"' !in r && ShortKey(key)
    ensures Strstr(['"'] + r, Pattern(key)) == 1 + |r|
  {
    var s, pat := ['"'] + r, Pattern(key);
    PatternChars(key);
    assert forall i :: 0 <= i < |r| ==> s[i + 1] == r[i] && r[i] != '"';
    assert s[1..] == r + "";
    SkipQuoteFree(r, "", pat);
  }

  // --- One field, then the object ---

  /** The only keys a pattern search can mistake other text for: the text between a
      closing quote and the next opening one. */
  ghost predicate Confusable(key: string) {
    key == ":" || key == "," || exists v: Value :: !v.Str? && key == Between(v)
  }

  /** What stands between two fields when the first holds no string. */
  function Between(v: Value): string {
    [':'] + ValueText(v) + [',']
  }

  lemma ValueHasNoQuote(v: Value)
    requires !v.Str?
    ensures '"' !in ValueText(v) && '"' !in Between(v)
  {
  }

  /** Beyond a string value: the closing quote of the value. */
  lemma StepRest(fs: seq<Field>, key: string)
    requires fs != [] && FieldsOk(fs) && ShortKey(key) && key != ","
    ensures Strstr(['"'] + Rest(fs), Pattern(key)) ==
            if |fs| == 1 then 2 else 2 + Strstr(Tail(fs[1..]), Pattern(key))
  {
    if |fs| == 1 {
      LastQuote("}", key);
    } else {
      var r := fs[1].key + (['"'] + ([':'] + (ValueText(fs[1].value) + Rest(fs[1..]))));
      RestShape(fs, r);
      StepQuote([','], r, key);
    }
  }

  lemma RestShape(fs: seq<Field>, r: string)
    requires |fs| > 1
    requires r == fs[1].key + (['"'] + ([':'] + (ValueText(fs[1].value) + Rest(fs[1..]))))
    ensures ['"'] + Rest(fs) == Quoted([','], r)
    ensures ['"'] + r == Tail(fs[1..])
  {
  }

  lemma StringShape(v: string, rest: string)
    ensures ['"'] + ([':'] + (ValueText(Str(v)) + rest)) == Quoted([':'], v + (['"'] + rest))
    ensures ['"'] + (v + (['"'] + rest)) == Quoted(v, rest)
  {
  }

  lemma LiteralShape(v: Value, rest: string)
    ensures ['"'] + ([':'] + (ValueText(v) + ([','] + (['"'] + rest)))) == Quoted(Between(v), rest)
  {
  }

  /** From a key's closing quote over a string value to the value's closing quote. */
  lemma PastString(v: string, rest: string, key: string)
    requires '"' !in v && ShortKey(key) && key != ":" && !ColonFirst(rest)
    ensures Strstr(['"'] + ([':'] + (ValueText(Str(v)) + rest)), Pattern(key)) ==
            3 + |v| + Strstr(['"'] + rest, Pattern(key))
  {
    StringShape(v, rest);
    StepQuote([':'], v + (['"'] + rest), key);
    StepQuote(v, rest, key);
  }

  lemma StepString(fs: seq<Field>, key: string)
    requires fs != [] && FieldsOk(fs) && ShortKey(key) && !Confusable(key) && fs[0].value.Str?
    ensures Strstr(['"'] + ([':'] + (ValueText(fs[0].value) + Rest(fs))), Pattern(key)) ==
            3 + |fs[0].value.s| + if |fs| == 1 then 2 else 2 + Strstr(Tail(fs[1..]), Pattern(key))
  {
    PastString(fs[0].value.s, Rest(fs), key);
    StepRest(fs, key);
  }

  lemma StepLiteral(fs: seq<Field>, key: string)
    requires fs != [] && FieldsOk(fs) && ShortKey(key) && !Confusable(key) && !fs[0].value.Str?
    ensures Strstr(['"'] + ([':'] + (ValueText(fs[0].value) + Rest(fs))), Pattern(key)) ==
            2 + |ValueText(fs[0].value)| + if |fs| == 1 then 1 else 1 + Strstr(Tail(fs[1..]), Pattern(key))
  {
    var text := ValueText(fs[0].value);
    ValueHasNoQuote(fs[0].value);
    if |fs| == 1 {
      LastQuote([':'] + (text + "}"), key);
    } else {
      var w := Between(fs[0].value);
      var r := fs[1].key + (['"'] + ([':'] + (ValueText(fs[1].value) + Rest(fs[1..]))));
      assert ['"'] + r == Tail(fs[1..]) == FieldText(fs[1], Rest(fs[1..]));
      LiteralShape(fs[0].value, r);
      StepQuote(w, r, key);
    }
  }

  /** Length of a field's text with the comma or brace after it. */
  function FieldLength(f: Field): nat {
    4 + |f.key| + |ValueText(f.value)|
  }

  lemma TailLength(fs: seq<Field>)
    requires fs != []
    ensures |Tail(fs)| == FieldLength(fs[0]) + if |fs| == 1 then 0 else |Tail(fs[1..])|
  {
  }

  /** A search passes over a field with another key. */
  lemma FieldMiss(fs: seq<Field>, key: string)
    requires fs != [] && FieldsOk(fs) && ShortKey(key) && !Confusable(key) && fs[0].key != key
    ensures Strstr(Tail(fs), Pattern(key)) ==
            FieldLength(fs[0]) + if |fs| == 1 then 0 else Strstr(Tail(fs[1..]), Pattern(key))
  {
    StepQuote(fs[0].key, [':'] + (ValueText(fs[0].value) + Rest(fs)), key);
    if fs[0].value.Str? {
      StepString(fs, key);
    } else {
      StepLiteral(fs, key);
    }
  }

  /** Where the field with the key starts, or the end of the text if there is none. */
  function KeyPosition(fs: seq<Field>, key: string): nat
    requires fs != []
  {
    if fs[0].key == key then 0
    else FieldLength(fs[0]) + if |fs| == 1 then 0 else KeyPosition(fs[1..], key)
  }

  lemma {:induction false} SearchIsExact(fs: seq<Field>, key: string)
    requires fs != [] && FieldsOk(fs) && ShortKey(key) && !Confusable(key)
    ensures Strstr(Tail(fs), Pattern(key)) == KeyPosition(fs, key)
  {
    if fs[0].key == key {
      StepQuote(fs[0].key, [':'] + (ValueText(fs[0].value) + Rest(fs)), key);
    } else {
      FieldMiss(fs, key);
      if |fs| > 1 {
        SearchIsExact(fs[1..], key);
      }
    }
  }

  // --- Exactly when the search is right ---

  lemma FirstOfPair(f: Field, g: Field, key: string)
    requires FieldsOk([f, g]) && ShortKey(key) && f.key != key && !f.value.Str? && key == Between(f.value)
    requires g.key != "" && g.key[0] == ':'
    ensures Strstr(Tail([f, g]), Pattern(key)) == 1 + |f.key|
  {
    var fs := [f, g];
    var r := g.key + (['"'] + ([':'] + (ValueText(g.value) + "}")));
    assert fs[1..] == [g] && fs[0] == f && Plain(fs[0].key);
    ValueHasNoQuote(f.value);
    LiteralShape(f.value, r);
    StepQuote(f.key, [':'] + (ValueText(f.value) + Rest(fs)), key);
    RestShape(fs, r);
    assert Rest(fs) == [','] + (['"'] + r);
    StepQuote(Between(f.value), r, key);
  }

  lemma ColonMisleads()
    ensures var fs := [Field("a", Str(":"))];
            FieldsOk(fs) && Strstr(Tail(fs), Pattern(":")) != KeyPosition(fs, ":")
  {
    var fs := [Field("a", Str(":"))];
    StepQuote("a", [':'] + (ValueText(Str(":")) + "}"), ":");
    StringShape(":", "}");
    StepQuote([':'], ":" + (['"'] + "}"), ":");
    TailLength(fs);
  }

  /** Between a string's closing quote and a key that starts with a colon. */
  lemma CommaOfPair(f: Field, g: Field)
    requires FieldsOk([f, g]) && f.key != "," && f.value.Str? && g.key != "" && g.key[0] == ':'
    ensures Strstr(Tail([f, g]), Pattern(",")) == 4 + |f.key| + |f.value.s|
  {
    var fs := [f, g];
    var r := g.key + (['"'] + ([':'] + (ValueText(g.value) + "}")));
    assert fs[1..] == [g] && fs[0] == f && Plain(fs[0].key) && Plain(fs[0].value.s);
    StepQuote(f.key, [':'] + (ValueText(f.value) + Rest(fs)), ",");
    PastString(f.value.s, Rest(fs), ",");
    RestShape(fs, r);
    StepQuote([','], r, ",");
  }

  lemma CommaMisleads()
    ensures var fs := [Field("a", Str("x")), Field(":b", Num(0))];
            FieldsOk(fs) && Strstr(Tail(fs), Pattern(",")) != KeyPosition(fs, ",")
  {
    var f, g := Field("a", Str("x")), Field(":b", Num(0));
    var fs := [f, g];
    assert f.key[0] == 'a' && g.key[0] == ':' && g.key[1] == 'b';
    assert fs[1..] == [g];
    CommaOfPair(f, g);
    assert KeyPosition([g], ",") == FieldLength(g);
  }

  lemma LiteralMisleads(v: Value, key: string)
    requires !v.Str? && key == Between(v) && ShortKey(key)
    ensures var fs := [Field("a", v), Field(":b", Num(0))];
            FieldsOk(fs) && Strstr(Tail(fs), Pattern(key)) != KeyPosition(fs, key)
  {
    var f, g := Field("a", v), Field(":b", Num(0));
    var fs := [f, g];
    assert key[0] == ':' && key[|key| - 1] == ',' && g.key[1] == 'b' && f.key[0] == 'a';
    assert fs[1..] == [g];
    FirstOfPair(f, g, key);
    TailLength(fs);
    TailLength([g]);
  }

  /** The search finds each field, and finds nothing for an absent one, in all flat objects
      exactly for the keys that are not the text between two quotes. */
  lemma SearchIsExactIff(key: string)
    requires ShortKey(key)
    ensures (forall fs: seq<Field> :: fs != [] && FieldsOk(fs) ==>
               Strstr(Tail(fs), Pattern(key)) == KeyPosition(fs, key))
            <==> !Confusable(key)
  {
    if !Confusable(key) {
      forall fs: seq<Field> | fs != [] && FieldsOk(fs)
        ensures Strstr(Tail(fs), Pattern(key)) == KeyPosition(fs, key)
      {
        SearchIsExact(fs, key);
      }
    } else if key == ":" {
      ColonMisleads();
    } else if key == "," {
      CommaMisleads();
    } else {
      var v: Value :| !v.Str? && key == Between(v);
      LiteralMisleads(v, key);
    }
  }

  /** No key of the web interface is of that kind: it would have to start with a colon or be a comma. */
  lemma OrdinaryKeys(key: string)
    requires key == "" || (key[0] != ':' && key != ",")
    ensures !Confusable(key)
  {
  }

  // --- The getters read back what was printed ---

  /** A field with its comma. */
  function FieldFront(f: Field): (t: string)
    ensures |t| == FieldLength(f)
  {
    ['"'] + f.key + ['"', ':'] + ValueText(f.value) + [',']
  }

  lemma FrontThen(f: Field, rest: string)
    ensures FieldText(f, [','] + rest) == FieldFront(f) + rest
  {
  }

  lemma TailSplit(fs: seq<Field>)
    requires |fs| > 1
    ensures |Tail(fs)| >= FieldLength(fs[0]) && Tail(fs)[FieldLength(fs[0])..] == Tail(fs[1..])
  {
    FrontThen(fs[0], Tail(fs[1..]));
    Prefixed(FieldFront(fs[0]), Tail(fs[1..]));
  }

  lemma SliceSlice(t: string, a: nat, b: nat)
    requires a + b <= |t|
    ensures t[a..][b..] == t[a + b..]
  {
  }

  lemma {:induction false} AtKey(fs: seq<Field>, i: nat)
    requires i < |fs| && FieldsOk(fs)
    ensures var k := KeyPosition(fs, fs[i].key); k < |Tail(fs)| && Tail(fs)[k..] == Tail(fs[i..])
  {
    if i == 0 {
      assert fs[0..] == fs;
      assert Tail(fs)[0..] == Tail(fs);
    } else {
      var fs' := fs[1..];
      AtKey(fs', i - 1);
      assert fs'[i - 1] == fs[i] && fs'[i - 1..] == fs[i..];
      assert fs[0].key != fs[i].key;
      AtLaterKey(fs, fs[i].key, KeyPosition(fs', fs[i].key));
    }
  }

  lemma AtLaterKey(fs: seq<Field>, key: string, k: nat)
    requires |fs| > 1 && fs[0].key != key && k == KeyPosition(fs[1..], key) && k < |Tail(fs[1..])|
    ensures var at := KeyPosition(fs, key); at < |Tail(fs)| && Tail(fs)[at..] == Tail(fs[1..])[k..]
  {
    TailSplit(fs);
    SliceSlice(Tail(fs), FieldLength(fs[0]), k);
  }

  lemma {:induction false} AbsentKey(fs: seq<Field>, key: string)
    requires fs != [] && forall i :: 0 <= i < |fs| ==> fs[i].key != key
    ensures KeyPosition(fs, key) == |Tail(fs)|
  {
    TailLength(fs);
    if |fs| > 1 {
      AbsentKey(fs[1..], key);
    }
  }

  lemma BodySearch(fs: seq<Field>, key: string)
    requires fs != [] && FieldsOk(fs) && ShortKey(key) && !Confusable(key)
    ensures Strstr(ObjectText(fs), Pattern(key)) == 1 + KeyPosition(fs, key)
  {
    SearchIsExact(fs, key);
    SkipQuoteFree(['{'], Tail(fs), Pattern(key));
  }

  lemma AfterPattern(f: Field, rest: string)
    ensures var t := FieldText(f, rest); |f.key| + 3 <= |t| && t[|f.key| + 3..] == ValueText(f.value) + rest
  {
  }

  lemma ValueStarts(v: Value, rest: string)
    ensures var t := ValueText(v) + rest;
            && t != "" && t[0] != ' ' && SkipBlanks(t) == t
            && (v.Str? <==> t[0] == '"')
            && (v.Num? <==> t[0] == '-' || IsDigit(t[0]))
  {
  }

  /** The text the getters look at is the field's value. */
  lemma LocatedIsValue(fs: seq<Field>, i: nat)
    requires i < |fs| && FieldsOk(fs) && ShortKey(fs[i].key) && !Confusable(fs[i].key)
    ensures Located(ObjectText(fs), fs[i].key) == Some(ValueText(fs[i].value) + Rest(fs[i..]))
  {
    var key, body := fs[i].key, ObjectText(fs);
    var at, text := 1 + KeyPosition(fs, key) + (|key| + 3), ValueText(fs[i].value) + Rest(fs[i..]);
    ValueAt(fs, i);
    KeyFound(fs, i);
    ValueStarts(fs[i].value, Rest(fs[i..]));
    LocatedAt(body, key, at, text);
  }

  lemma KeyFound(fs: seq<Field>, i: nat)
    requires i < |fs| && FieldsOk(fs) && ShortKey(fs[i].key) && !Confusable(fs[i].key)
    ensures var body, key := ObjectText(fs), fs[i].key;
            Found(body, key) && PastPattern(body, key) == 1 + KeyPosition(fs, key) + (|key| + 3)
  {
    BodySearch(fs, fs[i].key);
    PatternChars(fs[i].key);
    AtKey(fs, i);
  }

  lemma LocatedAt(body: string, key: string, at: nat, text: string)
    requires Found(body, key) && PastPattern(body, key) == at && body[at..] == text && SkipBlanks(text) == text
    ensures Located(body, key) == Some(text)
  {
  }

  lemma ValueAt(fs: seq<Field>, i: nat)
    requires i < |fs| && FieldsOk(fs)
    ensures var at := 1 + KeyPosition(fs, fs[i].key) + (|fs[i].key| + 3);
            at <= |ObjectText(fs)| && ObjectText(fs)[at..] == ValueText(fs[i].value) + Rest(fs[i..])
  {
    var key, body, k := fs[i].key, ObjectText(fs), KeyPosition(fs, fs[i].key);
    AtKey(fs, i);
    AfterPattern(fs[i], Rest(fs[i..]));
    Prefixed(['{'], Tail(fs));
    SliceSlice(body, 1, k);
    SliceSlice(body, 1 + k, |key| + 3);
  }

  lemma RestStarts(fs: seq<Field>)
    requires fs != []
    ensures Rest(fs) != "" && !IsDigit(Rest(fs)[0])
  {
  }

  lemma StringReadsBack(s: string, rest: string, n: nat)
    requires '"' !in s
    ensures var t := ValueText(Str(s)) + rest; t[1..][..Min(IndexOf(t[1..], '"'), n)] == s[..Min(|s|, n)]
  {
    var t := ValueText(Str(s)) + rest;
    assert t[1..] == s + (['"'] + rest);
    IndexIs(s, '"', ['"'] + rest);
  }

  lemma FlagReadsBack(b: bool, rest: string)
    ensures var t := ValueText(Flag(b)) + rest;
            StartsWith(t, "true") == b && StartsWith(t, "false") == !b
  {
    var t := ValueText(Flag(b)) + rest;
    assert t[0] == if b then 't' else 'f';
  }

  /** What the getters make of a value's text. */
  lemma StringValue(body: string, key: string, s: string, rest: string, maxLen: nat)
    requires Located(body, key) == Some(ValueText(Str(s)) + rest) && '"' !in s && maxLen > 0
    ensures GetString(body, key, maxLen) == Some(s[..Min(|s|, maxLen - 1)])
    ensures GetInt(body, key) == None && GetBool(body, key) == None
  {
    ValueStarts(Str(s), rest);
    StringReadsBack(s, rest, maxLen - 1);
  }

  lemma NumValue(body: string, key: string, n: int, rest: string, maxLen: nat)
    requires Located(body, key) == Some(ValueText(Num(n)) + rest) && rest != "" && !IsDigit(rest[0]) && maxLen > 0
    ensures GetInt(body, key) == Some(n)
    ensures GetString(body, key, maxLen) == None && GetBool(body, key) == None
  {
    ValueStarts(Num(n), rest);
    AtoiReadsInt(n, rest);
  }

  lemma FlagValue(body: string, key: string, b: bool, rest: string, maxLen: nat)
    requires Located(body, key) == Some(ValueText(Flag(b)) + rest) && maxLen > 0
    ensures GetBool(body, key) == Some(b)
    ensures GetString(body, key, maxLen) == None && GetInt(body, key) == None
  {
    ValueStarts(Flag(b), rest);
    FlagReadsBack(b, rest);
  }

  /** In every flat object, each getter returns the value of the field asked for, strings cut
      to the buffer, and a getter of the wrong kind returns nothing. */
  lemma GettersReadBack(fs: seq<Field>, i: nat, maxLen: nat)
    requires i < |fs| && FieldsOk(fs) && ShortKey(fs[i].key) && !Confusable(fs[i].key) && maxLen > 0
    ensures var body, key, v := ObjectText(fs), fs[i].key, fs[i].value;
            && GetString(body, key, maxLen) == (if v.Str? then Some(v.s[..Min(|v.s|, maxLen - 1)]) else None)
            && GetInt(body, key) == (if v.Num? then Some(v.n) else None)
            && GetBool(body, key) == (if v.Flag? then Some(v.b) else None)
  {
    var body, rest := ObjectText(fs), Rest(fs[i..]);
    LocatedIsValue(fs, i);
    match fs[i].value {
      case Str(s) =>
        StringValue(body, fs[i].key, s, rest, maxLen);
      case Num(n) =>
        RestStarts(fs[i..]);
        NumValue(body, fs[i].key, n, rest, maxLen);
      case Flag(b) =>
        FlagValue(body, fs[i].key, b, rest, maxLen);
    }
  }

  /** And an absent key is found nowhere, inside no other field. */
  lemma AbsentIsNotFound(fs: seq<Field>, key: string)
    requires FieldsOk(fs) && ShortKey(key) && !Confusable(key) && forall i :: 0 <= i < |fs| ==> fs[i].key != key
    ensures Located(ObjectText(fs), key) == None
  {
    if fs == [] {
      SkipQuoteFree("{}", "", Pattern(key));
      assert "{}" + "" == "{}";
    } else {
      BodySearch(fs, key);
      AbsentKey(fs, key);
    }
  }

  /** All of it over the wire: whatever chunks the object arrives in, up to 511 bytes. */
  lemma ChunkedGettersReadBack(chunks: seq<string>, fs: seq<Field>, i: nat, maxLen: nat)
    requires Flat(chunks) == ObjectText(fs) && |ObjectText(fs)| <= BODY_MAX
    requires i < |fs| && FieldsOk(fs) && ShortKey(fs[i].key) && !Confusable(fs[i].key) && maxLen > 0
    ensures var body, key, v := Received(chunks), fs[i].key, fs[i].value;
            && GetString(body, key, maxLen) == (if v.Str? then Some(v.s[..Min(|v.s|, maxLen - 1)]) else None)
            && GetInt(body, key) == (if v.Num? then Some(v.n) else None)
            && GetBool(body, key) == (if v.Flag? then Some(v.b) else None)
  {
    ReceivedIsClipped(chunks);
    assert Clipped(ObjectText(fs)) == ObjectText(fs);
    GettersReadBack(fs, i, maxLen);
  }

  // --- Blanks before a value ---

  function Blanks(n: nat): (b: string)
    ensures |b| == n && forall i :: 0 <= i < n ==> b[i] == ' '
  {
    seq(n, _ => ' ')
  }

  lemma {:induction false} BlanksSkipped(n: nat, t: string)
    requires t == "" || t[0] != ' '
    ensures SkipBlanks(Blanks(n) + t) == t
  {
    if n == 0 {
      assert Blanks(0) + t == t;
    } else {
      assert (Blanks(n) + t)[1..] == Blanks(n - 1) + t;
      BlanksSkipped(n - 1, t);
    }
  }

  /** Any number of blanks between a key's colon and its value makes no difference to any getter. */
  lemma BlanksMakeNoDifference(front: string, key: string, n: nat, t: string, maxLen: nat)
    requires Found(front + t, key) && PastPattern(front + t, key) == |front| && maxLen > 0
    requires Found(front + (Blanks(n) + t), key) && PastPattern(front + (Blanks(n) + t), key) == |front|
    requires t == "" || t[0] != ' '
    ensures var tight, loose := front + t, front + (Blanks(n) + t);
            && GetString(loose, key, maxLen) == GetString(tight, key, maxLen)
            && GetInt(loose, key) == GetInt(tight, key)
            && GetBool(loose, key) == GetBool(tight, key)
  {
    Prefixed(front, t);
    Prefixed(front, Blanks(n) + t);
    BlanksSkipped(n, t);
    assert SkipBlanks(t) == t;
  }
}
