/** The URL splitter of `webhook.c`. */
module Url {
  import opened Words
  import opened CStrings
  import opened Config
  import opened Numbers

  const HOST_LEN := 64
  const URL_LEN := 128

  /** What the splitter leaves: success, host, port and path. */
  datatype Parts = Parts(ok: bool, host: string, port: Half, path: string)

  function Cut(s: string, n: nat): string {
    s[..Min(|s|, n)]
  }

  function SplitUrl(url: string): Parts {
    if StartsWith(url, "https://") then
      Parts(false, "", 80, "")
    else if StartsWith(url, "http://") then
      SplitRest(url[7..])
    else
      SplitRest(url)
  }

  /** A colon starts a port only before the first slash. */
  predicate HasPort(p: string) {
    IndexOf(p, ':') < |p| && (IndexOf(p, '/') == |p| || IndexOf(p, ':') < IndexOf(p, '/'))
  }

  function HostOf(p: string): string {
    Cut(p[..if HasPort(p) then IndexOf(p, ':') else IndexOf(p, '/')], HOST_LEN - 1)
  }

  function PortOf(p: string): Half {
    if HasPort(p) then Atoi(p[IndexOf(p, ':') + 1..]) % SEQ_WRAP else 80
  }

  function PathOf(p: string): string {
    if IndexOf(p, '/') < |p| then Cut(p[IndexOf(p, '/')..], URL_LEN - 1) else "/"
  }

  /** What follows the scheme. */
  function SplitRest(p: string): Parts {
    Parts(HostOf(p) != "", HostOf(p), PortOf(p), PathOf(p))
  }

  /** The request record's buffers. */
  class Request {
    const host: array<char>
    const path: array<char>
    var port: Half

    constructor ()
      ensures host.Length == HOST_LEN && path.Length == URL_LEN && fresh(host) && fresh(path) && host != path
    {
      host := new char[HOST_LEN](_ => NUL);
      path := new char[URL_LEN](_ => NUL);
      port := 0;
    }
  }

  method Memset0(a: array<char>)
    modifies a
    ensures a[..] == Zeros(a.Length)
  {
    forall i | 0 <= i < a.Length {
      a[i] := NUL;
    }
  }

  /** `memcpy` into the front of a buffer. */
  method Memcpy(dst: array<char>, src: string)
    requires |src| <= dst.Length
    modifies dst
    ensures dst[..] == src + old(dst[..])[|src|..]
  {
    forall i | 0 <= i < |src| {
      dst[i] := src[i];
    }
  }

  /** `parse_url` */
  method ParseUrl(url: string, req: Request) returns (ok: bool)
    requires NulFree(url) && req.host.Length == HOST_LEN && req.path.Length == URL_LEN && req.host != req.path
    modifies req, req.host, req.path
    ensures SplitUrl(url) == Parts(ok, CStr(req.host[..]), req.port, CStr(req.path[..]))
  {
    req.port := 80;
    Memset0(req.host);
    Memset0(req.path);
    if StartsWith(url, "https://") {
      CStrIs(req.host[..], "");
      CStrIs(req.path[..], "");
      return false;
    }
    if StartsWith(url, "http://") {
      ok := ParseRest(url[7..], req);
    } else {
      ok := ParseRest(url, req);
    }
  }

  method ParseRest(p: string, req: Request) returns (ok: bool)
    requires NulFree(p) && req.host.Length == HOST_LEN && req.path.Length == URL_LEN && req.host != req.path
    requires req.host[..] == Zeros(HOST_LEN) && req.path[..] == Zeros(URL_LEN) && req.port == 80
    modifies req, req.host, req.path
    ensures SplitRest(p) == Parts(ok, CStr(req.host[..]), req.port, CStr(req.path[..]))
  {
    FillHost(p, req.host);
    var slash, colon := IndexOf(p, '/'), IndexOf(p, ':');
    if colon < |p| && (slash == |p| || colon < slash) {
      req.port := Atoi(p[colon + 1..]) % SEQ_WRAP;
    }
    StorePath(req.path, if slash < |p| then p[slash..] else "/");
    ok := CStr(req.host[..]) != "";
  }

  /** The three ways the host is copied: up to the port's colon, up to the slash, or whole. */
  method FillHost(p: string, host: array<char>)
    requires NulFree(p) && host.Length == HOST_LEN && host[..] == Zeros(HOST_LEN)
    modifies host
    ensures CStr(host[..]) == HostOf(p)
  {
    var slash, colon := IndexOf(p, '/'), IndexOf(p, ':');
    if colon < |p| && (slash == |p| || colon < slash) {
      StoreHost(host, p[..colon]);
    } else if slash < |p| {
      StoreHost(host, p[..slash]);
    } else {
      Strncpy(host, p, HOST_LEN - 1);
      CopiedHolds(Zeros(HOST_LEN), p);
      assert p[..slash] == p;
    }
  }

  method StorePath(path: array<char>, text: string)
    requires path.Length == URL_LEN && path[..] == Zeros(URL_LEN) && NulFree(text)
    modifies path
    ensures CStr(path[..]) == Cut(text, URL_LEN - 1)
  {
    Strncpy(path, text, URL_LEN - 1);
    CopiedHolds(Zeros(URL_LEN), text);
  }

  method StoreHost(host: array<char>, text: string)
    requires host.Length == HOST_LEN && host[..] == Zeros(HOST_LEN) && NulFree(text)
    modifies host
    ensures CStr(host[..]) == Cut(text, HOST_LEN - 1)
  {
    var kept := Cut(text, HOST_LEN - 1);
    Memcpy(host, kept);
    assert host[..][..|kept|] == kept;
    CStrIs(host[..], kept);
  }

  // --- Round trip ---

  function PortText(port: Option<Half>): string {
    if port.Some? then [':'] + Decimal(port.value) else ""
  }

  /** A URL without scheme as its parts are printed. */
  function PlainText(host: string, port: Option<Half>, path: string): string {
    host + PortText(port) + path
  }

  predicate HostOk(host: string) {
    host != "" && '/' !in host && ':' !in host
  }

  predicate PathOk(path: string) {
    path != "" ==> path[0] == '/'
  }

  lemma SlashAfterPort(host: string, port: Option<Half>, path: string)
    requires HostOk(host) && PathOk(path)
    ensures IndexOf(PlainText(host, port, path), '/') == |host| + |PortText(port)|
  {
    assert '/' !in host + PortText(port);
    IndexIs(host + PortText(port), '/', path);
  }

  lemma ColonAfterHost(host: string, port: Option<Half>, path: string)
    requires HostOk(host) && PathOk(path)
    ensures var colon := IndexOf(PlainText(host, port, path), ':');
            if port.Some? then colon == |host| else |host| <= colon
    ensures HasPort(PlainText(host, port, path)) <==> port.Some?
  {
    var p := PlainText(host, port, path);
    SlashAfterPort(host, port, path);
    forall i | 0 <= i < |host| ensures p[i] != ':' {
      assert p[i] == host[i];
      assert host[i] in host;
    }
    if port.Some? {
      assert p[|host|] == ':';
      IndexAt(p, ':', |host|);
    } else {
      assert p == host + path;
      var colon := IndexOf(p, ':');
      assert path != "" ==> p[|host|] == '/';
      assert colon < |p| ==> p[colon] == ':';
    }
  }

  lemma HostComesFirst(host: string, port: Option<Half>, path: string)
    ensures PlainText(host, port, path)[..|host|] == host
  {
  }

  lemma HostReadsBack(host: string, port: Option<Half>, path: string)
    requires HostOk(host) && PathOk(path)
    ensures HostOf(PlainText(host, port, path)) == host[..Min(|host|, 63)]
  {
    SlashAfterPort(host, port, path);
    ColonAfterHost(host, port, path);
    HostComesFirst(host, port, path);
  }

  lemma PathReadsBack(host: string, port: Option<Half>, path: string)
    requires HostOk(host) && PathOk(path)
    ensures PathOf(PlainText(host, port, path)) == if path == "" then "/" else path[..Min(|path|, 127)]
  {
    SlashAfterPort(host, port, path);
    Prefixed(host + PortText(port), path);
  }

  lemma DigitsAfterColon(host: string, port: Half, path: string)
    ensures var p := PlainText(host, Some(port), path);
            |host| + 1 <= |p| && p[|host| + 1..] == IntText(port) + path
  {
    var front := host + [':'];
    assert PlainText(host, Some(port), path) == front + (Decimal(port) + path);
    Prefixed(front, Decimal(port) + path);
  }

  lemma PortReadsBack(host: string, port: Option<Half>, path: string)
    requires HostOk(host) && PathOk(path)
    ensures PortOf(PlainText(host, port, path)) == if port.Some? then port.value else 80
  {
    ColonAfterHost(host, port, path);
    if port.Some? {
      DigitsAfterColon(host, port.value, path);
      AtoiReadsInt(port.value, path);
    }
  }

  /** A text that starts with a scheme has its first colon right before its first slash. */
  lemma HttpShows(p: string)
    requires StartsWith(p, "http://")
    ensures IndexOf(p, ':') == 4 && IndexOf(p, '/') == 5
  {
    assert p[0] == 'h' && p[1] == 't' && p[2] == 't' && p[3] == 'p' && p[4] == ':' && p[5] == '/';
    IndexAt(p, ':', 4);
    IndexAt(p, '/', 5);
  }

  lemma HttpsShows(p: string)
    requires StartsWith(p, "https://")
    ensures IndexOf(p, ':') == 5 && IndexOf(p, '/') == 6
  {
    assert p[0] == 'h' && p[1] == 't' && p[2] == 't' && p[3] == 'p' && p[4] == 's' && p[5] == ':' && p[6] == '/';
    IndexAt(p, ':', 5);
    IndexAt(p, '/', 6);
  }

  lemma NoSchemeMistaken(host: string, port: Option<Half>, path: string)
    requires HostOk(host) && PathOk(path)
    ensures var p := PlainText(host, port, path); !StartsWith(p, "http://") && !StartsWith(p, "https://")
  {
    var p := PlainText(host, port, path);
    SlashAfterPort(host, port, path);
    ColonAfterHost(host, port, path);
    if StartsWith(p, "http://") {
      HttpShows(p);
    } else if StartsWith(p, "https://") {
      HttpsShows(p);
    }
  }

  lemma SchemeSplits(p: string)
    ensures SplitUrl("http://" + p) == SplitRest(p)
  {
    var url := "http://" + p;
    Prefixed("http://", p);
    assert url[4] == ':' && "https://"[4] == 's';
  }

  /** Splitting a printed URL gives back its parts: with or without the scheme, with port 80
      when none is printed and "/" when no path is, colons in the path notwithstanding. */
  lemma SplitReadsBack(host: string, port: Option<Half>, path: string)
    requires HostOk(host) && PathOk(path) && |host| <= 63 && |path| <= 127
    ensures var parts := Parts(true, host, if port.Some? then port.value else 80, if path == "" then "/" else path);
            && SplitUrl(PlainText(host, port, path)) == parts
            && SplitUrl("http://" + PlainText(host, port, path)) == parts
  {
    SplitCuts(host, port, path);
    assert host[..|host|] == host && path[..|path|] == path;
  }

  /** Of any printed URL, however long: a host is cut to 63 bytes and a path to 127. */
  lemma SplitCuts(host: string, port: Option<Half>, path: string)
    requires HostOk(host) && PathOk(path)
    ensures var parts := Parts(true, host[..Min(|host|, 63)], if port.Some? then port.value else 80,
                               if path == "" then "/" else path[..Min(|path|, 127)]);
            && SplitUrl(PlainText(host, port, path)) == parts
            && SplitUrl("http://" + PlainText(host, port, path)) == parts
  {
    HostReadsBack(host, port, path);
    PortReadsBack(host, port, path);
    PathReadsBack(host, port, path);
    NoSchemeMistaken(host, port, path);
    SchemeSplits(PlainText(host, port, path));
  }

  /** A URL that asks for TLS is refused, whatever follows. */
  lemma TlsIsRefused(rest: string)
    ensures SplitUrl("https://" + rest) == Parts(false, "", 80, "")
  {
    Prefixed("https://", rest);
  }

  /** And only such a URL, or one without a host, is. */
  lemma RefusedIff(url: string)
    ensures var p := if StartsWith(url, "http://") then url[7..] else url;
            !SplitUrl(url).ok <==> StartsWith(url, "https://") || p == "" || p[0] == '/' || p[0] == ':'
  {
    var p := if StartsWith(url, "http://") then url[7..] else url;
    if StartsWith(url, "https://") {
      assert url[4] == 's' && "http://"[4] == ':';
    }
  }
}
