/** The opening handshake of the std `ws` module (section 4 of RFC 6455):
    the server's `acceptable` test and `acceptWebSocket` response, the
    client's request text and its checks of the server's answer in
    `handshake`, and the transport and port `connectWebSocket` picks. */
module WsHandshake {
  import opened Wrappers
  import opened Bytes
  import opened WsSocket
  import opened Casing

  // ---------------------------------------------------------------- headers

  /** One header entry.  A `Headers` object keeps its names lower-cased; the
      names used here are lower-case already. */
  datatype Header = Header(name: string, value: string)

  type Headers = seq<Header>

  /** The `upgrade` token. */
  const WebSocketToken: string := "websocket"

  lemma WebSocketTokenIsLower()
    ensures Lower(WebSocketToken) == WebSocketToken
  {
    forall i | 0 <= i < |WebSocketToken| ensures 'a' <= WebSocketToken[i] <= 'z' {
    }
    LowerOfLowerCase(WebSocketToken);
  }

  /** Every name appears once, as in a `Headers` object. */
  ghost predicate WellFormed(h: Headers) {
    forall i, j :: 0 <= i < j < |h| ==> h[i].name != h[j].name
  }

  /** Where the entry for `name` is, if there is one. */
  function Find(h: Headers, name: string): (r: Option<nat>)
    ensures r.Some? ==> r.value < |h| && h[r.value].name == name
    ensures r.Some? ==> forall j :: 0 <= j < r.value ==> h[j].name != name
    ensures r.None? ==> forall j :: 0 <= j < |h| ==> h[j].name != name
  {
    if h == [] then None
    else if h[0].name == name then Some(0)
    else match Find(h[1..], name)
      case None => None
      case Some(k) => Some(k + 1)
  }

  /** `headers.get(name)`: the value stored under the name, or null. */
  function Get(h: Headers, name: string): (r: Option<string>)
    ensures r.Some? <==> exists i :: 0 <= i < |h| && h[i].name == name
  {
    match Find(h, name)
    case None => None
    case Some(i) => Some(h[i].value)
  }

  /** `headers.set(name, value)`: replace the entry's value where it stands,
      or append a new entry. */
  function Set(h: Headers, name: string, value: string): (r: Headers)
    ensures |r| == (if Find(h, name).Some? then |h| else |h| + 1)
  {
    match Find(h, name)
    case Some(i) => h[i := Header(name, value)]
    case None => h + [Header(name, value)]
  }

  /** After `set`, `get` returns the new value under that name and the old
      value under every other name; well-formed headers stay well-formed. */
  lemma SetThenGet(h: Headers, name: string, value: string, other: string)
    requires WellFormed(h)
    ensures Get(Set(h, name, value), name) == Some(value)
    ensures other != name ==> Get(Set(h, name, value), other) == Get(h, other)
    ensures WellFormed(Set(h, name, value))
  {
    FindInSet(h, name, value, name);
    if other != name {
      FindInSet(h, name, value, other);
    }
  }

  lemma FindInSet(h: Headers, name: string, value: string, other: string)
    requires WellFormed(h)
    ensures var r := Set(h, name, value);
      && (other == name ==> Find(r, other).Some? && r[Find(r, other).value].value == value)
      && (other != name ==> Find(r, other) == Find(h, other))
      && WellFormed(r)
  {
    var r := Set(h, name, value);
    match Find(h, name)
    case Some(i) =>
      assert forall j :: 0 <= j < |r| ==> r[j].name == h[j].name;
      FindSameNames(h, r, other);
    case None =>
      assert forall j :: 0 <= j < |h| ==> r[j] == h[j];
      FindAppend(h, Header(name, value), other);
  }

  /** The first entry with a name is where `Find` finds it. */
  lemma {:induction false} FindAt(h: Headers, i: nat, name: string)
    requires i < |h| && h[i].name == name
    requires forall j :: 0 <= j < i ==> h[j].name != name
    ensures Find(h, name) == Some(i)
  {
    if i > 0 {
      FindAt(h[1..], i - 1, name);
    }
  }

  /** Two header lists with the same names find a name at the same place. */
  lemma {:induction false} FindSameNames(h: Headers, r: Headers, name: string)
    requires |h| == |r| && forall j :: 0 <= j < |h| ==> r[j].name == h[j].name
    ensures Find(r, name) == Find(h, name)
  {
    if h != [] {
      FindSameNames(h[1..], r[1..], name);
    }
  }

  /** Appending an entry only adds a place to find its own name. */
  lemma {:induction false} FindAppend(h: Headers, e: Header, name: string)
    ensures Find(h + [e], name) ==
      if Find(h, name).Some? then Find(h, name) else if e.name == name then Some(|h|) else None
  {
    if h != [] {
      assert (h + [e])[1..] == h[1..] + [e];
      FindAppend(h[1..], e, name);
    }
  }

  // ----------------------------------------------------------- server side

  /** `acceptable(req)`: an `upgrade` header lower-casing to "websocket" and a
      non-empty `sec-websocket-key`. */
  function Acceptable(h: Headers): (b: bool)
    ensures b ==> Get(h, "upgrade").Some? && Get(h, "sec-websocket-key").Some?
  {
    match Get(h, "upgrade")
    case None => false
    case Some(upgrade) =>
      Lower(upgrade) == WebSocketToken
      && match Get(h, "sec-websocket-key")
         case None => false
         case Some(key) => |key| > 0
  }

  /** The response `acceptWebSocket` writes. */
  datatype Response = Response(status: nat, headers: Headers)

  datatype HandshakeError =
    | NotAcceptable                              // "request is not acceptable"
    | UnexpectedEof                              // the server closed the stream
    | InvalidStatusLine(line: string)            // "ws: invalid status line: ..."
    | NotAccepted(version: string, statusCode: string)  // "ws: server didn't accept handshake"
    | UnexpectedAccept(expected: string, actual: Option<string>)
    | UnsupportedProtocol(protocol: string)      // "ws: unsupported protocol: ..."

  /** The 101 response with the accept token computed from the client's key;
      `secAccept` stands for `createSecAccept` (SHA-1 and base64). */
  function AcceptResponse(key: string, secAccept: string -> string): (r: Response)
    ensures r.status == 101
    ensures Get(r.headers, "upgrade") == Some(WebSocketToken)
    ensures Get(r.headers, "connection") == Some("Upgrade")
    ensures Get(r.headers, "sec-websocket-accept") == Some(secAccept(key))
  {
    var hs := [Header("upgrade", WebSocketToken), Header("connection", "Upgrade"),
               Header("sec-websocket-accept", secAccept(key))];
    FindAt(hs, 0, "upgrade");
    FindAt(hs, 1, "connection");
    FindAt(hs, 2, "sec-websocket-accept");
    Response(101, hs)
  }

  /** `acceptWebSocket(req)`: an acceptable request gets a server-side socket
      (no mask) and the 101 response; anything else throws. */
  method AcceptWebSocket(h: Headers, secAccept: string -> string)
      returns (r: Result<WebSocket, HandshakeError>, response: Option<Response>)
    ensures r.Ok? <==> Acceptable(h)
    ensures r.Err? ==> r.error == NotAcceptable && response.None?
    ensures r.Ok? ==> && fresh(r.value) && r.value.Valid() && !r.value.isClosed && r.value.mask.None?
                      && response == Some(AcceptResponse(Get(h, "sec-websocket-key").value, secAccept))
  {
    if !Acceptable(h) {
      return Err(NotAcceptable), None;
    }
    var sock := new WebSocket(None);
    var key := Get(h, "sec-websocket-key").value;
    response := Some(AcceptResponse(key, secAccept));
    r := Ok(sock);
  }

  // ----------------------------------------------------------- client side

  /** The headers `handshake` sends: `host` only when absent, then `upgrade`,
      `connection`, the key and version 13. */
  function FinalHeaders(h: Headers, hostname: string, key: string): Headers {
    var h1 := if Get(h, "host").Some? then h else Set(h, "host", hostname);
    Set(Set(Set(Set(h1, "upgrade", WebSocketToken), "connection", "upgrade"),
            "sec-websocket-key", key), "sec-websocket-version", "13")
  }

  /** What `handshake` leaves under each header it sets. */
  lemma FinalHeadersGet(h: Headers, hostname: string, key: string)
    requires WellFormed(h)
    ensures var f := FinalHeaders(h, hostname, key);
      && WellFormed(f)
      && Get(f, "upgrade") == Some(WebSocketToken)
      && Get(f, "sec-websocket-key") == Some(key)
      && Get(f, "sec-websocket-version") == Some("13")
      && Get(f, "host") == (if Get(h, "host").Some? then Get(h, "host") else Some(hostname))
  {
    var host := if Get(h, "host").Some? then Get(h, "host") else Some(hostname);
    var h1 := if Get(h, "host").Some? then h else Set(h, "host", hostname);
    if Get(h, "host").None? {
      SetThenGet(h, "host", hostname, "host");
    }
    assert Get(h1, "host") == host;
    var h2 := Set(h1, "upgrade", WebSocketToken);
    SetThenGet(h1, "upgrade", WebSocketToken, "host");
    assert Get(h2, "host") == host;
    var h3 := Set(h2, "connection", "upgrade");
    SetThenGet(h2, "connection", "upgrade", "host");
    SetThenGet(h2, "connection", "upgrade", "upgrade");
    assert Get(h3, "host") == host && Get(h3, "upgrade") == Some(WebSocketToken);
    var h4 := Set(h3, "sec-websocket-key", key);
    SetThenGet(h3, "sec-websocket-key", key, "host");
    SetThenGet(h3, "sec-websocket-key", key, "upgrade");
    assert Get(h4, "host") == host && Get(h4, "upgrade") == Some(WebSocketToken);
    SetThenGet(h4, "sec-websocket-version", "13", "host");
    SetThenGet(h4, "sec-websocket-version", "13", "upgrade");
    SetThenGet(h4, "sec-websocket-version", "13", "sec-websocket-key");
  }

  /** The request headers carry what the server's `acceptable` checks for:
      the client's request is acceptable exactly when its key is non-empty,
      and the server then reads back the client's own key. */
  lemma ClientRequestAcceptable(h: Headers, hostname: string, key: string)
    requires WellFormed(h)
    ensures var f := FinalHeaders(h, hostname, key);
      && WellFormed(f)
      && Get(f, "sec-websocket-key") == Some(key)
      && Get(f, "sec-websocket-version") == Some("13")
      && Get(f, "host") == (if Get(h, "host").Some? then Get(h, "host") else Some(hostname))
      && (Acceptable(f) <==> |key| > 0)
  {
    FinalHeadersGet(h, hostname, key);
    WebSocketTokenIsLower();
  }

  /** One `key: value\r\n` line per header, in iteration order. */
  function HeaderLines(h: Headers): string {
    if h == [] then [] else HeaderLines(h[..|h| - 1]) + HeaderLine(h[|h| - 1])
  }

  function HeaderLine(e: Header): string {
    e.name + ": " + e.value + "\r\n"
  }

  /** The request text: the request line, the header lines and a blank line. */
  function RequestText(pathname: string, search: string, h: Headers): (r: string)
    ensures |r| >= 4 && r[..4] == "GET " && r[|r| - 2..] == "\r\n"
  {
    "GET " + pathname + search + " HTTP/1.1\r\n" + HeaderLines(h) + "\r\n"
  }

  /** The header lines of two lists back to back are those of each in turn. */
  lemma {:induction false} HeaderLinesAppend(a: Headers, b: Headers)
    ensures HeaderLines(a + b) == HeaderLines(a) + HeaderLines(b)
    decreases |b|
  {
    if b == [] {
      assert a + b == a;
    } else {
      var b' := b[..|b| - 1];
      var last := HeaderLine(b[|b| - 1]);
      assert (a + b)[..|a + b| - 1] == a + b';
      assert (a + b)[|a + b| - 1] == b[|b| - 1];
      assert HeaderLines(a + b) == HeaderLines(a + b') + last;
      HeaderLinesAppend(a, b');
      assert HeaderLines(b) == HeaderLines(b') + last;
      ConcatAssoc(HeaderLines(a), HeaderLines(b'), last);
    }
  }

  lemma ConcatAssoc(x: string, y: string, z: string)
    ensures (x + y) + z == x + (y + z)
  {
  }

  /** `handshake`'s loop building `headerStr`. */
  method BuildRequest(pathname: string, search: string, h: Headers) returns (headerStr: string)
    ensures headerStr == RequestText(pathname, search, h)
  {
    headerStr := "GET " + pathname + search + " HTTP/1.1\r\n";
    var i := 0;
    while i < |h|
      invariant 0 <= i <= |h|
      invariant headerStr == "GET " + pathname + search + " HTTP/1.1\r\n" + HeaderLines(h[..i])
    {
      assert h[..i + 1][..i] == h[..i];
      headerStr := headerStr + (h[i].name + ": " + h[i].value + "\r\n");
      i := i + 1;
    }
    assert h[..i] == h;
    headerStr := headerStr + "\r\n";
  }

  // ----------------------------------------------------------- status line

  /** The characters JavaScript's `\s` matches. */
  predicate IsSpace(c: char) {
    var n := c as int;
    n == 0x20 || 0x09 <= n <= 0x0d || n == 0xa0 || n == 0x1680 || 0x2000 <= n <= 0x200a
    || n == 0x2028 || n == 0x2029 || n == 0x202f || n == 0x205f || n == 0x3000 || n == 0xfeff
  }

  predicate NoSpace(s: string) {
    forall i :: 0 <= i < |s| ==> !IsSpace(s[i])
  }

  /** The length of the longest prefix of `s` that `\S+` can match. */
  function NonSpaceRun(s: string): (n: nat)
    ensures n <= |s| && NoSpace(s[..n])
    ensures n < |s| ==> IsSpace(s[n])
  {
    if s == [] || IsSpace(s[0]) then 0
    else
      var k := NonSpaceRun(s[1..]);
      assert s[..k + 1] == [s[0]] + s[1..][..k];
      k + 1
  }

  datatype StatusLine = StatusLine(version: string, statusCode: string)

  /** `statusLine.match(/^(?<version>\S+) (?<statusCode>\S+) /)`.  Neither
      group can give back a character to let the match succeed, since a
      space never matches `\S`, so each is the longest run available. */
  function ParseStatusLine(line: string): (r: Option<StatusLine>)
    ensures r.Some? ==> |r.value.version| > 0 && |r.value.statusCode| > 0
  {
    var v := NonSpaceRun(line);
    if v == 0 || v == |line| || line[v] != ' ' then None
    else
      var rest := line[v + 1..];
      var c := NonSpaceRun(rest);
      if c == 0 || c == |rest| || rest[c] != ' ' then None
      else Some(StatusLine(line[..v], rest[..c]))
  }

  /** A line parses exactly when it starts with two non-empty runs free of
      whitespace, each followed by a space; the groups are those runs. */
  lemma ParseStatusLineSpec(line: string, version: string, statusCode: string)
    ensures ParseStatusLine(line) == Some(StatusLine(version, statusCode)) <==>
      && |version| > 0 && NoSpace(version) && |statusCode| > 0 && NoSpace(statusCode)
      && |line| >= |version| + |statusCode| + 2
      && line[..|version| + |statusCode| + 2] == version + " " + statusCode + " "
  {
    var n := |version| + |statusCode| + 2;
    if |version| > 0 && NoSpace(version) && |statusCode| > 0 && NoSpace(statusCode)
       && |line| >= n && line[..n] == version + " " + statusCode + " " {
      assert line[..|version|] == version;
      RunOfPrefix(line, version);
      var rest := line[|version| + 1..];
      assert rest[..|statusCode| + 1] == statusCode + " ";
      assert rest[..|statusCode|] == statusCode;
      RunOfPrefix(rest, statusCode);
    }
    if ParseStatusLine(line) == Some(StatusLine(version, statusCode)) {
      var v := NonSpaceRun(line);
      var rest := line[v + 1..];
      SplitPrefix(line, |version|, |statusCode|);
    }
  }

  /** The first `i + j + 2` elements: `i` of them, one, `j` more, one more. */
  lemma SplitPrefix<T>(s: seq<T>, i: nat, j: nat)
    requires i + j + 2 <= |s|
    ensures s[..i + j + 2] == s[..i] + [s[i]] + s[i + 1..][..j] + [s[i + 1..][j]]
  {
    var t := s[..i] + [s[i]] + s[i + 1..][..j] + [s[i + 1..][j]];
    assert |t| == i + j + 2;
    forall k | 0 <= k < i + j + 2 ensures t[k] == s[k] {
      if k < i {
      } else if k == i {
      } else if k < i + 1 + j {
        assert t[k] == s[i + 1..][..j][k - i - 1];
      }
    }
  }

  /** A whitespace-free prefix followed by a space is the longest run. */
  lemma RunOfPrefix(s: string, p: string)
    requires |p| < |s| && s[..|p|] == p && NoSpace(p) && s[|p|] == ' '
    ensures NonSpaceRun(s) == |p|
  {

  }

  /** The version and status `handshake` insists on. */
  const Http11: string := "HTTP/1.1"
  const SwitchingProtocols: string := "101"

  lemma ProtocolTokensHaveNoSpace()
    ensures NoSpace(Http11) && NoSpace(SwitchingProtocols)
  {
    forall i | 0 <= i < |Http11| ensures '.' <= Http11[i] <= 'T' {
    }
    forall i | 0 <= i < |SwitchingProtocols| ensures '0' <= SwitchingProtocols[i] <= '1' {
    }
  }

  /** `handshake`'s checks of the server's answer, in their order: the status
      line must be there and parse, and say HTTP/1.1 and 101; the headers must
      be there and carry the expected accept token. */
  function CheckResponse(statusLine: Option<string>, responseHeaders: Option<Headers>, expectedAccept: string)
      : (r: Result<(), HandshakeError>)
    ensures r.Ok? <==>
      && statusLine.Some? && ParseStatusLine(statusLine.value) == Some(StatusLine(Http11, SwitchingProtocols))
      && responseHeaders.Some? && Get(responseHeaders.value, "sec-websocket-accept") == Some(expectedAccept)
    ensures statusLine.None? ==> r == Err(UnexpectedEof)
  {
    match statusLine
    case None => Err(UnexpectedEof)
    case Some(line) =>
      match ParseStatusLine(line)
      case None => Err(InvalidStatusLine(line))
      case Some(m) =>
        if m.version != Http11 || m.statusCode != SwitchingProtocols then Err(NotAccepted(m.version, m.statusCode))
        else match responseHeaders
          case None => Err(UnexpectedEof)
          case Some(rh) =>
            var secAccept := Get(rh, "sec-websocket-accept");
            if secAccept != Some(expectedAccept) then Err(UnexpectedAccept(expectedAccept, secAccept))
            else Ok(())
  }

  /** A server that answers the client's request with `acceptWebSocket`'s
      response, after a status line `HTTP/1.1 101 <reason>`, passes every check. */
  lemma AcceptedByClient(key: string, secAccept: string -> string, reason: string)
    ensures CheckResponse(Some("HTTP/1.1 101 " + reason), Some(AcceptResponse(key, secAccept).headers),
                          secAccept(key)) == Ok(())
  {
    var line := "HTTP/1.1 101 " + reason;
    var head := Http11 + " " + SwitchingProtocols + " ";
    assert line == head + reason;
    assert line[..|head|] == head;
    ProtocolTokensHaveNoSpace();
    ParseStatusLineSpec(line, Http11, SwitchingProtocols);
  }

  /** `handshake(url, headers, ...)` given the key `createSecKey` chose and the
      server's answer: the request text it writes and its verdict.  The
      `set` calls update the caller's `Headers` object, which is left as
      `headersAfter`. */
  method Handshake(hostname: string, pathname: string, search: string, h: Headers, key: string,
                   secAccept: string -> string, statusLine: Option<string>, responseHeaders: Option<Headers>)
      returns (request: string, r: Result<(), HandshakeError>, headersAfter: Headers)
    ensures headersAfter == FinalHeaders(h, hostname, key)
    ensures request == RequestText(pathname, search, headersAfter)
    ensures r == CheckResponse(statusLine, responseHeaders, secAccept(key))
  {
    var headers := h;
    if Get(headers, "host").None? {
      headers := Set(headers, "host", hostname);
    }
    headers := Set(headers, "upgrade", WebSocketToken);
    headers := Set(headers, "connection", "upgrade");
    headers := Set(headers, "sec-websocket-key", key);
    headers := Set(headers, "sec-websocket-version", "13");
    request := BuildRequest(pathname, search, headers);
    r := CheckResponse(statusLine, responseHeaders, secAccept(key));
    headersAfter := headers;
  }

  // ------------------------------------------------------------ connecting

  /** Where `connectWebSocket` connects: TLS or not, and the port. */
  datatype Target = Target(tls: bool, hostname: string, port: nat)

  predicate IsDigits(s: string) {
    forall i :: 0 <= i < |s| ==> '0' <= s[i] <= '9'
  }

  /** `parseInt` of a decimal digit string. */
  function DecimalValue(s: string): nat
    requires IsDigits(s)
  {
    if s == [] then 0 else DecimalValue(s[..|s| - 1]) * 10 + (s[|s| - 1] as int - '0' as int)
  }

  /** The choice of transport and port: `ws:` and `http:` connect over TCP,
      by default to port 80; `wss:` and `https:` over TLS, by default to 443;
      any other scheme throws.  The URL's port is empty or decimal digits. */
  function ConnectTarget(protocol: string, hostname: string, port: string): (r: Result<Target, HandshakeError>)
    requires IsDigits(port)
  {
    if protocol == "http:" || protocol == "ws:" then
      Ok(Target(false, hostname, DecimalValue(if port == "" then "80" else port)))
    else if protocol == "https:" || protocol == "wss:" then
      Ok(Target(true, hostname, DecimalValue(if port == "" then "443" else port)))
    else Err(UnsupportedProtocol(protocol))
  }

  /** The transport is chosen by the scheme alone, the default port by the
      transport, and an explicit port is always used as given. */
  lemma ConnectTargetChoice(protocol: string, hostname: string, port: string)
    requires IsDigits(port)
    ensures var r := ConnectTarget(protocol, hostname, port);
      && (r.Ok? <==> protocol in {"http:", "ws:", "https:", "wss:"})
      && (r.Err? ==> r.error == UnsupportedProtocol(protocol))
      && (r.Ok? ==> r.value.hostname == hostname && (r.value.tls <==> protocol in {"https:", "wss:"}))
      && (r.Ok? && port == "" ==> r.value.port == if r.value.tls then 443 else 80)
      && (r.Ok? && port != "" ==> r.value.port == DecimalValue(port))
  {
    assert DecimalValue("8") == 8 && DecimalValue("80") == 80;
    assert DecimalValue("4") == 4 && DecimalValue("44") == 44 && DecimalValue("443") == 443;
  }

  /** `connectWebSocket(endpoint, headers)` given the outcome of the steps it
      cannot see: it picks the target, runs the handshake, closes the
      connection when the handshake throws, and otherwise returns a client
      socket masking with the key `createMask` produced. */
  method ConnectWebSocket(protocol: string, hostname: string, port: string, pathname: string, search: string,
                          h: Headers, key: string, mask: seq<Byte>, secAccept: string -> string,
                          statusLine: Option<string>, responseHeaders: Option<Headers>)
      returns (target: Option<Target>, request: Option<string>, connClosed: bool, r: Result<WebSocket, HandshakeError>,
               headersAfter: Headers)
    requires IsDigits(port)
    ensures ConnectTarget(protocol, hostname, port).Err? ==>
      target.None? && request.None? && !connClosed && r == Err(ConnectTarget(protocol, hostname, port).error)
      && headersAfter == h
    ensures ConnectTarget(protocol, hostname, port).Ok? ==>
      && target == Some(ConnectTarget(protocol, hostname, port).value)
      && headersAfter == FinalHeaders(h, hostname, key)
      && request == Some(RequestText(pathname, search, FinalHeaders(h, hostname, key)))
      && (connClosed <==> CheckResponse(statusLine, responseHeaders, secAccept(key)).Err?)
      && (r.Err? ==> CheckResponse(statusLine, responseHeaders, secAccept(key)) == Err(r.error))
    ensures r.Ok? ==> && fresh(r.value) && r.value.Valid() && !r.value.isClosed && r.value.mask == Some(mask)
  {
    var t := ConnectTarget(protocol, hostname, port);
    if t.Err? {
      return None, None, false, Err(t.error), h;
    }
    target := Some(t.value);
    var text, check, after := Handshake(hostname, pathname, search, h, key, secAccept, statusLine, responseHeaders);
    request := Some(text);
    headersAfter := after;
    if check.Err? {
      return target, request, true, Err(check.error), after;
    }
    connClosed := false;
    var sock := new WebSocket(Some(mask));
    r := Ok(sock);
  }
}
