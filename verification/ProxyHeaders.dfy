/** The headers of a proxied request. Header names are in lower case, as Node delivers them; a header that arrives
    more than once has been joined or dropped by Node, so every value is one text. */
module ProxyHeaders {
  import opened Options

  type Headers = map<string, string>

  datatype Socket = Socket(remoteAddress: string, encrypted: bool)

  const HOP: seq<string> := ["connection", "keep-alive", "proxy-authenticate", "proxy-authorization", "te", "trailer",
                             "transfer-encoding", "upgrade"]

  const FORWARDING: seq<string> := ["x-forwarded-for", "x-real-ip", "cf-connecting-ip", "forwarded"]

  predicate Stripped(name: string) { name in HOP || name in FORWARDING }

  predicate Rewritten(name: string) {
    name == "host" || name == "x-forwarded-for" || name == "x-forwarded-proto" || name == "x-forwarded-host"
  }

  function Value(headers: Headers, name: string): Option<string> {
    if name in headers then Some(headers[name]) else None
  }

  /** A header read the way the code reads it: absent and empty are alike. */
  function TextOf(headers: Headers, name: string): string {
    if name in headers then headers[name] else ""
  }

  // ----- the scheme the browser used ------------------------------------------------------------------------------

  function UpToComma(s: string): string {
    if s == "" || s[0] == ',' then "" else [s[0]] + UpToComma(s[1..])
  }

  /** What `trim` removes: the white space and line ends of ECMAScript. */
  predicate IsSpace(c: char) {
    || c == ' ' || ('\t' <= c <= '\r') || c == '\U{00A0}' || c == '\U{FEFF}' || c == '\U{1680}'
    || ('\U{2000}' <= c <= '\U{200A}') || c == '\U{2028}' || c == '\U{2029}' || c == '\U{202F}' || c == '\U{205F}'
    || c == '\U{3000}'
  }

  function TrimLeft(s: string): string { if s != "" && IsSpace(s[0]) then TrimLeft(s[1..]) else s }

  function TrimRight(s: string): string {
    if s != "" && IsSpace(s[|s| - 1]) then TrimRight(s[..|s| - 1]) else s
  }

  function LowerChar(c: char): char { if 'A' <= c <= 'Z' then c - 'A' + 'a' else c }

  function Lower(s: string): string { if s == "" then "" else [LowerChar(s[0])] + Lower(s[1..]) }

  function ForwardedProto(headers: Headers, socket: Socket, trustCloudflare: bool): (scheme: string)
    ensures scheme == "http" || scheme == "https"
  {
    var first := Lower(TrimRight(TrimLeft(UpToComma(TextOf(headers, "x-forwarded-proto")))));
    if first == "https" || first == "http" then first
    else if trustCloudflare then "https"
    else if socket.encrypted then "https" else "http"
  }

  predicate Blank(s: string) { forall i :: 0 <= i < |s| ==> IsSpace(s[i]) }

  /** No comma, and no blank at either end. */
  predicate IsItem(s: string) { s != "" && ',' !in s && !IsSpace(s[0]) && !IsSpace(s[|s| - 1]) }

  lemma {:induction false} FirstItem(item: string, tail: string)
    requires ',' !in item && (tail == "" || tail[0] == ',')
    ensures UpToComma(item + tail) == item
  {
    if item == "" {
      assert item + tail == tail;
    } else {
      assert item[0] in item && forall c :: c in item[1..] ==> c in item;
      assert (item + tail)[1..] == item[1..] + tail;
      FirstItem(item[1..], tail);
      assert [item[0]] + item[1..] == item;
    }
  }

  lemma {:induction false} TrimmedLeft(pad: string, s: string)
    requires Blank(pad) && (s == "" || !IsSpace(s[0]))
    ensures TrimLeft(pad + s) == s
  {
    if pad == "" {
      assert pad + s == s;
    } else {
      assert (pad + s)[1..] == pad[1..] + s;
      TrimmedLeft(pad[1..], s);
    }
  }

  lemma {:induction false} TrimmedRight(s: string, pad: string)
    requires Blank(pad) && s != "" && !IsSpace(s[|s| - 1])
    ensures TrimRight(s + pad) == s
  {
    if pad == "" {
      assert s + pad == s;
    } else {
      assert (s + pad)[..|s + pad| - 1] == s + pad[..|pad| - 1];
      TrimmedRight(s, pad[..|pad| - 1]);
    }
  }

  /** The scheme stated first is the one reported, in whatever case and with whatever blanks around it, and whatever
      other hops appended after a comma. */
  lemma DeclaredSchemeIsReported(
    headers: Headers, socket: Socket, trustCloudflare: bool, pad: string, word: string, padAfter: string, tail: string)
    requires "x-forwarded-proto" in headers && headers["x-forwarded-proto"] == pad + word + padAfter + tail
    requires Blank(pad) && Blank(padAfter) && IsItem(word) && (tail == "" || tail[0] == ',')
    requires Lower(word) == "http" || Lower(word) == "https"
    ensures ForwardedProto(headers, socket, trustCloudflare) == Lower(word)
  {
    var item := pad + word + padAfter;
    assert ',' !in pad && ',' !in padAfter;
    FirstItem(item, tail);
    assert item == pad + (word + padAfter);
    TrimmedLeft(pad, word + padAfter);
    TrimmedRight(word, padAfter);
  }

  function ClientIp(headers: Headers, socket: Socket, trustCloudflare: bool): string {
    if trustCloudflare && TextOf(headers, "cf-connecting-ip") != "" then TextOf(headers, "cf-connecting-ip")
    else if socket.remoteAddress != "" then socket.remoteAddress else "unknown"
  }

  // ----- what the API is told -------------------------------------------------------------------------------------

  /** The host the API is told the browser addressed: the request's own, and only without one the client's claim. */
  function HostTold(request: Headers): Option<string> {
    if TextOf(request, "host") != "" then Some(TextOf(request, "host")) else Value(request, "x-forwarded-host")
  }

  /** Header by header, what reaches the API. */
  function Told(request: Headers, socket: Socket, trustCloudflare: bool, apiHost: string, name: string): Option<string>
  {
    if name == "host" then Some(apiHost)
    else if name == "x-forwarded-for" then Some(ClientIp(request, socket, trustCloudflare))
    else if name == "x-forwarded-proto" then Some(ForwardedProto(request, socket, trustCloudflare))
    else if name == "x-forwarded-host" then HostTold(request)
    else if Stripped(name) then None
    else Value(request, name)
  }

  lemma FixedNames()
    ensures !Stripped("host") && !Stripped("x-forwarded-proto") && !Stripped("x-forwarded-host")
    ensures Stripped("x-forwarded-for") && Stripped("cf-connecting-ip")
    ensures forall name :: name in HOP ==> !Rewritten(name)
  {
    assert FORWARDING[0] == "x-forwarded-for" && FORWARDING[2] == "cf-connecting-ip";
  }

  /** The rewriting of the header object in place gives every header the value it should have. */
  method Rewrite(request: Headers, socket: Socket, trustCloudflare: bool, apiHost: string) returns (headers: Headers)
    ensures forall name :: Value(headers, name) == Told(request, socket, trustCloudflare, apiHost, name)
  {
    FixedNames();
    headers := map name | name in request && !Stripped(name) :: request[name];
    var originalHost := TextOf(request, "host");
    headers := headers["host" := apiHost];
    headers := headers["x-forwarded-for" := ClientIp(request, socket, trustCloudflare)];
    headers := headers["x-forwarded-proto" := ForwardedProto(request, socket, trustCloudflare)];
    if originalHost != "" {
      headers := headers["x-forwarded-host" := originalHost];
    }
  }

  ghost predicate ToldAlike(a: Headers, sa: Socket, b: Headers, sb: Socket, trustCloudflare: bool, apiHost: string) {
    forall name :: Told(a, sa, trustCloudflare, apiHost, name) == Told(b, sb, trustCloudflare, apiHost, name)
  }

  predicate PassesUntouched(name: string) { !Stripped(name) && !Rewritten(name) }

  /** All the API can tell two requests apart by: the client address, the scheme, the addressed host, and the
      headers that pass untouched. */
  lemma WhatTheApiLearns(a: Headers, sa: Socket, b: Headers, sb: Socket, trustCloudflare: bool, apiHost: string)
    ensures ToldAlike(a, sa, b, sb, trustCloudflare, apiHost) <==>
            && ClientIp(a, sa, trustCloudflare) == ClientIp(b, sb, trustCloudflare)
            && ForwardedProto(a, sa, trustCloudflare) == ForwardedProto(b, sb, trustCloudflare)
            && HostTold(a) == HostTold(b)
            && forall name :: PassesUntouched(name) ==> Value(a, name) == Value(b, name)
  {
    FixedNames();
    if ToldAlike(a, sa, b, sb, trustCloudflare, apiHost) {
      var for_, proto, host := "x-forwarded-for", "x-forwarded-proto", "x-forwarded-host";
      assert Told(a, sa, trustCloudflare, apiHost, for_) == Told(b, sb, trustCloudflare, apiHost, for_);
      assert Told(a, sa, trustCloudflare, apiHost, proto) == Told(b, sb, trustCloudflare, apiHost, proto);
      assert Told(a, sa, trustCloudflare, apiHost, host) == Told(b, sb, trustCloudflare, apiHost, host);
      forall name | PassesUntouched(name) ensures Value(a, name) == Value(b, name) {
        assert Told(a, sa, trustCloudflare, apiHost, name) == Value(a, name);
        assert Told(b, sb, trustCloudflare, apiHost, name) == Value(b, name);
      }
    }
  }

  /** With the Cloudflare flag off, hop-by-hop headers and client-supplied forwarding headers have no influence. */
  lemma StrippedHeadersDoNotInterfere(a: Headers, b: Headers, socket: Socket, apiHost: string)
    requires forall name :: !Stripped(name) ==> Value(a, name) == Value(b, name)
    ensures ToldAlike(a, socket, b, socket, false, apiHost)
  {
    FixedNames();
    var host, proto, xhost := "host", "x-forwarded-proto", "x-forwarded-host";
    assert Value(a, host) == Value(b, host);
    assert Value(a, proto) == Value(b, proto);
    assert Value(a, xhost) == Value(b, xhost);
    WhatTheApiLearns(a, socket, b, socket, false, apiHost);
  }

  /** With the flag on, exactly one of them is heard: the address Cloudflare states. */
  lemma OnlyCloudflareIsHeard(a: Headers, b: Headers, socket: Socket, apiHost: string)
    requires forall name :: !Stripped(name) ==> Value(a, name) == Value(b, name)
    ensures ToldAlike(a, socket, b, socket, true, apiHost) <==>
            ClientIp(a, socket, true) == ClientIp(b, socket, true)
    ensures Value(a, "cf-connecting-ip") == Value(b, "cf-connecting-ip") ==>
              ToldAlike(a, socket, b, socket, true, apiHost)
  {
    FixedNames();
    var host, proto, xhost := "host", "x-forwarded-proto", "x-forwarded-host";
    assert Value(a, host) == Value(b, host);
    assert Value(a, proto) == Value(b, proto);
    assert Value(a, xhost) == Value(b, xhost);
    WhatTheApiLearns(a, socket, b, socket, true, apiHost);
  }

  /** No hop-by-hop header and no `x-real-ip` or `forwarded` reaches the API, and every other header reaches it as
      it came or as this tier states it. */
  lemma EveryHeaderIsAccountedFor(
    request: Headers, socket: Socket, trustCloudflare: bool, apiHost: string, name: string)
    ensures Stripped(name) && name != "x-forwarded-for" ==> Told(request, socket, trustCloudflare, apiHost, name).None?
    ensures PassesUntouched(name) ==> Told(request, socket, trustCloudflare, apiHost, name) == Value(request, name)
    ensures name == "x-forwarded-host" && TextOf(request, "host") != "" ==>
              Told(request, socket, trustCloudflare, apiHost, name) == Value(request, "host")
    ensures name == "x-forwarded-host" && TextOf(request, "host") == "" ==>
              Told(request, socket, trustCloudflare, apiHost, name) == Value(request, name)
  {
    FixedNames();
  }

  /** The address the API is told: Cloudflare's when it is trusted and states one, and otherwise the connection's own,
      whatever the client claims. The host it is asked for is always its own. */
  lemma AddressIsTheConnections(request: Headers, socket: Socket, trustCloudflare: bool, apiHost: string)
    ensures Told(request, socket, trustCloudflare, apiHost, "host") == Some(apiHost)
    ensures Told(request, socket, trustCloudflare, apiHost, "x-forwarded-for") ==
            Some(if trustCloudflare && "cf-connecting-ip" in request && request["cf-connecting-ip"] != ""
                 then request["cf-connecting-ip"]
                 else if socket.remoteAddress == "" then "unknown" else socket.remoteAddress)
  {
    assert "host" != "x-forwarded-for";
  }

  /** Without a scheme stated by a proxy, it is the connection's own, or the one Cloudflare always uses. */
  lemma UnstatedSchemeIsTheConnections(request: Headers, socket: Socket, trustCloudflare: bool)
    requires "x-forwarded-proto" !in request
    ensures ForwardedProto(request, socket, trustCloudflare) ==
            if trustCloudflare || socket.encrypted then "https" else "http"
  {
    assert UpToComma("") == "" && TrimLeft("") == "" && TrimRight("") == "" && Lower("") == "";
  }

  /** The names that never reach the API: the hop-by-hop headers, and the addresses a client could claim. */
  lemma NeverForwarded(request: Headers, socket: Socket, trustCloudflare: bool, apiHost: string, name: string)
    ensures name == "connection" || name == "keep-alive" || name == "proxy-authenticate"
            || name == "proxy-authorization" || name == "te" || name == "trailer" || name == "transfer-encoding"
            || name == "upgrade" || name == "x-real-ip" || name == "cf-connecting-ip" || name == "forwarded" ==>
              Told(request, socket, trustCloudflare, apiHost, name) == None
    ensures Told(request, socket, trustCloudflare, apiHost, name) == None && name in request ==> Stripped(name)
  {
    FixedNames();
    HopNames();
    ForwardingNames();
  }

  lemma HopNames()
    ensures forall name :: name in HOP <==>
              name == "connection" || name == "keep-alive" || name == "proxy-authenticate"
              || name == "proxy-authorization" || name == "te" || name == "trailer" || name == "transfer-encoding"
              || name == "upgrade"
  {
    assert HOP[0] in HOP && HOP[1] in HOP && HOP[2] in HOP && HOP[3] in HOP;
    assert HOP[4] in HOP && HOP[5] in HOP && HOP[6] in HOP && HOP[7] in HOP;
  }

  lemma ForwardingNames()
    ensures forall name :: name in FORWARDING <==>
              name == "x-forwarded-for" || name == "x-real-ip" || name == "cf-connecting-ip" || name == "forwarded"
  {
    assert FORWARDING[0] in FORWARDING && FORWARDING[1] in FORWARDING;
    assert FORWARDING[2] in FORWARDING && FORWARDING[3] in FORWARDING;
  }
}
