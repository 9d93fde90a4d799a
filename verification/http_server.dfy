/**
 * The HTTP server's request handling: routing by method and path, the
 * fixed replies, the client-info echo, the two search endpoints, static
 * files, the MIME type of a file, and the metric counters each route bumps.
 * Sockets, the clock and the file system are outside the model: the
 * received bytes, the elapsed milliseconds and the file contents are
 * inputs, and the search engines are functions.
 */
module Http {
  import opened Wrappers
  import opened Strings
  import HeaderMap
  import Metrics
  import Sqlite
  import opened HttpParse

  // ---- replies ----

  /** A reply: its status code and reason, its one `Content-Type` header, and its body. */
  datatype Reply = Reply(code: string, reason: string, contentType: string, body: string)

  /** The bytes sent for a reply: status line, the header, a blank line, the body. */
  function Wire(r: Reply): (w: string)
    ensures StartsWith(w, "HTTP/1.1 ")
    ensures |w| > |r.body| && w[|w| - |r.body|..] == r.body
  {
    "HTTP/1.1 " + r.code + " " + r.reason + "\r\nContent-Type: " + r.contentType + "\r\n\r\n" + r.body
  }

  /** The `\r\n\r\n` that ends the header block starts at index `k` of `w`. */
  predicate BlankLineAt(w: string, k: int) {
    0 <= k && k + 4 <= |w| && w[k..k + 4] == "\r\n\r\n"
  }

  /**
   * A client reads the reply back: when the status line and the header hold
   * no `\r`, the first blank line (`\r\n\r\n`) comes right after the
   * `Content-Type` header, so everything after it is the body.
   */
  lemma WireReadsBack(r: Reply)
    requires '\r' !in r.code && '\r' !in r.reason && '\r' !in r.contentType
    ensures var head := "HTTP/1.1 " + r.code + " " + r.reason + "\r\nContent-Type: " + r.contentType;
            Wire(r) == head + "\r\n\r\n" + r.body && BlankLineAt(Wire(r), |head|) &&
            forall k :: 0 <= k < |head| ==> !BlankLineAt(Wire(r), k)
  {
    var a := "HTTP/1.1 " + r.code + " " + r.reason;
    var b := "\r\nContent-Type: " + r.contentType;
    var head := "HTTP/1.1 " + r.code + " " + r.reason + "\r\nContent-Type: " + r.contentType;
    var w := Wire(r);
    AppendAssoc(a, "\r\nContent-Type: ", r.contentType);
    assert head == a + b;
    assert w[|head|..|head| + 4] == "\r\n\r\n";
    assert forall i :: 0 <= i < |a| ==> a[i] != '\r' by {
      forall i | 0 <= i < |a|
        ensures a[i] != '\r'
      {
        if i >= 9 + |r.code| + 1 {
          assert a[i] == r.reason[i - 10 - |r.code|];
        } else if i >= 9 && i < 9 + |r.code| {
          assert a[i] == r.code[i - 9];
        }
      }
    }
    forall k | 0 <= k < |head|
      ensures !BlankLineAt(w, k)
    {
      assert w[k..k + 4][0] == w[k] && w[k..k + 4][2] == w[k + 2];
      if k < |a| {
        assert w[k] == a[k];
      } else if k == |a| {
        assert w[k + 2] == b[2] == 'C';
      } else {
        var j := k - |a|;
        assert w[k] == b[j];
        if j >= 16 {
          assert b[j] == r.contentType[j - 16];
        }
      }
    }
  }

  function Ok(contentType: string, body: string): Reply {
    Reply("200", "OK", contentType, body)
  }

  function JsonOk(body: string): Reply {
    Ok("application/json", body)
  }

  function JsonError(code: string, reason: string, message: string): Reply {
    Reply(code, reason, "application/json", "{\"error\":\"" + message + "\"}")
  }

  const MethodNotAllowedReply: Reply := JsonError("405", "Method Not Allowed", "method not allowed")
  const HealthReply: Reply := JsonOk("{\"status\":\"ok\"}")
  const MissingQReply: Reply := JsonError("400", "Bad Request", "missing q")
  const InvalidNumberReply: Reply := JsonError("400", "Bad Request", "invalid limit or offset")
  const InvalidPathReply: Reply := JsonError("400", "Bad Request", "invalid path")
  const NotFoundReply: Reply := JsonError("404", "Not Found", "not found")

  /** A three-digit status code sits on the wire right after `HTTP/1.1 `, whatever follows it. */
  lemma WireCode(r: Reply)
    requires |r.code| == 3
    ensures |Wire(r)| >= 12
    ensures Wire(r)[9..12] == r.code
  {
    var rest := " " + r.reason + "\r\nContent-Type: " + r.contentType + "\r\n\r\n" + r.body;
    assert Wire(r) == "HTTP/1.1 " + r.code + rest;
  }

  // ---- GetMimeType ----

  /**
   * `GetMimeType(path)`: the first of `.html`, `.css`, `.js` found anywhere
   * in the path decides; otherwise plain text.
   */
  function MimeType(path: string): (t: string)
    ensures t == "text/html" || t == "text/css" || t == "application/javascript" || t == "text/plain"
    ensures t == "text/html" <==> Contains(path, ".html")
    ensures t == "text/css" <==> !Contains(path, ".html") && Contains(path, ".css")
    ensures t == "application/javascript" <==> !Contains(path, ".html") && !Contains(path, ".css") && Contains(path, ".js")
    ensures t == "text/plain" <==> !Contains(path, ".html") && !Contains(path, ".css") && !Contains(path, ".js")
  {
    if Contains(path, ".html") then "text/html"
    else if Contains(path, ".css") then "text/css"
    else if Contains(path, ".js") then "application/javascript"
    else "text/plain"
  }

  /** A `.json` file is served as JavaScript: the search for `.js` also finds `.json`. */
  lemma JsonServedAsJavascript(path: string)
    requires Contains(path, ".json") && !Contains(path, ".html") && !Contains(path, ".css")
    ensures MimeType(path) == "application/javascript"
  {
    assert ".js" + "on" == ".json";
    ContainsPrefixOf(path, ".js", "on");
  }

  /** A match earlier in the list wins wherever it sits: `/app.js.html` is HTML. */
  lemma HtmlWinsOverScript(path: string)
    requires Contains(path, ".html")
    ensures MimeType(path) == "text/html"
  {
  }

  // ---- the client-info echo ----

  /** How the echo writes one byte of a header value: `"` and `\` are backslash-escaped, everything else copied. */
  function QuoteChar(c: char): (r: string)
    ensures c != '"' && c != '\\' ==> r == [c]
    ensures c == '"' ==> r == "\\\""
    ensures c == '\\' ==> r == "\\\\"
  {
    if c == '"' then "\\\"" else if c == '\\' then "\\\\" else [c]
  }

  /** A header value as the echo writes it. */
  function QuoteEscaped(s: string): (r: string)
    ensures |r| >= |s|
  {
    if |s| == 0 then "" else QuoteChar(s[0]) + QuoteEscaped(s[1..])
  }

  /** The escaping loop over one header value. */
  method EscapeQuotes(s: string) returns (out: string)
    ensures out == QuoteEscaped(s)
  {
    out := "";
    var i := 0;
    while i < |s|
      invariant 0 <= i <= |s|
      invariant out + QuoteEscaped(s[i..]) == QuoteEscaped(s)
    {
      var piece: string;
      if s[i] == '"' {
        piece := "\\\"";
      } else if s[i] == '\\' {
        piece := "\\\\";
      } else {
        piece := [s[i]];
      }
      assert s[i..][1..] == s[i + 1..];
      assert QuoteEscaped(s[i..]) == piece + QuoteEscaped(s[i + 1..]);
      AppendAssoc(out, piece, QuoteEscaped(s[i + 1..]));
      out := out + piece;
      i := i + 1;
    }
    assert s[i..] == "";
  }

  lemma UnescapeQuoteStep(c: char, rest: string, r: string)
    requires c as int >= 0x20 && Sqlite.Unescaped(rest) == Some(r)
    ensures Sqlite.Unescaped(QuoteChar(c) + rest) == Some([c] + r)
  {
    var t := QuoteChar(c) + rest;
    if c == '"' || c == '\\' {
      assert t[2..] == rest;
    } else {
      assert t[1..] == rest;
    }
  }

  /**
   * A header value free of control characters reads back, as a JSON
   * string, exactly as it was sent.
   */
  lemma {:induction false} QuoteEscapedReadsBack(s: string)
    requires forall i :: 0 <= i < |s| ==> s[i] as int >= 0x20
    ensures Sqlite.Unescaped(QuoteEscaped(s)) == Some(s)
  {
    if |s| > 0 {
      QuoteEscapedReadsBack(s[1..]);
      UnescapeQuoteStep(s[0], QuoteEscaped(s[1..]), s[1..]);
      assert [s[0]] + s[1..] == s;
    }
  }

  /** A tab inside a header value is copied raw, so the echoed string is not valid JSON. */
  lemma TabBreaksEcho()
    ensures Sqlite.Unescaped(QuoteEscaped("a\tb")) == None
  {
    var s := "a\tb";
    assert QuoteEscaped(s[2..]) == "b" by {
      assert s[2..][1..] == "";
    }
    assert QuoteEscaped(s[1..]) == "\tb" by {
      assert s[1..][1..] == s[2..];
    }
    assert QuoteEscaped(s) == s;
    assert s[1..] == "\tb";
  }

  /** One entry of the `headers` object. */
  function HeaderEntry(kv: (string, string)): string {
    "\"" + kv.0 + "\":\"" + QuoteEscaped(kv.1) + "\""
  }

  function HeaderEntries(m: HeaderMap.Map): (r: seq<string>)
    ensures |r| == |m|
    ensures forall i :: 0 <= i < |m| ==> r[i] == HeaderEntry(m[i])
  {
    seq(|m|, i requires 0 <= i < |m| => HeaderEntry(m[i]))
  }

  /** `headers.count(name) ? headers[name] : ""`. */
  function Named(m: HeaderMap.Map, name: string): string {
    HeaderMap.Lookup(m, name).GetOr("")
  }

  /** One `"key":"value",` member, the value written as it is. */
  function JsonField(key: string, value: string): string {
    "\"" + key + "\":\"" + value + "\","
  }

  /** The address fields and the five named header fields, written without any escaping. */
  function NamedFields(ip: string, port: int, h: HeaderMap.Map): string {
    "{" + JsonField("ip", ip) + "\"port\":" + IntToString(port) + ","
    + JsonField("user_agent", Named(h, "User-Agent"))
    + JsonField("accept_language", Named(h, "Accept-Language"))
    + JsonField("host", Named(h, "Host"))
    + JsonField("connection", Named(h, "Connection"))
    + JsonField("accept", Named(h, "Accept"))
  }

  /** The client-info object: the named fields, then every header in key order. */
  function ClientInfoBody(ip: string, port: int, h: HeaderMap.Map): string {
    NamedFields(ip, port, h) + "\"headers\":{" + Join(HeaderEntries(h), ",") + "}" + "}"
  }

  lemma HeaderEntriesSnoc(h: HeaderMap.Map, i: nat)
    requires i < |h|
    ensures HeaderEntries(h[..i + 1]) == HeaderEntries(h[..i]) + [HeaderEntry(h[i])]
  {
  }

  /** The `ostringstream` the client-info branch writes. */
  method ClientInfoJson(ip: string, port: int, h: HeaderMap.Map) returns (json: string)
    ensures json == ClientInfoBody(ip, port, h)
  {
    var prefix := NamedFields(ip, port, h) + "\"headers\":{";
    json := prefix;
    var first := true;
    var i := 0;
    while i < |h|
      invariant 0 <= i <= |h|
      invariant first <==> i == 0
      invariant json == prefix + Join(HeaderEntries(h[..i]), ",")
    {
      if !first {
        json := json + ",";
      }
      var escaped := EscapeQuotes(h[i].1);
      var entry := "\"" + h[i].0 + "\":\"" + escaped + "\"";
      HeaderEntriesSnoc(h, i);
      PrefixJoinSnoc(prefix, HeaderEntries(h[..i]), ",", entry);
      json := json + entry;
      first := false;
      i := i + 1;
    }
    assert h[..i] == h;
    json := json + "}";
    json := json + "}";
  }

  /** Each of the address and named header fields sits inside `NamedFields`. */
  lemma NamedFieldsHold(ip: string, port: int, h: HeaderMap.Map)
    ensures var n := NamedFields(ip, port, h);
            Contains(n, JsonField("ip", ip))
            && Contains(n, JsonField("user_agent", Named(h, "User-Agent")))
            && Contains(n, JsonField("accept_language", Named(h, "Accept-Language")))
            && Contains(n, JsonField("host", Named(h, "Host")))
            && Contains(n, JsonField("connection", Named(h, "Connection")))
            && Contains(n, JsonField("accept", Named(h, "Accept")))
  {
    var ipf := JsonField("ip", ip);
    var ua := JsonField("user_agent", Named(h, "User-Agent"));
    var al := JsonField("accept_language", Named(h, "Accept-Language"));
    var ho := JsonField("host", Named(h, "Host"));
    var co := JsonField("connection", Named(h, "Connection"));
    var ac := JsonField("accept", Named(h, "Accept"));
    var p0 := "{" + ipf;
    var p1 := p0 + "\"port\":" + IntToString(port) + ",";
    ContainsSuffix("{", ipf);
    ContainsAppend(p0, "\"port\":", ipf);
    ContainsAppend(p0 + "\"port\":", IntToString(port), ipf);
    ContainsAppend(p0 + "\"port\":" + IntToString(port), ",", ipf);
    FieldsAfter(p1, ua, al, ho, co, ac, ipf);
    ContainsSuffix(p1, ua);
    ContainsAppend(p1 + ua, al, ua);
    ContainsAppend(p1 + ua + al, ho, ua);
    ContainsAppend(p1 + ua + al + ho, co, ua);
    ContainsAppend(p1 + ua + al + ho + co, ac, ua);
    ContainsSuffix(p1 + ua, al);
    ContainsAppend(p1 + ua + al, ho, al);
    ContainsAppend(p1 + ua + al + ho, co, al);
    ContainsAppend(p1 + ua + al + ho + co, ac, al);
    ContainsSuffix(p1 + ua + al, ho);
    ContainsAppend(p1 + ua + al + ho, co, ho);
    ContainsAppend(p1 + ua + al + ho + co, ac, ho);
    ContainsSuffix(p1 + ua + al + ho, co);
    ContainsAppend(p1 + ua + al + ho + co, ac, co);
    ContainsSuffix(p1 + ua + al + ho + co, ac);
  }

  /** Text that holds `sub` still holds it with up to five more pieces after it. */
  lemma FieldsAfter(p: string, a: string, b: string, c: string, d: string, e: string, sub: string)
    requires Contains(p, sub)
    ensures Contains(p + a + b + c + d + e, sub)
  {
    ContainsAppend(p, a, sub);
    ContainsAppend(p + a, b, sub);
    ContainsAppend(p + a + b, c, sub);
    ContainsAppend(p + a + b + c, d, sub);
    ContainsAppend(p + a + b + c + d, e, sub);
  }

  /**
   * The address and the five named header fields are copied as they are:
   * whatever a named header holds, quotes included, sits between the quotes
   * of its field.
   */
  lemma NamedFieldsVerbatim(ip: string, port: int, h: HeaderMap.Map)
    ensures var body := ClientInfoBody(ip, port, h);
            Contains(body, JsonField("ip", ip))
            && Contains(body, JsonField("user_agent", Named(h, "User-Agent")))
            && Contains(body, JsonField("accept_language", Named(h, "Accept-Language")))
            && Contains(body, JsonField("host", Named(h, "Host")))
            && Contains(body, JsonField("connection", Named(h, "Connection")))
            && Contains(body, JsonField("accept", Named(h, "Accept")))
  {
    var n := NamedFields(ip, port, h);
    var j := Join(HeaderEntries(h), ",");
    NamedFieldsHold(ip, port, h);
    FieldsAfter(n, "\"headers\":{", j, "}", "}", "", JsonField("ip", ip));
    FieldsAfter(n, "\"headers\":{", j, "}", "}", "", JsonField("user_agent", Named(h, "User-Agent")));
    FieldsAfter(n, "\"headers\":{", j, "}", "}", "", JsonField("accept_language", Named(h, "Accept-Language")));
    FieldsAfter(n, "\"headers\":{", j, "}", "}", "", JsonField("host", Named(h, "Host")));
    FieldsAfter(n, "\"headers\":{", j, "}", "}", "", JsonField("connection", Named(h, "Connection")));
    FieldsAfter(n, "\"headers\":{", j, "}", "}", "", JsonField("accept", Named(h, "Accept")));
    assert n + "\"headers\":{" + j + "}" + "}" + "" == ClientInfoBody(ip, port, h);
  }

  // ---- routing ----

  /** Where `ProcessRequest` sends a request, in the order it checks. */
  datatype Route = NotAllowed | Health | MetricsPage | ClientInfo | SearchV2 | Search | BadPath | Static(path: string)

  /** The path after `/` is rewritten to `/index.html`. */
  function Target(path: string): string {
    if path == "/" then "/index.html" else path
  }

  /**
   * Routing: a method other than GET is refused; `/health` must match
   * exactly; `/metrics`, `/api/client_info`, `/api/search_v2` and
   * `/api/search` are prefixes, checked in that order; any other path
   * containing `..` is refused; the rest are files under the web root.
   */
  function RouteOf(verb: string, path: string): (r: Route)
    ensures r == NotAllowed <==> verb != "GET"
    ensures r == Health <==> verb == "GET" && path == "/health"
    ensures r.Static? ==> r.path == Target(path) && !Contains(r.path, "..")
    ensures r == BadPath <==>
              verb == "GET" && Target(path) != "/health" && !EndpointPrefix(Target(path)) && Contains(Target(path), "..")
  {
    if verb != "GET" then NotAllowed else GetRoute(Target(path))
  }

  /** The path starts with one of the prefixes an endpoint claims. */
  predicate EndpointPrefix(p: string) {
    StartsWith(p, "/metrics") || StartsWith(p, "/api/client_info") || StartsWith(p, "/api/search")
  }

  /**
   * The route of a GET for `p`, the path after the `/` rewrite: each route
   * is chosen exactly when its own test holds and every earlier one fails.
   */
  function GetRoute(p: string): (r: Route)
    ensures r != NotAllowed
    ensures r == Health <==> p == "/health"
    ensures r == MetricsPage <==> p != "/health" && StartsWith(p, "/metrics")
    ensures r == ClientInfo <==>
              p != "/health" && !StartsWith(p, "/metrics") && StartsWith(p, "/api/client_info")
    ensures r == SearchV2 <==>
              p != "/health" && !StartsWith(p, "/metrics") && !StartsWith(p, "/api/client_info") &&
              StartsWith(p, "/api/search_v2")
    ensures r == Search <==>
              p != "/health" && !StartsWith(p, "/metrics") && !StartsWith(p, "/api/client_info") &&
              !StartsWith(p, "/api/search_v2") && StartsWith(p, "/api/search")
    ensures r == BadPath <==> p != "/health" && !EndpointPrefix(p) && Contains(p, "..")
    ensures r.Static? <==> p != "/health" && !EndpointPrefix(p) && !Contains(p, "..")
    ensures r.Static? ==> r.path == p
  {
    if p == "/health" then Health
    else if StartsWith(p, "/metrics") then MetricsPage
    else if StartsWith(p, "/api/client_info") then ClientInfo
    else if StartsWith(p, "/api/search_v2") then SearchV2
    else if StartsWith(p, "/api/search") then Search
    else if Contains(p, "..") then BadPath
    else Static(p)
  }

  function RequestRoute(request: string): Route {
    RouteOf(RequestLine(request).0, RequestLine(request).1)
  }

  /** Only GET requests are served. */
  lemma OnlyGetIsServed(verb: string, path: string)
    ensures RouteOf(verb, path) == NotAllowed <==> verb != "GET"
  {
  }

  /**
   * A file is only ever read for a GET of a path without `..` that none of
   * the endpoints claims; `/` reads `/index.html`.
   */
  lemma StaticPathsAreSafe(verb: string, path: string)
    requires RouteOf(verb, path).Static?
    ensures verb == "GET"
    ensures RouteOf(verb, path).path == Target(path)
    ensures !Contains(Target(path), "..")
    ensures Target(path) != "/health" && !StartsWith(Target(path), "/metrics")
    ensures !StartsWith(Target(path), "/api/client_info") && !StartsWith(Target(path), "/api/search")
  {
  }

  /**
   * The endpoint prefixes cannot overlap except `/api/search` inside
   * `/api/search_v2`, so each prefix selects its endpoint whatever order the
   * tests run in, and an endpoint path is answered by its endpoint even when
   * it holds `..` (`/api/search?q=1..2` is searched, not refused).
   */
  lemma PrefixSelectsEndpoint(p: string)
    ensures StartsWith(p, "/metrics") ==> GetRoute(p) == MetricsPage
    ensures StartsWith(p, "/api/client_info") ==> GetRoute(p) == ClientInfo
    ensures StartsWith(p, "/api/search_v2") ==> GetRoute(p) == SearchV2
    ensures StartsWith(p, "/api/search") && !StartsWith(p, "/api/search_v2") ==> GetRoute(p) == Search
    ensures EndpointPrefix(p) ==> GetRoute(p) != BadPath && !GetRoute(p).Static?
  {
    if StartsWith(p, "/metrics") {
      assert p[1] == p[..8][1] == 'm';
      assert p != "/health";
    }
    if StartsWith(p, "/api/client_info") {
      assert p[1] == p[..16][1] == 'a';
      assert p[..8][1] == p[1];
      assert !StartsWith(p, "/metrics");
      assert p != "/health";
    }
    if StartsWith(p, "/api/search") {
      assert p[1] == p[..11][1] == 'a' && p[5] == p[..11][5] == 's';
      assert p[..8][1] == p[1];
      assert !StartsWith(p, "/metrics");
      if |p| >= 16 {
        assert p[..16][5] == p[5];
      }
      assert !StartsWith(p, "/api/client_info");
      assert p != "/health";
    }
  }

  /** A query holding `..` still reaches the search endpoint. */
  lemma DotDotInQueryIsSearched()
    ensures RouteOf("GET", "/api/search?q=1..2") == Search
  {
    var p := "/api/search?q=1..2";
    assert p[..11] == "/api/search";
    assert p[..14][11] == '?';
    PrefixSelectsEndpoint(p);
  }

  /** `/api/search_v2...` always reaches the v2 endpoint, although it also starts with `/api/search`. */
  lemma SearchV2BeforeSearch(path: string)
    requires StartsWith(Target(path), "/api/search_v2")
    ensures StartsWith(Target(path), "/api/search")
    ensures RouteOf("GET", path) == SearchV2
  {
    var p := Target(path);
    assert p[..11] == p[..14][..11];
    assert p[1] == p[..14][1] && p[5] == p[..14][5];
  }

  /** Only `/health` itself is the health check; `/health/`, say, is looked up as a file. */
  lemma HealthIsExact(verb: string, path: string)
    ensures RouteOf(verb, path) == Health <==> verb == "GET" && Target(path) == "/health"
    ensures RouteOf("GET", "/health/") == Static("/health/")
  {
    var p := "/health/";
    assert p[..8][1] == 'h' && p[1] == 'h';
    assert !StartsWith(p, "/metrics");
    assert '.' !in p;
    if Contains(p, "..") {
      ContainsFirstChar(p, "..");
      assert false;
    }
  }

  // ---- metric counters ----

  /**
   * The counters a route bumps inside `ProcessRequest`: `errors` for a
   * refused method or a `..` path, `health` for the health check, and the
   * search counters for their endpoints, before their parameters are
   * checked. No other reply touches a counter, and `requests` is left to
   * `HandleClient`.
   */
  function RouteEffect(c: Metrics.Counters, route: Route): (d: Metrics.Counters)
    ensures d.requests == c.requests
    ensures d.errors == c.errors + (if route == NotAllowed || route == BadPath then 1 else 0)
    ensures d.health == c.health + (if route == Health then 1 else 0)
    ensures d.apiSearch == c.apiSearch + (if route == Search then 1 else 0)
    ensures d.apiSearchV2 == c.apiSearchV2 + (if route == SearchV2 then 1 else 0)
  {
    match route
    case NotAllowed => c.(errors := c.errors + 1)
    case BadPath => c.(errors := c.errors + 1)
    case Health => c.(health := c.health + 1)
    case Search => c.(apiSearch := c.apiSearch + 1)
    case SearchV2 => c.(apiSearchV2 := c.apiSearchV2 + 1)
    case _ => c
  }

  /** Each request bumps at most one of the route counters. */
  lemma AtMostOneCounter(c: Metrics.Counters, route: Route)
    ensures var d := RouteEffect(c, route);
            d.errors + d.health + d.apiSearch + d.apiSearchV2 <= c.errors + c.health + c.apiSearch + c.apiSearchV2 + 1
  {
  }

  // ---- the reply to a request ----

  /**
   * The services the server calls: the web root, the two search engines
   * (`QRS::Search` and `QRS::SearchV2`, taking `q`, `limit`, `offset`), and
   * the file reader, which yields an empty text for a missing file.
   */
  datatype Backends = Backends(
    webRoot: string,
    search: (string, int, int) -> string,
    searchV2: (string, int, int) -> string,
    readFile: string -> string)

  /** A search endpoint: its query string validated, then the engine's JSON. */
  function SearchEndpointReply(path: string, engine: (string, int, int) -> string): Reply {
    match ArgsOf(FieldsOf(QueryString(path)))
    case MissingQ => MissingQReply
    case BadNumber => InvalidNumberReply
    case Run(q, limit, offset) => JsonOk(engine(q, limit, offset))
  }

  /** A static file: its contents with their MIME type, or 404 when the reader gives nothing. */
  function StaticReply(p: string, b: Backends): Reply {
    var content := b.readFile(b.webRoot + p);
    if content != "" then Ok(MimeType(p), content) else NotFoundReply
  }

  /**
   * The reply for a request routed to `route`, its path after the `/`
   * rewrite and its headers being `path` and `headers`.
   */
  function Answer(route: Route, path: string, headers: HeaderMap.Map, ip: string, port: int, metricsJson: string, b: Backends): Reply {
    match route
    case NotAllowed => MethodNotAllowedReply
    case Health => HealthReply
    case MetricsPage => JsonOk(metricsJson)
    case ClientInfo => JsonOk(ClientInfoBody(ip, port, headers))
    case SearchV2 => SearchEndpointReply(path, b.searchV2)
    case Search => SearchEndpointReply(path, b.search)
    case BadPath => InvalidPathReply
    case Static(p) => StaticReply(p, b)
  }

  /**
   * What `ProcessRequest` answers, given the text `ToJson` would give at
   * that moment.
   */
  function Respond(request: string, ip: string, port: int, metricsJson: string, b: Backends): Reply {
    Answer(RequestRoute(request), Target(RequestLine(request).1), HeadersOf(request), ip, port, metricsJson, b)
  }

  /**
   * The status code each kind of request is answered with: 405 for a
   * method other than GET, 400 for a `..` path and for a search whose
   * parameters are missing or malformed, 404 for a file with no content,
   * 200 otherwise.
   */
  function StatusFor(route: Route, argsValid: bool, fileFound: bool): string {
    match route
    case NotAllowed => "405"
    case BadPath => "400"
    case SearchV2 => if argsValid then "200" else "400"
    case Search => if argsValid then "200" else "400"
    case Static(_) => if fileFound then "200" else "404"
    case _ => "200"
  }

  lemma SearchStatus(path: string, engine: (string, int, int) -> string)
    ensures SearchEndpointReply(path, engine).code == if ArgsOf(FieldsOf(QueryString(path))).Run? then "200" else "400"
  {
  }

  /** A query whose parameters are refused is answered without calling the engine. */
  lemma RejectedQueryNeverSearches(path: string, e1: (string, int, int) -> string, e2: (string, int, int) -> string)
    requires !ArgsOf(FieldsOf(QueryString(path))).Run?
    ensures SearchEndpointReply(path, e1) == SearchEndpointReply(path, e2)
    ensures SearchEndpointReply(path, e1) == if FieldsOf(QueryString(path)).q == "" then MissingQReply else InvalidNumberReply
  {
  }

  /**
   * Every reply carries the status code its kind of request calls for,
   * and that code is what the client reads after `HTTP/1.1 `.
   */
  lemma AnswerStatus(route: Route, path: string, headers: HeaderMap.Map, ip: string, port: int, metricsJson: string, b: Backends)
    ensures var r := Answer(route, path, headers, ip, port, metricsJson, b);
            r.code == StatusFor(route, ArgsOf(FieldsOf(QueryString(path))).Run?,
                                route.Static? && b.readFile(b.webRoot + route.path) != "")
            && |Wire(r)| >= 12 && Wire(r)[9..12] == r.code
  {
    var r := Answer(route, path, headers, ip, port, metricsJson, b);
    if route.SearchV2? {
      SearchStatus(path, b.searchV2);
    } else if route.Search? {
      SearchStatus(path, b.search);
    }
    WireCode(r);
  }

  /** A path holding `..` is never routed to the file reader. */
  lemma DotDotIsRefused(verb: string, path: string)
    requires Contains(Target(path), "..")
    ensures !RouteOf(verb, path).Static?
  {
  }

  /** A request whose path holds `..` never depends on what the file reader returns. */
  lemma DotDotNeverReadsFiles(request: string, ip: string, port: int, metricsJson: string, b: Backends, reader: string -> string)
    requires Contains(Target(RequestLine(request).1), "..")
    ensures Respond(request, ip, port, metricsJson, b) == Respond(request, ip, port, metricsJson, b.(readFile := reader))
  {
    DotDotIsRefused(RequestLine(request).0, RequestLine(request).1);
    AnswerWithoutFile(RequestRoute(request), Target(RequestLine(request).1), HeadersOf(request), ip, port, metricsJson, b, b.(readFile := reader));
  }

  /** Only the static-file branch consults the file reader: the others answer the same under any services that agree on the rest. */
  lemma AnswerWithoutFile(route: Route, path: string, headers: HeaderMap.Map, ip: string, port: int, metricsJson: string, b: Backends, b': Backends)
    requires !route.Static? && b'.search == b.search && b'.searchV2 == b.searchV2
    ensures Answer(route, path, headers, ip, port, metricsJson, b) == Answer(route, path, headers, ip, port, metricsJson, b')
  {
  }

  /** A request for `/api/search_v2...` never calls the v1 engine. */
  lemma SearchV2NeverRunsV1(request: string, ip: string, port: int, metricsJson: string, b: Backends, v1: (string, int, int) -> string)
    requires RequestLine(request).0 == "GET" && StartsWith(Target(RequestLine(request).1), "/api/search_v2")
    ensures RequestRoute(request) == SearchV2
    ensures Respond(request, ip, port, metricsJson, b) == Respond(request, ip, port, metricsJson, b.(search := v1))
  {
    SearchV2BeforeSearch(RequestLine(request).1);
    AnswerSearchV2(Target(RequestLine(request).1), HeadersOf(request), ip, port, metricsJson, b, b.(search := v1));
  }

  /** The `search_v2` branch consults only the v2 engine. */
  lemma AnswerSearchV2(path: string, headers: HeaderMap.Map, ip: string, port: int, metricsJson: string, b: Backends, b': Backends)
    requires b'.searchV2 == b.searchV2
    ensures Answer(SearchV2, path, headers, ip, port, metricsJson, b) == Answer(SearchV2, path, headers, ip, port, metricsJson, b')
  {
  }

  // ---- the server ----

  /**
   * The server object: its listening port, the process-wide metrics
   * collector, and the services requests are answered from.
   */
  class HttpServer {
    const port: int
    const metrics: Metrics.Registry
    const backends: Backends

    constructor (port: int, metrics: Metrics.Registry, backends: Backends)
      ensures this.port == port && this.metrics == metrics && this.backends == backends
    {
      this.port := port;
      this.metrics := metrics;
      this.backends := backends;
    }

    /** The search endpoints' shared tail: query parsing, validation, the engine call. */
    method SearchEndpoint(path: string, engine: (string, int, int) -> string) returns (response: Reply)
      ensures response == SearchEndpointReply(path, engine)
    {
      var qs := QueryString(path);
      var fields := ParseQuery(qs);
      if fields.q == "" {
        return MissingQReply;
      }
      var limit, offset := 10, 0;
      if fields.limit != "" {
        var l := Stoi(fields.limit);
        if l.None? {
          return InvalidNumberReply;
        }
        limit := l.value;
      }
      if fields.offset != "" {
        var o := Stoi(fields.offset);
        if o.None? {
          return InvalidNumberReply;
        }
        offset := o.value;
      }
      var json := engine(fields.q, limit, offset);
      return JsonOk(json);
    }

    /**
     * The body of the branch `ProcessRequest` takes for `route`: the reply
     * of that branch, built from the metrics as they stand. Nothing changes.
     */
    method Build(route: Route, path: string, headers: HeaderMap.Map, clientIp: string, clientPort: int) returns (response: Reply)
      requires metrics.Valid()
      ensures response == Answer(route, path, headers, clientIp, clientPort, Metrics.Render(metrics.Snap()), backends)
    {
      match route
      case NotAllowed =>
        response := MethodNotAllowedReply;
      case Health =>
        response := HealthReply;
      case MetricsPage =>
        var json := metrics.ToJson();
        response := JsonOk(json);
      case ClientInfo =>
        var json := ClientInfoJson(clientIp, clientPort, headers);
        response := JsonOk(json);
      case SearchV2 =>
        response := SearchEndpoint(path, backends.searchV2);
      case Search =>
        response := SearchEndpoint(path, backends.search);
      case BadPath =>
        response := InvalidPathReply;
      case Static(file) =>
        response := ServeFile(file);
    }

    /** The static-file branch: the file under the web root, or 404. */
    method ServeFile(file: string) returns (response: Reply)
      ensures response == StaticReply(file, backends)
    {
      var content := backends.readFile(backends.webRoot + file);
      if content != "" {
        response := Ok(MimeType(file), content);
      } else {
        response := NotFoundReply;
      }
    }

    /** The counter bump of the branch taken for `route`, and nothing else. */
    method CountRoute(route: Route)
      modifies metrics`errors, metrics`health, metrics`apiSearch, metrics`apiSearchV2
      ensures metrics.CountersOf() == RouteEffect(old(metrics.CountersOf()), route)
      ensures metrics.requests == old(metrics.requests)
      ensures metrics.lastLatencyMs == old(metrics.lastLatencyMs) && metrics.totalLatencyMs == old(metrics.totalLatencyMs)
      ensures metrics.buckets[..] == old(metrics.buckets[..])
    {
      match route
      case NotAllowed =>
        metrics.errors := metrics.errors + 1;
      case Health =>
        metrics.health := metrics.health + 1;
      case SearchV2 =>
        metrics.apiSearchV2 := metrics.apiSearchV2 + 1;
      case Search =>
        metrics.apiSearch := metrics.apiSearch + 1;
      case BadPath =>
        metrics.errors := metrics.errors + 1;
      case _ =>
    }

    /**
     * `ProcessRequest`: reads the request line and the headers, picks the
     * branch `RouteOf` picks (the same tests in the same order), builds that
     * branch's reply and bumps its counter. The reply is `Respond`'s, with
     * the metrics reported as they were when the request arrived; latency
     * and histogram are left alone. The source bumps the counter first; the
     * only branch that reads the counters bumps none, so the order shows
     * nowhere.
     */
    method ProcessRequest(request: string, clientIp: string, clientPort: int) returns (response: Reply)
      requires metrics.Valid()
      modifies metrics`errors, metrics`health, metrics`apiSearch, metrics`apiSearchV2
      ensures response == Respond(request, clientIp, clientPort, Metrics.Render(old(metrics.Snap())), backends)
      ensures metrics.CountersOf() == RouteEffect(old(metrics.CountersOf()), RequestRoute(request))
      ensures metrics.requests == old(metrics.requests)
      ensures metrics.lastLatencyMs == old(metrics.lastLatencyMs) && metrics.totalLatencyMs == old(metrics.totalLatencyMs)
      ensures metrics.buckets[..] == old(metrics.buckets[..])
    {
      var line := RequestLine(request);
      var headers := ParseHeaders(request);
      var route := RouteOf(line.0, line.1);
      response := Build(route, Target(line.1), headers, clientIp, clientPort);
      CountRoute(route);
    }

    /**
     * The bookkeeping after a reply is sent: `RecordRequest` then
     * `RecordLatency(elapsedMs)`. One more request, the latency remembered,
     * at most one bucket bumped, and the histogram still holds no more
     * samples than there were requests.
     */
    method RecordCompletion(elapsedMs: int)
      requires metrics.Valid()
      modifies metrics`requests, metrics`lastLatencyMs, metrics`totalLatencyMs, metrics.buckets
      ensures metrics.CountersOf() == Metrics.CountRequest(old(metrics.CountersOf()))
      ensures metrics.lastLatencyMs == elapsedMs && metrics.totalLatencyMs == old(metrics.totalLatencyMs) + elapsedMs
      ensures metrics.buckets[..] == Metrics.Bumped(old(metrics.buckets[..]), elapsedMs)
      ensures old(metrics.Accounted()) ==> metrics.Accounted()
    {
      metrics.RecordRequest();
      metrics.RecordLatency(elapsedMs);
      Metrics.BumpedExactlyOne(old(metrics.buckets[..]), elapsedMs);
    }

    /**
     * `HandleClient`: the request is the text before the first NUL of the
     * (at most 4096) bytes received; it is answered, then counted as one
     * request whose latency is `elapsedMs`. The reply sent is `Respond`'s,
     * exactly one request and at most one latency sample are recorded, and
     * the histogram never holds more samples than there were requests.
     */
    method HandleClient(incoming: string, clientIp: string, clientPort: int, elapsedMs: int) returns (sent: string)
      requires metrics.Valid()
      modifies metrics`requests, metrics`errors, metrics`health, metrics`apiSearch, metrics`apiSearchV2, metrics`lastLatencyMs, metrics`totalLatencyMs, metrics.buckets
      ensures metrics.Valid()
      ensures var request := CString(if |incoming| > 4096 then incoming[..4096] else incoming);
              sent == Wire(Respond(request, clientIp, clientPort, Metrics.Render(old(metrics.Snap())), backends))
              && metrics.CountersOf()
                 == Metrics.CountRequest(RouteEffect(old(metrics.CountersOf()), RequestRoute(request)))
      ensures metrics.lastLatencyMs == elapsedMs && metrics.totalLatencyMs == old(metrics.totalLatencyMs) + elapsedMs
      ensures metrics.buckets[..] == Metrics.Bumped(old(metrics.buckets[..]), elapsedMs)
      ensures old(metrics.Accounted()) ==> metrics.Accounted()
    {
      var received := if |incoming| > 4096 then incoming[..4096] else incoming;
      var request := CString(received);
      var response := ProcessRequest(request, clientIp, clientPort);
      RecordCompletion(elapsedMs);
      sent := Wire(response);
    }
  }
}
