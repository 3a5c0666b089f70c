/** The rendered route document: YAML quoting, the fixed sequence of lines, and what the document
    says about the route it was rendered from. */
module Route {
  import opened Wrappers
  import Strings
  import Docker

  // ----- quoting -----

  predicate IsAscii(s: string) {
    forall i :: 0 <= i < |s| ==> s[i] < 0x80 as char
  }

  function UpperHex(d: nat): (c: char)
    requires d < 16
    ensures c == "0123456789ABCDEF"[d]
  {
    if d < 10 then '0' + d as char else 'A' + (d - 10) as char
  }

  function UpperHexValue(c: char): (r: Option<nat>)
    ensures r.Some? ==> r.value < 16
  {
    if '0' <= c <= '9' then Some((c - '0') as nat)
    else if 'A' <= c <= 'F' then Some((c - 'A') as nat + 10)
    else None
  }

  predicate IsControl(c: char) {
    c < 0x20 as char || c == 0x7F as char
  }

  function Escape(c: char): string
    requires c < 0x80 as char
  {
    if c == '\\' then "\\\\"
    else if c == '"' then "\\\""
    else if c == '\n' then "\\n"
    else if c == '\r' then "\\r"
    else if c == '\t' then "\\t"
    else if IsControl(c) then ['\\', 'x', UpperHex(c as nat / 16), UpperHex(c as nat % 16)]
    else [c]
  }

  function EscapeAll(s: string): string
    requires IsAscii(s)
  {
    if s == [] then [] else Escape(s[0]) + EscapeAll(s[1..])
  }

  function Quote(s: string): string
    requires IsAscii(s)
  {
    ['"'] + EscapeAll(s) + ['"']
  }

  lemma {:induction false} EscapeSnoc(s: string, c: char)
    requires IsAscii(s + [c])
    ensures IsAscii(s) && c < 0x80 as char && EscapeAll(s + [c]) == EscapeAll(s) + Escape(c)
  {
    hide Escape;
    var t := s + [c];
    assert t[|s|] == c && forall i :: 0 <= i < |s| ==> s[i] == t[i];
    if s == [] {
      assert t == [c] && EscapeAll([c]) == Escape(c) + EscapeAll([]);
    } else {
      assert t[1..] == s[1..] + [c];
      EscapeSnoc(s[1..], c);
    }
  }

  /** The builder loop, which stops at the first byte outside ASCII. */
  method QuoteYAMLString(s: string) returns (r: Option<string>)
    ensures r == if IsAscii(s) then Some(Quote(s)) else None
  {
    hide Escape;
    var b: string := ['"'];
    var i := 0;
    assert EscapeAll(s[..0]) == [];
    while i < |s|
      invariant 0 <= i <= |s| && IsAscii(s[..i])
      invariant b == ['"'] + EscapeAll(s[..i])
    {
      if s[i] >= 0x80 as char {
        return None;
      }
      assert s[..i + 1] == s[..i] + [s[i]];
      EscapeSnoc(s[..i], s[i]);
      b := b + Escape(s[i]);
      i := i + 1;
    }
    assert s[..|s|] == s;
    r := Some(b + ['"']);
  }

  /** A YAML reader of single-line double-quoted content, for the escapes of section 5.7 of YAML
      1.2.2 that the quoting uses. */
  function Unescape(s: string): Option<string> {
    if s == [] then Some([])
    else if s[0] == '"' || s[0] == '\n' then None
    else if s[0] != '\\' then Prefixed(s[0], Unescape(s[1..]))
    else if |s| < 2 then None
    else if s[1] == '\\' then Prefixed('\\', Unescape(s[2..]))
    else if s[1] == '"' then Prefixed('"', Unescape(s[2..]))
    else if s[1] == 'n' then Prefixed('\n', Unescape(s[2..]))
    else if s[1] == 'r' then Prefixed('\r', Unescape(s[2..]))
    else if s[1] == 't' then Prefixed('\t', Unescape(s[2..]))
    else if s[1] == 'x' && |s| >= 4 then
      match (UpperHexValue(s[2]), UpperHexValue(s[3]))
      case (Some(h), Some(l)) => Prefixed((16 * h + l) as char, Unescape(s[4..]))
      case _ => None
    else None
  }

  function Prefixed(c: char, r: Option<string>): Option<string> {
    match r
    case None => None
    case Some(s) => Some([c] + s)
  }

  function Unquote(q: string): Option<string> {
    if |q| < 2 || q[0] != '"' || q[|q| - 1] != '"' then None else Unescape(q[1..|q| - 1])
  }

  lemma HexRoundTrip(c: char)
    requires c < 0x80 as char
    ensures var h, l := UpperHex(c as nat / 16), UpperHex(c as nat % 16);
      UpperHexValue(h) == Some(c as nat / 16) && UpperHexValue(l) == Some(c as nat % 16)
    ensures '\n' !in Escape(c)
  {
  }

  lemma UnescapePlain(c: char, rest: string)
    requires c != '"' && c != '\n' && c != '\\'
    ensures Unescape([c] + rest) == Prefixed(c, Unescape(rest))
  {
    assert ([c] + rest)[1..] == rest;
  }

  lemma UnescapePair(k: char, c: char, rest: string)
    requires (k, c) in {('\\', '\\'), ('"', '"'), ('n', '\n'), ('r', '\r'), ('t', '\t')}
    ensures Unescape(['\\', k] + rest) == Prefixed(c, Unescape(rest))
  {
    assert (['\\', k] + rest)[2..] == rest;
  }

  lemma UnescapeHex(h: char, l: char, rest: string)
    requires UpperHexValue(h).Some? && UpperHexValue(l).Some?
    ensures Unescape(['\\', 'x', h, l] + rest)
      == Prefixed((16 * UpperHexValue(h).value + UpperHexValue(l).value) as char, Unescape(rest))
  {
    hide UpperHexValue;
    assert (['\\', 'x', h, l] + rest)[4..] == rest;
  }

  lemma UnescapeStep(c: char, rest: string)
    requires c < 0x80 as char
    ensures Unescape(Escape(c) + rest) == Prefixed(c, Unescape(rest))
  {
    hide UpperHex, UpperHexValue, Unescape, Prefixed;
    HexRoundTrip(c);
    if c == '\\' || c == '"' || c == '\n' || c == '\r' || c == '\t' {
      UnescapePair(Escape(c)[1], c, rest);
    } else if IsControl(c) {
      UnescapeHex(UpperHex(c as nat / 16), UpperHex(c as nat % 16), rest);
    } else {
      UnescapePlain(c, rest);
    }
  }

  lemma {:induction false} UnescapeAll(s: string)
    requires IsAscii(s)
    ensures Unescape(EscapeAll(s)) == Some(s) && '\n' !in EscapeAll(s)
  {
    hide Escape;
    if s != [] {
      UnescapeAll(s[1..]);
      UnescapeStep(s[0], EscapeAll(s[1..]));
      HexRoundTrip(s[0]);
      assert s == [s[0]] + s[1..];
    }
  }

  /** Reading back a quoted string gives the string, and it stays on its line. */
  lemma UnquoteQuote(s: string)
    requires IsAscii(s)
    ensures Unquote(Quote(s)) == Some(s) && '\n' !in Quote(s)
  {
    UnescapeAll(s);
    assert Quote(s)[1..|Quote(s)| - 1] == EscapeAll(s);
  }

  // ----- routes -----

  datatype EnvironmentRoute = EnvironmentRoute(
    environment: string, revision: nat, hostname: string, entrypoint: string, certResolver: string,
    runtimeInstance: string, port: int, scheme: string, release: string, fence: string)

  predicate StaticName(s: string) {
    Docker.OpaqueID(s) && |s| <= 63
  }

  /** The character set of a canonical route hostname. */
  predicate HostnameText(s: string) {
    0 < |s| <= 253 && forall i :: 0 <= i < |s| ==> 'a' <= s[i] <= 'z' || '0' <= s[i] <= '9' || s[i] == '-' || s[i] == '.'
  }

  predicate ValidRoute(r: EnvironmentRoute) {
    && Docker.OpaqueID(r.environment) && HostnameText(r.hostname) && StaticName(r.entrypoint) && StaticName(r.certResolver)
    && Docker.OpaqueID(r.runtimeInstance) && 1 <= r.port <= 65535 && (r.scheme == "http" || r.scheme == "https")
    && Docker.OpaqueID(r.release) && Docker.OpaqueID(r.fence)
  }

  function RouterName(r: EnvironmentRoute): string {
    "autodeploy-router-" + r.environment
  }

  function ServiceName(r: EnvironmentRoute): string {
    "autodeploy-svc-" + r.environment + "-" + r.release + "-" + r.fence
  }

  /** Built only for a route that passed validation. */
  function BackendURL(r: EnvironmentRoute): string
    requires ValidRoute(r)
  {
    r.scheme + "://" + Docker.NAME_PREFIX + r.runtimeInstance + ":" + Strings.Number(r.port)
  }

  function RuleValue(hostname: string): string {
    "Host(`" + hostname + "`)"
  }

  /** A stretch of fixed text and the value that ends its line. */
  datatype Chunk = Chunk(fixed: string, value: string)

  function Concat(chunks: seq<Chunk>): string {
    if chunks == [] then [] else chunks[0].fixed + chunks[0].value + "\n" + Concat(chunks[1..])
  }

  function Quoted(s: string): string {
    if IsAscii(s) then Quote(s) else ""
  }

  function Notice(): string {
    "# Generated by " + "autodeploy internal" + "/runtime/traefik. " + "Do not edit by hand;"
  }

  function ReplacedNotice(): string {
    "# this file is " + "replaced atomically " + "on every activation."
  }

  /** The fixed lines before each of the nine values, and how its own line begins. */
  function Heads(i: nat): seq<string> {
    match i
    case 0 => [Notice(), ReplacedNotice()]
    case 2 => ["http:", "  routers:"]
    case 4 => ["      entryPoints:"]
    case 6 => ["      tls:"]
    case 7 => ["  services:"]
    case 8 => ["      loadBalancer:", "        servers:"]
    case _ => []
  }

  function Prefix(i: nat): string {
    match i
    case 0 => "# environment: "
    case 1 => "# route_revision: "
    case 2 => "    "
    case 3 => "      rule: "
    case 4 => "        - "
    case 5 => "      service: "
    case 6 => "        certResolver: "
    case 7 => "    "
    case _ => "          - url: "
  }

  function Unlines(lines: seq<string>): string {
    if lines == [] then "" else lines[0] + "\n" + Unlines(lines[1..])
  }

  function Fixed(i: nat): string {
    Unlines(Heads(i)) + Prefix(i)
  }

  function Values(r: EnvironmentRoute, router: string, service: string, url: string): (v: seq<string>)
    ensures |v| == 9
  {
    [
      r.environment, Strings.Number(r.revision), Quoted(router) + ":", Quoted(RuleValue(r.hostname)), Quoted(r.entrypoint),
      Quoted(service), Quoted(r.certResolver), Quoted(service) + ":", Quoted(url)
    ]
  }

  function Chunks(values: seq<string>): seq<Chunk> {
    seq(|values|, i requires 0 <= i < |values| => Chunk(Fixed(i), values[i]))
  }

  /** Every quoted value is ASCII, or there is no document at all. */
  function RenderDocument(r: EnvironmentRoute, router: string, service: string, url: string): Option<string> {
    if IsAscii(router) && IsAscii(RuleValue(r.hostname)) && IsAscii(r.entrypoint) && IsAscii(service)
      && IsAscii(r.certResolver) && IsAscii(url)
    then Some(Concat(Chunks(Values(r, router, service, url))))
    else None
  }

  /** The helper that latches the first error. */
  method Latch(s: string, failed: bool) returns (text: string, failed': bool)
    ensures text == Quoted(s) && (failed' <==> failed || !IsAscii(s))
  {
    var r := QuoteYAMLString(s);
    match r {
      case Some(t) => text, failed' := t, failed;
      case None => text, failed' := "", true;
    }
  }

  lemma {:induction false} ConcatSnoc(xs: seq<Chunk>, x: Chunk)
    ensures Concat(xs + [x]) == Concat(xs) + x.fixed + x.value + "\n"
  {
    if xs == [] {
      assert [x][1..] == [] && Concat([x][1..]) == [];
      assert xs + [x] == [x];
    } else {
      ConcatSnoc(xs[1..], x);
      assert (xs + [x])[1..] == xs[1..] + [x];
      ConcatAssociates(xs[0].fixed + xs[0].value + "\n", Concat(xs[1..]), x);
    }
  }

  lemma ConcatAssociates(head: string, middle: string, x: Chunk)
    ensures head + (middle + x.fixed + x.value + "\n") == head + middle + x.fixed + x.value + "\n"
  {
  }

  /** Writes the document line by line; a value outside ASCII leaves no document. */
  method BuildDocument(r: EnvironmentRoute, router: string, service: string, url: string) returns (doc: Option<string>)
    ensures doc == RenderDocument(r, router, service, url)
  {
    hide Concat, Fixed, Quoted, IsAscii, RuleValue, Strings.Number;
    var failed := false;
    var q0, q1, q2, q3, q4, q5;
    q0, failed := Latch(router, failed);
    q1, failed := Latch(RuleValue(r.hostname), failed);
    q2, failed := Latch(r.entrypoint, failed);
    q3, failed := Latch(service, failed);
    q4, failed := Latch(r.certResolver, failed);
    q5, failed := Latch(url, failed);
    var values := [r.environment, Strings.Number(r.revision), q0 + ":", q1, q2, q3, q4, q3 + ":", q5];
    assert values == Values(r, router, service, url);
    var b := WriteChunks(values);
    doc := if failed then None else Some(b);
  }

  method WriteChunks(values: seq<string>) returns (b: string)
    ensures b == Concat(Chunks(values))
  {
    hide Fixed;
    b := "";
    var i := 0;
    assert Chunks(values)[..0] == [];
    while i < |values|
      invariant 0 <= i <= |values| && b == Concat(Chunks(values)[..i])
    {
      ConcatSnoc(Chunks(values)[..i], Chunks(values)[i]);
      assert Chunks(values)[..i + 1] == Chunks(values)[..i] + [Chunks(values)[i]];
      b := b + Fixed(i) + values[i] + "\n";
      i := i + 1;
    }
    assert Chunks(values)[..|values|] == Chunks(values);
  }

  function Render(r: EnvironmentRoute): Option<string> {
    if !ValidRoute(r) then None else RenderDocument(r, RouterName(r), ServiceName(r), BackendURL(r))
  }

  /** The values of the route's own document. */
  function Own(r: EnvironmentRoute): seq<string>
    requires ValidRoute(r)
  {
    Values(r, RouterName(r), ServiceName(r), BackendURL(r))
  }

  // ----- the document determines the route -----

  lemma {:induction false} PeelLine(x: string, y: string, s: string, t: string)
    requires '\n' !in x && '\n' !in y && x + "\n" + s == y + "\n" + t
    ensures x == y && s == t
  {
    var p, q := x + "\n" + s, y + "\n" + t;
    assert p[|x|] == '\n' && q[|y|] == '\n';
    assert forall i :: 0 <= i < |x| ==> p[i] != '\n';
    assert forall i :: 0 <= i < |y| ==> q[i] != '\n';
    assert |x| == |y|;
    assert p[..|x|] == x && q[..|y|] == y;
    assert p[|x| + 1..] == s && q[|y| + 1..] == t;
  }

  ghost predicate SameFixed(xs: seq<Chunk>, ys: seq<Chunk>) {
    |xs| == |ys| && forall i :: 0 <= i < |xs| ==> xs[i].fixed == ys[i].fixed
  }

  ghost predicate OneLined(xs: seq<Chunk>) {
    forall i :: 0 <= i < |xs| ==> '\n' !in xs[i].value
  }

  lemma {:induction false} ConcatInjective(xs: seq<Chunk>, ys: seq<Chunk>)
    requires SameFixed(xs, ys) && OneLined(xs) && OneLined(ys)
    ensures Concat(xs) == Concat(ys) ==> xs == ys
  {
    if xs != [] && Concat(xs) == Concat(ys) {
      PeelChunk(xs[0], ys[0], Concat(xs[1..]), Concat(ys[1..]));
      ConcatInjective(xs[1..], ys[1..]);
      assert xs == [xs[0]] + xs[1..] && ys == [ys[0]] + ys[1..];
    }
  }

  lemma PeelChunk(x: Chunk, y: Chunk, s: string, t: string)
    requires x.fixed == y.fixed && '\n' !in x.value && '\n' !in y.value
    requires x.fixed + x.value + "\n" + s == y.fixed + y.value + "\n" + t
    ensures x == y && s == t
  {
    var n, p, q := |x.fixed|, x.fixed + x.value + "\n" + s, y.fixed + y.value + "\n" + t;
    assert p[n..] == x.value + "\n" + s && q[n..] == y.value + "\n" + t;
    PeelLine(x.value, y.value, s, t);
  }

  function Newlines(s: string): nat {
    if s == [] then 0 else (if s[0] == '\n' then 1 else 0) + Newlines(s[1..])
  }

  lemma {:induction false} NewlinesAdd(s: string, t: string)
    ensures Newlines(s + t) == Newlines(s) + Newlines(t)
  {
    if s == [] {
      assert s + t == t;
    } else {
      NewlinesAdd(s[1..], t);
      assert (s + t)[1..] == s[1..] + t;
    }
  }

  lemma {:induction false} NoNewlines(s: string)
    requires '\n' !in s
    ensures Newlines(s) == 0
  {
    if s != [] {
      NoNewlines(s[1..]);
    }
  }

  lemma {:induction false} SameLineCount(xs: seq<Chunk>, ys: seq<Chunk>)
    requires SameFixed(xs, ys) && OneLined(xs) && OneLined(ys)
    ensures Newlines(Concat(xs)) == Newlines(Concat(ys))
  {
    hide Newlines;
    if xs != [] {
      SameLineCount(xs[1..], ys[1..]);
      ChunkLines(xs[0], Concat(xs[1..]));
      ChunkLines(ys[0], Concat(ys[1..]));
    }
  }

  lemma ChunkLines(x: Chunk, s: string)
    requires '\n' !in x.value
    ensures Newlines(x.fixed + x.value + "\n" + s) == Newlines(x.fixed) + Newlines("\n") + Newlines(s)
  {
    hide Newlines;
    NewlinesAdd(x.fixed + x.value + "\n", s);
    NewlinesAdd(x.fixed + x.value, "\n");
    NewlinesAdd(x.fixed, x.value);
    NoNewlines(x.value);
  }

  // ----- the values of a valid route -----

  lemma OpaqueIsAscii(s: string)
    requires Docker.OpaqueID(s)
    ensures IsAscii(s) && '\n' !in s && ':' !in s
  {
  }

  lemma NumberIsAscii(n: nat)
    ensures IsAscii(Strings.Number(n)) && '\n' !in Strings.Number(n) && ':' !in Strings.Number(n)
  {
    Strings.DecimalRoundTrip(n);
  }

  lemma NumberInjective(n: nat, m: nat)
    ensures Strings.Number(n) == Strings.Number(m) ==> n == m
  {
    var x, y := Strings.Decimal(n), Strings.Decimal(m);
    if Strings.Number(n) == Strings.Number(m) {
      assert |x| == |Strings.Number(n)| && |y| == |Strings.Number(m)|;
      forall i | 0 <= i < |x| ensures x[i] == y[i] {
        assert Strings.Number(n)[i] == x[i] as char && Strings.Number(m)[i] == y[i] as char;
      }
      assert x == y;
      Strings.DecimalRoundTrip(n);
      Strings.DecimalRoundTrip(m);
    }
  }

  lemma ValuesAreAscii(r: EnvironmentRoute)
    requires ValidRoute(r)
    ensures IsAscii(RouterName(r)) && IsAscii(RuleValue(r.hostname)) && IsAscii(ServiceName(r)) && IsAscii(BackendURL(r))
    ensures IsAscii(r.entrypoint) && IsAscii(r.certResolver)
  {
    hide Docker.OpaqueID, Strings.Number;
    OpaqueIsAscii(r.environment);
    OpaqueIsAscii(r.release);
    OpaqueIsAscii(r.fence);
    OpaqueIsAscii(r.runtimeInstance);
    OpaqueIsAscii(r.entrypoint);
    OpaqueIsAscii(r.certResolver);
    NumberIsAscii(r.port);
  }

  /** A valid route always renders. */
  lemma ValidRenders(r: EnvironmentRoute)
    requires ValidRoute(r)
    ensures Render(r) == Some(Concat(Chunks(Own(r))))
  {
    hide Chunks, Concat, RouterName, ServiceName, BackendURL, RuleValue, IsAscii, Values;
    ValuesAreAscii(r);
  }

  lemma QuotedLine(s: string)
    requires IsAscii(s)
    ensures '\n' !in Quoted(s) && '\n' !in Quoted(s) + ":"
  {
    hide Quote;
    UnquoteQuote(s);
  }

  lemma QuotedInjective(s: string, t: string)
    requires IsAscii(s) && IsAscii(t)
    ensures Quoted(s) == Quoted(t) ==> s == t
  {
    hide Quote, Unquote;
    UnquoteQuote(s);
    UnquoteQuote(t);
  }

  lemma ChunksOneLined(r: EnvironmentRoute)
    requires ValidRoute(r)
    ensures OneLined(Chunks(Own(r)))
  {
    hide RouterName, ServiceName, BackendURL, RuleValue, IsAscii, Docker.OpaqueID, HostnameText, Strings.Number, Quoted, Fixed;
    ValuesAreAscii(r);
    OpaqueIsAscii(r.environment);
    NumberIsAscii(r.revision);
    QuotedLine(RouterName(r));
    QuotedLine(RuleValue(r.hostname));
    QuotedLine(r.entrypoint);
    QuotedLine(ServiceName(r));
    QuotedLine(r.certResolver);
    QuotedLine(BackendURL(r));
  }

  /** Every valid route renders to the same number of lines. */
  lemma LineCountIsFixed(a: EnvironmentRoute, b: EnvironmentRoute)
    requires ValidRoute(a) && ValidRoute(b)
    ensures Render(a).Some? && Render(b).Some? && Newlines(Render(a).value) == Newlines(Render(b).value)
  {
    hide ValidRoute, Concat, Values, Fixed, Render, Newlines;
    ValidRenders(a);
    ValidRenders(b);
    ChunksOneLined(a);
    ChunksOneLined(b);
    SameLineCount(Chunks(Own(a)), Chunks(Own(b)));
  }

  /** All that a document can leave open: where the release ends and the fence begins. */
  predicate SameUpToSplit(a: EnvironmentRoute, b: EnvironmentRoute) {
    b == a.(release := b.release, fence := b.fence) && a.release + "-" + a.fence == b.release + "-" + b.fence
  }

  lemma ServiceDecides(a: EnvironmentRoute, b: EnvironmentRoute)
    requires a.environment == b.environment
    ensures ServiceName(a) == ServiceName(b) <==> a.release + "-" + a.fence == b.release + "-" + b.fence
  {
    var head := "autodeploy-svc-" + a.environment + "-";
    var x, y := a.release + "-" + a.fence, b.release + "-" + b.fence;
    assert ServiceName(a) == head + x && ServiceName(b) == head + y;
    assert (head + x)[|head|..] == x && (head + y)[|head|..] == y;
  }

  lemma RuleDecides(h: string, g: string)
    ensures RuleValue(h) == RuleValue(g) ==> h == g
  {
    var x, y := RuleValue(h), RuleValue(g);
    assert x[6..|x| - 2] == h && y[6..|y| - 2] == g;
  }

  /** Scheme, container and port can be told apart in the backend URL. */
  lemma URLDecides(a: EnvironmentRoute, b: EnvironmentRoute)
    requires ValidRoute(a) && ValidRoute(b) && BackendURL(a) == BackendURL(b)
    ensures a.scheme == b.scheme && a.runtimeInstance == b.runtimeInstance && a.port == b.port
  {
    hide Docker.OpaqueID, HostnameText, Strings.Number;
    var x, y := BackendURL(a), BackendURL(b);
    assert a.scheme == "http" ==> x[4] == ':';
    assert a.scheme == "https" ==> x[4] == 's';
    assert b.scheme == "http" ==> y[4] == ':';
    assert b.scheme == "https" ==> y[4] == 's';
    assert a.scheme == b.scheme;
    var head := a.scheme + "://" + Docker.NAME_PREFIX;
    var p, q := a.runtimeInstance + ":" + Strings.Number(a.port), b.runtimeInstance + ":" + Strings.Number(b.port);
    assert x == head + p && y == head + q;
    assert (head + p)[|head|..] == p && (head + q)[|head|..] == q;
    OpaqueIsAscii(a.runtimeInstance);
    OpaqueIsAscii(b.runtimeInstance);
    FirstColon(a.runtimeInstance, b.runtimeInstance, Strings.Number(a.port), Strings.Number(b.port));
    NumberInjective(a.port, b.port);
  }

  lemma FirstColon(x: string, y: string, s: string, t: string)
    requires ':' !in x && ':' !in y && x + ":" + s == y + ":" + t
    ensures x == y && s == t
  {
    var p, q := x + ":" + s, y + ":" + t;
    assert p[|x|] == ':' && q[|y|] == ':';
    assert forall i :: 0 <= i < |x| ==> p[i] != ':';
    assert forall i :: 0 <= i < |y| ==> q[i] != ':';
    assert |x| == |y|;
    assert p[..|x|] == x && q[..|y|] == y;
    assert p[|x| + 1..] == s && q[|y| + 1..] == t;
  }

  lemma ValuesDecide(a: EnvironmentRoute, b: EnvironmentRoute)
    requires ValidRoute(a) && ValidRoute(b) && Own(a) == Own(b)
    ensures SameUpToSplit(a, b)
  {
    hide RouterName, ServiceName, BackendURL, RuleValue, IsAscii, Docker.OpaqueID, HostnameText, Strings.Number, Quoted;
    ValuesAreAscii(a);
    ValuesAreAscii(b);
    var x, y := Own(a), Own(b);
    assert x[0] == y[0] && x[1] == y[1] && x[3] == y[3] && x[4] == y[4] && x[5] == y[5] && x[6] == y[6] && x[8] == y[8];
    NumberInjective(a.revision, b.revision);
    QuotedInjective(RuleValue(a.hostname), RuleValue(b.hostname));
    RuleDecides(a.hostname, b.hostname);
    QuotedInjective(a.entrypoint, b.entrypoint);
    QuotedInjective(ServiceName(a), ServiceName(b));
    ServiceDecides(a, b);
    QuotedInjective(a.certResolver, b.certResolver);
    QuotedInjective(BackendURL(a), BackendURL(b));
    URLDecides(a, b);
  }

  lemma SplitIsInvisible(a: EnvironmentRoute, b: EnvironmentRoute)
    requires ValidRoute(a) && ValidRoute(b) && SameUpToSplit(a, b)
    ensures Own(a) == Own(b)
  {
    ServiceDecides(a, b);
  }

  /** Two valid routes have the same document exactly when they agree on every field, up to where
      release and fence are separated. */
  lemma DocumentDecides(a: EnvironmentRoute, b: EnvironmentRoute)
    requires ValidRoute(a) && ValidRoute(b)
    ensures Render(a) == Render(b) <==> SameUpToSplit(a, b)
  {
    hide ValidRoute, Concat, Values, Fixed, Render, SameUpToSplit;
    ValidRenders(a);
    ValidRenders(b);
    if SameUpToSplit(a, b) {
      SplitIsInvisible(a, b);
    }
    if Render(a) == Render(b) {
      ChunksOneLined(a);
      ChunksOneLined(b);
      ConcatInjective(Chunks(Own(a)), Chunks(Own(b)));
      ChunksDecide(Own(a), Own(b));
      ValuesDecide(a, b);
    }
  }

  lemma ChunksDecide(x: seq<string>, y: seq<string>)
    requires Chunks(x) == Chunks(y)
    ensures x == y
  {
    assert |x| == |Chunks(x)| && |y| == |Chunks(y)|;
    forall i | 0 <= i < |x| ensures x[i] == y[i] {
      assert Chunks(x)[i].value == x[i] && Chunks(y)[i].value == y[i];
    }
  }

  /** So the document determines the route when neither fence has a hyphen, or when either the
      release or the fence is known; in particular no single field can change unseen. */
  lemma DocumentDetermines(a: EnvironmentRoute, b: EnvironmentRoute)
    requires ValidRoute(a) && ValidRoute(b) && Render(a) == Render(b)
    requires ('-' !in a.fence && '-' !in b.fence) || a.release == b.release || a.fence == b.fence
    ensures a == b
  {
    hide ValidRoute, Render;
    DocumentDecides(a, b);
    var p, q := a.release + "-" + a.fence, b.release + "-" + b.fence;
    assert p[|a.release| + 1..] == a.fence && q[|b.release| + 1..] == b.fence;
    assert p[..|a.release|] == a.release && q[..|b.release|] == b.release;
    if '-' !in a.fence && '-' !in b.fence {
      LastHyphen(a.release, b.release, a.fence, b.fence);
    }
  }

  lemma LastHyphen(s: string, t: string, x: string, y: string)
    requires '-' !in x && '-' !in y && s + "-" + x == t + "-" + y
    ensures s == t && x == y
  {
    var p, q := s + "-" + x, t + "-" + y;
    assert p[|s|] == '-' && q[|t|] == '-';
    assert forall i :: |s| < i < |p| ==> p[i] == x[i - |s| - 1];
    assert forall i :: |t| < i < |q| ==> q[i] == y[i - |t| - 1];
    assert |s| == |t|;
    assert p[..|s|] == s && q[..|t|] == t;
    assert p[|s| + 1..] == x && q[|t| + 1..] == y;
  }

  /** With a hyphen in the fence two different routes can share a document. */
  lemma HyphenIsAmbiguous(a: EnvironmentRoute, b: EnvironmentRoute)
    requires ValidRoute(a) && b == a.(release := "r", fence := "f-1") && a.release == "r-f" && a.fence == "1"
    ensures a != b && Render(a) == Render(b)
  {
    hide Render;
    assert ValidRoute(b);
    assert a.release + "-" + a.fence == "r-f-1" == b.release + "-" + b.fence;
    DocumentDecides(a, b);
  }

  // ----- a reader of the document -----

  function Lines(s: string): (lines: seq<string>)
    ensures |lines| >= 1
  {
    if s == [] then [[]]
    else
      var rest := Lines(s[1..]);
      if s[0] == '\n' then [[]] + rest else [[s[0]] + rest[0]] + rest[1..]
  }

  lemma {:induction false} FirstLine(x: string, s: string)
    requires '\n' !in x
    ensures Lines(x + "\n" + s) == [x] + Lines(s)
  {
    var t := x + "\n" + s;
    if x == [] {
      assert t[1..] == s;
    } else {
      FirstLine(x[1..], s);
      assert t[1..] == x[1..] + "\n" + s;
      assert x == [x[0]] + x[1..];
    }
  }

  lemma {:induction false} HeadLines(heads: seq<string>, s: string)
    requires forall i :: 0 <= i < |heads| ==> '\n' !in heads[i]
    ensures Lines(Unlines(heads) + s) == heads + Lines(s)
  {
    if heads == [] {
      assert Unlines(heads) + s == s;
    } else {
      HeadLines(heads[1..], s);
      FirstLine(heads[0], Unlines(heads[1..]) + s);
      assert Unlines(heads) + s == heads[0] + "\n" + (Unlines(heads[1..]) + s);
      assert heads == [heads[0]] + heads[1..];
    }
  }

  /** The lines of a document, value by value. */
  ghost function LinesFrom(values: seq<string>, i: nat): seq<string>
    decreases |values| - i
  {
    if i >= |values| then [""] else Heads(i) + [Prefix(i) + values[i]] + LinesFrom(values, i + 1)
  }

  lemma PrefixIsOneLine(i: nat)
    ensures '\n' !in Prefix(i)
  {
  }

  lemma HeadsAreLines(i: nat)
    ensures '\n' !in Prefix(i) && forall k :: 0 <= k < |Heads(i)| ==> '\n' !in Heads(i)[k]
  {
    hide Heads, Prefix;
    PrefixIsOneLine(i);
    forall k | 0 <= k < |Heads(i)| ensures '\n' !in Heads(i)[k] {
      HeadIsOneLine(i, k);
    }
  }

  lemma NoticesAreLines()
    ensures '\n' !in Notice() && '\n' !in ReplacedNotice()
  {
  }

  lemma HeadIsOneLine(i: nat, k: nat)
    requires k < |Heads(i)|
    ensures '\n' !in Heads(i)[k]
  {
    hide Notice, ReplacedNotice;
    NoticesAreLines();
  }

  lemma {:induction false} LinesOfDocument(values: seq<string>, i: nat)
    requires i <= |values| && forall k :: 0 <= k < |values| ==> '\n' !in values[k]
    ensures Lines(Concat(Chunks(values)[i..])) == LinesFrom(values, i)
    decreases |values| - i
  {
    hide Heads, Prefix;
    var chunks := Chunks(values)[i..];
    if i == |values| {
      assert chunks == [];
    } else {
      LinesOfDocument(values, i + 1);
      assert chunks[0] == Chunk(Fixed(i), values[i]) && chunks[1..] == Chunks(values)[i + 1..];
      PieceLines(i, values[i], Concat(chunks[1..]));
    }
  }

  lemma PieceLines(i: nat, value: string, rest: string)
    requires '\n' !in value
    ensures Lines(Fixed(i) + value + "\n" + rest) == Heads(i) + [Prefix(i) + value] + Lines(rest)
  {
    hide Heads, Prefix, Lines, Unlines;
    HeadsAreLines(i);
    var line := Prefix(i) + value;
    FirstLine(line, rest);
    HeadLines(Heads(i), line + "\n" + rest);
    assert Fixed(i) + value + "\n" + rest == Unlines(Heads(i)) + (line + "\n" + rest);
    assert Heads(i) + ([line] + Lines(rest)) == Heads(i) + [line] + Lines(rest);
  }

  /** The first line that begins with a key, or the number of lines. */
  function Find(lines: seq<string>, key: string): (i: nat)
    ensures i <= |lines| && (i < |lines| ==> key <= lines[i])
  {
    if lines == [] then 0 else if key <= lines[0] then 0 else 1 + Find(lines[1..], key)
  }

  lemma {:induction false} FoundAt(lines: seq<string>, key: string, i: nat)
    requires i < |lines| && key <= lines[i] && forall j :: 0 <= j < i ==> !(key <= lines[j])
    ensures Find(lines, key) == i
  {
    if i > 0 {
      FoundAt(lines[1..], key, i - 1);
    }
  }

  /** What follows a key on its line, the first line with it. */
  function After(lines: seq<string>, key: string): Option<string> {
    var i := Find(lines, key);
    if i < |lines| then Some(lines[i][|key|..]) else None
  }

  /** A quoted value on the line of its key. */
  function Scalar(lines: seq<string>, key: string): Option<string> {
    match After(lines, key)
    case None => None
    case Some(q) => Unquote(q)
  }

  /** The line below a key, without what it begins with. */
  function Below(lines: seq<string>, key: string, indent: string): Option<string> {
    var i := Find(lines, key) + 1;
    if i < |lines| && indent <= lines[i] then Some(lines[i][|indent|..]) else None
  }

  /** The fixed lines before a value, and its own. */
  function Block(values: seq<string>, i: nat): seq<string>
    requires i < |values|
  {
    Heads(i) + [Prefix(i) + values[i]]
  }

  predicate Absent(key: string, lines: seq<string>) {
    forall i :: 0 <= i < |lines| ==> !(key <= lines[i])
  }

  lemma {:induction false} FindSkips(key: string, lines: seq<string>, rest: seq<string>)
    requires Absent(key, lines)
    ensures Find(lines + rest, key) == |lines| + Find(rest, key)
  {
    if lines == [] {
      assert lines + rest == rest;
    } else {
      FindSkips(key, lines[1..], rest);
      assert (lines + rest)[1..] == lines[1..] + rest;
    }
  }

  /** A key is looked for from the first block on that can have it. */
  lemma {:induction false} ReadFrom(values: seq<string>, key: string, indent: string, i: nat, j: nat)
    requires j <= i < |values| && forall k: nat :: j <= k < i ==> Absent(key, Block(values, k))
    ensures After(LinesFrom(values, j), key) == After(LinesFrom(values, i), key)
    ensures Below(LinesFrom(values, j), key, indent) == Below(LinesFrom(values, i), key, indent)
    decreases i - j
  {
    hide Heads, Prefix;
    if j < i {
      ReadFrom(values, key, indent, i, j + 1);
      var block, rest := Block(values, j), LinesFrom(values, j + 1);
      assert LinesFrom(values, j) == block + rest;
      assert Absent(key, block);
      FindSkips(key, block, rest);
      var n := Find(rest, key);
      assert n < |rest| ==> (block + rest)[|block| + n] == rest[n];
      assert n + 1 < |rest| ==> (block + rest)[|block| + n + 1] == rest[n + 1];
    }
  }

  lemma AfterHere(key: string, heads: seq<string>, value: string, rest: seq<string>)
    requires Absent(key, heads)
    ensures After(heads + [key + value] + rest, key) == Some(value)
  {
    var lines := heads + [key + value] + rest;
    assert lines == heads + ([key + value] + rest);
    FindSkips(key, heads, [key + value] + rest);
    assert lines[|heads|] == key + value;
  }

  lemma BelowHere(front: seq<string>, key: string, indent: string, value: string, rest: seq<string>)
    requires Absent(key, front)
    ensures Below(front + [key] + [indent + value] + rest, key, indent) == Some(value)
  {
    var lines := front + [key] + [indent + value] + rest;
    assert lines == front + ([key, indent + value] + rest);
    FindSkips(key, front, [key, indent + value] + rest);
    assert lines[|front| + 1] == indent + value;
  }

  /** A value on the line of its key, in a document that does not have the key before. */
  lemma ReadValue(values: seq<string>, i: nat)
    requires i < |values| && Absent(Prefix(i), Heads(i)) && forall k: nat :: k < i ==> Absent(Prefix(i), Block(values, k))
    ensures After(LinesFrom(values, 0), Prefix(i)) == Some(values[i])
  {
    hide Heads, Prefix;
    ReadFrom(values, Prefix(i), "", i, 0);
    AfterHere(Prefix(i), Heads(i), values[i], LinesFrom(values, i + 1));
  }

  /** A value on the line below its key. */
  lemma ReadBelow(values: seq<string>, i: nat, front: seq<string>, key: string)
    requires i < |values| && Heads(i) == front + [key] && Absent(key, front)
    requires forall k: nat :: k < i ==> Absent(key, Block(values, k))
    ensures Below(LinesFrom(values, 0), key, Prefix(i)) == Some(values[i])
  {
    hide Heads, Prefix;
    ReadFrom(values, key, Prefix(i), i, 0);
    BelowHere(front, key, Prefix(i), values[i], LinesFrom(values, i + 1));
  }

  // ----- no key occurs before its place -----

  /** The line is indented by so many spaces and goes on with that character. */
  predicate Starts(line: string, depth: nat, c: char) {
    c != ' ' && depth < |line| && line[depth] == c && forall i :: 0 <= i < depth ==> line[i] == ' '
  }

  lemma Parted(key: string, depth: nat, c: char, line: string, depth': nat, c': char)
    requires Starts(key, depth, c) && Starts(line, depth', c') && (depth != depth' || c != c')
    ensures !(key <= line)
  {
    if depth < depth' {
      assert line[depth] == ' ' && key[depth] == c;
    } else if depth > depth' {
      assert line[depth'] == c' && key[depth'] == ' ';
    }
  }

  /** How each value's own line starts. */
  function Depth(k: nat): nat {
    match k
    case 0 => 0
    case 1 => 0
    case 2 => 4
    case 3 => 6
    case 4 => 8
    case 5 => 6
    case 6 => 8
    case 7 => 4
    case _ => 10
  }

  function Mark(k: nat): char {
    match k
    case 0 => '#'
    case 1 => '#'
    case 2 => '"'
    case 3 => 'r'
    case 4 => '-'
    case 5 => 's'
    case 6 => 'c'
    case 7 => '"'
    case _ => '-'
  }

  /** How the fixed lines before a value start. */
  function HeadDepth(k: nat, m: nat): nat {
    match k
    case 2 => if m == 0 then 0 else 2
    case 4 => 6
    case 6 => 6
    case 7 => 2
    case 8 => if m == 0 then 6 else 8
    case _ => 0
  }

  function HeadMark(k: nat, m: nat): char {
    match k
    case 2 => if m == 0 then 'h' else 'r'
    case 4 => 'e'
    case 6 => 't'
    case 7 => 's'
    case 8 => if m == 0 then 'l' else 's'
    case _ => '#'
  }

  /** The quoted names, which stand as keys, begin with their quote. */
  predicate QuotedKeys(values: seq<string>) {
    |values| == 9 && values[2] != "" && values[2][0] == '"' && values[7] != "" && values[7][0] == '"'
  }

  lemma LineStarts(values: seq<string>, k: nat)
    requires QuotedKeys(values) && k < 9
    ensures Starts(Prefix(k) + values[k], Depth(k), Mark(k))
    ensures k != 2 && k != 7 ==> Starts(Prefix(k), Depth(k), Mark(k))
  {
  }

  lemma NoticeText()
    ensures |Notice()| > 2 && Notice()[0] == '#' && Notice()[2] == 'G'
    ensures |ReplacedNotice()| > 2 && ReplacedNotice()[0] == '#' && ReplacedNotice()[2] == 't'
  {
  }

  lemma HeadStarts(k: nat, m: nat)
    requires k < 9 && m < |Heads(k)|
    ensures Starts(Heads(k)[m], HeadDepth(k, m), HeadMark(k, m))
  {
    hide Notice, ReplacedNotice;
    NoticeText();
  }

  /** A key that starts like no line of a block is not in the block. */
  lemma NotInBlock(values: seq<string>, k: nat, key: string, depth: nat, c: char)
    requires QuotedKeys(values) && k < 9 && Starts(key, depth, c) && (Depth(k) != depth || Mark(k) != c)
    requires forall m: nat :: m < |Heads(k)| ==> HeadDepth(k, m) != depth || HeadMark(k, m) != c
    ensures Absent(key, Block(values, k))
  {
    hide Heads, Prefix, Depth, Mark, HeadDepth, HeadMark;
    var block := Block(values, k);
    forall m | 0 <= m < |block| ensures !(key <= block[m]) {
      if m < |Heads(k)| {
        HeadStarts(k, m);
        Parted(key, depth, c, block[m], HeadDepth(k, m), HeadMark(k, m));
      } else {
        LineStarts(values, k);
        Parted(key, depth, c, block[m], Depth(k), Mark(k));
      }
    }
  }

  /** Keys on the value's own line: rule, service, certResolver, url. */
  lemma OwnKey(values: seq<string>, i: nat)
    requires QuotedKeys(values) && (i == 3 || i == 5 || i == 6 || i == 8)
    ensures After(LinesFrom(values, 0), Prefix(i)) == Some(values[i])
  {
    hide Heads, Prefix;
    LineStarts(values, i);
    forall k: nat | k < i ensures Absent(Prefix(i), Block(values, k)) {
      HeadCount(k);
      NotInBlock(values, k, Prefix(i), Depth(i), Mark(i));
    }
    forall m | 0 <= m < |Heads(i)| ensures !(Prefix(i) <= Heads(i)[m]) {
      HeadCount(i);
      HeadStarts(i, m);
      Parted(Prefix(i), Depth(i), Mark(i), Heads(i)[m], HeadDepth(i, m), HeadMark(i, m));
    }
    ReadValue(values, i);
  }

  lemma HeadCount(k: nat)
    ensures |Heads(k)| == if k == 0 || k == 2 || k == 8 then 2 else if k == 4 || k == 6 || k == 7 then 1 else 0
  {
  }

  /** Keys above their value: routers, entryPoints, services. */
  lemma KeyAbove(values: seq<string>, i: nat)
    requires QuotedKeys(values) && (i == 2 || i == 4 || i == 7)
    ensures Heads(i) != [] && Below(LinesFrom(values, 0), Heads(i)[|Heads(i)| - 1], Prefix(i)) == Some(values[i])
  {
    hide Heads, Prefix;
    HeadCount(i);
    var m := |Heads(i)| - 1;
    var key, front := Heads(i)[m], Heads(i)[..m];
    HeadStarts(i, m);
    forall k: nat | k < i ensures Absent(key, Block(values, k)) {
      HeadCount(k);
      NotInBlock(values, k, key, HeadDepth(i, m), HeadMark(i, m));
    }
    forall n | 0 <= n < |front| ensures !(key <= front[n]) {
      HeadStarts(i, n);
      Parted(key, HeadDepth(i, m), HeadMark(i, m), front[n], HeadDepth(i, n), HeadMark(i, n));
    }
    ReadBelow(values, i, front, key);
  }

  lemma ThirdCharacter(key: string, line: string)
    requires |key| > 2 && |line| > 2 && key[2] != line[2]
    ensures !(key <= line)
  {
  }

  lemma CommentText(value: string)
    ensures |Prefix(0)| > 2 && Prefix(0)[2] == 'e' && (Prefix(0) + value)[2] == 'e' && |Prefix(1)| > 2 && Prefix(1)[2] == 'r'
    ensures Heads(0) == [Notice(), ReplacedNotice()] && Heads(1) == []
  {
    hide Notice, ReplacedNotice;
  }

  /** The two comment lines with values. */
  lemma CommentKey(values: seq<string>, i: nat)
    requires |values| == 9 && i < 2
    ensures After(LinesFrom(values, 0), Prefix(i)) == Some(values[i])
  {
    hide Notice, ReplacedNotice, Prefix, Heads;
    NoticeText();
    CommentText(values[0]);
    ThirdCharacter(Prefix(i), Notice());
    ThirdCharacter(Prefix(i), ReplacedNotice());
    if i == 1 {
      ThirdCharacter(Prefix(1), Prefix(0) + values[0]);
      assert Block(values, 0) == [Notice(), ReplacedNotice(), Prefix(0) + values[0]];
    }
    ReadValue(values, i);
  }

  lemma OwnIsQuoted(r: EnvironmentRoute)
    requires ValidRoute(r)
    ensures QuotedKeys(Own(r)) && forall i :: 0 <= i < 9 ==> '\n' !in Own(r)[i]
  {
    hide RouterName, ServiceName, BackendURL, RuleValue, IsAscii, Docker.OpaqueID, HostnameText, Strings.Number, Fixed;
    ValuesAreAscii(r);
    ChunksOneLined(r);
    forall i | 0 <= i < 9 ensures '\n' !in Own(r)[i] {
      assert Chunks(Own(r))[i].value == Own(r)[i];
    }
  }

  lemma RenderedLines(r: EnvironmentRoute)
    requires ValidRoute(r)
    ensures Render(r).Some? && Lines(Render(r).value) == LinesFrom(Own(r), 0)
  {
    hide ValidRoute, Concat, Values, Fixed, Render, Lines, LinesFrom, QuotedKeys;
    ValidRenders(r);
    OwnIsQuoted(r);
    LinesOfDocument(Own(r), 0);
    assert Chunks(Own(r))[0..] == Chunks(Own(r));
  }

  /** A reader of the document finds every field under its own key: the identity in the comments, the
      host in the rule, the entry point in its list, the certificate resolver, the backend in the
      URL, and the service under the same name where it is used and where it is defined. */
  lemma ReadBack(r: EnvironmentRoute)
    requires ValidRoute(r)
    ensures Render(r).Some?
    ensures var lines := Lines(Render(r).value);
      && After(lines, "# environment: ") == Some(r.environment)
      && After(lines, "# route_revision: ") == Some(Strings.Number(r.revision))
      && Scalar(lines, "      rule: ") == Some("Host(`" + r.hostname + "`)")
      && Scalar(lines, "      service: ") == Some("autodeploy-svc-" + r.environment + "-" + r.release + "-" + r.fence)
      && Scalar(lines, "        certResolver: ") == Some(r.certResolver)
      && Scalar(lines, "          - url: ") == Some(r.scheme + "://" + "autodeploy-rt-" + r.runtimeInstance + ":" + Strings.Number(r.port))
    ensures var lines := Lines(Render(r).value);
      && Below(lines, "  routers:", "    ") == Some(Quoted("autodeploy-router-" + r.environment) + ":")
      && Below(lines, "      entryPoints:", "        - ") == Some(Quoted(r.entrypoint))
      && Below(lines, "  services:", "    ") == Some(Quoted("autodeploy-svc-" + r.environment + "-" + r.release + "-" + r.fence) + ":")
  {
    hide ValidRoute, Render, Lines, LinesFrom, Quote, Unquote, After, Below, QuotedKeys;
    RenderedLines(r);
    OwnIsQuoted(r);
    ValuesAreAscii(r);
    CommentKey(Own(r), 0);
    CommentKey(Own(r), 1);
    OwnKey(Own(r), 3);
    OwnKey(Own(r), 5);
    OwnKey(Own(r), 6);
    OwnKey(Own(r), 8);
    KeyAbove(Own(r), 2);
    KeyAbove(Own(r), 4);
    KeyAbove(Own(r), 7);
    UnquoteQuote(RuleValue(r.hostname));
    UnquoteQuote(ServiceName(r));
    UnquoteQuote(r.certResolver);
    UnquoteQuote(BackendURL(r));
  }
}
