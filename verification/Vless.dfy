/** VLESS share links: the printer, the parser, and what survives the trip. */
module Vless {
  import opened Basics
  import opened Text
  import opened UrlCoding

  /** The TLS and transport settings a VLESS link can carry, and those the parser fills in. */
  datatype Tls = Tls(
    enabled: bool, security: string, sni: Option<string>, fingerprint: Option<string>,
    publicKey: Option<string>, shortId: Option<string>, serverName: Option<string>)

  datatype Transport = Transport(kind: string, path: Option<string>, host: Option<string>, serviceName: Option<string>)

  datatype Outbound = Outbound(
    tag: string, protocol: string,
    address: Option<string>, port: Option<nat>, uuid: Option<string>,
    sni: Option<string>, security: Option<string>, flow: Option<string>, fingerprint: Option<string>,
    publicKey: Option<string>, shortId: Option<string>, serverName: Option<string>,
    transport: Option<Transport>, tls: Option<Tls>)

  function GetOr<T>(o: Option<T>, default: T): T {
    if o.Some? then o.value else default
  }

  // ---------------------------------------------------------------- query parameters

  type Pair = (string, string)

  function PairText(kv: Pair): string { kv.0 + "=" + kv.1 }

  function PairTexts(kvs: seq<Pair>): seq<string> {
    seq(|kvs|, i requires 0 <= i < |kvs| => PairText(kvs[i]))
  }

  /** What one `key=value` piece does to the map; a piece without `=` is skipped. */
  function AddPiece(m: map<string, string>, piece: string): map<string, string> {
    var kv := SplitOnce(piece, '=');
    if kv.None? then m else m[DecodeOr(kv.value.0) := DecodeOr(kv.value.1)]
  }

  function AddPieces(pieces: seq<string>): map<string, string> {
    if pieces == [] then map[]
    else AddPiece(AddPieces(pieces[..|pieces| - 1]), pieces[|pieces| - 1])
  }

  function ParseQuery(s: string): map<string, string> {
    if s == [] then map[] else AddPieces(Split(s, '&'))
  }

  method ParseQueryParams(s: string) returns (m: map<string, string>)
    ensures m == ParseQuery(s)
  {
    m := map[];
    if s == [] { return; }
    var pieces := Split(s, '&');
    for i := 0 to |pieces|
      invariant m == AddPieces(pieces[..i])
    {
      assert pieces[..i + 1][..i] == pieces[..i];
      var kv := SplitOnce(pieces[i], '=');
      if kv.Some? {
        m := m[DecodeOr(kv.value.0) := DecodeOr(kv.value.1)];
      }
    }
    assert pieces[..|pieces|] == pieces;
  }

  function Get(m: map<string, string>, k: string): Option<string> {
    if k in m then Some(m[k]) else None
  }

  function MapOf(kvs: seq<Pair>): map<string, string> {
    if kvs == [] then map[]
    else MapOf(kvs[..|kvs| - 1])[kvs[|kvs| - 1].0 := DecodeOr(kvs[|kvs| - 1].1)]
  }

  predicate KeyIsPlain(k: string) { Without(k, '=') && Without(k, '&') && Without(k, '%') }

  lemma PieceBack(m: map<string, string>, kv: Pair)
    requires KeyIsPlain(kv.0)
    ensures AddPiece(m, PairText(kv)) == m[kv.0 := DecodeOr(kv.1)]
  {
    SplitJoined(kv.0, '=', kv.1);
    assert PairText(kv) == kv.0 + ['='] + kv.1;
  }

  lemma {:induction false} PiecesBack(kvs: seq<Pair>)
    requires forall i :: 0 <= i < |kvs| ==> KeyIsPlain(kvs[i].0)
    ensures AddPieces(PairTexts(kvs)) == MapOf(kvs)
    decreases |kvs|
  {
    if kvs != [] {
      var n, texts := |kvs| - 1, PairTexts(kvs);
      PiecesBack(kvs[..n]);
      assert texts[..n] == PairTexts(kvs[..n]);
      PieceBack(MapOf(kvs[..n]), kvs[n]);
    }
  }

  lemma PairTextPlain(kv: Pair)
    requires Without(kv.0, '&') && Without(kv.1, '&')
    ensures Without(PairText(kv), '&') && PairText(kv) != []
  {
  }

  /** Pairs written into a query come back, with each value percent-decoded. */
  lemma QueryBack(kvs: seq<Pair>)
    requires |kvs| > 0
    requires forall i :: 0 <= i < |kvs| ==> KeyIsPlain(kvs[i].0) && Without(kvs[i].1, '&')
    ensures ParseQuery(Join(PairTexts(kvs), '&')) == MapOf(kvs)
  {
    var texts := PairTexts(kvs);
    forall i | 0 <= i < |texts|
      ensures Without(texts[i], '&')
    {
      PairTextPlain(kvs[i]);
    }
    SplitJoin(texts, '&');
    PairTextPlain(kvs[0]);
    JoinNotEmpty(texts);
    PiecesBack(kvs);
  }

  lemma JoinNotEmpty(parts: seq<string>)
    requires |parts| > 0 && parts[0] != []
    ensures Join(parts, '&') != []
  {
  }

  // ---------------------------------------------------------------- the parameters of a link

  datatype Params = Params(
    security: Option<string>, sni: Option<string>, fp: Option<string>, pbk: Option<string>, sid: Option<string>,
    flow: Option<string>, kind: Option<string>, path: Option<string>, host: Option<string>)

  function ParamsOf(c: Outbound): Params {
    Params(
      if c.tls.Some? && c.tls.value.security != [] then Some(c.tls.value.security) else None,
      if c.tls.Some? then c.tls.value.sni else None,
      if c.tls.Some? then c.tls.value.fingerprint else None,
      if c.tls.Some? then c.tls.value.publicKey else None,
      if c.tls.Some? then c.tls.value.shortId else None,
      c.flow,
      if c.transport.Some? then Some(c.transport.value.kind) else None,
      if c.transport.Some? then c.transport.value.path else None,
      if c.transport.Some? then c.transport.value.host else None)
  }

  function Opt(k: string, v: Option<string>): seq<Pair> {
    if v.None? then [] else [(k, v.value)]
  }

  function TlsPairs(p: Params): seq<Pair> {
    Opt("security", p.security) + Opt("sni", p.sni) + Opt("fp", p.fp) + Opt("pbk", p.pbk) + Opt("sid", p.sid)
  }

  function TransportPairs(p: Params): seq<Pair> {
    Opt("type", p.kind) + Opt("path", p.path) + Opt("host", p.host)
  }

  function Pairs(p: Params): seq<Pair> {
    TlsPairs(p) + Opt("flow", p.flow) + TransportPairs(p)
  }

  function QueryText(kvs: seq<Pair>): string {
    if kvs == [] then "" else "?" + Join(PairTexts(kvs), '&')
  }

  function HeadText(uuid: string, addr: string, port: nat, query: string): string {
    uuid + "@" + addr + ":" + PrintNat(port) + query
  }

  /** The text the printer makes. */
  function Print(c: Outbound): string {
    var head := HeadText(GetOr(c.uuid, ""), GetOr(c.address, ""), GetOr(c.port, 443), QueryText(Pairs(ParamsOf(c))));
    "vless://" + (head + "#" + PercentEncode(c.tag))
  }

  method Push(params: seq<Pair>, k: string, v: Option<string>) returns (r: seq<Pair>)
    ensures r == params + Opt(k, v)
  {
    r := params;
    if v.Some? {
      r := r + [(k, v.value)];
    }
  }

  method PushTls(c: Outbound) returns (params: seq<Pair>)
    ensures params == TlsPairs(ParamsOf(c))
  {
    params := [];
    if c.tls.Some? {
      var tls := c.tls.value;
      if tls.security != [] {
        params := [("security", tls.security)];
      }
      params := Push(params, "sni", tls.sni);
      params := Push(params, "fp", tls.fingerprint);
      params := Push(params, "pbk", tls.publicKey);
      params := Push(params, "sid", tls.shortId);
    }
  }

  method PushTransport(c: Outbound) returns (params: seq<Pair>)
    ensures params == TransportPairs(ParamsOf(c))
  {
    params := [];
    if c.transport.Some? {
      var transport := c.transport.value;
      params := [("type", transport.kind)];
      params := Push(params, "path", transport.path);
      params := Push(params, "host", transport.host);
    }
  }

  method EncodeVlessUri(c: Outbound) returns (uri: string)
    ensures uri == Print(c)
  {
    var params := PushTls(c);
    params := Push(params, "flow", c.flow);
    var more := PushTransport(c);
    var query := QueryText(params + more);
    var addr, port, uuid := GetOr(c.address, ""), GetOr(c.port, 443), GetOr(c.uuid, "");
    uri := "vless://" + (HeadText(uuid, addr, port, query) + "#" + PercentEncode(c.tag));
  }

  // ---------------------------------------------------------------- parsing

  function ParseHostPort(s: string): Option<(string, string)> {
    if |s| > 0 && s[0] == '[' then
      var inner := SplitOnce(s[1..], ']');
      if inner.None? then None
      else
        var after := inner.value.1;
        if |after| > 0 && after[0] == ':' then Some((inner.value.0, after[1..])) else None
    else RSplitOnce(s, ':')
  }

  datatype Head = Head(uuid: string, host: string, port: nat, query: string)

  /** The part before the tag: `uuid@host:port?query`. */
  function ParseHead(main: string): Option<Head> {
    var at := SplitOnce(main, '@');
    if at.None? then None
    else
      var (uuid, rest) := at.value;
      var (hostPort, query) := GetOr(SplitOnce(rest, '?'), (rest, ""));
      var hp := ParseHostPort(hostPort);
      if hp.None? then None
      else
        var port := ParseUnsigned(hp.value.1, 65536);
        if port.None? then None else Some(Head(uuid, hp.value.0, port.value, query))
  }

  function TransportFrom(m: map<string, string>): Option<Transport> {
    var t := GetOr(Get(m, "type"), "tcp");
    if t == "tcp" || t == "none" || t == "" then None
    else Some(Transport(t, Get(m, "path"), Get(m, "host"), if t == "grpc" then Get(m, "serviceName") else None))
  }

  function TlsFrom(m: map<string, string>, sni: Option<string>): Option<Tls> {
    var sec := GetOr(Get(m, "security"), "");
    if sec == "" || sec == "none" then None
    else Some(Tls(true, sec, sni, Get(m, "fp"), Get(m, "pbk"), Get(m, "sid"), Get(m, "serverName")))
  }

  function Build(rawTag: string, h: Head, m: map<string, string>): Outbound {
    var sni, named := Get(m, "sni"), Get(m, "serverName");
    Outbound(
      DecodeOr(rawTag), "vless", Some(h.host), Some(h.port), Some(h.uuid),
      sni, Get(m, "security"), Get(m, "flow"), Get(m, "fp"), Get(m, "pbk"), Get(m, "sid"),
      if named.Some? then named else sni,
      TransportFrom(m), TlsFrom(m, sni))
  }

  function ParseVless(rest: string): Option<Outbound> {
    var (main, rawTag) := GetOr(RSplitOnce(rest, '#'), (rest, "vless"));
    var head := ParseHead(main);
    if head.None? then None else Some(Build(rawTag, head.value, ParseQuery(head.value.query)))
  }

  /** The VLESS arm of the link parser; other schemes are not modelled. */
  function ParseLink(uri: string): Option<Outbound> {
    var s := Trim(uri);
    if "vless://" <= s then ParseVless(s[8..]) else None
  }
}
