/** The round trip of a VLESS link, printed and parsed again. */
module VlessLaws {
  import opened Basics
  import opened Text
  import opened UrlCoding
  import opened Vless
  import Utf8

  // ---------------------------------------------------------------- parameters

  function Decoded(v: Option<string>): Option<string> {
    if v.None? then None else Some(DecodeOr(v.value))
  }

  predicate Plain(v: Option<string>) {
    v.Some? ==> Without(v.value, '&')
  }

  predicate PlainParams(p: Params) {
    && Plain(p.security) && Plain(p.sni) && Plain(p.fp) && Plain(p.pbk) && Plain(p.sid)
    && Plain(p.flow) && Plain(p.kind) && Plain(p.path) && Plain(p.host)
  }

  /** A key's value in a list of pairs with the later one winning, decoded. */
  function Lookup(kvs: seq<Pair>, k: string): Option<string> {
    if kvs == [] then None
    else if kvs[|kvs| - 1].0 == k then Some(DecodeOr(kvs[|kvs| - 1].1))
    else Lookup(kvs[..|kvs| - 1], k)
  }

  lemma {:induction false} LookupIsGet(kvs: seq<Pair>, k: string)
    ensures Get(MapOf(kvs), k) == Lookup(kvs, k)
    decreases |kvs|
  {
    if kvs != [] { LookupIsGet(kvs[..|kvs| - 1], k); }
  }

  lemma {:induction false} LookupConcat(a: seq<Pair>, b: seq<Pair>, k: string)
    ensures Lookup(a + b, k) == if Lookup(b, k).Some? then Lookup(b, k) else Lookup(a, k)
    decreases |b|
  {
    if b == [] {
      assert a + b == a;
    } else {
      LookupConcat(a, b[..|b| - 1], k);
      assert (a + b)[..|a + b| - 1] == a + b[..|b| - 1];
    }
  }

  lemma LookupOpt(key: string, v: Option<string>, k: string)
    ensures Lookup(Opt(key, v), k) == if key == k then Decoded(v) else None
  {
    if v.Some? {
      var one := Opt(key, v);
      assert one[..0] == [];
      assert Lookup(one, k) == if key == k then Decoded(v) else Lookup(one[..0], k);
    }
  }

  lemma LookupAppend(a: seq<Pair>, key: string, v: Option<string>, k: string)
    ensures Lookup(a + Opt(key, v), k) == if key == k && v.Some? then Decoded(v) else Lookup(a, k)
  {
    LookupConcat(a, Opt(key, v), k);
    LookupOpt(key, v, k);
  }

  lemma LookupTls(p: Params, k: string)
    ensures Lookup(TlsPairs(p), k) ==
      if k == "sid" then Decoded(p.sid) else if k == "pbk" then Decoded(p.pbk) else if k == "fp" then Decoded(p.fp)
      else if k == "sni" then Decoded(p.sni) else if k == "security" then Decoded(p.security) else None
  {
    var a1 := Opt("security", p.security);
    var a2 := a1 + Opt("sni", p.sni);
    var a3 := a2 + Opt("fp", p.fp);
    var a4 := a3 + Opt("pbk", p.pbk);
    LookupOpt("security", p.security, k);
    LookupAppend(a1, "sni", p.sni, k);
    LookupAppend(a2, "fp", p.fp, k);
    LookupAppend(a3, "pbk", p.pbk, k);
    LookupAppend(a4, "sid", p.sid, k);
  }

  lemma LookupTransport(p: Params, k: string)
    ensures Lookup(TransportPairs(p), k) ==
      if k == "host" then Decoded(p.host) else if k == "path" then Decoded(p.path)
      else if k == "type" then Decoded(p.kind) else None
  {
    var a1 := Opt("type", p.kind);
    LookupOpt("type", p.kind, k);
    LookupAppend(a1, "path", p.path, k);
    LookupAppend(a1 + Opt("path", p.path), "host", p.host, k);
  }

  lemma LookupPairs(p: Params, k: string)
    ensures Lookup(Pairs(p), k) ==
      if Lookup(TransportPairs(p), k).Some? then Lookup(TransportPairs(p), k)
      else if k == "flow" && p.flow.Some? then Decoded(p.flow)
      else Lookup(TlsPairs(p), k)
  {
    LookupConcat(TlsPairs(p) + Opt("flow", p.flow), TransportPairs(p), k);
    LookupAppend(TlsPairs(p), "flow", p.flow, k);
  }

  /** Every parameter comes back, decoded, under its own key, and no other key appears. */
  lemma ParamsBack(p: Params)
    ensures var m := MapOf(Pairs(p));
            && Get(m, "security") == Decoded(p.security) && Get(m, "sni") == Decoded(p.sni)
            && Get(m, "fp") == Decoded(p.fp) && Get(m, "pbk") == Decoded(p.pbk) && Get(m, "sid") == Decoded(p.sid)
            && Get(m, "flow") == Decoded(p.flow) && Get(m, "type") == Decoded(p.kind)
            && Get(m, "path") == Decoded(p.path) && Get(m, "host") == Decoded(p.host)
            && Get(m, "serverName") == None && Get(m, "serviceName") == None
  {
    OneParamBack(p, "security");
    OneParamBack(p, "sni");
    OneParamBack(p, "fp");
    OneParamBack(p, "pbk");
    OneParamBack(p, "sid");
    OneParamBack(p, "flow");
    OneParamBack(p, "type");
    OneParamBack(p, "path");
    OneParamBack(p, "host");
    OneParamBack(p, "serverName");
    OneParamBack(p, "serviceName");
  }

  function Expected(p: Params, k: string): Option<string> {
    if k == "host" then Decoded(p.host) else if k == "path" then Decoded(p.path)
    else if k == "type" then Decoded(p.kind) else if k == "flow" then Decoded(p.flow)
    else if k == "sid" then Decoded(p.sid) else if k == "pbk" then Decoded(p.pbk) else if k == "fp" then Decoded(p.fp)
    else if k == "sni" then Decoded(p.sni) else if k == "security" then Decoded(p.security) else None
  }

  lemma OneParamBack(p: Params, k: string)
    ensures Get(MapOf(Pairs(p)), k) == Expected(p, k)
  {
    LookupIsGet(Pairs(p), k);
    LookupPairs(p, k);
    LookupTls(p, k);
    LookupTransport(p, k);
  }

  predicate AllPlain(kvs: seq<Pair>) {
    forall i :: 0 <= i < |kvs| ==> KeyIsPlain(kvs[i].0) && Without(kvs[i].1, '&')
  }

  lemma OptPlain(k: string, v: Option<string>)
    requires KeyIsPlain(k) && Plain(v)
    ensures AllPlain(Opt(k, v))
  {
  }

  lemma PairsPlain(p: Params)
    requires PlainParams(p)
    ensures AllPlain(Pairs(p))
  {
    OptPlain("security", p.security);
    OptPlain("sni", p.sni);
    OptPlain("fp", p.fp);
    OptPlain("pbk", p.pbk);
    OptPlain("sid", p.sid);
    OptPlain("flow", p.flow);
    OptPlain("type", p.kind);
    OptPlain("path", p.path);
    OptPlain("host", p.host);
    assert AllPlain(TlsPairs(p));
    assert AllPlain(TransportPairs(p));
  }

  // ---------------------------------------------------------------- the head

  /** The query as it stands after the question mark. */
  function AfterMark(query: string): string {
    if query == [] then "" else query[1..]
  }

  predicate HeadIsClean(uuid: string, addr: string) {
    Without(uuid, '@') && Without(addr, '?') && (|addr| > 0 ==> addr[0] != '[')
  }

  lemma PortText(port: nat)
    ensures Without(PrintNat(port), ':') && Without(PrintNat(port), '?') && Without(PrintNat(port), ']')
  {
  }

  lemma HostPortBack(addr: string, port: nat)
    requires port < 65536 && (|addr| > 0 ==> addr[0] != '[')
    ensures ParseHostPort(addr + ":" + PrintNat(port)) == Some((addr, PrintNat(port)))
  {
    PortText(port);
    var s := addr + [':'] + PrintNat(port);
    assert addr + ":" + PrintNat(port) == s;
    assert s[0] == if |addr| > 0 then addr[0] else ':';
    RSplitJoined(addr, ':', PrintNat(port));
  }

  lemma QueryStripped(hostPort: string, query: string)
    requires Without(hostPort, '?') && (query != [] ==> query[0] == '?')
    ensures GetOr(SplitOnce(hostPort + query, '?'), (hostPort + query, "")) == (hostPort, AfterMark(query))
  {
    if query == [] {
      assert hostPort + query == hostPort;
      NothingToSplit(hostPort, '?');
    } else {
      assert hostPort + query == hostPort + ['?'] + query[1..];
      SplitJoined(hostPort, '?', query[1..]);
    }
  }

  lemma CleanHeadBack(uuid: string, addr: string, port: nat, query: string)
    requires port < 65536 && (query != [] ==> query[0] == '?') && HeadIsClean(uuid, addr)
    ensures ParseHead(HeadText(uuid, addr, port, query)) == Some(Head(uuid, addr, port, AfterMark(query)))
  {
    var hostPort := addr + ":" + PrintNat(port);
    assert HeadText(uuid, addr, port, query) == uuid + ['@'] + (hostPort + query);
    SplitJoined(uuid, '@', hostPort + query);
    PortText(port);
    QueryStripped(hostPort, query);
    HostPortBack(addr, port);
    ParsePrinted(port, 65536);
  }

  /** A bracketed host loses its brackets, so it never comes back as it was printed. */
  lemma BracketedHost(addr: string, port: nat)
    requires |addr| > 0 && addr[0] == '['
    ensures var hp := ParseHostPort(addr + ":" + PrintNat(port));
            hp.Some? ==> |hp.value.0| < |addr|
  {
    var s := addr + ":" + PrintNat(port);
    var tail := ":" + PrintNat(port);
    PortText(port);
    assert s[1..] == addr[1..] + tail;
    if Without(addr[1..], ']') {
      assert Without(s[1..], ']');
      NothingToSplit(s[1..], ']');
    } else {
      SplitIsShort(addr[1..], ']', tail);
    }
  }

  lemma HostIsPart(s: string)
    ensures ParseHostPort(s).Some? ==> |ParseHostPort(s).value.0| <= |s|
  {
  }

  lemma MarkedHost(addr: string, port: nat, query: string)
    requires !Without(addr, '?')
    ensures var rest := addr + ":" + PrintNat(port) + query;
            var (hostPort, q) := GetOr(SplitOnce(rest, '?'), (rest, ""));
            ParseHostPort(hostPort).Some? ==> |ParseHostPort(hostPort).value.0| < |addr|
  {
    var rest := addr + ":" + PrintNat(port) + query;
    assert rest == addr + (":" + PrintNat(port) + query);
    SplitIsShort(addr, '?', ":" + PrintNat(port) + query);
    HostIsPart(SplitOnce(rest, '?').value.0);
  }

  lemma CutIdentifier(uuid: string, rest: string)
    requires !Without(uuid, '@')
    ensures ParseHead(uuid + rest).Some? ==> |ParseHead(uuid + rest).value.uuid| < |uuid|
  {
    SplitIsShort(uuid, '@', rest);
  }

  /** With the identifier split off, the host is what the rest gives. */
  lemma HostOfHead(uuid: string, rest: string)
    requires Without(uuid, '@')
    ensures var head, (hostPort, q) := ParseHead(uuid + ['@'] + rest), GetOr(SplitOnce(rest, '?'), (rest, ""));
            head.Some? ==> ParseHostPort(hostPort).Some? && head.value.host == ParseHostPort(hostPort).value.0
  {
    SplitJoined(uuid, '@', rest);
  }

  lemma CutHost(addr: string, port: nat, query: string)
    requires (query != [] ==> query[0] == '?') && !(Without(addr, '?') && (|addr| > 0 ==> addr[0] != '['))
    ensures var rest := addr + ":" + PrintNat(port) + query;
            var (hostPort, q) := GetOr(SplitOnce(rest, '?'), (rest, ""));
            ParseHostPort(hostPort).Some? ==> |ParseHostPort(hostPort).value.0| < |addr|
  {
    if !Without(addr, '?') {
      MarkedHost(addr, port, query);
    } else {
      PortText(port);
      QueryStripped(addr + ":" + PrintNat(port), query);
      BracketedHost(addr, port);
    }
  }

  lemma UncleanHeadLost(uuid: string, addr: string, port: nat, query: string)
    requires port < 65536 && (query != [] ==> query[0] == '?') && !HeadIsClean(uuid, addr)
    ensures var h := ParseHead(HeadText(uuid, addr, port, query));
            h.Some? ==> h.value.uuid != uuid || h.value.host != addr
  {
    var rest := addr + ":" + PrintNat(port) + query;
    var text := HeadText(uuid, addr, port, query);
    if !Without(uuid, '@') {
      assert text == uuid + ("@" + rest);
      CutIdentifier(uuid, "@" + rest);
    } else {
      assert text == uuid + ['@'] + rest;
      HostOfHead(uuid, rest);
      CutHost(addr, port, query);
    }
  }

  // ---------------------------------------------------------------- the whole link

  /** What the parser makes of a printed configuration: the tag, the parameters that were
      printed, and the settings the parser derives from them. */
  function Normal(c: Outbound): Outbound {
    var p := ParamsOf(c);
    Outbound(
      DecodeOr(PercentEncode(c.tag)), "vless",
      Some(GetOr(c.address, "")), Some(GetOr(c.port, 443)), Some(GetOr(c.uuid, "")),
      Decoded(p.sni), Decoded(p.security), Decoded(p.flow), Decoded(p.fp), Decoded(p.pbk), Decoded(p.sid),
      Decoded(p.sni),
      NormalTransport(p), NormalTls(p))
  }

  function NormalTransport(p: Params): Option<Transport> {
    var kind := GetOr(Decoded(p.kind), "tcp");
    if kind == "tcp" || kind == "none" || kind == "" then None
    else Some(Transport(kind, Decoded(p.path), Decoded(p.host), None))
  }

  function NormalTls(p: Params): Option<Tls> {
    var sec := GetOr(Decoded(p.security), "");
    if sec == "" || sec == "none" then None
    else Some(Tls(true, sec, Decoded(p.sni), Decoded(p.fp), Decoded(p.pbk), Decoded(p.sid), None))
  }

  /** The text fields keep clear of the separators, and the port is a port. */
  predicate Printable(c: Outbound) {
    && HeadIsClean(GetOr(c.uuid, ""), GetOr(c.address, ""))
    && GetOr(c.port, 443) < 65536
    && PlainParams(ParamsOf(c))
  }

  function MainText(c: Outbound): string {
    HeadText(GetOr(c.uuid, ""), GetOr(c.address, ""), GetOr(c.port, 443), QueryText(Pairs(ParamsOf(c))))
  }

  lemma TrimUntouched(s: string)
    requires |s| > 0 && !IsSpace(s[0]) && !IsSpace(s[|s| - 1])
    ensures Trim(s) == s
  {
  }

  lemma SchemeStripped(body: string)
    requires |body| > 0 && !IsSpace(body[|body| - 1])
    ensures ParseLink("vless://" + body) == ParseVless(body)
  {
    var s := "vless://" + body;
    assert s[0] == 'v' && s[|s| - 1] == body[|body| - 1] && s[8..] == body;
    TrimUntouched(s);
  }

  lemma BodyLast(main: string, tag: string)
    requires forall i :: 0 <= i < |tag| ==> !IsSpace(tag[i])
    ensures var body := main + "#" + tag; |body| > 0 && !IsSpace(body[|body| - 1])
  {
    var body := main + "#" + tag;
    assert body[|body| - 1] == if tag == [] then '#' else tag[|tag| - 1];
  }

  lemma BodySplit(main: string, tag: string)
    requires Without(tag, '#')
    ensures var head := ParseHead(main);
            ParseVless(main + "#" + tag) ==
            if head.None? then None else Some(Build(tag, head.value, ParseQuery(head.value.query)))
  {
    RSplitJoined(main, '#', tag);
    assert main + "#" + tag == main + ['#'] + tag;
  }

  lemma LinkParts(c: Outbound)
    ensures var head := ParseHead(MainText(c));
            ParseLink(Print(c)) ==
            if head.None? then None
            else Some(Build(PercentEncode(c.tag), head.value, ParseQuery(head.value.query)))
  {
    PercentEncodeIsAscii(c.tag);
    BodyLast(MainText(c), PercentEncode(c.tag));
    SchemeStripped(MainText(c) + "#" + PercentEncode(c.tag));
    BodySplit(MainText(c), PercentEncode(c.tag));
  }

  lemma QueryMapBack(p: Params)
    requires PlainParams(p)
    ensures ParseQuery(AfterMark(QueryText(Pairs(p)))) == MapOf(Pairs(p))
  {
    if Pairs(p) != [] {
      PairsPlain(p);
      QueryBack(Pairs(p));
    }
  }

  lemma NormalIsBuilt(c: Outbound)
    ensures Build(PercentEncode(c.tag), Head(GetOr(c.uuid, ""), GetOr(c.address, ""), GetOr(c.port, 443), ""),
                  MapOf(Pairs(ParamsOf(c)))) == Normal(c)
  {
    ParamsBack(ParamsOf(c));
  }

  /** Whatever the parameters, the link is built from the tag, the head and the query as printed.
      Without separators in the parameters that is the normal form: nothing else is lost. */
  lemma PrintParse(c: Outbound)
    requires HeadIsClean(GetOr(c.uuid, ""), GetOr(c.address, "")) && GetOr(c.port, 443) < 65536
    ensures var query := AfterMark(QueryText(Pairs(ParamsOf(c))));
            var head := Head(GetOr(c.uuid, ""), GetOr(c.address, ""), GetOr(c.port, 443), query);
            ParseLink(Print(c)) == Some(Build(PercentEncode(c.tag), head, ParseQuery(query)))
    ensures PlainParams(ParamsOf(c)) ==> ParseLink(Print(c)) == Some(Normal(c))
  {
    var p := ParamsOf(c);
    LinkParts(c);
    CleanHeadBack(GetOr(c.uuid, ""), GetOr(c.address, ""), GetOr(c.port, 443), QueryText(Pairs(p)));
    if PlainParams(p) {
      QueryMapBack(p);
      NormalIsBuilt(c);
    }
  }

  /** The link gives back the identifier and the address exactly when they keep clear of
      the separators; this includes bare IPv6 addresses with all their colons. */
  lemma IdentityBackExactly(c: Outbound)
    requires GetOr(c.port, 443) < 65536
    ensures var back := ParseLink(Print(c));
            (&& back.Some?
             && back.value.uuid == Some(GetOr(c.uuid, ""))
             && back.value.address == Some(GetOr(c.address, "")))
            <==> HeadIsClean(GetOr(c.uuid, ""), GetOr(c.address, ""))
  {
    var uuid, addr, port := GetOr(c.uuid, ""), GetOr(c.address, ""), GetOr(c.port, 443);
    var query := QueryText(Pairs(ParamsOf(c)));
    LinkParts(c);
    if HeadIsClean(uuid, addr) {
      CleanHeadBack(uuid, addr, port, query);
    } else {
      UncleanHeadLost(uuid, addr, port, query);
    }
  }

  // ---------------------------------------------------------------- canonical configurations

  /** A value that percent decoding leaves as it is. */
  predicate Kept(v: Option<string>) {
    v.Some? ==> Without(v.value, '%') || UrlDecode(v.value).None?
  }

  /** A configuration a link can express: every part that is not printed has the value the
      parser gives it. */
  predicate Canonical(c: Outbound) {
    && Printable(c) && Utf8.IsAscii(c.tag) && c.protocol == "vless"
    && c.address.Some? && c.port.Some? && c.uuid.Some?
    && Kept(c.flow)
    && c.serverName == c.sni
    && (match c.tls
        case None => c.sni == c.security == c.fingerprint == c.publicKey == c.shortId == None
        case Some(t) =>
          && CanonicalTls(t)
          && c.security == Some(t.security) && c.sni == t.sni && c.fingerprint == t.fingerprint
          && c.publicKey == t.publicKey && c.shortId == t.shortId)
    && (c.transport.Some? ==> CanonicalTransport(c.transport.value))
  }

  predicate CanonicalTls(t: Tls) {
    && t.enabled && t.serverName == None && t.security != "" && t.security != "none" && Kept(Some(t.security))
    && Kept(t.sni) && Kept(t.fingerprint) && Kept(t.publicKey) && Kept(t.shortId)
  }

  predicate CanonicalTransport(t: Transport) {
    && t.kind != "tcp" && t.kind != "none" && t.kind != "" && Kept(Some(t.kind))
    && Kept(t.path) && Kept(t.host) && t.serviceName == None
  }

  lemma KeptDecoded(v: Option<string>)
    ensures Decoded(v) == v <==> Kept(v)
  {
    if v.Some? { KeptExactly(v.value); }
  }

  lemma TransportIsNormal(c: Outbound)
    ensures NormalTransport(ParamsOf(c)) == c.transport
            <==> (c.transport.Some? ==> CanonicalTransport(c.transport.value))
  {
    var p := ParamsOf(c);
    KeptDecoded(p.kind);
    KeptDecoded(p.path);
    KeptDecoded(p.host);
  }

  lemma TlsIsNormal(c: Outbound)
    ensures NormalTls(ParamsOf(c)) == c.tls <==> (c.tls.Some? ==> CanonicalTls(c.tls.value))
  {
    var p := ParamsOf(c);
    KeptDecoded(p.security);
    KeptDecoded(p.sni);
    KeptDecoded(p.fp);
    KeptDecoded(p.pbk);
    KeptDecoded(p.sid);
  }

  /** The normal form is the configuration itself exactly on canonical ones. */
  lemma CanonicalIsNormal(c: Outbound)
    requires Printable(c)
    ensures Normal(c) == c <==> Canonical(c)
  {
    TagRoundTrip(c.tag);
    TransportIsNormal(c);
    TlsIsNormal(c);
    KeptDecoded(c.flow);
  }

  /** A printable configuration survives only if its tag is ASCII. */
  lemma NonAsciiTagLost(c: Outbound)
    requires Printable(c) && !Utf8.IsAscii(c.tag)
    ensures ParseLink(Print(c)).Some? && ParseLink(Print(c)).value.tag != c.tag
  {
    PrintParse(c);
    TagRoundTrip(c.tag);
  }
}
