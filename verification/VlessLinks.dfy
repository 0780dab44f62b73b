/** VLESS links that the printer does not make: bracketed hosts, links without a tag, surrounding
    space, and parameters that only the parser knows. */
module VlessLinks {
  import opened Basics
  import opened Text
  import opened UrlCoding
  import opened Vless
  import opened VlessLaws
  import opened VlessExact

  // ---------------------------------------------------------------- the head

  /** A bracketed host comes back without its brackets. */
  lemma BracketedBack(host: string, port: string)
    requires Without(host, ']')
    ensures ParseHostPort("[" + host + "]:" + port) == Some((host, port))
  {
    var s := "[" + host + "]:" + port;
    assert s[1..] == host + [']'] + (":" + port);
    SplitJoined(host, ']', ":" + port);
  }

  lemma BracketedHead(uuid: string, host: string, port: nat, query: string)
    requires Without(uuid, '@') && Without(host, ']') && Without(host, '?') && port < 65536
    ensures var hostPort := "[" + host + "]:" + PrintNat(port);
            ParseHead(uuid + ['@'] + (hostPort + ['?'] + query)) == Some(Head(uuid, host, port, query))
  {
    var hostPort := "[" + host + "]:" + PrintNat(port);
    WithoutMark(host, port);
    BracketedBack(host, PrintNat(port));
    ParsePrinted(port, 65536);
    HeadOf(uuid, hostPort, query);
  }

  lemma WithoutMark(host: string, port: nat)
    requires Without(host, '?')
    ensures Without("[" + host + "]:" + PrintNat(port), '?')
  {
  }

  lemma HeadOf(uuid: string, hostPort: string, query: string)
    requires Without(uuid, '@') && Without(hostPort, '?') && ParseHostPort(hostPort).Some?
    requires ParseUnsigned(ParseHostPort(hostPort).value.1, 65536).Some?
    ensures var (host, port) := ParseHostPort(hostPort).value;
            ParseHead(uuid + ['@'] + (hostPort + ['?'] + query))
            == Some(Head(uuid, host, ParseUnsigned(port, 65536).value, query))
  {
    SplitJoined(uuid, '@', hostPort + ['?'] + query);
    SplitJoined(hostPort, '?', query);
  }

  /** A port may carry a plus sign. */
  lemma PlusSign(digits: string, bound: nat)
    requires digits == [] || digits[0] != '+'
    ensures ParseUnsigned("+" + digits, bound) == ParseUnsigned(digits, bound)
  {
    assert ("+" + digits)[1..] == digits;
  }

  // ---------------------------------------------------------------- tag and space

  /** A link without a tag is named after its scheme. */
  lemma UntaggedLink(main: string)
    requires Without(main, '#') && |main| > 0 && !IsSpace(main[|main| - 1]) && ParseHead(main).Some?
    ensures var h := ParseHead(main).value;
            ParseLink("vless://" + main) == Some(Build("vless", h, ParseQuery(h.query)))
    ensures ParseLink("vless://" + main).value.tag == "vless"
  {
    SchemeStripped(main);
    UntaggedBody(main);
    SchemeIsPlain();
  }

  lemma UntaggedBody(main: string)
    requires Without(main, '#') && ParseHead(main).Some?
    ensures var h := ParseHead(main).value; ParseVless(main) == Some(Build("vless", h, ParseQuery(h.query)))
  {
    NothingToSplit(main, '#');
  }

  lemma SchemeIsPlain()
    ensures DecodeOr("vless") == "vless"
  {
    assert Without("vless", '%');
  }

  lemma {:induction false} StartTrimmed(space: string, s: string)
    requires (forall i :: 0 <= i < |space| ==> IsSpace(space[i])) && |s| > 0 && !IsSpace(s[0])
    ensures TrimStart(space + s) == s
    decreases |space|
  {
    if space == [] {
      assert space + s == s;
    } else {
      StartTrimmed(space[1..], s);
      assert (space + s)[1..] == space[1..] + s;
    }
  }

  lemma {:induction false} EndTrimmed(s: string, space: string)
    requires (forall i :: 0 <= i < |space| ==> IsSpace(space[i])) && |s| > 0 && !IsSpace(s[|s| - 1])
    ensures TrimEnd(s + space) == s
    decreases |space|
  {
    if space == [] {
      assert s + space == s;
    } else {
      var n := |space| - 1;
      EndTrimmed(s, space[..n]);
      assert (s + space)[..|s| + n] == s + space[..n];
    }
  }

  /** Space around a link does not matter. */
  lemma SpaceAround(before: string, link: string, after: string)
    requires forall i :: 0 <= i < |before| ==> IsSpace(before[i])
    requires forall i :: 0 <= i < |after| ==> IsSpace(after[i])
    requires |link| > 0 && !IsSpace(link[0]) && !IsSpace(link[|link| - 1])
    ensures ParseLink(before + link + after) == ParseLink(link)
  {
    Regrouped(before, link, after);
    StartTrimmed(before, link + after);
    EndTrimmed(link, after);
    TrimUntouched(link);
  }

  // ---------------------------------------------------------------- parameters

  /** The value written for `k`. */
  function Value(kvs: seq<Pair>, k: string): Option<string> {
    if kvs == [] then None else if kvs[0].0 == k then Some(kvs[0].1) else Value(kvs[1..], k)
  }

  lemma {:induction false} ValueAt(kvs: seq<Pair>, k: string) returns (i: nat)
    ensures Value(kvs, k).None? ==> forall j :: 0 <= j < |kvs| ==> kvs[j].0 != k
    ensures Value(kvs, k).Some? ==> i < |kvs| && kvs[i] == (k, Value(kvs, k).value)
    decreases |kvs|
  {
    i := 0;
    if kvs != [] && kvs[0].0 != k {
      i := ValueAt(kvs[1..], k);
      i := i + 1;
    }
  }

  ghost predicate Clear(kvs: seq<Pair>) {
    DistinctKeys(kvs) && forall i :: 0 <= i < |kvs| ==> Plain(Some(kvs[i].1)) && Kept(Some(kvs[i].1))
  }

  /** The parser finds for every key the value written for it, and nothing where none was. */
  lemma ValueBack(kvs: seq<Pair>, k: string)
    requires |kvs| > 0 && Clear(kvs)
    ensures Get(ParseQuery(Join(PairTexts(kvs), '&')), k) == Value(kvs, k)
  {
    QueryExactly(kvs);
    QueryBack(kvs);
    var i := ValueAt(kvs, k);
    if Value(kvs, k).None? {
      NoLookup(kvs, k);
      LookupIsGet(kvs, k);
    } else {
      assert Get(ParseQuery(Join(PairTexts(kvs), '&')), kvs[i].0) == Some(kvs[i].1);
    }
  }

  /** What the parameters of any link make of it: the service name counts for grpc only, and the
      server name falls back to the indicated one. */
  lemma ParamsDecide(kvs: seq<Pair>, tag: string, h: Head)
    requires |kvs| > 0 && Clear(kvs)
    ensures var c := Build(tag, h, ParseQuery(Join(PairTexts(kvs), '&')));
            && c.serverName == (if Value(kvs, "serverName").Some? then Value(kvs, "serverName") else Value(kvs, "sni"))
            && (Value(kvs, "type") == Some("grpc") ==>
                  c.transport
                  == Some(Transport("grpc", Value(kvs, "path"), Value(kvs, "host"), Value(kvs, "serviceName"))))
            && (Value(kvs, "type") == Some("ws") ==>
                  c.transport == Some(Transport("ws", Value(kvs, "path"), Value(kvs, "host"), None)))
            && (Value(kvs, "type").None? || Value(kvs, "type").value in {"tcp", "none", ""} ==> c.transport.None?)
            && (Value(kvs, "security").None? || Value(kvs, "security").value in {"none", ""} ==> c.tls.None?)
            && (Value(kvs, "security") == Some("tls") ==>
                  c.tls == Some(Tls(true, "tls", Value(kvs, "sni"), Value(kvs, "fp"), Value(kvs, "pbk"),
                                    Value(kvs, "sid"), Value(kvs, "serverName"))))
  {
    ValueBack(kvs, "serverName");
    ValueBack(kvs, "sni");
    ValueBack(kvs, "type");
    ValueBack(kvs, "path");
    ValueBack(kvs, "host");
    ValueBack(kvs, "serviceName");
    ValueBack(kvs, "security");
    ValueBack(kvs, "fp");
    ValueBack(kvs, "pbk");
    ValueBack(kvs, "sid");
  }

  /** A whole link of this kind, from its text. */
  lemma BracketedLink(uuid: string, host: string, port: nat, kvs: seq<Pair>, tag: string)
    requires Without(uuid, '@') && Without(host, ']') && Without(host, '?') && port < 65536 && |kvs| > 0
    requires Without(tag, '#') && forall i :: 0 <= i < |tag| ==> !IsSpace(tag[i])
    ensures var hostPort, query := "[" + host + "]:" + PrintNat(port), Join(PairTexts(kvs), '&');
            ParseLink("vless://" + (uuid + ['@'] + (hostPort + ['?'] + query) + "#" + tag))
            == Some(Build(tag, Head(uuid, host, port, query), ParseQuery(query)))
  {
    var hostPort, query := "[" + host + "]:" + PrintNat(port), Join(PairTexts(kvs), '&');
    var main := uuid + ['@'] + (hostPort + ['?'] + query);
    BracketedHead(uuid, host, port, query);
    BodyLast(main, tag);
    SchemeStripped(main + "#" + tag);
    BodySplit(main, tag);
  }
}
