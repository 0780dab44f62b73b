/** Exactly which configurations survive a VLESS link, for every value of every field. */
module VlessExact {
  import opened Basics
  import opened Text
  import opened UrlCoding
  import opened Vless
  import opened VlessLaws

  // ---------------------------------------------------------------- a value with a separator is cut

  /** The map holds a value for `k` that is shorter than `n`. */
  predicate Short(m: map<string, string>, k: string, n: nat) {
    k in m && |m[k]| < n
  }

  /** A piece that writes no value of `n` or more characters under `k`. */
  predicate Harmless(piece: string, k: string, n: nat) {
    var kv := SplitOnce(piece, '=');
    kv.Some? && DecodeOr(kv.value.0) == k ==> |DecodeOr(kv.value.1)| < n
  }

  lemma {:induction false} ShortStays(pieces: seq<string>, i: nat, k: string, n: nat)
    requires i <= |pieces| && Short(AddPieces(pieces[..i]), k, n)
    requires forall j :: i <= j < |pieces| ==> Harmless(pieces[j], k, n)
    ensures Short(AddPieces(pieces), k, n)
    decreases |pieces|
  {
    var last := |pieces| - 1;
    if i == |pieces| {
      assert pieces[..i] == pieces;
    } else {
      assert pieces[..last][..i] == pieces[..i];
      ShortStays(pieces[..last], i, k, n);
      ShortAfter(AddPieces(pieces[..last]), pieces[last], k, n);
    }
  }

  lemma ShortAfter(m: map<string, string>, piece: string, k: string, n: nat)
    requires Short(m, k, n) && Harmless(piece, k, n)
    ensures Short(AddPiece(m, piece), k, n)
  {
  }

  lemma ShortPieceIsHarmless(piece: string, k: string, n: nat)
    requires |piece| <= n
    ensures Harmless(piece, k, n)
  {
    var kv := SplitOnce(piece, '=');
    if kv.Some? { KeptExactly(kv.value.1); }
  }

  lemma OtherKeyIsHarmless(kv: Pair, k: string, n: nat)
    requires KeyIsPlain(kv.0) && kv.0 != k
    ensures Harmless(PairText(kv), k, n)
  {
    SplitJoined(kv.0, '=', kv.1);
    assert PairText(kv) == kv.0 + ['='] + kv.1;
  }

  /** The pieces of a pair whose value holds a separator: the first one carries the key and a
      shorter value, and the others are shorter than the value. */
  lemma CutPair(kv: Pair) returns (first: Pair)
    requires KeyIsPlain(kv.0) && !Without(kv.1, '&')
    ensures first.0 == kv.0 && |first.1| < |kv.1|
    ensures var pieces := Split(PairText(kv), '&');
            pieces[0] == PairText(first) && forall j :: 1 <= j < |pieces| ==> |pieces[j]| < |kv.1|
  {
    var p := Find(kv.1, '&');
    var rest := kv.1[p + 1..];
    first := (kv.0, kv.1[..p]);
    assert PairText(kv) == PairText(first) + ['&'] + rest;
    PairTextPlain(first);
    SplitOff(PairText(first), rest);
  }

  lemma SplitOff(head: string, rest: string)
    requires Without(head, '&')
    ensures var pieces := Split(head + ['&'] + rest, '&');
            pieces[0] == head && forall j :: 1 <= j < |pieces| ==> |pieces[j]| <= |rest|
  {
    var pieces, others := Split(head + ['&'] + rest, '&'), Split(rest, '&');
    SplitConcat(head, '&', rest);
    assert Split(head, '&') == [head];
    forall j | 1 <= j < |pieces|
      ensures |pieces[j]| <= |rest|
    {
      PiecesAreShort(rest, '&', j - 1);
    }
  }

  ghost predicate DistinctKeys(kvs: seq<Pair>) {
    && (forall i :: 0 <= i < |kvs| ==> KeyIsPlain(kvs[i].0))
    && (forall i, j :: 0 <= i < j < |kvs| ==> kvs[i].0 != kvs[j].0)
  }

  lemma OnePiece(pieces: seq<string>, i: nat)
    requires i < |pieces|
    ensures AddPieces(pieces[..i + 1]) == AddPiece(AddPieces(pieces[..i]), pieces[i])
  {
    assert pieces[..i + 1][..i] == pieces[..i];
  }

  lemma WrittenShort(m: map<string, string>, first: Pair)
    requires KeyIsPlain(first.0)
    ensures Short(AddPiece(m, PairText(first)), first.0, |first.1| + 1)
  {
    PieceBack(m, first);
    KeptExactly(first.1);
  }

  lemma AfterFirst(pieces: seq<string>, i: nat, first: Pair)
    requires KeyIsPlain(first.0) && i < |pieces| && pieces[i] == PairText(first)
    ensures Short(AddPieces(pieces[..i + 1]), first.0, |first.1| + 1)
  {
    OnePiece(pieces, i);
    WrittenShort(AddPieces(pieces[..i]), first);
  }

  /** The last parameter whose value holds a separator comes back shorter. */
  lemma LastCutIsShort(kvs: seq<Pair>, i: nat)
    requires DistinctKeys(kvs) && i < |kvs| && !Without(kvs[i].1, '&')
    requires forall j :: i < j < |kvs| ==> Without(kvs[j].1, '&')
    ensures Short(ParseQuery(Join(PairTexts(kvs), '&')), kvs[i].0, |kvs[i].1|)
  {
    var texts, kv := PairTexts(kvs), kvs[i];
    forall j | i < j < |texts|
      ensures Without(texts[j], '&')
    {
      PairTextPlain(kvs[j]);
    }
    var before := SplitAt(texts, '&', i);
    var first := CutPair(kv);
    var mine := Split(texts[i], '&');
    var pieces := before + mine + texts[i + 1..];
    AfterFirst(pieces, |before|, first);
    forall j | |before| + 1 <= j < |pieces|
      ensures Harmless(pieces[j], kv.0, |kv.1|)
    {
      LaterPiece(kvs, i, before, mine, pieces, j);
    }
    ShortStays(pieces, |before| + 1, kv.0, |kv.1|);
    assert PairText(kvs[0]) != [];
    JoinNotEmpty(texts);
  }

  lemma LaterPiece(kvs: seq<Pair>, i: nat, before: seq<string>, mine: seq<string>, pieces: seq<string>, j: nat)
    requires DistinctKeys(kvs) && i < |kvs| && pieces == before + mine + PairTexts(kvs)[i + 1..]
    requires |before| + 1 <= j < |pieces| && forall m :: 1 <= m < |mine| ==> |mine[m]| < |kvs[i].1|
    ensures Harmless(pieces[j], kvs[i].0, |kvs[i].1|)
  {
    var m := j - |before|;
    if m < |mine| {
      assert pieces[j] == mine[m];
      ShortPieceIsHarmless(mine[m], kvs[i].0, |kvs[i].1|);
    } else {
      var other := kvs[i + 1 + (m - |mine|)];
      assert pieces[j] == PairText(other);
      OtherKeyIsHarmless(other, kvs[i].0, |kvs[i].1|);
    }
  }

  lemma {:induction false} LastCut(kvs: seq<Pair>) returns (i: nat)
    requires exists j :: 0 <= j < |kvs| && !Without(kvs[j].1, '&')
    ensures i < |kvs| && !Without(kvs[i].1, '&')
    ensures forall j :: i < j < |kvs| ==> Without(kvs[j].1, '&')
    decreases |kvs|
  {
    var last := |kvs| - 1;
    if Without(kvs[last].1, '&') {
      var j :| 0 <= j < |kvs| && !Without(kvs[j].1, '&');
      assert kvs[..last][j] == kvs[j];
      i := LastCut(kvs[..last]);
      assert forall m :: 0 <= m < last ==> kvs[..last][m] == kvs[m];
    } else {
      i := last;
    }
  }

  lemma {:induction false} GetDistinct(kvs: seq<Pair>, i: nat)
    requires DistinctKeys(kvs) && i < |kvs|
    ensures Get(MapOf(kvs), kvs[i].0) == Some(DecodeOr(kvs[i].1))
    decreases |kvs|
  {
    var last := |kvs| - 1;
    if i < last { GetDistinct(kvs[..last], i); }
  }

  /** Parameters with different keys all come back as they were exactly if none of their values
      holds a separator or is percent code. */
  lemma QueryExactly(kvs: seq<Pair>)
    requires |kvs| > 0 && DistinctKeys(kvs)
    ensures var m := ParseQuery(Join(PairTexts(kvs), '&'));
            (forall i :: 0 <= i < |kvs| ==> Get(m, kvs[i].0) == Some(kvs[i].1))
            <==> (forall i :: 0 <= i < |kvs| ==> Plain(Some(kvs[i].1)) && Kept(Some(kvs[i].1)))
  {
    var m := ParseQuery(Join(PairTexts(kvs), '&'));
    if exists j :: 0 <= j < |kvs| && !Without(kvs[j].1, '&') {
      var i := LastCut(kvs);
      LastCutIsShort(kvs, i);
      assert Get(m, kvs[i].0) != Some(kvs[i].1) && !Plain(Some(kvs[i].1));
    } else {
      QueryBack(kvs);
      forall i | 0 <= i < |kvs|
        ensures Get(m, kvs[i].0) == Some(kvs[i].1) <==> Plain(Some(kvs[i].1)) && Kept(Some(kvs[i].1))
      {
        GetDistinct(kvs, i);
        KeptExactly(kvs[i].1);
      }
    }
  }

  // ---------------------------------------------------------------- the parameters of a link

  ghost predicate DistinctFrom(kvs: seq<Pair>, keys: set<string>) {
    DistinctKeys(kvs) && forall i :: 0 <= i < |kvs| ==> kvs[i].0 in keys
  }

  lemma AddDistinct(kvs: seq<Pair>, keys: set<string>, k: string, v: Option<string>)
    requires DistinctFrom(kvs, keys) && k !in keys && KeyIsPlain(k)
    ensures DistinctFrom(kvs + Opt(k, v), keys + {k})
  {
  }

  lemma PairsAreDistinct(p: Params)
    ensures DistinctKeys(Pairs(p))
  {
    var a := Opt("security", p.security);
    AddDistinct([], {}, "security", p.security);
    assert [] + a == a && {} + {"security"} == {"security"};
    AddDistinct(a, {"security"}, "sni", p.sni);
    var b := a + Opt("sni", p.sni);
    AddDistinct(b, {"security"} + {"sni"}, "fp", p.fp);
    var c := b + Opt("fp", p.fp);
    AddDistinct(c, {"security"} + {"sni"} + {"fp"}, "pbk", p.pbk);
    var d := c + Opt("pbk", p.pbk);
    AddDistinct(d, {"security"} + {"sni"} + {"fp"} + {"pbk"}, "sid", p.sid);
    PairsAreDistinctAfter(p, d + Opt("sid", p.sid), {"security"} + {"sni"} + {"fp"} + {"pbk"} + {"sid"});
  }

  lemma PairsAreDistinctAfter(p: Params, e: seq<Pair>, keys: set<string>)
    requires e == TlsPairs(p) && keys == {"security", "sni", "fp", "pbk", "sid"} && DistinctFrom(e, keys)
    ensures DistinctKeys(Pairs(p))
  {
    AddDistinct(e, keys, "flow", p.flow);
    var f := e + Opt("flow", p.flow);
    AddDistinct(f, keys + {"flow"}, "type", p.kind);
    var g := f + Opt("type", p.kind);
    AddDistinct(g, keys + {"flow"} + {"type"}, "path", p.path);
    var h := g + Opt("path", p.path);
    AddDistinct(h, keys + {"flow"} + {"type"} + {"path"}, "host", p.host);
    assert Pairs(p) == h + Opt("host", p.host);
  }

  /** The text a parameter is printed with. */
  function Printed(p: Params, k: string): Option<string> {
    if k == "host" then p.host else if k == "path" then p.path else if k == "type" then p.kind
    else if k == "flow" then p.flow else if k == "sid" then p.sid else if k == "pbk" then p.pbk
    else if k == "fp" then p.fp else if k == "sni" then p.sni else if k == "security" then p.security else None
  }

  ghost predicate ArePrinted(p: Params, kvs: seq<Pair>) {
    forall i :: 0 <= i < |kvs| ==> Printed(p, kvs[i].0) == Some(kvs[i].1)
  }

  lemma PairsArePrinted(p: Params)
    ensures ArePrinted(p, Pairs(p))
  {
    assert ArePrinted(p, TlsPairs(p));
    assert ArePrinted(p, TransportPairs(p));
  }

  /** A configuration that the parser built has every printed value in the map it was built from. */
  lemma BuiltFrom(c: Outbound, tag: string, h: Head, m: map<string, string>, k: string)
    requires c == Build(tag, h, m)
    ensures Printed(ParamsOf(c), k).Some? ==> Get(m, k) == Printed(ParamsOf(c), k)
  {
  }

  lemma SomePairIsCut(p: Params)
    requires !PlainParams(p)
    ensures exists j :: 0 <= j < |Pairs(p)| && !Without(Pairs(p)[j].1, '&')
  {
    var k :=
      if !Plain(p.security) then "security" else if !Plain(p.sni) then "sni" else if !Plain(p.fp) then "fp"
      else if !Plain(p.pbk) then "pbk" else if !Plain(p.sid) then "sid" else if !Plain(p.flow) then "flow"
      else if !Plain(p.kind) then "type" else if !Plain(p.path) then "path" else "host";
    var j := PairOf(p, k);
  }

  lemma PairOf(p: Params, k: string) returns (j: nat)
    requires Printed(p, k).Some?
    ensures j < |Pairs(p)| && Pairs(p)[j] == (k, Printed(p, k).value)
  {
    if forall i :: 0 <= i < |Pairs(p)| ==> Pairs(p)[i].0 != k {
      NoLookup(Pairs(p), k);
      LookupIsGet(Pairs(p), k);
      OneParamBack(p, k);
    }
    j :| 0 <= j < |Pairs(p)| && Pairs(p)[j].0 == k;
    PairsArePrinted(p);
  }

  lemma {:induction false} NoLookup(kvs: seq<Pair>, k: string)
    requires forall i :: 0 <= i < |kvs| ==> kvs[i].0 != k
    ensures Lookup(kvs, k) == None
    decreases |kvs|
  {
    if kvs != [] { NoLookup(kvs[..|kvs| - 1], k); }
  }

  lemma CutIsLost(c: Outbound, h: Head)
    requires !PlainParams(ParamsOf(c)) && h.query == AfterMark(QueryText(Pairs(ParamsOf(c))))
    ensures Build(PercentEncode(c.tag), h, ParseQuery(h.query)) != c
  {
    var p, m := ParamsOf(c), ParseQuery(h.query);
    var kvs := Pairs(p);
    SomePairIsCut(p);
    PairsAreDistinct(p);
    var i := LastCut(kvs);
    assert h.query == Join(PairTexts(kvs), '&');
    LastCutIsShort(kvs, i);
    PairsArePrinted(p);
    if Build(PercentEncode(c.tag), h, m) == c {
      BuiltFrom(c, PercentEncode(c.tag), h, m, kvs[i].0);
    }
  }

  // ---------------------------------------------------------------- the whole link

  /** Parsing undoes printing on canonical configurations, and on no others. */
  lemma RoundTripExactly(c: Outbound)
    requires GetOr(c.port, 443) < 65536
    ensures ParseLink(Print(c)) == Some(c) <==> Canonical(c)
  {
    var uuid, addr, port := GetOr(c.uuid, ""), GetOr(c.address, ""), GetOr(c.port, 443);
    if !HeadIsClean(uuid, addr) {
      IdentityBackExactly(c);
    } else if PlainParams(ParamsOf(c)) {
      PrintParse(c);
      CanonicalIsNormal(c);
    } else {
      LinkParts(c);
      CleanHeadBack(uuid, addr, port, QueryText(Pairs(ParamsOf(c))));
      CutIsLost(c, ParseHead(MainText(c)).value);
    }
  }
}
