/** Percent coding of share links (section 2.1 of RFC 3986), as the link printer and parser do it. */
module UrlCoding {
  import opened Basics
  import opened Text
  import opened Utf8

  predicate IsUnreserved(c: char) {
    'A' <= c <= 'Z' || 'a' <= c <= 'z' || '0' <= c <= '9' || c in {'-', '_', '.', '~'}
  }

  function HexDigit(n: nat): char
    requires n < 16
  {
    if n < 10 then '0' + n as char else 'A' + (n - 10) as char
  }

  /** The printer keeps only the low byte of a character's code. */
  function PercentChar(c: char): string {
    if IsUnreserved(c) then [c]
    else
      var b := c as int % 256;
      ['%', HexDigit(b / 16), HexDigit(b % 16)]
  }

  function PercentEncode(s: string): string {
    if s == [] then [] else PercentChar(s[0]) + PercentEncode(s[1..])
  }

  function HexValue(b: byte): Option<nat> {
    if '0' as int <= b <= '9' as int then Some(b - '0' as int)
    else if 'A' as int <= b <= 'F' as int then Some(b - 'A' as int + 10)
    else if 'a' as int <= b <= 'f' as int then Some(b - 'a' as int + 10)
    else None
  }

  /** `u8::from_str_radix` of two characters, which accepts a leading plus sign. */
  function HexPair(hi: byte, lo: byte): Option<byte> {
    var h := if hi == '+' as int then Some(0) else HexValue(hi);
    var l := HexValue(lo);
    if h.None? || l.None? then None else Some(16 * h.value + l.value)
  }

  function DecodeBytes(bs: seq<byte>): Option<seq<byte>> {
    if bs == [] then Some([])
    else if bs[0] == '%' as int then
      if |bs| < 3 || HexPair(bs[1], bs[2]).None? then None
      else Prepend(HexPair(bs[1], bs[2]).value, DecodeBytes(bs[3..]))
    else Prepend(if bs[0] == '+' as int then ' ' as int else bs[0], DecodeBytes(bs[1..]))
  }

  function Prepend(b: byte, rest: Option<seq<byte>>): Option<seq<byte>> {
    if rest.None? then None else Some([b] + rest.value)
  }

  /** A text without a percent sign is returned as it is, plus signs included. */
  function UrlDecode(s: string): Option<string> {
    if Without(s, '%') then Some(s)
    else
      var bs := DecodeBytes(Encode(s));
      if bs.None? then None else Decode(bs.value)
  }

  /** The parser falls back to the raw text. */
  function DecodeOr(s: string): string {
    var d := UrlDecode(s);
    if d.Some? then d.value else s
  }

  /** The loop over the bytes. */
  method DecodeBytesLoop(bs: seq<byte>) returns (r: Option<seq<byte>>)
    ensures r == DecodeBytes(bs)
  {
    var done: seq<byte> := [];
    var i := 0;
    assert bs[0..] == bs;
    AppendPrepend(done, 0, DecodeBytes(bs));
    while i < |bs|
      invariant i <= |bs|
      invariant DecodeBytes(bs) == AppendTo(done, DecodeBytes(bs[i..]))
    {
      var b := bs[i];
      if b == '%' as int {
        if i + 2 >= |bs| { return None; }
        var pair := HexPair(bs[i + 1], bs[i + 2]);
        if pair.None? { return None; }
        assert bs[i..][3..] == bs[i + 3..];
        AppendPrepend(done, pair.value, DecodeBytes(bs[i + 3..]));
        done := done + [pair.value];
        i := i + 3;
      } else {
        assert bs[i..][1..] == bs[i + 1..];
        var plain := if b == '+' as int then ' ' as int else b;
        AppendPrepend(done, plain, DecodeBytes(bs[i + 1..]));
        done := done + [plain];
        i := i + 1;
      }
    }
    assert bs[i..] == [] && done + [] == done;
    r := Some(done);
  }

  lemma AppendPrepend(done: seq<byte>, b: byte, rest: Option<seq<byte>>)
    ensures AppendTo(done, Prepend(b, rest)) == AppendTo(done + [b], rest)
    ensures AppendTo([], rest) == rest
  {
    if rest.Some? {
      assert done + ([b] + rest.value) == done + [b] + rest.value;
      assert [] + rest.value == rest.value;
    }
  }

  ghost function AppendTo(done: seq<byte>, rest: Option<seq<byte>>): Option<seq<byte>> {
    if rest.None? then None else Some(done + rest.value)
  }

  // ---------------------------------------------------------------- the tag round trip

  function LowBytes(s: string): seq<byte> {
    if s == [] then [] else [s[0] as int % 256] + LowBytes(s[1..])
  }

  lemma PercentCharIsAscii(c: char)
    ensures IsAscii(PercentChar(c)) && |PercentChar(c)| > 0
    ensures Without(PercentChar(c), '#') && Without(PercentChar(c), '+')
    ensures Without(PercentChar(c), '%') <==> IsUnreserved(c)
    ensures forall i :: 0 <= i < |PercentChar(c)| ==> !IsSpace(PercentChar(c)[i])
  {
    if !IsUnreserved(c) {
      assert PercentChar(c)[0] == '%';
    }
  }

  lemma {:induction false} PercentEncodeIsAscii(s: string)
    ensures IsAscii(PercentEncode(s)) && Without(PercentEncode(s), '#')
    ensures forall i :: 0 <= i < |PercentEncode(s)| ==> !IsSpace(PercentEncode(s)[i])
    decreases |s|
  {
    if s != [] {
      PercentCharIsAscii(s[0]);
      PercentEncodeIsAscii(s[1..]);
    }
  }

  lemma {:induction false} UnreservedIsKept(s: string)
    requires Without(PercentEncode(s), '%')
    ensures PercentEncode(s) == s && IsAscii(s)
    decreases |s|
  {
    if s != [] {
      var head, rest := PercentChar(s[0]), PercentEncode(s[1..]);
      PercentCharIsAscii(s[0]);
      assert Without(head, '%') by {
        assert forall i :: 0 <= i < |head| ==> (head + rest)[i] == head[i];
      }
      assert Without(rest, '%') by {
        assert forall i :: 0 <= i < |rest| ==> (head + rest)[|head| + i] == rest[i];
      }
      UnreservedIsKept(s[1..]);
      assert s == [s[0]] + s[1..];
      forall i | 0 <= i < |s|
        ensures s[i] as int < 0x80
      {
        if i > 0 { assert s[i] == s[1..][i - 1]; }
      }
    }
  }

  lemma PercentCharDecodes(c: char, rest: seq<byte>)
    ensures DecodeBytes(Encode(PercentChar(c)) + rest) == Prepend(c as int % 256, DecodeBytes(rest))
  {
    var b, style := c as int % 256, if IsUnreserved(c) then Raw else Pair(true, true);
    PercentCharIsWritten(c);
    ByteBack(b, style, rest);
  }

  lemma PercentCharIsWritten(c: char)
    ensures var b, style := c as int % 256, if IsUnreserved(c) then Raw else Pair(true, true);
            Fits(b, style) && Encode(PercentChar(c)) == WrittenByte(b, style)
  {
    var text := PercentChar(c);
    PercentCharIsAscii(c);
    AsciiBytes(text);
    if !IsUnreserved(c) {
      var b := c as int % 256;
      HexDigitIsByte(b / 16);
      HexDigitIsByte(b % 16);
      assert Encode(text) == [text[0] as int, text[1] as int, text[2] as int];
    }
  }

  lemma HexDigitIsByte(n: nat)
    requires n < 16
    ensures HexDigit(n) as int == HexByte(n, true)
  {
  }

  /** Whatever the text, decoding its percent code gives the low byte of every character. */
  lemma {:induction false} DecodesToLowBytes(s: string)
    ensures DecodeBytes(Encode(PercentEncode(s))) == Some(LowBytes(s))
    ensures |LowBytes(s)| == |s|
    decreases |s|
  {
    if s != [] {
      DecodesToLowBytes(s[1..]);
      EncodeConcat(PercentChar(s[0]), PercentEncode(s[1..]));
      PercentCharDecodes(s[0], Encode(PercentEncode(s[1..])));
    }
  }

  lemma {:induction false} AsciiLowBytes(s: string)
    requires IsAscii(s)
    ensures LowBytes(s) == Encode(s)
    decreases |s|
  {
    if s != [] { AsciiLowBytes(s[1..]); }
  }

  /** A tag survives printing and parsing exactly when it is ASCII. */
  lemma TagRoundTrip(tag: string)
    ensures DecodeOr(PercentEncode(tag)) == tag <==> IsAscii(tag)
  {
    var e := PercentEncode(tag);
    PercentEncodeIsAscii(tag);
    DecodesToLowBytes(tag);
    if Without(e, '%') {
      UnreservedIsKept(tag);
    } else if IsAscii(tag) {
      AsciiLowBytes(tag);
      DecodeEncode(tag);
    } else if UrlDecode(e) == Some(tag) {
      EncodeDecode(LowBytes(tag));
      LengthIsAscii(tag);
    }
  }

  // ---------------------------------------------------------------- decoding shortens

  /** The bytes at which a character starts. */
  function Leads(bs: seq<byte>): nat {
    if bs == [] then 0 else (if IsTail(bs[0]) then 0 else 1) + Leads(bs[1..])
  }

  lemma {:induction false} LeadsConcat(a: seq<byte>, b: seq<byte>)
    ensures Leads(a + b) == Leads(a) + Leads(b)
    decreases |a|
  {
    if a == [] {
      assert a + b == b;
    } else {
      LeadsConcat(a[1..], b);
      assert (a + b)[1..] == a[1..] + b;
    }
  }

  lemma {:induction false} TailsOnly(bs: seq<byte>)
    requires forall i :: 0 <= i < |bs| ==> IsTail(bs[i])
    ensures Leads(bs) == 0
    decreases |bs|
  {
    if bs != [] { TailsOnly(bs[1..]); }
  }

  lemma OneLead(c: char)
    ensures Leads(EncodeChar(c)) == 1
  {
    TailsOnly(EncodeChar(c)[1..]);
  }

  /** A text has as many characters as its bytes have starts. */
  lemma {:induction false} LeadsAreLength(s: string)
    ensures Leads(Encode(s)) == |s|
    decreases |s|
  {
    if s != [] {
      OneLead(s[0]);
      LeadsAreLength(s[1..]);
      LeadsConcat(EncodeChar(s[0]), Encode(s[1..]));
    }
  }

  lemma {:induction false} DecodingDropsLeads(bs: seq<byte>)
    requires DecodeBytes(bs).Some?
    ensures Leads(DecodeBytes(bs).value) <= Leads(bs)
    ensures '%' as int in bs ==> Leads(DecodeBytes(bs).value) < Leads(bs)
    decreases |bs|
  {
    if bs != [] {
      if bs[0] == '%' as int {
        var rest := bs[3..];
        DecodingDropsLeads(rest);
        assert bs[1..][1..] == bs[2..] && bs[2..][1..] == rest;
        assert !IsTail(bs[1]) && !IsTail(bs[2]);
        assert Leads(bs) == 3 + Leads(rest);
        LeadsPrepended(HexPair(bs[1], bs[2]).value, DecodeBytes(rest).value);
      } else {
        DecodingDropsLeads(bs[1..]);
        var b := if bs[0] == '+' as int then ' ' as int else bs[0];
        LeadsPrepended(b, DecodeBytes(bs[1..]).value);
      }
    }
  }

  lemma LeadsPrepended(b: byte, bs: seq<byte>)
    ensures Leads([b] + bs) == (if IsTail(b) then 0 else 1) + Leads(bs)
  {
    assert ([b] + bs)[1..] == bs;
  }

  lemma {:induction false} PercentIsEncoded(s: string)
    requires !Without(s, '%')
    ensures '%' as int in Encode(s)
    decreases |s|
  {
    if s[0] == '%' {
      assert Encode(s)[0] == '%' as int;
    } else {
      PercentIsEncoded(s[1..]);
    }
  }

  /** A text in which percent signs are decoded comes out shorter. */
  lemma DecodingShortens(s: string)
    requires !Without(s, '%') && UrlDecode(s).Some?
    ensures |UrlDecode(s).value| < |s|
  {
    var bs, t := DecodeBytes(Encode(s)).value, UrlDecode(s).value;
    PercentIsEncoded(s);
    DecodingDropsLeads(Encode(s));
    EncodeDecode(bs);
    LeadsAreLength(s);
    LeadsAreLength(t);
  }

  /** Decoding leaves a text as it is exactly if it has no percent sign or is not percent code. */
  lemma KeptExactly(s: string)
    ensures |DecodeOr(s)| <= |s|
    ensures DecodeOr(s) == s <==> Without(s, '%') || UrlDecode(s).None?
  {
    if !Without(s, '%') && UrlDecode(s).Some? {
      DecodingShortens(s);
    }
  }

  // ---------------------------------------------------------------- every way to write a byte

  /** How a byte is written: as it is, as a plus sign, or as a percent pair with the letters of
      each digit in either case, or with a sign for a leading zero. */
  datatype Style = Raw | Plus | Pair(bigHigh: bool, bigLow: bool) | Signed(bigLow: bool)

  predicate Fits(b: byte, style: Style) {
    match style
    case Raw => b != '%' as int && b != '+' as int
    case Plus => b == ' ' as int
    case Pair(_, _) => true
    case Signed(_) => b < 16
  }

  function HexByte(n: nat, big: bool): byte
    requires n < 16
  {
    if n < 10 then '0' as int + n else if big then 'A' as int + (n - 10) else 'a' as int + (n - 10)
  }

  function WrittenByte(b: byte, style: Style): seq<byte>
    requires Fits(b, style)
  {
    match style
    case Raw => [b]
    case Plus => ['+' as int]
    case Pair(high, low) => ['%' as int, HexByte(b / 16, high), HexByte(b % 16, low)]
    case Signed(low) => ['%' as int, '+' as int, HexByte(b, low)]
  }

  ghost predicate AllFit(bs: seq<byte>, styles: seq<Style>) {
    |bs| == |styles| && forall i :: 0 <= i < |bs| ==> Fits(bs[i], styles[i])
  }

  function Written(bs: seq<byte>, styles: seq<Style>): seq<byte>
    requires |bs| == |styles| && forall i :: 0 <= i < |bs| ==> Fits(bs[i], styles[i])
  {
    if bs == [] then [] else WrittenByte(bs[0], styles[0]) + Written(bs[1..], styles[1..])
  }

  lemma HexByteBack(n: nat, big: bool)
    requires n < 16
    ensures HexValue(HexByte(n, big)) == Some(n) && HexByte(n, big) != '+' as int
  {
  }

  lemma ByteBack(b: byte, style: Style, rest: seq<byte>)
    requires Fits(b, style)
    ensures DecodeBytes(WrittenByte(b, style) + rest) == Prepend(b, DecodeBytes(rest))
  {
    var data := WrittenByte(b, style) + rest;
    match style
    case Raw => assert data[1..] == rest;
    case Plus => assert data[1..] == rest;
    case Pair(high, low) =>
      HexByteBack(b / 16, high);
      HexByteBack(b % 16, low);
      assert data[3..] == rest;
    case Signed(low) =>
      HexByteBack(b, low);
      assert data[3..] == rest;
  }

  lemma OneMoreBack(b: byte, style: Style, rest: seq<byte>, tail: seq<byte>)
    requires Fits(b, style) && DecodeBytes(rest) == Some(tail)
    ensures DecodeBytes(WrittenByte(b, style) + rest) == Some([b] + tail)
  {
    ByteBack(b, style, rest);
  }

  lemma {:induction false} WrittenBack(bs: seq<byte>, styles: seq<Style>)
    requires AllFit(bs, styles)
    ensures DecodeBytes(Written(bs, styles)) == Some(bs)
    decreases |bs|
  {
    if bs != [] {
      var rest := Written(bs[1..], styles[1..]);
      assert DecodeBytes(rest) == Some(bs[1..]) by { WrittenBack(bs[1..], styles[1..]); }
      OneMoreBack(bs[0], styles[0], rest, bs[1..]);
      assert [bs[0]] + bs[1..] == bs;
    }
  }

  /** Percent code is read back however each byte of the text was written. */
  lemma AnyStyleBack(text: string, styles: seq<Style>, code: string)
    requires AllFit(Encode(text), styles) && Encode(code) == Written(Encode(text), styles) && !Without(code, '%')
    ensures UrlDecode(code) == Some(text)
  {
    WrittenBack(Encode(text), styles);
    DecodeEncode(text);
  }

  /** The percent code of a slash, and the byte it stands for. */
  lemma KnownPair()
    ensures PercentChar('/') == "%2F" && HexPair('2' as int, 'F' as int) == Some('/' as int)
  {
  }
}
