/** Addresses on the wire as RFC 1928, section 5 writes them: type, address, port. */
module Socks5 {
  import opened Basics
  import opened Utf8
  import opened Der

  datatype Address =
    | V4(octets: seq<byte>, port: nat)
    | V6(octets: seq<byte>, port: nat)
    | Domain(name: string, port: nat)
  {
    /** What the source's types allow. */
    predicate Valid() {
      port < 0x1_0000 && (V4? ==> |octets| == 4) && (V6? ==> |octets| == 16)
    }

    /** A domain has one byte for its length. */
    predicate Fits() { Domain? ==> |Encode(name)| <= 255 }

    function Type(): byte { if V4? then 0x01 else if V6? then 0x04 else 0x03 }

    function Host(): seq<byte> { if Domain? then Encode(name) else octets }

    function Bytes(): seq<byte>
      requires Valid()
    {
      (if Domain? then [Type(), |Host()| % 0x100] else [Type()]) + Host() + PortBytes(port)
    }
  }

  datatype ParseError = Insufficient | NotText | UnknownType

  function PortBytes(port: nat): seq<byte>
    requires port < 0x1_0000
  {
    [port / 0x100, port % 0x100]
  }

  function PortOf(a: byte, b: byte): nat { a * 0x100 + b }

  /** An address from the front of the data, and how many bytes it took. */
  function Parse(data: seq<byte>): Result<(Address, nat), ParseError> {
    if data == [] then Err(Insufficient)
    else if data[0] == 0x01 then
      if |data| < 7 then Err(Insufficient) else Ok((V4(data[1..5], PortOf(data[5], data[6])), 7))
    else if data[0] == 0x03 then
      if |data| < 2 then Err(Insufficient) else ParseDomain(data, data[1])
    else if data[0] == 0x04 then
      if |data| < 19 then Err(Insufficient) else Ok((V6(data[1..17], PortOf(data[17], data[18])), 19))
    else Err(UnknownType)
  }

  function ParseDomain(data: seq<byte>, n: nat): Result<(Address, nat), ParseError> {
    if |data| < 2 + n + 2 then Err(Insufficient)
    else
      var name := Decode(data[2..2 + n]);
      if name.None? then Err(NotText)
      else Ok((Domain(name.value, PortOf(data[2 + n], data[3 + n])), 2 + n + 2))
  }

  /** The handshake's reading: the type, the bytes of the address and the port, read apart. */
  function FromParts(kind: byte, data: seq<byte>, port: nat): Result<Address, ParseError> {
    if kind == 0x01 then
      if |data| < 4 then Err(Insufficient) else Ok(V4(data[..4], port))
    else if kind == 0x03 then
      var name := Decode(data);
      if name.None? then Err(NotText) else Ok(Domain(name.value, port))
    else if kind == 0x04 then
      if |data| < 16 then Err(Insufficient) else Ok(V6(data[..16], port))
    else Err(UnknownType)
  }

  class Buffer {
    var bytes: seq<byte>

    method Put(bs: seq<byte>)
      modifies this
      ensures bytes == old(bytes) + bs
    {
      bytes := bytes + bs;
    }
  }

  method EncodeSocks5(a: Address, buf: Buffer)
    requires a.Valid()
    modifies buf
    ensures buf.bytes == old(buf.bytes) + a.Bytes()
  {
    match a {
      case V4(octets, port) =>
        buf.Put([0x01]);
        buf.Put(octets);
        buf.Put(PortBytes(port));
      case V6(octets, port) =>
        buf.Put([0x04]);
        buf.Put(octets);
        buf.Put(PortBytes(port));
      case Domain(name, port) =>
        var text := Encode(name);
        var length := |text| % 0x100;
        buf.Put([0x03]);
        buf.Put([length]);
        buf.Put(text);
        buf.Put(PortBytes(port));
    }
    assert buf.bytes == old(buf.bytes) + a.Bytes();
  }

  // ---------------------------------------------------------------- one address

  lemma PortBack(port: nat)
    requires port < 0x1_0000
    ensures PortOf(PortBytes(port)[0], PortBytes(port)[1]) == port
  {
  }

  lemma PortForth(a: byte, b: byte)
    ensures PortOf(a, b) < 0x1_0000 && PortBytes(PortOf(a, b)) == [a, b]
  {
  }

  lemma Layout(head: seq<byte>, text: seq<byte>, port: seq<byte>, rest: seq<byte>)
    requires |head| == 2 && |port| == 2
    ensures var data, n := head + text + port + rest, |text|;
            && |data| == n + 4 + |rest| && data[0] == head[0] && data[1] == head[1]
            && data[2..2 + n] == text && data[2 + n] == port[0] && data[3 + n] == port[1]
  {
  }

  lemma DomainLayout(a: Address, rest: seq<byte>)
    requires a.Valid() && a.Domain?
    ensures var data, text := a.Bytes() + rest, a.Host();
            && |data| == 4 + |text| + |rest|
            && data[0] == 0x03 && data[1] == |text| % 0x100
            && data[2..2 + |text|] == text
            && data[2 + |text|] == PortBytes(a.port)[0] && data[3 + |text|] == PortBytes(a.port)[1]
  {
    Layout([a.Type(), |a.Host()| % 0x100], a.Host(), PortBytes(a.port), rest);
  }

  lemma ParsesAsDomain(data: seq<byte>, text: seq<byte>, a: Address)
    requires a.Valid() && a.Domain? && Decode(text) == Some(a.name)
    requires |text| + 4 <= |data| && data[0] == 0x03 && data[1] == |text| && data[2..2 + |text|] == text
    requires data[2 + |text|] == PortBytes(a.port)[0] && data[3 + |text|] == PortBytes(a.port)[1]
    ensures Parse(data) == Ok((a, |text| + 4))
  {
    PortBack(a.port);
  }

  lemma DomainBack(a: Address, rest: seq<byte>)
    requires a.Valid() && a.Domain? && a.Fits()
    ensures Parse(a.Bytes() + rest) == Ok((a, |a.Bytes()|))
  {
    var data, text := a.Bytes() + rest, a.Host();
    DomainLayout(a, rest);
    assert Decode(text) == Some(a.name) by { DecodeEncode(a.name); }
    ParsesAsDomain(data, text, a);
  }

  lemma NumericBack(a: Address, rest: seq<byte>)
    requires a.Valid() && !a.Domain?
    ensures Parse(a.Bytes() + rest) == Ok((a, |a.Bytes()|))
  {
    var data := a.Bytes() + rest;
    assert data[1..1 + |a.octets|] == a.octets;
    PortBack(a.port);
  }

  /** Every address is read back from its bytes, whatever follows them, except a domain of
      more than 255 bytes, which never is. */
  lemma RoundTrip(a: Address, rest: seq<byte>)
    requires a.Valid()
    ensures Parse(a.Bytes() + rest) == Ok((a, |a.Bytes()|)) <==> a.Fits()
  {
    if a.Domain? {
      DomainLayout(a, rest);
      if a.Fits() { DomainBack(a, rest); }
    } else {
      NumericBack(a, rest);
    }
  }

  lemma Reassembled(data: seq<byte>, n: nat)
    requires n + 4 <= |data|
    ensures data[..n + 4] == [data[0], data[1]] + data[2..2 + n] + [data[n + 2], data[n + 3]]
  {
  }

  lemma DomainBytes(a: Address, text: seq<byte>, high: byte, low: byte)
    requires a.Domain? && a.Host() == text && |text| <= 255 && a.port == PortOf(high, low)
    ensures a.Valid() && a.Fits() && a.Bytes() == [0x03, |text|] + text + [high, low]
  {
    PortForth(high, low);
  }

  lemma OnlyWrittenDomain(data: seq<byte>, n: nat)
    requires 2 <= |data| && data[0] == 0x03 && data[1] == n && ParseDomain(data, n).Ok?
    ensures var a := ParseDomain(data, n).value.0;
            a.Valid() && a.Fits() && data[..n + 4] == a.Bytes()
  {
    var a, text := ParseDomain(data, n).value.0, data[2..2 + n];
    EncodeDecode(text);
    DomainBytes(a, text, data[n + 2], data[n + 3]);
    Reassembled(data, n);
  }

  lemma OnlyWrittenNumeric(data: seq<byte>, n: nat)
    requires n < |data| - 2 && ((data[0] == 0x01 && n == 4) || (data[0] == 0x04 && n == 16))
    ensures var port := PortOf(data[n + 1], data[n + 2]);
            var a := if n == 4 then V4(data[1..n + 1], port) else V6(data[1..n + 1], port);
            a.Valid() && data[..n + 3] == a.Bytes()
  {
    PortForth(data[n + 1], data[n + 2]);
    assert data[..n + 3] == [data[0]] + data[1..n + 1] + [data[n + 1], data[n + 2]];
  }

  /** Whatever is read was written: the bytes taken are those of the address returned. */
  lemma OnlyWritten(data: seq<byte>)
    requires Parse(data).Ok?
    ensures var (a, n) := Parse(data).value;
            a.Valid() && a.Fits() && n <= |data| && data[..n] == a.Bytes()
  {
    if data[0] == 0x03 {
      OnlyWrittenDomain(data, data[1]);
    } else if data[0] == 0x01 {
      OnlyWrittenNumeric(data, 4);
    } else {
      OnlyWrittenNumeric(data, 16);
    }
  }

  /** A parse succeeds exactly if the data begins with the encoding of some address. */
  lemma ParsesExactly(data: seq<byte>)
    ensures Parse(data).Ok? <==> exists a: Address :: a.Valid() && a.Fits() && a.Bytes() <= data
  {
    if Parse(data).Ok? {
      OnlyWritten(data);
      assert Parse(data).value.0.Bytes() <= data;
    }
    forall a: Address | a.Valid() && a.Fits() && a.Bytes() <= data
      ensures Parse(data).Ok?
    {
      var rest := data[|a.Bytes()|..];
      assert data == a.Bytes() + rest;
      RoundTrip(a, rest);
    }
  }

  /** Which data draws which refusal: a type that is none of the three, a complete domain that is
      no text, and nothing else but data that ends too early. */
  lemma RefusalsExactly(data: seq<byte>)
    ensures Parse(data) == Err(UnknownType) <==> data != [] && data[0] != 0x01 && data[0] != 0x03 && data[0] != 0x04
    ensures Parse(data) == Err(NotText)
            <==> && |data| >= 2 && data[0] == 0x03 && |data| - 4 >= data[1]
                 && forall s: string :: Encode(s) != data[2..2 + data[1]]
  {
    if |data| >= 2 && |data| - 4 >= data[1] {
      RefusedExactly(data[2..2 + data[1]]);
    }
  }

  lemma SameStart(a: Address, restA: seq<byte>, b: Address, restB: seq<byte>)
    requires a.Valid() && a.Fits() && b.Valid() && b.Fits()
    requires a.Bytes() + restA == b.Bytes() + restB
    ensures a == b && restA == restB
  {
    RoundTrip(a, restA);
    RoundTrip(b, restB);
    assert (a.Bytes() + restA)[|a.Bytes()|..] == restA;
    assert (b.Bytes() + restB)[|b.Bytes()|..] == restB;
  }

  lemma Rest(a: seq<byte>, b: seq<byte>) returns (rest: seq<byte>)
    requires a <= b
    ensures a + rest == b == b + []
  {
    rest := b[|a|..];
  }

  /** No address begins another. */
  lemma PrefixFree(a: Address, b: Address)
    requires a.Valid() && a.Fits() && b.Valid() && b.Fits()
    requires a.Bytes() <= b.Bytes()
    ensures a == b
  {
    var rest := Rest(a.Bytes(), b.Bytes());
    SameStart(a, rest, b, []);
  }

  lemma ShortDomain(data: seq<byte>)
    requires |data| > 0 ==> data[0] == 0x03
    requires |data| > 1 ==> |data| - 4 < data[1]
    ensures Parse(data) == Err(Insufficient)
  {
  }

  /** An address cut short is refused, and refused for that reason. */
  lemma CutAddress(a: Address, k: nat)
    requires a.Valid() && a.Fits() && k < |a.Bytes()|
    ensures Parse(a.Bytes()[..k]) == Err(Insufficient)
  {
    var data := a.Bytes()[..k];
    assert k > 0 ==> data[0] == a.Type();
    if a.Domain? {
      var n := |a.Host()|;
      assert k > 1 ==> data[1] == n && k < n + 4;
      ShortDomain(data);
    }
  }

  /** The two readers agree: reading the parts separately gives what reading the whole gives. */
  lemma ReadersAgree(data: seq<byte>)
    requires Parse(data).Ok?
    ensures var (a, n) := Parse(data).value;
            FromParts(data[0], data[if a.Domain? then 2 else 1..n - 2], a.port) == Ok(a)
  {
    var (a, n) := Parse(data).value;
    if a.Domain? {
      assert data[2..n - 2] == data[2..2 + data[1]];
    } else {
      assert data[1..n - 2][..|a.octets|] == a.octets;
    }
  }

  /** And back: parts of the length their type calls for give an address, and the parser reads
      that address from its encoding with the same parts. */
  lemma PartsParsed(kind: byte, data: seq<byte>, port: nat, rest: seq<byte>)
    requires port < 0x1_0000 && FromParts(kind, data, port).Ok?
    requires if kind == 0x03 then |data| <= 255 else |data| == if kind == 0x01 then 4 else 16
    ensures var a := FromParts(kind, data, port).value;
            && a.Valid() && a.Type() == kind && a.Host() == data && a.port == port
            && Parse(a.Bytes() + rest) == Ok((a, |a.Bytes()|))
  {
    var a := FromParts(kind, data, port).value;
    if kind == 0x03 {
      EncodeDecode(data);
    } else {
      assert data[..|data|] == data;
    }
    RoundTrip(a, rest);
  }

  // ---------------------------------------------------------------- addresses in a row

  function BytesOf(addresses: seq<Address>): seq<byte>
    requires forall i :: 0 <= i < |addresses| ==> addresses[i].Valid()
  {
    if addresses == [] then [] else addresses[0].Bytes() + BytesOf(addresses[1..])
  }

  predicate AllFit(addresses: seq<Address>) {
    forall i :: 0 <= i < |addresses| ==> addresses[i].Valid() && addresses[i].Fits()
  }

  /** Addresses written one after another can be told apart again: the bytes determine how
      many there are and what each is. */
  lemma {:induction false} RowsReadOneWay(xs: seq<Address>, ys: seq<Address>)
    requires AllFit(xs) && AllFit(ys) && BytesOf(xs) == BytesOf(ys)
    ensures xs == ys
    decreases |xs|
  {
    if xs != [] && ys != [] {
      SameStart(xs[0], BytesOf(xs[1..]), ys[0], BytesOf(ys[1..]));
      RowsReadOneWay(xs[1..], ys[1..]);
      assert xs == [xs[0]] + xs[1..] && ys == [ys[0]] + ys[1..];
    }
  }

  // ---------------------------------------------------------------- the wire format

  /** The port is in network order. */
  lemma PortIsBigEndian(a: byte, b: byte)
    ensures PortOf(a, b) == BigEndian([a, b])
  {
    BigEndianSnoc([], a);
    BigEndianSnoc([a], b);
    assert [] + [a] == [a] && [a] + [b] == [a, b];
  }

  /** The three types with their bytes: 127.0.0.1, any IPv6 address and a.b, at port 443. */
  lemma KnownAddresses(v6: seq<byte>)
    requires |v6| == 16
    ensures V4([127, 0, 0, 1], 443).Bytes() == [0x01, 127, 0, 0, 1, 0x01, 0xBB]
    ensures V6(v6, 443).Bytes() == [0x04] + v6 + [0x01, 0xBB]
    ensures Domain("a.b", 443).Bytes() == [0x03, 3, 0x61, 0x2E, 0x62, 0x01, 0xBB]
  {
    AsciiBytes("a.b");
    assert Encode("a.b") == [0x61, 0x2E, 0x62];
  }
}
