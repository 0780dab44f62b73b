/** Reading tag-length-value elements (section 8.1.3 of ITU-T X.690), and the definite
    shortest-form encoding they are read back from. */
module Der {
  import opened Basics
  import opened Utf8

  const LIMIT: nat := 0x1_0000_0000

  function BigEndian(bs: seq<byte>): nat {
    if bs == [] then 0 else 256 * BigEndian(bs[..|bs| - 1]) + bs[|bs| - 1]
  }

  lemma BigEndianSnoc(bs: seq<byte>, b: byte)
    ensures BigEndian(bs + [b]) == 256 * BigEndian(bs) + b
  {
    assert (bs + [b])[..|bs|] == bs;
  }

  /** The length field: its value and its size in bytes. At most four length bytes are read. */
  function ReadLength(data: seq<byte>): Option<(nat, nat)> {
    if data == [] then None
    else if data[0] < 0x80 then Some((data[0], 1))
    else
      var n := data[0] % 0x80;
      if n == 0 || n > 4 || |data| < 1 + n then None
      else Some((BigEndian(data[1..1 + n]), 1 + n))
  }

  method ReadLengthLoop(data: seq<byte>) returns (r: Option<(nat, nat)>)
    ensures r == ReadLength(data)
  {
    if data == [] { return None; }
    var first := data[0];
    if first < 0x80 { return Some((first, 1)); }
    var n := first % 0x80;
    if n == 0 || n > 4 || |data| < 1 + n { return None; }
    var len: nat := 0;
    for i := 0 to n
      invariant len == BigEndian(data[1..1 + i])
    {
      assert data[1..1 + (i + 1)][..i] == data[1..1 + i];
      len := len * 256 + data[1 + i];
    }
    r := Some((len, 1 + n));
  }

  /** One element: the bytes it takes up and its contents. */
  function ReadElement(data: seq<byte>): (r: Option<(nat, seq<byte>)>)
    ensures r.Some? ==> 2 <= r.value.0 <= |data| && |r.value.1| <= r.value.0 - 2
    ensures r.Some? ==> r.value.1 == data[r.value.0 - |r.value.1|..r.value.0]
  {
    if data == [] then None
    else
      var l := ReadLength(data[1..]);
      if l.None? then None
      else
        var (len, header) := l.value;
        if 1 + header + len > |data| then None
        else Some((1 + header + len, data[1 + header..1 + header + len]))
  }

  function ReadSequence(data: seq<byte>): Option<(nat, seq<byte>)> {
    if data == [] || data[0] % 0x20 != 0x10 then None else ReadElement(data)
  }

  // ---------------------------------------------------------------- encoding

  function Digits(n: nat): (bs: seq<byte>)
    ensures BigEndian(bs) == n
    ensures n > 0 ==> |bs| > 0
  {
    if n == 0 then [] else
      var rest := Digits(n / 256);
      assert (rest + [n % 256])[..|rest|] == rest;
      rest + [n % 256]
  }

  lemma DigitCount(n: nat)
    ensures |Digits(n)| <= 4 <==> n < LIMIT
    ensures n < LIMIT ==> |Digits(n)| < 0x80
  {
    assert Digits(n / 256 / 256 / 256 / 256) == [] <==> n < LIMIT;
    assert |Digits(n)| > 0 <==> n > 0;
    DigitStep(n);
    DigitStep(n / 256);
    DigitStep(n / 256 / 256);
    DigitStep(n / 256 / 256 / 256);
  }

  lemma DigitStep(n: nat)
    ensures |Digits(n)| == if n == 0 then 0 else |Digits(n / 256)| + 1
  {
  }

  /** Shortest form. No real length has as many as 127 digits, the most one byte can announce. */
  function EncodeLength(n: nat): seq<byte> {
    if n < 0x80 then [n] else [0x80 + Min(|Digits(n)|, 0x7F)] + Digits(n)
  }

  function Element(tag: byte, content: seq<byte>): seq<byte> {
    [tag] + EncodeLength(|content|) + content
  }

  lemma ReadLong(data: seq<byte>, k: nat)
    requires 1 <= k <= 4 && 1 + k <= |data| && data[0] == 0x80 + k
    ensures ReadLength(data) == Some((BigEndian(data[1..1 + k]), 1 + k))
  {
  }

  lemma ReadTooLong(first: byte, rest: seq<byte>)
    requires 0x84 < first
    ensures ReadLength([first] + rest) == None
  {
  }

  lemma ReadLengthBack(n: nat, rest: seq<byte>)
    ensures n < LIMIT ==> ReadLength(EncodeLength(n) + rest) == Some((n, |EncodeLength(n)|))
    ensures n >= LIMIT ==> ReadLength(EncodeLength(n) + rest) == None
  {
    DigitCount(n);
    if n < 0x80 {
      assert (EncodeLength(n) + rest)[0] == n;
    } else if n < LIMIT {
      var data, k := EncodeLength(n) + rest, |Digits(n)|;
      assert data[1..1 + k] == Digits(n);
      ReadLong(data, k);
    } else {
      var first := 0x80 + Min(|Digits(n)|, 0x7F);
      assert EncodeLength(n) + rest == [first] + (Digits(n) + rest);
      ReadTooLong(first, Digits(n) + rest);
    }
  }

  /** An element is read back from its encoding, whatever follows it, exactly when its
      contents are shorter than 2^32 bytes. */
  lemma ReadElementBack(tag: byte, content: seq<byte>, rest: seq<byte>)
    ensures ReadElement(Element(tag, content) + rest) == Some((|Element(tag, content)|, content)) <==> |content| < LIMIT
  {
    var data := Element(tag, content) + rest;
    assert data[1..] == EncodeLength(|content|) + (content + rest);
    ReadLengthBack(|content|, content + rest);
    var h := |EncodeLength(|content|)|;
    assert data[1 + h..1 + h + |content|] == content;
  }

  /** What remains after the element at the front. */
  function Skip(data: seq<byte>): Option<seq<byte>> {
    var e := ReadElement(data);
    if e.None? then None else Some(data[e.value.0..])
  }

  lemma SkipBack(tag: byte, content: seq<byte>, rest: seq<byte>)
    requires |content| < LIMIT
    ensures Skip(Element(tag, content) + rest) == Some(rest)
  {
    ReadElementBack(tag, content, rest);
    assert (Element(tag, content) + rest)[|Element(tag, content)|..] == rest;
  }

  lemma ReadSequenceBack(tag: byte, content: seq<byte>, rest: seq<byte>)
    ensures ReadSequence(Element(tag, content) + rest) == Some((|Element(tag, content)|, content))
            <==> |content| < LIMIT && tag % 0x20 == 0x10
  {
    ReadElementBack(tag, content, rest);
    assert (Element(tag, content) + rest)[0] == tag;
  }

  /** The examples of section 8.1.3 of ITU-T X.690: 38 in short form, 201 in long form; and 256. */
  lemma KnownLengths()
    ensures ReadLength([38]) == Some((38, 1))
    ensures ReadLength([0x81, 201]) == Some((201, 2))
    ensures ReadLength([0x82, 1, 0]) == Some((256, 3))
  {
    var one, two: seq<byte> := [0x81, 201], [0x82, 1, 0];
    assert one[1..2] == [201] && [201][..0] == [];
    assert BigEndian([201]) == 201;
    assert two[1..3] == [1, 0] && [1, 0][..1] == [1] && [1][..0] == [];
    assert BigEndian([1]) == 1;
    assert BigEndian([1, 0]) == 256;
  }
}
