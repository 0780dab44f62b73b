/** UTF-8, as Rust strings are stored and as `String::from_utf8` accepts it: shortest
    form only, no surrogates, nothing above U+10FFFF. */
module Utf8 {
  import opened Basics

  type byte = n: int | 0 <= n < 256

  function EncodeChar(c: char): (bs: seq<byte>)
    ensures 1 <= |bs| <= 4
    ensures |bs| == 1 <==> c as int < 0x80
  {
    var n := c as int;
    if n < 0x80 then [n]
    else if n < 0x800 then [0xC0 + n / 0x40, 0x80 + n % 0x40]
    else if n < 0x1_0000 then [0xE0 + n / 0x40 / 0x40, 0x80 + n / 0x40 % 0x40, 0x80 + n % 0x40]
    else [0xF0 + n / 0x40 / 0x40 / 0x40, 0x80 + n / 0x40 / 0x40 % 0x40, 0x80 + n / 0x40 % 0x40, 0x80 + n % 0x40]
  }

  function Encode(s: string): seq<byte> {
    if s == [] then [] else EncodeChar(s[0]) + Encode(s[1..])
  }

  predicate IsTail(b: byte) { 0x80 <= b < 0xC0 }

  function Join2(a: int, b: int): int { a * 0x40 + b }

  function Join3(a: int, b: int, c: int): int { Join2(Join2(a, b), c) }

  function Join4(a: int, b: int, c: int, d: int): int { Join2(Join3(a, b, c), d) }

  /** The code point at the front of `bs` and its length in bytes. */
  function FirstCode(bs: seq<byte>): Option<(int, nat)> {
    if |bs| >= 1 && bs[0] < 0x80 then Some((bs[0], 1))
    else if |bs| >= 2 && 0xC2 <= bs[0] < 0xE0 && IsTail(bs[1]) then
      Some((Join2(bs[0] - 0xC0, bs[1] - 0x80), 2))
    else if |bs| >= 3 && 0xE0 <= bs[0] < 0xF0 && IsTail(bs[1]) && IsTail(bs[2]) then
      var n := Join3(bs[0] - 0xE0, bs[1] - 0x80, bs[2] - 0x80);
      if 0x800 <= n < 0xD800 || 0xE000 <= n then Some((n, 3)) else None
    else if |bs| >= 4 && 0xF0 <= bs[0] < 0xF5 && IsTail(bs[1]) && IsTail(bs[2]) && IsTail(bs[3]) then
      var n := Join4(bs[0] - 0xF0, bs[1] - 0x80, bs[2] - 0x80, bs[3] - 0x80);
      if 0x1_0000 <= n < 0x11_0000 then Some((n, 4)) else None
    else None
  }

  lemma FirstCodeIsScalar(bs: seq<byte>)
    requires FirstCode(bs).Some?
    ensures var (n, len) := FirstCode(bs).value;
            1 <= len <= |bs| && (0 <= n < 0xD800 || 0xE000 <= n < 0x11_0000)
  {
  }

  function Decode(bs: seq<byte>): Option<string> {
    if bs == [] then Some([])
    else if FirstCode(bs).None? then None
    else
      FirstCodeIsScalar(bs);
      var (n, len) := FirstCode(bs).value;
      var rest := Decode(bs[len..]);
      if rest.None? then None else Some([n as char] + rest.value)
  }

  lemma FirstOfEncoded(c: char, rest: seq<byte>)
    ensures FirstCode(EncodeChar(c) + rest) == Some((c as int, |EncodeChar(c)|))
  {
    var n, bs := c as int, EncodeChar(c) + rest;
    assert forall i :: 0 <= i < |EncodeChar(c)| ==> bs[i] == EncodeChar(c)[i];
    if 0x80 <= n < 0x800 {
      assert Join2(n / 0x40, n % 0x40) == n;
    } else if 0x800 <= n < 0x1_0000 {
      assert Join3(n / 0x40 / 0x40, n / 0x40 % 0x40, n % 0x40) == n;
    } else if 0x1_0000 <= n {
      assert Join4(n / 0x40 / 0x40 / 0x40, n / 0x40 / 0x40 % 0x40, n / 0x40 % 0x40, n % 0x40) == n;
    }
  }

  lemma SplitJoin(a: int, b: int)
    requires 0 <= b < 0x40
    ensures Join2(a, b) / 0x40 == a && Join2(a, b) % 0x40 == b
  {
  }

  lemma EncodedTwo(x: byte, y: byte)
    requires 0xC2 <= x < 0xE0 && IsTail(y)
    ensures var n := Join2(x - 0xC0, y - 0x80); 0x80 <= n < 0x800 && EncodeChar(n as char) == [x, y]
  {
    SplitJoin(x - 0xC0, y - 0x80);
  }

  lemma EncodedThree(x: byte, y: byte, z: byte)
    requires 0xE0 <= x < 0xF0 && IsTail(y) && IsTail(z)
    requires var n := Join3(x - 0xE0, y - 0x80, z - 0x80); 0x800 <= n < 0xD800 || 0xE000 <= n < 0x1_0000
    ensures EncodeChar(Join3(x - 0xE0, y - 0x80, z - 0x80) as char) == [x, y, z]
  {
    var high := Join2(x - 0xE0, y - 0x80);
    SplitJoin(x - 0xE0, y - 0x80);
    SplitJoin(high, z - 0x80);
  }

  lemma EncodedFour(w: byte, x: byte, y: byte, z: byte)
    requires 0xF0 <= w < 0xF5 && IsTail(x) && IsTail(y) && IsTail(z)
    requires 0x1_0000 <= Join4(w - 0xF0, x - 0x80, y - 0x80, z - 0x80) < 0x11_0000
    ensures EncodeChar(Join4(w - 0xF0, x - 0x80, y - 0x80, z - 0x80) as char) == [w, x, y, z]
  {
    var high := Join2(w - 0xF0, x - 0x80);
    SplitJoin(w - 0xF0, x - 0x80);
    SplitJoin(high, y - 0x80);
    SplitJoin(Join2(high, y - 0x80), z - 0x80);
  }

  lemma EncodedFirst(bs: seq<byte>)
    requires FirstCode(bs).Some?
    ensures var (n, len) := FirstCode(bs).value;
            && 1 <= len <= |bs| && (0 <= n < 0xD800 || 0xE000 <= n < 0x11_0000)
            && EncodeChar(n as char) == bs[..len]
  {
    FirstCodeIsScalar(bs);
    var (n, len) := FirstCode(bs).value;
    if len == 1 {
      assert bs[..1] == [bs[0]];
    } else if len == 2 {
      EncodedTwo(bs[0], bs[1]);
      assert bs[..2] == [bs[0], bs[1]];
    } else if len == 3 {
      EncodedThree(bs[0], bs[1], bs[2]);
      assert bs[..3] == [bs[0], bs[1], bs[2]];
    } else {
      EncodedFour(bs[0], bs[1], bs[2], bs[3]);
      assert bs[..4] == [bs[0], bs[1], bs[2], bs[3]];
    }
  }

  /** Decoding undoes encoding. */
  lemma {:induction false} DecodeEncode(s: string)
    ensures Decode(Encode(s)) == Some(s)
    decreases |s|
  {
    if s != [] {
      var head, rest := EncodeChar(s[0]), Encode(s[1..]);
      FirstOfEncoded(s[0], rest);
      assert (head + rest)[|head|..] == rest;
      DecodeEncode(s[1..]);
      assert [s[0]] + s[1..] == s;
    }
  }

  lemma EncodeFirst(c: char, s: string)
    ensures Encode([c] + s) == EncodeChar(c) + Encode(s)
  {
    assert ([c] + s)[1..] == s;
  }

  /** Encoding undoes decoding, so no text has two encodings. */
  lemma {:induction false} EncodeDecode(bs: seq<byte>)
    requires Decode(bs).Some?
    ensures Encode(Decode(bs).value) == bs
    decreases |bs|
  {
    if bs != [] {
      var c, len := DecodedFirst(bs);
      EncodeDecode(bs[len..]);
      EncodeFirst(c, Decode(bs[len..]).value);
      assert bs == bs[..len] + bs[len..];
    }
  }

  lemma DecodedFirst(bs: seq<byte>) returns (c: char, len: nat)
    requires bs != [] && Decode(bs).Some?
    ensures 1 <= len <= |bs| && EncodeChar(c) == bs[..len] && Decode(bs[len..]).Some?
    ensures Decode(bs).value == [c] + Decode(bs[len..]).value
  {
    EncodedFirst(bs);
    c, len := FirstCode(bs).value.0 as char, FirstCode(bs).value.1;
  }

  /** Bytes are refused exactly if they encode no text. */
  lemma RefusedExactly(bs: seq<byte>)
    ensures Decode(bs).None? <==> forall s: string :: Encode(s) != bs
  {
    if Decode(bs).Some? {
      EncodeDecode(bs);
    }
    forall s: string | Encode(s) == bs
      ensures Decode(bs).Some?
    {
      DecodeEncode(s);
    }
  }

  predicate IsAscii(s: string) {
    forall i :: 0 <= i < |s| ==> s[i] as int < 0x80
  }

  /** A text has as many bytes as characters exactly when it is ASCII. */
  lemma {:induction false} LengthIsAscii(s: string)
    ensures |s| <= |Encode(s)|
    ensures |s| == |Encode(s)| <==> IsAscii(s)
    decreases |s|
  {
    if s != [] {
      LengthIsAscii(s[1..]);
      assert IsAscii(s) <==> s[0] as int < 0x80 && IsAscii(s[1..]) by {
        assert forall i :: 0 <= i < |s| - 1 ==> s[1..][i] == s[i + 1];
        if s[0] as int < 0x80 && IsAscii(s[1..]) {
          forall i | 0 <= i < |s|
            ensures s[i] as int < 0x80
          {
            if i > 0 { assert s[1..][i - 1] == s[i]; }
          }
        }
      }
    }
  }

  lemma {:induction false} AsciiBytes(s: string)
    requires IsAscii(s)
    ensures |Encode(s)| == |s| && forall i :: 0 <= i < |s| ==> Encode(s)[i] == s[i] as int
    decreases |s|
  {
    if s != [] { AsciiBytes(s[1..]); }
  }

  lemma {:induction false} EncodeConcat(s: string, t: string)
    ensures Encode(s + t) == Encode(s) + Encode(t)
    decreases |s|
  {
    if s == [] {
      assert s + t == t;
    } else {
      EncodeConcat(s[1..], t);
      assert s + t == [s[0]] + (s[1..] + t);
      EncodeFirst(s[0], s[1..] + t);
      Regrouped(EncodeChar(s[0]), Encode(s[1..]), Encode(t));
    }
  }

  /** One character of each length, as RFC 3629 writes it in section 7. */
  lemma KnownTexts()
    ensures EncodeChar('A') == [0x41] && EncodeChar('\U{391}') == [0xCE, 0x91]
    ensures EncodeChar('\U{2262}') == [0xE2, 0x89, 0xA2] && EncodeChar('\U{233B4}') == [0xF0, 0xA3, 0x8E, 0xB4]
  {
  }
}
