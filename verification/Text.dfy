/** The string operations the share-link code relies on. */
module Text {
  import opened Basics

  /** Position of the first occurrence of `c`, or the length if there is none. */
  function Find(s: string, c: char): (i: nat)
    ensures i <= |s| && (forall j :: 0 <= j < i ==> s[j] != c) && (i < |s| ==> s[i] == c)
  {
    if s == [] || s[0] == c then 0
    else
      var i := 1 + Find(s[1..], c);
      assert forall j :: 1 <= j < i ==> s[j] == s[1..][j - 1];
      i
  }

  function SplitOnce(s: string, c: char): Option<(string, string)> {
    var i := Find(s, c);
    if i == |s| then None else Some((s[..i], s[i + 1..]))
  }

  /** One past the last occurrence of `c`, or zero if there is none. */
  function FindEnd(s: string, c: char): (i: nat)
    ensures i <= |s| && (forall j :: i <= j < |s| ==> s[j] != c) && (i > 0 ==> s[i - 1] == c)
  {
    if s == [] then 0 else if s[|s| - 1] == c then |s| else FindEnd(s[..|s| - 1], c)
  }

  function RSplitOnce(s: string, c: char): Option<(string, string)> {
    var i := FindEnd(s, c);
    if i == 0 then None else Some((s[..i - 1], s[i..]))
  }

  predicate Without(s: string, c: char) {
    forall i :: 0 <= i < |s| ==> s[i] != c
  }

  /** A separator is found where it was put, if the part on its open side is free of it. */
  lemma SplitJoined(a: string, c: char, b: string)
    requires Without(a, c)
    ensures SplitOnce(a + [c] + b, c) == Some((a, b))
  {
    var s := a + [c] + b;
    assert s[|a|] == c;
    assert forall j :: 0 <= j < |a| ==> s[j] == a[j];
    assert Find(s, c) == |a|;
    assert s[..|a|] == a && s[|a| + 1..] == b;
  }

  lemma RSplitJoined(a: string, c: char, b: string)
    requires Without(b, c)
    ensures RSplitOnce(a + [c] + b, c) == Some((a, b))
  {
    var s := a + [c] + b;
    assert s[|a|] == c;
    assert forall j :: |a| < j < |s| ==> s[j] == b[j - |a| - 1];
    assert FindEnd(s, c) == |a| + 1;
    assert s[..|a|] == a && s[|a| + 1..] == b;
  }

  lemma NothingToSplit(s: string, c: char)
    requires Without(s, c)
    ensures SplitOnce(s, c) == None && RSplitOnce(s, c) == None
  {
  }

  /** The part before the first separator is free of it, so it is shorter than any text
      that contains one. */
  lemma SplitIsShort(a: string, c: char, rest: string)
    requires !Without(a, c)
    ensures SplitOnce(a + rest, c).Some? && |SplitOnce(a + rest, c).value.0| < |a|
  {
    var i :| 0 <= i < |a| && a[i] == c;
    assert (a + rest)[i] == c;
  }

  // ---------------------------------------------------------------- lists with a separator

  function Split(s: string, c: char): (parts: seq<string>)
    ensures |parts| > 0
    decreases |s|
  {
    var i := Find(s, c);
    if i == |s| then [s] else [s[..i]] + Split(s[i + 1..], c)
  }

  function Join(parts: seq<string>, c: char): string
    requires |parts| > 0
  {
    if |parts| == 1 then parts[0] else parts[0] + [c] + Join(parts[1..], c)
  }

  lemma SplitFirst(a: string, c: char, b: string)
    requires Without(a, c)
    ensures Split(a + [c] + b, c) == [a] + Split(b, c)
  {
    SplitJoined(a, c, b);
  }

  lemma SplitWhole(a: string, c: char)
    requires Without(a, c)
    ensures Split(a, c) == [a]
  {
  }

  lemma {:induction false} SplitJoin(parts: seq<string>, c: char)
    requires |parts| > 0 && forall i :: 0 <= i < |parts| ==> Without(parts[i], c)
    ensures Split(Join(parts, c), c) == parts
    decreases |parts|
  {
    if |parts| == 1 {
      SplitWhole(parts[0], c);
    } else {
      SplitFirst(parts[0], c, Join(parts[1..], c));
      SplitJoin(parts[1..], c);
    }
    assert parts == [parts[0]] + parts[1..];
  }

  lemma {:induction false} SplitConcat(a: string, c: char, b: string)
    ensures Split(a + [c] + b, c) == Split(a, c) + Split(b, c)
    decreases |a|
  {
    var i := Find(a, c);
    if i == |a| {
      SplitWhole(a, c);
      SplitFirst(a, c, b);
    } else {
      var head, rest := a[..i], a[i + 1..];
      assert a == head + [c] + rest;
      SplitFirst(head, c, rest);
      assert a + [c] + b == head + [c] + (rest + [c] + b);
      SplitFirst(head, c, rest + [c] + b);
      SplitConcat(rest, c, b);
      Regrouped([head], Split(rest, c), Split(b, c));
    }
  }

  /** The pieces of a joined list are those of its parts, in order. */
  lemma {:induction false} SplitAt(parts: seq<string>, c: char, i: nat) returns (before: seq<string>)
    requires i < |parts| && forall j :: i < j < |parts| ==> Without(parts[j], c)
    ensures Split(Join(parts, c), c) == before + Split(parts[i], c) + parts[i + 1..]
    decreases |parts|
  {
    if i > 0 {
      var rest := SplitAt(parts[1..], c, i - 1);
      SplitConcat(parts[0], c, Join(parts[1..], c));
      before := Split(parts[0], c) + rest;
      assert parts[1..][i - 1] == parts[i] && parts[1..][i..] == parts[i + 1..];
    } else {
      before := [];
      if |parts| > 1 {
        SplitConcat(parts[0], c, Join(parts[1..], c));
        SplitJoin(parts[1..], c);
      }
    }
  }

  lemma {:induction false} PiecesAreShort(s: string, c: char, i: nat)
    requires i < |Split(s, c)|
    ensures |Split(s, c)[i]| <= |s|
    decreases |s|
  {
    var k := Find(s, c);
    if k < |s| && i > 0 {
      PiecesAreShort(s[k + 1..], c, i - 1);
    }
  }

  // ---------------------------------------------------------------- decimal numbers

  function Digit(n: nat): char
    requires n < 10
  {
    '0' + n as char
  }

  function PrintNat(n: nat): (s: string)
    ensures |s| > 0 && forall i :: 0 <= i < |s| ==> '0' <= s[i] <= '9'
  {
    if n < 10 then [Digit(n)] else PrintNat(n / 10) + [Digit(n % 10)]
  }

  function DigitValue(c: char): Option<nat> {
    if '0' <= c <= '9' then Some(c as int - '0' as int) else None
  }

  function DigitsValue(s: string): Option<nat> {
    if s == [] then Some(0)
    else
      var init, last := DigitsValue(s[..|s| - 1]), DigitValue(s[|s| - 1]);
      if init.None? || last.None? then None else Some(10 * init.value + last.value)
  }

  /** Rust's unsigned `parse`: an optional plus sign, at least one digit, no overflow. */
  function ParseUnsigned(s: string, bound: nat): Option<nat> {
    var digits := if |s| > 0 && s[0] == '+' then s[1..] else s;
    if digits == [] then None
    else
      var v := DigitsValue(digits);
      if v.Some? && v.value < bound then v else None
  }

  lemma {:induction false} DigitsOfPrinted(n: nat)
    ensures DigitsValue(PrintNat(n)) == Some(n)
    decreases n
  {
    var s := PrintNat(n);
    if n < 10 {
      assert s[..0] == [];
    } else {
      DigitsOfPrinted(n / 10);
      assert s[..|s| - 1] == PrintNat(n / 10);
    }
  }

  lemma ParsePrinted(n: nat, bound: nat)
    requires n < bound
    ensures ParseUnsigned(PrintNat(n), bound) == Some(n)
  {
    DigitsOfPrinted(n);
  }

  // ---------------------------------------------------------------- white space

  /** The characters with Unicode's White_Space property. */
  predicate IsSpace(c: char) {
    var n := c as int;
    || 0x09 <= n <= 0x0D || n == 0x20 || n == 0x85 || n == 0xA0 || n == 0x1680
    || 0x2000 <= n <= 0x200A || n == 0x2028 || n == 0x2029 || n == 0x202F || n == 0x205F || n == 0x3000
  }

  function TrimStart(s: string): string {
    if s != [] && IsSpace(s[0]) then TrimStart(s[1..]) else s
  }

  function TrimEnd(s: string): string {
    if s != [] && IsSpace(s[|s| - 1]) then TrimEnd(s[..|s| - 1]) else s
  }

  function Trim(s: string): string { TrimEnd(TrimStart(s)) }
}
