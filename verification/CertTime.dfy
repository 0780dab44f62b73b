/** Certificate times: UTCTime and GeneralizedTime texts, their place on the clock, and expiry. */
module CertTime {
  import opened Basics
  import opened Calendar
  import opened Text
  import Utf8
  import X509

  datatype Moment = Moment(year: nat, month: nat, day: nat, hour: nat, minute: nat, second: nat) {
    function OnDate(): Date { Date(year, month, day) }

    predicate Valid() { OnDate().Valid() && hour < 24 && minute < 60 && second < 60 }

    /** Every field after the year fits two digits. */
    predicate Printable() { month < 100 && day < 100 && hour < 100 && minute < 100 && second < 100 }

    function SecondOfDay(): nat { hour * 3600 + minute * 60 + second }

    predicate Before(m: Moment) {
      OnDate().Before(m.OnDate()) || (OnDate() == m.OnDate() && SecondOfDay() < m.SecondOfDay())
    }
  }

  const U64: nat := 0x1_0000_0000_0000_0000

  function TrimZ(s: string): string {
    if s != [] && s[|s| - 1] == 'Z' then TrimZ(s[..|s| - 1]) else s
  }

  function TwoDigits(s: string, i: nat): Option<nat>
    requires i + 2 <= |s|
  {
    ParseUnsigned(s[i..i + 2], U64)
  }

  /** Month, day, hour, minute and second after the year; a missing second is zero. */
  function ParseRest(year: nat, rest: string): Option<Moment>
    requires 8 <= |rest|
  {
    var month, day := TwoDigits(rest, 0), TwoDigits(rest, 2);
    var hour, minute := TwoDigits(rest, 4), TwoDigits(rest, 6);
    var second := if |rest| >= 10 then TwoDigits(rest, 8) else Some(0);
    if month.None? || day.None? || hour.None? || minute.None? || second.None? then None
    else Some(Moment(year, month.value, day.value, hour.value, minute.value, second.value))
  }

  function FullYear(yy: nat): nat {
    if yy >= 50 then 1900 + yy else 2000 + yy
  }

  /** Fourteen characters or more have a four-digit year, twelve or thirteen a two-digit one
      that stands for 1950 to 2049. */
  function ParseTime(text: string): Option<Moment>
    requires Utf8.IsAscii(text)
  {
    var s := TrimZ(text);
    if |s| >= 14 then
      var year := ParseUnsigned(s[..4], U64);
      if year.None? then None else ParseRest(year.value, s[4..])
    else if |s| >= 12 then
      var yy := ParseUnsigned(s[..2], U64);
      if yy.None? then None
      else ParseRest(FullYear(yy.value), s[2..])
    else None
  }

  function EpochOf(m: Moment): nat
    requires m.month <= 13 && 1 <= m.day
  {
    DaysOf(m.OnDate()) * 86400 + m.SecondOfDay()
  }

  // ---------------------------------------------------------------- printing

  function Pad2(n: nat): string
    requires n < 100
  {
    [Digit(n / 10), Digit(n % 10)]
  }

  function RestText(m: Moment): string
    requires m.Printable()
  {
    Pad2(m.month) + Pad2(m.day) + Pad2(m.hour) + Pad2(m.minute) + Pad2(m.second)
  }

  /** YYMMDDHHMMSSZ, for the years 1950 to 2049. */
  function UtcTime(m: Moment): string
    requires m.Printable() && 1950 <= m.year < 2050
  {
    Pad2(m.year % 100) + RestText(m) + "Z"
  }

  /** YYYYMMDDHHMMSSZ. */
  function GeneralizedTime(m: Moment): string
    requires m.Printable() && m.year < 10000
  {
    Pad2(m.year / 100) + Pad2(m.year % 100) + RestText(m) + "Z"
  }

  lemma Pad2Back(n: nat)
    requires n < 100
    ensures ParseUnsigned(Pad2(n), U64) == Some(n)
  {
    var s := Pad2(n);
    assert s[..1] == [Digit(n / 10)] && s[..1][..0] == [];
    assert DigitsValue(s[..1]) == Some(n / 10);
  }

  lemma Pad4Back(n: nat)
    requires n < 10000
    ensures ParseUnsigned(Pad2(n / 100) + Pad2(n % 100), U64) == Some(n)
  {
    var s := Pad2(n / 100) + Pad2(n % 100);
    Pad2Back(n / 100);
    assert s[..3] == Pad2(n / 100) + [Digit(n % 100 / 10)];
    assert s[..3][..2] == Pad2(n / 100);
    assert DigitsValue(s[..2]) == Some(n / 100) by { assert s[..2] == Pad2(n / 100); }
    assert DigitsValue(s[..3]) == Some(10 * (n / 100) + n % 100 / 10);
  }

  lemma Pairs(a: string, b: string, c: string, d: string, e: string)
    requires |a| == |b| == |c| == |d| == |e| == 2
    ensures var s := a + b + c + d + e;
            s[0..2] == a && s[2..4] == b && s[4..6] == c && s[6..8] == d && s[8..10] == e
  {
    var s := a + b + c + d + e;
    assert s[0..2] == a;
    assert s[2..4] == b;
    assert s[4..6] == c;
    assert s[6..8] == d;
    assert s[8..10] == e;
  }

  lemma RestBack(m: Moment)
    requires m.Printable()
    ensures |RestText(m)| == 10 && ParseRest(m.year, RestText(m)) == Some(m)
  {
    Pairs(Pad2(m.month), Pad2(m.day), Pad2(m.hour), Pad2(m.minute), Pad2(m.second));
    Pad2Back(m.month);
    Pad2Back(m.day);
    Pad2Back(m.hour);
    Pad2Back(m.minute);
    Pad2Back(m.second);
  }

  lemma TrimZBack(s: string)
    requires s != [] && s[|s| - 1] != 'Z'
    ensures TrimZ(s + "Z") == s
  {
    assert (s + "Z")[..|s|] == s;
  }

  lemma AsciiConcat(s: string, t: string)
    requires Utf8.IsAscii(s) && Utf8.IsAscii(t)
    ensures Utf8.IsAscii(s + t)
  {
  }

  lemma RestAscii(m: Moment)
    requires m.Printable()
    ensures Utf8.IsAscii(RestText(m) + "Z")
  {
    AsciiConcat(Pad2(m.month), Pad2(m.day));
    AsciiConcat(Pad2(m.month) + Pad2(m.day), Pad2(m.hour));
    AsciiConcat(Pad2(m.month) + Pad2(m.day) + Pad2(m.hour), Pad2(m.minute));
    AsciiConcat(Pad2(m.month) + Pad2(m.day) + Pad2(m.hour) + Pad2(m.minute), Pad2(m.second));
    AsciiConcat(RestText(m), "Z");
  }

  lemma YearBack(year: nat)
    requires 1950 <= year < 2050
    ensures FullYear(year % 100) == year
  {
  }

  /** Both forms of certificate time are read back. */
  lemma UtcTimeBack(m: Moment)
    requires m.Printable() && 1950 <= m.year < 2050
    ensures Utf8.IsAscii(UtcTime(m)) && ParseTime(UtcTime(m)) == Some(m)
  {
    var s := Pad2(m.year % 100) + RestText(m);
    RestAscii(m);
    AsciiConcat(Pad2(m.year % 100), RestText(m) + "Z");
    assert UtcTime(m) == Pad2(m.year % 100) + (RestText(m) + "Z") == s + "Z";
    RestBack(m);
    TrimZBack(s);
    assert s[..2] == Pad2(m.year % 100) && s[2..] == RestText(m);
    Pad2Back(m.year % 100);
    YearBack(m.year);
  }

  lemma GeneralizedTimeBack(m: Moment)
    requires m.Printable() && m.year < 10000
    ensures Utf8.IsAscii(GeneralizedTime(m)) && ParseTime(GeneralizedTime(m)) == Some(m)
  {
    var year := Pad2(m.year / 100) + Pad2(m.year % 100);
    var s := year + RestText(m);
    RestAscii(m);
    AsciiConcat(year, RestText(m) + "Z");
    assert GeneralizedTime(m) == year + (RestText(m) + "Z") == s + "Z";
    RestBack(m);
    TrimZBack(s);
    assert s[..4] == year && s[4..] == RestText(m);
    Pad4Back(m.year);
  }

  // ---------------------------------------------------------------- order and expiry

  lemma WithinDay(m: Moment)
    requires m.Valid()
    ensures m.SecondOfDay() < 86400
  {
  }

  /** Seconds order moments as the calendar and the clock do. */
  lemma EpochOrdersMoments(a: Moment, b: Moment)
    requires a.Valid() && b.Valid()
    ensures EpochOf(a) < EpochOf(b) <==> a.Before(b)
  {
    WithinDay(a);
    WithinDay(b);
    DaysOrderDates(a.OnDate(), b.OnDate());
    DaysOrderDates(b.OnDate(), a.OnDate());
  }

  /** Whole days left, rounded towards zero as the source's division does. */
  function DaysUntil(expiry: nat, now: nat): int {
    if now <= expiry then (expiry - now) / 86400 else -((now - expiry) / 86400)
  }

  function NextSecond(m: Moment): Moment
    requires m.Valid()
  {
    if m.second < 59 then m.(second := m.second + 1)
    else if m.minute < 59 then m.(minute := m.minute + 1, second := 0)
    else if m.hour < 23 then m.(hour := m.hour + 1, minute := 0, second := 0)
    else
      var d := NextDay(m.OnDate());
      Moment(d.year, d.month, d.day, 0, 0, 0)
  }

  lemma WithinTheDay(m: Moment)
    requires m.Valid()
    ensures var n := NextSecond(m);
            || (n.OnDate() == m.OnDate() && n.SecondOfDay() == m.SecondOfDay() + 1)
            || (n.OnDate() == NextDay(m.OnDate()) && n.SecondOfDay() == 0 && m.SecondOfDay() == 86399)
    ensures NextSecond(m).hour < 24 && NextSecond(m).minute < 60 && NextSecond(m).second < 60
  {
  }

  lemma FirstSecond()
    ensures EpochOf(Moment(1970, 1, 1, 0, 0, 0)) == 0
  {
  }

  lemma SecondsApart(days: nat, next: nat, second: nat, nextSecond: nat)
    requires (next == days && nextSecond == second + 1) || (next == days + 1 && nextSecond == 0 && second == 86399)
    ensures next * 86400 + nextSecond == days * 86400 + second + 1
  {
  }

  lemma EpochApart(m: Moment, n: Moment)
    requires m.Valid() && n.Valid()
    requires || (n.OnDate() == m.OnDate() && n.SecondOfDay() == m.SecondOfDay() + 1)
             || (DaysOf(n.OnDate()) == DaysOf(m.OnDate()) + 1 && n.SecondOfDay() == 0 && m.SecondOfDay() == 86399)
    ensures EpochOf(n) == EpochOf(m) + 1
  {
    SecondsApart(DaysOf(m.OnDate()), DaysOf(n.OnDate()), m.SecondOfDay(), n.SecondOfDay());
  }

  /** The seconds are counted one by one, over every end of a minute, an hour, a day, a month and
      a year. */
  lemma EpochCountsSeconds(m: Moment)
    requires m.Valid()
    ensures NextSecond(m).Valid() && EpochOf(NextSecond(m)) == EpochOf(m) + 1
  {
    WithinTheDay(m);
    NextDayIsNext(m.OnDate());
    EpochApart(m, NextSecond(m));
  }

  /** The days left are the whole days between now and the expiry, or since it. */
  lemma DaysLeftExactly(expiry: nat, now: nat)
    ensures var n := DaysUntil(expiry, now);
            if now <= expiry then 0 <= n && 86400 * n <= expiry - now < 86400 * n + 86400
            else n <= 0 && 86400 * n - 86400 < expiry - now <= 86400 * n
  {
    WholeDays(if now <= expiry then expiry - now else now - expiry);
  }

  lemma WholeDays(t: nat)
    ensures 86400 * (t / 86400) <= t < 86400 * (t / 86400) + 86400
  {
  }

  lemma ExpiredExactly(expiry: nat, now: nat)
    ensures DaysUntil(expiry, now) < 0 <==> expiry + 86400 <= now
  {
  }

  /** The moment in either notation. */
  predicate Writes(content: seq<Utf8.byte>, m: Moment)
    requires m.Valid() && m.year < 10000
  {
    || content == Utf8.Encode(GeneralizedTime(m))
    || (m.year < 2050 && content == Utf8.Encode(UtcTime(m)))
  }

  predicate Reads(text: string, m: Moment) {
    Utf8.IsAscii(text) && ParseTime(text) == Some(m)
  }

  lemma TimeRead(content: seq<Utf8.byte>, m: Moment)
    requires m.Valid() && m.year < 10000 && Writes(content, m)
    ensures X509.ReadTime(content).Some? && Reads(X509.ReadTime(content).value, m)
  {
    if content == Utf8.Encode(GeneralizedTime(m)) {
      GeneralizedTimeBack(m);
      Utf8.AsciiBytes(GeneralizedTime(m));
      Utf8.DecodeEncode(GeneralizedTime(m));
    } else {
      UtcTimeBack(m);
      Utf8.AsciiBytes(UtcTime(m));
      Utf8.DecodeEncode(UtcTime(m));
    }
  }

  /** The second at which a certificate ends, or nothing where the source refuses the bytes or
      the time text, or has no day number for its fields. */
  function ExpiryOf(der: seq<Utf8.byte>): Option<nat> {
    var fields := X509.Walk(der);
    if fields.None? || !Utf8.IsAscii(fields.value.notAfter) then None
    else
      var m := ParseTime(fields.value.notAfter);
      if m.None? || m.value.month > 13 || m.value.day == 0 then None else Some(EpochOf(m.value))
  }

  function ExpiredFlag(der: seq<Utf8.byte>, now: nat): Option<bool> {
    var expiry := ExpiryOf(der);
    if expiry.None? then None else Some(DaysUntil(expiry.value, now) < 0)
  }

  /** The source's way from the bytes to the two fields that report expiry. */
  method CheckExpiry(der: seq<Utf8.byte>, now: nat) returns (daysLeft: int, expired: Option<bool>)
    ensures expired == ExpiredFlag(der, now)
    ensures expired.Some? ==> daysLeft == DaysUntil(ExpiryOf(der).value, now)
  {
    daysLeft, expired := 0, None;
    var fields := X509.ParseValidity(der);
    if fields.None? || !Utf8.IsAscii(fields.value.notAfter) { return; }
    var time := ParseTime(fields.value.notAfter);
    if time.None? || time.value.month > 13 || time.value.day == 0 { return; }
    var m := time.value;
    var expiry := SecondsOf(m.year, m.month, m.day, m.hour, m.minute, m.second);
    daysLeft := DaysUntil(expiry, now);
    expired := Some(daysLeft < 0);
  }

  /** A well-formed certificate that ends at `m`, in either notation, is reported as expired
      exactly from one day after `m` on. */
  lemma CertificateExpiry(c: X509.Certificate, m: Moment, now: nat)
    requires c.WellFormed() && m.Valid() && m.year < 10000
    requires Writes(c.notAfter.content, m)
    ensures ExpiredFlag(c.Bytes(), now) == Some(EpochOf(m) + 86400 <= now)
  {
    CertificateEnds(c, m);
    ExpiredExactly(EpochOf(m), now);
  }

  lemma CertificateEnds(c: X509.Certificate, m: Moment)
    requires c.WellFormed() && m.Valid() && m.year < 10000
    requires Writes(c.notAfter.content, m)
    ensures ExpiryOf(c.Bytes()) == Some(EpochOf(m))
  {
    TimeRead(c.notAfter.content, m);
    X509.WalkBack(c);
  }
}
