/** Walking an X.509 certificate (section 4.1 of RFC 5280) for its validity and subject. */
module X509 {
  import opened Basics
  import opened Utf8
  import opened Der

  const COMMON_NAME: seq<byte> := [0x55, 0x04, 0x03]

  /** The value of the first attribute of a relative name, if that is a common name. */
  function CommonNameIn(set_: seq<byte>): Option<seq<byte>> {
    var attribute := ReadSequence(set_);
    if attribute.None? then None
    else
      var seq_ := attribute.value.1;
      var oid := ReadElement(seq_);
      if oid.None? || oid.value.1 != COMMON_NAME then None
      else
        var value := ReadElement(seq_[oid.value.0..]);
        if value.None? then None else Some(value.value.1)
  }

  /** The first common name of a list of relative names; none if the list is malformed before it. */
  function FirstCommonName(names: seq<byte>): Option<seq<byte>>
    decreases |names|
  {
    var e := ReadElement(names);
    if e.None? then None
    else
      var cn := CommonNameIn(e.value.1);
      if cn.Some? then cn else FirstCommonName(names[e.value.0..])
  }

  /** The subject at the front of `data`. Without a common name the source says "unknown". */
  function SubjectOf(data: seq<byte>): Option<seq<byte>> {
    var s := ReadSequence(data);
    if s.None? then None else FirstCommonName(s.value.1)
  }

  method VisitName(names: seq<byte>, pos: nat) returns (done: bool, cn: Option<seq<byte>>, next: nat)
    requires pos < |names|
    ensures done ==> FirstCommonName(names[pos..]) == cn
    ensures !done ==> pos < next <= |names| && FirstCommonName(names[pos..]) == FirstCommonName(names[next..])
  {
    var e := ReadElement(names[pos..]);
    if e.None? { return true, None, pos; }
    var found := CommonNameIn(e.value.1);
    if found.Some? { return true, found, pos; }
    done, cn, next := false, None, pos + e.value.0;
    assert names[pos..][e.value.0..] == names[next..];
  }

  /** The loop over the relative names; every element it passes takes up at least two bytes. */
  method ExtractSubject(data: seq<byte>) returns (cn: Option<seq<byte>>)
    ensures cn == SubjectOf(data)
  {
    var s := ReadSequence(data);
    if s.None? { return None; }
    var names := s.value.1;
    var pos := 0;
    assert names[0..] == names;
    while pos < |names|
      invariant 0 <= pos <= |names|
      invariant FirstCommonName(names) == FirstCommonName(names[pos..])
    {
      var done, found, next := VisitName(names, pos);
      if done { return found; }
      pos := next;
    }
    cn := None;
  }

  /** A time is kept as text of at least thirteen bytes. */
  function ReadTime(content: seq<byte>): Option<string> {
    if |content| < 13 then None else Decode(content)
  }

  datatype CertFields = CertFields(notBefore: string, notAfter: string, commonName: Option<seq<byte>>)

  function WalkValidity(validity: seq<byte>): Option<(string, string)> {
    var nb := ReadElement(validity);
    if nb.None? || ReadTime(nb.value.1).None? then None
    else
      var na := ReadElement(validity[nb.value.0..]);
      if na.None? || ReadTime(na.value.1).None? then None
      else Some((ReadTime(nb.value.1).value, ReadTime(na.value.1).value))
  }

  function SkipVersion(tbs: seq<byte>): Option<seq<byte>> {
    if tbs != [] && tbs[0] / 0x20 == 5 then Skip(tbs) else Some(tbs)
  }

  function AndThen(o: Option<seq<byte>>, f: seq<byte> -> Option<seq<byte>>): Option<seq<byte>> {
    if o.None? then None else f(o.value)
  }

  /** From the version to the validity: serial number, signature algorithm and issuer are skipped. */
  function ToValidity(tbs: seq<byte>): Option<seq<byte>> {
    AndThen(AndThen(AndThen(SkipVersion(tbs), Skip), Skip), Skip)
  }

  /** From the validity on. */
  function WalkFrom(data: seq<byte>): Option<CertFields> {
    var validity := ReadSequence(data);
    if validity.None? then None
    else
      var times := WalkValidity(validity.value.1);
      if times.None? then None
      else Some(CertFields(times.value.0, times.value.1, SubjectOf(data[validity.value.0..])))
  }

  function WalkBody(tbs: seq<byte>): Option<CertFields> {
    var at := ToValidity(tbs);
    if at.None? then None else WalkFrom(at.value)
  }

  function Walk(der: seq<byte>): Option<CertFields> {
    var cert := ReadSequence(der);
    if cert.None? then None
    else
      var tbs := ReadSequence(cert.value.1);
      if tbs.None? then None else WalkBody(tbs.value.1)
  }

  /** Moves a position past the element it stands at. */
  method SkipFrom(tbs: seq<byte>, pos: nat) returns (next: Option<nat>)
    requires pos <= |tbs|
    ensures next.None? ==> Skip(tbs[pos..]) == None
    ensures next.Some? ==> next.value <= |tbs| && Skip(tbs[pos..]) == Some(tbs[next.value..])
  {
    var e := ReadElement(tbs[pos..]);
    if e.None? { return None; }
    assert tbs[pos..][e.value.0..] == tbs[pos + e.value.0..];
    next := Some(pos + e.value.0);
  }

  method FindValidity(tbs: seq<byte>) returns (pos: Option<nat>)
    ensures pos.None? ==> ToValidity(tbs) == None
    ensures pos.Some? ==> pos.value <= |tbs| && ToValidity(tbs) == Some(tbs[pos.value..])
  {
    pos := Some(0);
    assert tbs[0..] == tbs;
    if tbs != [] && tbs[0] / 0x20 == 5 {
      pos := SkipFrom(tbs, 0);
      if pos.None? { return None; }
    }
    pos := SkipFrom(tbs, pos.value);
    if pos.None? { return None; }
    pos := SkipFrom(tbs, pos.value);
    if pos.None? { return None; }
    pos := SkipFrom(tbs, pos.value);
  }

  method ParseFrom(tbs: seq<byte>, start: nat) returns (r: Option<CertFields>)
    requires start <= |tbs|
    ensures r == WalkFrom(tbs[start..])
  {
    var validity := ReadSequence(tbs[start..]);
    if validity.None? { return None; }
    var times := WalkValidity(validity.value.1);
    if times.None? { return None; }
    var pos := start + validity.value.0;
    assert tbs[start..][validity.value.0..] == tbs[pos..];
    var subject := None;
    if pos < |tbs| {
      subject := ExtractSubject(tbs[pos..]);
    }
    r := Some(CertFields(times.value.0, times.value.1, subject));
  }

  /** The walk as the source does it, with one position moving through the certificate body. */
  method ParseValidity(der: seq<byte>) returns (r: Option<CertFields>)
    ensures r == Walk(der)
  {
    var cert := ReadSequence(der);
    if cert.None? { return None; }
    var tbs := ReadSequence(cert.value.1);
    if tbs.None? { return None; }
    var pos := FindValidity(tbs.value.1);
    if pos.None? { return None; }
    r := ParseFrom(tbs.value.1, pos.value);
  }

  // ---------------------------------------------------------------- well-formed certificates

  datatype Tlv = Tlv(tag: byte, content: seq<byte>) {
    function Bytes(): seq<byte> { Element(tag, content) }
  }

  /** A relative name: its first attribute, and whatever follows that inside the set. Or anything
      else in its place that holds no common name. */
  datatype Name =
    | Name(setTag: byte, oidTag: byte, oid: seq<byte>, value: Tlv, more: seq<byte>, others: seq<byte>)
    | Other(setTag: byte, content: seq<byte>)
  {
    function Attribute(): seq<byte>
      requires Name?
    {
      Element(oidTag, oid) + (value.Bytes() + more)
    }

    function SetContent(): seq<byte> { if Name? then Element(0x30, Attribute()) + others else content }

    function Bytes(): seq<byte> { Element(setTag, SetContent()) }

    function CommonName(): Option<seq<byte>> {
      if Name? && oid == COMMON_NAME then Some(value.content) else None
    }

    predicate Small() {
      && |SetContent()| < LIMIT
      && (Name? ==> |oid| < LIMIT && |value.content| < LIMIT && |Attribute()| < LIMIT)
      && (Other? ==> CommonNameIn(content).None?)
    }
  }

  function NamesBytes(names: seq<Name>): seq<byte> {
    if names == [] then [] else names[0].Bytes() + NamesBytes(names[1..])
  }

  function FirstCn(names: seq<Name>): Option<seq<byte>> {
    if names == [] then None
    else if names[0].CommonName().Some? then names[0].CommonName()
    else FirstCn(names[1..])
  }

  datatype Certificate = Certificate(
    version: Option<Tlv>, serial: Tlv, algorithm: Tlv, issuer: Tlv,
    notBefore: Tlv, notAfter: Tlv, subject: seq<Name>, key: seq<byte>, signature: seq<byte>)
  {
    function Validity(): seq<byte> { notBefore.Bytes() + notAfter.Bytes() }

    function FromValidity(): seq<byte> {
      Element(0x30, Validity()) + (Element(0x30, NamesBytes(subject)) + key)
    }

    function FromSerial(): seq<byte> {
      serial.Bytes() + (algorithm.Bytes() + (issuer.Bytes() + FromValidity()))
    }

    function Tbs(): seq<byte> {
      (if version.None? then [] else version.value.Bytes()) + FromSerial()
    }

    function Body(): seq<byte> { Element(0x30, Tbs()) + signature }

    function Bytes(): seq<byte> { Element(0x30, Body()) }

    /** No part reaches 2^32 bytes, the times are text, and the serial number does not look
        like a version. */
    predicate WellFormed() {
      && serial.tag / 0x20 != 5
      && (version.Some? ==> version.value.tag / 0x20 == 5 && |version.value.content| < LIMIT)
      && |serial.content| < LIMIT && |algorithm.content| < LIMIT && |issuer.content| < LIMIT
      && |notBefore.content| < LIMIT && |notAfter.content| < LIMIT
      && |Validity()| < LIMIT && |NamesBytes(subject)| < LIMIT && |Tbs()| < LIMIT && |Body()| < LIMIT
      && (forall i :: 0 <= i < |subject| ==> subject[i].Small())
      && ReadTime(notBefore.content).Some? && ReadTime(notAfter.content).Some?
    }
  }

  lemma NameBack(n: Name)
    requires n.Small()
    ensures CommonNameIn(n.SetContent()) == n.CommonName()
  {
    if n.Name? {
      var attribute := n.Attribute();
      ReadSequenceBack(0x30, attribute, n.others);
      AttributeBack(n);
      CommonNameRead(n.SetContent(), attribute, n.oid, n.value.content);
    }
  }

  lemma CommonNameRead(set_: seq<byte>, attribute: seq<byte>, oid: seq<byte>, content: seq<byte>)
    requires ReadSequence(set_).Some? && ReadSequence(set_).value.1 == attribute
    requires ReadElement(attribute).Some? && ReadElement(attribute).value.1 == oid
    requires var value := ReadElement(attribute[ReadElement(attribute).value.0..]);
             value.Some? && value.value.1 == content
    ensures CommonNameIn(set_) == if oid == COMMON_NAME then Some(content) else None
  {
  }

  lemma AttributeBack(n: Name)
    requires n.Small() && n.Name?
    ensures var oid := ReadElement(n.Attribute());
            && oid.Some? && oid.value.1 == n.oid
            && var value := ReadElement(n.Attribute()[oid.value.0..]);
               value.Some? && value.value.1 == n.value.content
  {
    var rest := n.value.Bytes() + n.more;
    ReadElementBack(n.oidTag, n.oid, rest);
    assert n.Attribute()[|Element(n.oidTag, n.oid)|..] == rest;
    ReadElementBack(n.value.tag, n.value.content, n.more);
  }

  lemma {:induction false} NamesBack(names: seq<Name>)
    requires forall i :: 0 <= i < |names| ==> names[i].Small()
    ensures FirstCommonName(NamesBytes(names)) == FirstCn(names)
    decreases |names|
  {
    if names != [] {
      var n, rest := names[0], NamesBytes(names[1..]);
      ReadElementBack(n.setTag, n.SetContent(), rest);
      assert (n.Bytes() + rest)[|n.Bytes()|..] == rest;
      NameBack(n);
      NamesBack(names[1..]);
    }
  }

  lemma ValidityBack(c: Certificate)
    requires c.WellFormed()
    ensures WalkValidity(c.Validity()) ==
            Some((ReadTime(c.notBefore.content).value, ReadTime(c.notAfter.content).value))
  {
    ReadElementBack(c.notBefore.tag, c.notBefore.content, c.notAfter.Bytes());
    assert c.Validity()[|c.notBefore.Bytes()|..] == c.notAfter.Bytes();
    ReadElementBack(c.notAfter.tag, c.notAfter.content, []);
    assert c.notAfter.Bytes() + [] == c.notAfter.Bytes();
  }

  lemma VersionBack(c: Certificate)
    requires c.WellFormed()
    ensures SkipVersion(c.Tbs()) == Some(c.FromSerial())
  {
    if c.version.Some? {
      var v := c.version.value;
      assert c.Tbs()[0] == v.tag;
      SkipBack(v.tag, v.content, c.FromSerial());
    } else {
      assert c.Tbs() == c.FromSerial();
      assert c.FromSerial()[0] == c.serial.tag;
    }
  }

  lemma ToValidityBack(c: Certificate)
    requires c.WellFormed()
    ensures ToValidity(c.Tbs()) == Some(c.FromValidity())
  {
    VersionBack(c);
    var afterAlgorithm := c.issuer.Bytes() + c.FromValidity();
    var afterSerial := c.algorithm.Bytes() + afterAlgorithm;
    SkipBack(c.serial.tag, c.serial.content, afterSerial);
    SkipBack(c.algorithm.tag, c.algorithm.content, afterAlgorithm);
    SkipBack(c.issuer.tag, c.issuer.content, c.FromValidity());
  }

  function Fields(c: Certificate): CertFields
    requires c.WellFormed()
  {
    CertFields(ReadTime(c.notBefore.content).value, ReadTime(c.notAfter.content).value, FirstCn(c.subject))
  }

  lemma FromValidityBack(c: Certificate)
    requires c.WellFormed()
    ensures WalkFrom(c.FromValidity()) == Some(Fields(c))
  {
    var names := NamesBytes(c.subject);
    var fromSubject := Element(0x30, names) + c.key;
    ReadSequenceBack(0x30, c.Validity(), fromSubject);
    assert c.FromValidity()[|Element(0x30, c.Validity())|..] == fromSubject;
    ValidityBack(c);
    ReadSequenceBack(0x30, names, c.key);
    NamesBack(c.subject);
  }

  /** The walk returns exactly the validity times and the first common name of every
      well-formed certificate, with or without a version. */
  lemma WalkBack(c: Certificate)
    requires c.WellFormed()
    ensures Walk(c.Bytes()) == Some(Fields(c))
  {
    ReadSequenceBack(0x30, c.Body(), []);
    assert c.Bytes() + [] == c.Bytes();
    ReadSequenceBack(0x30, c.Tbs(), c.signature);
    ToValidityBack(c);
    FromValidityBack(c);
  }
}
