/**
 The two fields of the agent's certificate that installed mode checks: the Ed25519
 key and the subject's one common name (section 4.1 of RFC 5280, section 3 of
 RFC 8410), read with the DER reader and nothing else.
 */
module Certificate {
  import opened Common
  import opened Der

  const SEQUENCE: byte := 0x30
  const SET: byte := 0x31
  const INTEGER: byte := 0x02
  const BIT_STRING: byte := 0x03
  const OID: byte := 0x06
  const UTF8_STRING: byte := 0x0c
  const PRINTABLE_STRING: byte := 0x13
  const VERSION: byte := 0xa0
  const COMMON_NAME: Bytes := [0x55, 0x04, 0x03]
  const ED25519: Bytes := [0x2b, 0x65, 0x70]

  // ------------------------------------------------------------------- the names

  /** An attribute of a name, and what its sequence holds after the value, which is
      not read. */
  datatype Attribute = Attribute(kind: Bytes, tag: byte, value: Bytes, after: Bytes)

  predicate IsAttribute(a: Attribute) {
    && IsElement(OID, a.kind) && IsElement(a.tag, a.value)
    && |AttributeBody(a)| < LIMIT
  }

  function AttributeBody(a: Attribute): Bytes {
    if IsElement(OID, a.kind) && IsElement(a.tag, a.value)
    then Element(OID, a.kind) + Element(a.tag, a.value) + a.after else []
  }

  predicate AreAttributes(s: seq<Attribute>) {
    forall i | 0 <= i < |s| :: IsAttribute(s[i])
  }

  /** The attributes of one relative distinguished name, from the `i`th on. */
  function SetBody(s: seq<Attribute>): Bytes
    requires AreAttributes(s)
  {
    if s == [] then [] else Element(SEQUENCE, AttributeBody(s[0])) + SetBody(s[1..])
  }

  predicate IsName(name: seq<seq<Attribute>>) {
    forall i | 0 <= i < |name| :: AreAttributes(name[i]) && |SetBody(name[i])| < LIMIT
  }

  function NameBody(name: seq<seq<Attribute>>): Bytes
    requires IsName(name)
  {
    if name == [] then [] else Element(SET, SetBody(name[0])) + NameBody(name[1..])
  }

  // ------------------------------------------------------------- the common name

  /** Whether a value is UTF-8, as the standard library tells. */
  type Utf8 = Bytes -> bool

  datatype Found = Found(name: Option<Bytes>)

  /** One attribute more: of another kind it changes nothing; a common name must be
      text and the first. */
  function Noted(found: Found, kind: Bytes, tag: byte, value: Bytes, utf8: Utf8): Option<Found> {
    if kind != COMMON_NAME then Some(found)
    else if tag != UTF8_STRING && tag != PRINTABLE_STRING then None
    else if !utf8(value) || found.name.Some? then None
    else Some(Found(Some(value)))
  }

  /** One attribute's sequence. */
  function ReadAttribute(s: Bytes): Option<Attribute> {
    var (kind, rest) := Expected(s, OID);
    if kind.None? then None
    else
      match ReadElement(rest)
      case Some(read) => Some(Attribute(kind.value, read.tag, read.value, read.rest))
      case None => None
  }

  /** The attributes of a set, one after the other. */
  function ScanSet(s: Bytes, found: Found, utf8: Utf8): Option<Found>
    decreases |s|
  {
    if s == [] then Some(found)
    else
      match ReadElement(s)
      case None => None
      case Some(read) =>
        var a := if read.tag == SEQUENCE then ReadAttribute(read.value) else None;
        if a.None? then None
        else
          var next := Noted(found, a.value.kind, a.value.tag, a.value.value, utf8);
          if next.None? then None else ScanSet(read.rest, next.value, utf8)
  }

  /** The sets of a name, one after the other. */
  function ScanName(s: Bytes, found: Found, utf8: Utf8): Option<Found>
    decreases |s|
  {
    if s == [] then Some(found)
    else
      match ReadElement(s)
      case None => None
      case Some(read) =>
        var next := if read.tag == SET then ScanSet(read.value, found, utf8) else None;
        if next.None? then None else ScanName(read.rest, next.value, utf8)
  }

  function CommonNameOf(s: Bytes, utf8: Utf8): Option<Bytes> {
    var found := ScanName(s, Found(None), utf8);
    if found.Some? then found.value.name else None
  }

  /** The loops end because each read shortens the input. */
  method CommonName(name: Bytes, utf8: Utf8) returns (r: Option<Bytes>)
    ensures r == CommonNameOf(name, utf8)
  {
    var found := Found(None);
    var rdns := new Reader(name);
    while rdns.rest != []
      invariant ScanName(name, Found(None), utf8) == ScanName(rdns.rest, found, utf8)
      decreases |rdns.rest|
    {
      var body := rdns.Expect(SET);
      if body.None? { return None; }
      var next := OneSet(body.value, found, utf8);
      if next.None? { return None; }
      found := next.value;
    }
    return found.name;
  }

  method OneSet(body: Bytes, before: Found, utf8: Utf8) returns (r: Option<Found>)
    ensures r == ScanSet(body, before, utf8)
  {
    var found := before;
    var attributes := new Reader(body);
    while attributes.rest != []
      invariant ScanSet(body, before, utf8) == ScanSet(attributes.rest, found, utf8)
      decreases |attributes.rest|
    {
      var sequence := attributes.Expect(SEQUENCE);
      if sequence.None? { return None; }
      var attribute := new Reader(sequence.value);
      var kind := attribute.Expect(OID);
      if kind.None? { return None; }
      var value := attribute.Next();
      if value.None? { return None; }
      if kind.value == COMMON_NAME {
        if value.value.0 != UTF8_STRING && value.value.0 != PRINTABLE_STRING { return None; }
        if !utf8(value.value.1) || found.name.Some? { return None; }
        found := Found(Some(value.value.1));
      }
    }
    return Some(found);
  }

  // ------------------------------------------- what the scan amounts to on a name

  /** The attributes of a list that are common names. */
  function CommonNames(s: seq<Attribute>): seq<Attribute> {
    if s == [] then []
    else if s[0].kind == COMMON_NAME then [s[0]] + CommonNames(s[1..])
    else CommonNames(s[1..])
  }

  function Flat(name: seq<seq<Attribute>>): seq<Attribute> {
    if name == [] then [] else name[0] + Flat(name[1..])
  }

  predicate IsText(a: Attribute, utf8: Utf8) {
    (a.tag == UTF8_STRING || a.tag == PRINTABLE_STRING) && utf8(a.value)
  }

  /** Where the scan stands after the common names `names`: at most one, and text. */
  function After(found: Found, names: seq<Attribute>, utf8: Utf8): Option<Found> {
    if names == [] then Some(found)
    else if |names| == 1 && found.name.None? && IsText(names[0], utf8) then Some(Found(Some(names[0].value)))
    else None
  }

  lemma AttributeReadsBack(a: Attribute)
    requires IsAttribute(a)
    ensures ReadAttribute(AttributeBody(a)) == Some(a)
  {
    ElementReadsBack(OID, a.kind, Element(a.tag, a.value) + a.after);
    Assoc(Element(OID, a.kind), Element(a.tag, a.value), a.after);
    ElementReadsBack(a.tag, a.value, a.after);
  }

  lemma {:induction false} AfterBoth(found: Found, a: seq<Attribute>, b: seq<Attribute>, utf8: Utf8)
    ensures var first := After(found, a, utf8);
            After(found, a + b, utf8) == if first.None? then None else After(first.value, b, utf8)
  {
    if a == [] {
      Empty(b);
    } else if b == [] {
      Empty(a);
    }
  }

  lemma {:induction false} ScanSetReadsBack(s: seq<Attribute>, found: Found, utf8: Utf8)
    requires AreAttributes(s)
    ensures ScanSet(SetBody(s), found, utf8) == After(found, CommonNames(s), utf8)
    decreases |s|
  {
    if s != [] {
      var a := s[0];
      ElementReadsBack(SEQUENCE, AttributeBody(a), SetBody(s[1..]));
      AttributeReadsBack(a);
      var next := Noted(found, a.kind, a.tag, a.value, utf8);
      if a.kind == COMMON_NAME {
        AfterBoth(found, [a], CommonNames(s[1..]), utf8);
      }
      if next.Some? {
        ScanSetReadsBack(s[1..], next.value, utf8);
      }
    }
  }

  lemma {:induction false} CommonNamesOfBoth(a: seq<Attribute>, b: seq<Attribute>)
    ensures CommonNames(a + b) == CommonNames(a) + CommonNames(b)
  {
    if a == [] {
      Empty(b);
      Empty(CommonNames(b));
    } else {
      assert (a + b)[1..] == a[1..] + b;
      CommonNamesOfBoth(a[1..], b);
      if a[0].kind == COMMON_NAME {
        Assoc([a[0]], CommonNames(a[1..]), CommonNames(b));
      }
    }
  }

  lemma {:induction false} ScanNameReadsBack(name: seq<seq<Attribute>>, found: Found, utf8: Utf8)
    requires IsName(name)
    ensures ScanName(NameBody(name), found, utf8) == After(found, CommonNames(Flat(name)), utf8)
    decreases |name|
  {
    if name != [] {
      ElementReadsBack(SET, SetBody(name[0]), NameBody(name[1..]));
      ScanSetReadsBack(name[0], found, utf8);
      CommonNamesOfBoth(name[0], Flat(name[1..]));
      AfterBoth(found, CommonNames(name[0]), CommonNames(Flat(name[1..])), utf8);
      var next := After(found, CommonNames(name[0]), utf8);
      if next.Some? {
        ScanNameReadsBack(name[1..], next.value, utf8);
      }
    }
  }

  /** Of any encoded name, the common name is returned exactly when there is one, in
      any set and position, and it is text. */
  lemma CommonNameIsTheOne(name: seq<seq<Attribute>>, utf8: Utf8)
    requires IsName(name)
    ensures var names := CommonNames(Flat(name));
            CommonNameOf(NameBody(name), utf8)
            == if |names| == 1 && IsText(names[0], utf8) then Some(names[0].value) else None
  {
    ScanNameReadsBack(name, Found(None), utf8);
  }

  /** And nothing else is accepted: the bytes of a set or a name that is scanned to
      its end are the encoding of one. */
  lemma {:induction false} ScannedSetIsEncoded(s: Bytes, found: Found, utf8: Utf8) returns (attributes: seq<Attribute>)
    requires ScanSet(s, found, utf8).Some? && |s| < LIMIT
    ensures AreAttributes(attributes) && s == SetBody(attributes)
    decreases |s|
  {
    if s == [] {
      attributes := [];
    } else {
      AcceptedIsElement(s);
      var read := ReadElement(s).value;
      var a := ReadAttribute(read.value).value;
      AttributeIsEncoded(read.value, a);
      var rest := ScannedSetIsEncoded(read.rest, Noted(found, a.kind, a.tag, a.value, utf8).value, utf8);
      attributes := [a] + rest;
      assert attributes[1..] == rest;
    }
  }

  lemma AttributeIsEncoded(s: Bytes, a: Attribute)
    requires ReadAttribute(s) == Some(a) && |s| < LIMIT
    ensures IsAttribute(a) && AttributeBody(a) == s
  {
    AcceptedIsElement(s);
    var rest := Expected(s, OID).1;
    AcceptedIsElement(rest);
    Assoc(Element(OID, a.kind), Element(a.tag, a.value), a.after);
  }

  lemma {:induction false} ScannedNameIsEncoded(s: Bytes, found: Found, utf8: Utf8) returns (name: seq<seq<Attribute>>)
    requires ScanName(s, found, utf8).Some? && |s| < LIMIT
    ensures IsName(name) && s == NameBody(name)
    decreases |s|
  {
    if s == [] {
      name := [];
    } else {
      AcceptedIsElement(s);
      var read := ReadElement(s).value;
      var first := ScannedSetIsEncoded(read.value, found, utf8);
      var rest := ScannedNameIsEncoded(read.rest, ScanSet(read.value, found, utf8).value, utf8);
      name := [first] + rest;
      assert name[1..] == rest;
    }
  }

  // --------------------------------------------------------------------- the key

  function KeyBody(key: Bytes): Bytes
    requires |key| == 32
  {
    Element(SEQUENCE, Element(OID, ED25519)) + Element(BIT_STRING, [0] + key)
  }

  /** The key of a SubjectPublicKeyInfo: Ed25519 with no parameters, 32 bytes, and
      nothing after. */
  function KeyOf(s: Bytes): Option<Bytes> {
    var (algorithm, rest) := Expected(s, SEQUENCE);
    if algorithm.None? then None
    else
      var (kind, parameters) := Expected(algorithm.value, OID);
      if kind != Some(ED25519) || parameters != [] then None
      else
        var (bits, after) := Expected(rest, BIT_STRING);
        if bits.None? || after != [] || |bits.value| != 33 || bits.value[0] != 0 then None
        else Some(bits.value[1..])
  }

  method Ed25519Key(spki: Bytes) returns (r: Option<Bytes>)
    ensures r == KeyOf(spki)
  {
    var reader := new Reader(spki);
    var body := reader.Expect(SEQUENCE);
    if body.None? { return None; }
    var algorithm := new Reader(body.value);
    var kind := algorithm.Expect(OID);
    if kind.None? { return None; }
    if kind.value != ED25519 || algorithm.rest != [] { return None; }
    var bits := reader.Expect(BIT_STRING);
    if bits.None? || reader.rest != [] { return None; }
    if |bits.value| != 33 || bits.value[0] != 0 { return None; }
    return Some(bits.value[1..]);
  }

  lemma ExpectedReadsBack(tag: byte, value: Bytes, rest: Bytes)
    requires IsElement(tag, value)
    ensures Expected(Element(tag, value) + rest, tag) == (Some(value), rest)
  {
    ElementReadsBack(tag, value, rest);
  }

  lemma ExpectedIsElement(s: Bytes, tag: byte)
    requires Expected(s, tag).0.Some?
    ensures var (value, rest) := Expected(s, tag);
            IsElement(tag, value.value) && s == Element(tag, value.value) + rest
  {
    AcceptedIsElement(s);
  }

  /** A key is returned exactly from its own encoding. */
  lemma KeyIsItsEncoding(s: Bytes, key: Bytes)
    ensures KeyOf(s) == Some(key) <==> |key| == 32 && s == KeyBody(key)
  {
    if |key| == 32 && s == KeyBody(key) {
      ExpectedReadsBack(SEQUENCE, Element(OID, ED25519), Element(BIT_STRING, [0] + key));
      Empty(Element(OID, ED25519));
      ExpectedReadsBack(OID, ED25519, []);
      Empty(Element(BIT_STRING, [0] + key));
      ExpectedReadsBack(BIT_STRING, [0] + key, []);
    }
    if KeyOf(s) == Some(key) {
      var (algorithm, rest) := Expected(s, SEQUENCE);
      ExpectedIsElement(s, SEQUENCE);
      ExpectedIsElement(algorithm.value, OID);
      Empty(Element(OID, ED25519));
      ExpectedIsElement(rest, BIT_STRING);
      Empty(rest);
      assert [0] + key == Expected(rest, BIT_STRING).0.value;
      Empty(Element(BIT_STRING, [0] + key));
    }
  }

  // ------------------------------------------------------------- the certificate

  /** What a certificate holds; the values that are not read, and what follows the
      ones that are, are any bytes. */
  datatype Cert = Cert(
    version: Option<Bytes>, serial: Bytes, signature: Bytes, issuer: Bytes, validity: Bytes,
    subject: Bytes, spki: Bytes, tbsAfter: Bytes, after: Bytes)

  predicate HasElements(c: Cert) {
    && (c.version.Some? ==> IsElement(VERSION, c.version.value))
    && IsElement(INTEGER, c.serial) && IsElement(SEQUENCE, c.signature) && IsElement(SEQUENCE, c.issuer)
    && IsElement(SEQUENCE, c.validity) && IsElement(SEQUENCE, c.subject) && IsElement(SEQUENCE, c.spki)
  }

  /** The subject, the key and what follows them. */
  function SubjectBytes(c: Cert): Bytes
    requires HasElements(c)
  {
    Element(SEQUENCE, c.subject) + (Element(SEQUENCE, c.spki) + c.tbsAfter)
  }

  function SerialBytes(c: Cert): Bytes
    requires HasElements(c)
  {
    Element(INTEGER, c.serial) + (Element(SEQUENCE, c.signature) + (Element(SEQUENCE, c.issuer)
    + (Element(SEQUENCE, c.validity) + SubjectBytes(c))))
  }

  function TbsBytes(c: Cert): Bytes
    requires HasElements(c)
  {
    if c.version.Some? then Element(VERSION, c.version.value) + SerialBytes(c) else SerialBytes(c)
  }

  predicate IsCert(c: Cert) {
    && HasElements(c) && |TbsBytes(c)| < LIMIT
    && |Element(SEQUENCE, TbsBytes(c)) + c.after| < LIMIT
  }

  function CertBytes(c: Cert): Bytes
    requires IsCert(c)
  {
    Element(SEQUENCE, Element(SEQUENCE, TbsBytes(c)) + c.after)
  }

  /** What follows an element of that tag. */
  function Skipped(s: Option<Bytes>, tag: byte): Option<Bytes> {
    if s.None? || Expected(s.value, tag).0.None? then None else Some(Expected(s.value, tag).1)
  }

  /** What follows the version, if there is one. */
  function AfterVersion(tbs: Bytes): Option<Bytes> {
    if tbs != [] && tbs[0] == VERSION
    then (match ReadElement(tbs) case Some(read) => Some(read.rest) case None => None)
    else Some(tbs)
  }

  /** What follows the validity. */
  function SkippedToSubject(s: Option<Bytes>): Option<Bytes> {
    Skipped(Skipped(Skipped(Skipped(s, INTEGER), SEQUENCE), SEQUENCE), SEQUENCE)
  }

  /** The subject and the SubjectPublicKeyInfo of a TBSCertificate. */
  function SubjectAndKey(tbs: Bytes): Option<(Bytes, Bytes)> {
    var s := SkippedToSubject(AfterVersion(tbs));
    if s.None? then None
    else
      var (subject, rest) := Expected(s.value, SEQUENCE);
      var spki := Expected(rest, SEQUENCE).0;
      if subject.None? || spki.None? then None else Some((subject.value, spki.value))
  }

  function IdentityOf(der: Bytes, utf8: Utf8): Option<(Bytes, Bytes)> {
    var (certificate, after) := Expected(der, SEQUENCE);
    if certificate.None? || after != [] then None
    else
      var tbs := Expected(certificate.value, SEQUENCE).0;
      var both := if tbs.Some? then SubjectAndKey(tbs.value) else None;
      if both.None? then None
      else
        var name, key := CommonNameOf(both.value.0, utf8), KeyOf(both.value.1);
        if name.None? || key.None? then None else Some((key.value, name.value))
  }

  method ReadTbs(tbs: Bytes) returns (r: Option<(Bytes, Bytes)>)
    ensures r == SubjectAndKey(tbs)
  {
    var reader := new Reader(tbs);
    if tbs != [] && tbs[0] == VERSION {
      var version := reader.Next();
      if version.None? { return None; }
    }
    var ok := SkipToSubject(reader);
    if !ok { return None; }
    var subject := reader.Expect(SEQUENCE);
    if subject.None? { return None; }
    var spki := reader.Expect(SEQUENCE);
    if spki.None? { return None; }
    return Some((subject.value, spki.value));
  }

  /** The serial number, the signature's algorithm, the issuer and the validity. */
  method SkipToSubject(reader: Reader) returns (ok: bool)
    modifies reader
    ensures ok <==> SkippedToSubject(Some(old(reader.rest))).Some?
    ensures ok ==> SkippedToSubject(Some(old(reader.rest))) == Some(reader.rest)
  {
    ok := Skip(reader, INTEGER);
    if !ok { return; }
    ok := Skip(reader, SEQUENCE);
    if !ok { return; }
    ok := Skip(reader, SEQUENCE);
    if !ok { return; }
    ok := Skip(reader, SEQUENCE);
  }

  method Skip(reader: Reader, tag: byte) returns (ok: bool)
    modifies reader
    ensures Skipped(Some(old(reader.rest)), tag) == if ok then Some(reader.rest) else None
  {
    var value := reader.Expect(tag);
    ok := value.Some?;
  }

  method CertificateIdentity(der: Bytes, utf8: Utf8) returns (r: Option<(Bytes, Bytes)>)
    ensures r == IdentityOf(der, utf8)
  {
    var outer := new Reader(der);
    var certificate := outer.Expect(SEQUENCE);
    if certificate.None? || outer.rest != [] { return None; }
    var reader := new Reader(certificate.value);
    var tbs := reader.Expect(SEQUENCE);
    if tbs.None? { return None; }
    var both := ReadTbs(tbs.value);
    if both.None? { return None; }
    var name := CommonName(both.value.0, utf8);
    if name.None? { return None; }
    var key := Ed25519Key(both.value.1);
    if key.None? { return None; }
    return Some((key.value, name.value));
  }

  lemma SkipReadsBack(tag: byte, value: Bytes, rest: Bytes)
    requires IsElement(tag, value)
    ensures Skipped(Some(Element(tag, value) + rest), tag) == Some(rest)
  {
    ExpectedReadsBack(tag, value, rest);
  }

  lemma SerialReadsBack(c: Cert)
    requires HasElements(c)
    ensures SkippedToSubject(Some(SerialBytes(c))) == Some(SubjectBytes(c))
  {
    var s3 := Element(SEQUENCE, c.validity) + SubjectBytes(c);
    var s2 := Element(SEQUENCE, c.issuer) + s3;
    var s1 := Element(SEQUENCE, c.signature) + s2;
    SkipReadsBack(INTEGER, c.serial, s1);
    SkipReadsBack(SEQUENCE, c.signature, s2);
    SkipReadsBack(SEQUENCE, c.issuer, s3);
    SkipReadsBack(SEQUENCE, c.validity, SubjectBytes(c));
  }

  lemma VersionReadsBack(c: Cert)
    requires HasElements(c)
    ensures AfterVersion(TbsBytes(c)) == Some(SerialBytes(c))
  {
    if c.version.Some? {
      ElementReadsBack(VERSION, c.version.value, SerialBytes(c));
    } else {
      assert TbsBytes(c)[0] == INTEGER;
    }
  }

  /** Reading a certificate's encoding gives its subject and key. */
  lemma TbsReadsBack(c: Cert)
    requires HasElements(c)
    ensures SubjectAndKey(TbsBytes(c)) == Some((c.subject, c.spki))
  {
    VersionReadsBack(c);
    SerialReadsBack(c);
    ExpectedReadsBack(SEQUENCE, c.subject, Element(SEQUENCE, c.spki) + c.tbsAfter);
    ExpectedReadsBack(SEQUENCE, c.spki, c.tbsAfter);
  }

  /** Of an encoded certificate, the identity is its key and its one common name, or
      nothing. */
  lemma IdentityReadsBack(c: Cert, name: seq<seq<Attribute>>, key: Bytes, utf8: Utf8)
    requires IsCert(c) && IsName(name) && c.subject == NameBody(name)
    requires |key| == 32 && c.spki == KeyBody(key)
    ensures var names := CommonNames(Flat(name));
            IdentityOf(CertBytes(c), utf8)
            == if |names| == 1 && IsText(names[0], utf8) then Some((key, names[0].value)) else None
  {
    var body := Element(SEQUENCE, TbsBytes(c)) + c.after;
    ExpectedReadsBack(SEQUENCE, body, []);
    Empty(CertBytes(c));
    ExpectedReadsBack(SEQUENCE, TbsBytes(c), c.after);
    TbsReadsBack(c);
    CommonNameIsTheOne(name, utf8);
    KeyIsItsEncoding(c.spki, key);
  }

  lemma TbsIsEncoded(tbs: Bytes) returns (c: Cert)
    requires SubjectAndKey(tbs).Some?
    ensures HasElements(c) && TbsBytes(c) == tbs && (c.subject, c.spki) == SubjectAndKey(tbs).value && c.after == []
  {
    var s0 := AfterVersion(tbs).value;
    var (serial, s1) := Expected(s0, INTEGER);
    var (signature, s2) := Expected(s1, SEQUENCE);
    var (issuer, s3) := Expected(s2, SEQUENCE);
    var (validity, s4) := Expected(s3, SEQUENCE);
    var (subject, s5) := Expected(s4, SEQUENCE);
    var (spki, s6) := Expected(s5, SEQUENCE);
    ExpectedIsElement(s0, INTEGER);
    ExpectedIsElement(s1, SEQUENCE);
    ExpectedIsElement(s2, SEQUENCE);
    ExpectedIsElement(s3, SEQUENCE);
    ExpectedIsElement(s4, SEQUENCE);
    ExpectedIsElement(s5, SEQUENCE);
    c := Cert(None, serial.value, signature.value, issuer.value, validity.value, subject.value, spki.value, s6, []);
    assert SerialBytes(c) == s0;
    if tbs != [] && tbs[0] == VERSION {
      AcceptedIsElement(tbs);
      c := c.(version := Some(ReadElement(tbs).value.value));
    }
  }

  /** And nothing else has an identity: the bytes are a certificate's encoding, its
      subject an encoded name with that one common name, its key that key. */
  lemma IdentityIsEncoded(der: Bytes, utf8: Utf8) returns (c: Cert, name: seq<seq<Attribute>>)
    requires IdentityOf(der, utf8).Some?
    ensures var (key, text) := IdentityOf(der, utf8).value;
            && IsCert(c) && der == CertBytes(c)
            && IsName(name) && c.subject == NameBody(name)
            && |CommonNames(Flat(name))| == 1 && CommonNames(Flat(name))[0].value == text
            && |key| == 32 && c.spki == KeyBody(key)
  {
    var (certificate, _) := Expected(der, SEQUENCE);
    ExpectedIsElement(der, SEQUENCE);
    var (tbs, after) := Expected(certificate.value, SEQUENCE);
    ExpectedIsElement(certificate.value, SEQUENCE);
    c := TbsIsEncoded(tbs.value);
    c := c.(after := after);
    Empty(Element(SEQUENCE, certificate.value));
    name := ScannedNameIsEncoded(c.subject, Found(None), utf8);
    CommonNameIsTheOne(name, utf8);
    KeyIsItsEncoding(c.spki, IdentityOf(der, utf8).value.0);
  }
}
