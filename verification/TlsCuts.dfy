/** What a parse of a whole capture shows when the capture was cut anywhere: the version of a
    TLS 1.3 session, and the first certificate of a chain. */
module TlsCuts {
  import opened Bytes
  import opened TlsInfo
  import opened TlsSpec
  import opened TlsNumbers
  import opened TlsPrefix
  import opened TlsTruncation
  import opened TlsWire
  import opened TlsHello

  /** The messages of a capture. */
  function Read(buf: Bytes): seq<Item> { Messages(Collect(buf, 0), 0) }

  lemma {:induction false} CutShape(a: seq<Item>, b: seq<Item>)
    requires Cut(a, b)
    ensures |a| <= |b| && forall i :: 0 <= i < |a| ==> a[i].tag == b[i].tag && a[i].data <= b[i].data
  {
    if |a| > 1 || (a != [] && a[0] == b[0] && Cut(a[1..], b[1..])) {
      CutShape(a[1..], b[1..]);
      assert forall i :: 0 < i < |a| ==> a[i] == a[1..][i - 1] && b[i] == b[1..][i - 1];
    }
  }

  lemma ReadCut(a: Bytes, b: Bytes)
    requires a <= b
    ensures var ma, mb := Read(a), Read(b);
            |ma| <= |mb| && forall i :: 0 <= i < |ma| ==> ma[i].tag == mb[i].tag && ma[i].data <= mb[i].data
  {
    hide Messages, Collect;
    CollectPrefix(a, b, 0);
    MessagesPrefix(Collect(a, 0), Collect(b, 0), 0);
    CutShape(Read(a), Read(b));
  }

  /** One message among others. */
  lemma AroundAt(x509: X509, ms: seq<Item>, h: nat)
    requires h < |ms|
    ensures MessagesDelta(x509, ms)
         == Then(Then(MessagesDelta(x509, ms[..h]), MessageDelta(x509, ms[h])), MessagesDelta(x509, ms[h + 1..]))
  {
    hide MessagesDelta, MessageDelta, Then;
    assert ms == ms[..h] + [ms[h]] + ms[h + 1..];
    MessagesDeltaAround(x509, ms[..h], ms[h], ms[h + 1..]);
  }

  // ---- the version

  /** A ServerHello of TLS 1.3 as section 4.1.3 of RFC 8446 has it: an older legacy version, a
      suite that exists only in TLS 1.3, and the extension that selects it. */
  ghost predicate IsServer13(m: Item) {
    && m.tag == MESSAGE_SERVER_HELLO && SessionEnd(m.data).Some? && SessionEnd(m.data).value + 3 <= |m.data|
    && Be16(m.data[0], m.data[1]) < VERSION_TLS13
    && Be16(m.data[SessionEnd(m.data).value], m.data[SessionEnd(m.data).value + 1]) in SUITES_TLS13
    && SelectsTls13(HelloExts(m))
  }

  /** From every cut of a capture whose one hello is a ServerHello of TLS 1.3, the version shown
      is TLS 1.3 as soon as the compression byte is there, the legacy version as soon as that is
      there, and none before. */
  lemma VersionAtEveryCut(x509: X509, a: Bytes, b: Bytes, h: nat)
    requires a <= b && h < |Read(b)| && IsServer13(Read(b)[h])
    requires forall i :: 0 <= i < |Read(b)| && i != h ==> !IsHello(Read(b)[i])
    ensures var n := if h < |Read(a)| then |Read(a)[h].data| else 0;
            var body := Read(b)[h].data;
            ParseInfo(x509, a, EMPTY_INFO).negVersion
            == if n < 2 then 0 else if n < SessionEnd(body).value + 3 then Be16(body[0], body[1]) else VERSION_TLS13
  {
    hide Read, MessagesDelta, SessionEnd, SelectsTls13, HelloExts, MessageDelta, Then;
    var ma, mb := Read(a), Read(b);
    ReadCut(a, b);
    ReadDelta(x509, a);
    if h < |ma| {
      var n := |ma[h].data|;
      assert ma[h].data == mb[h].data[..n];
      AroundAt(x509, ma, h);
      NoHelloOnlyCert(x509, ma[..h]);
      NoHelloOnlyCert(x509, ma[h + 1..]);
      Tls13AtEveryCut(mb[h].data, n);
      NegAmong(MessagesDelta(x509, ma[..h]), MessageDelta(x509, ma[h]), MessagesDelta(x509, ma[h + 1..]));
      ServerMessage(x509, ma[h]);
    } else {
      NoHelloOnlyCert(x509, ma);
    }
  }

  lemma ReadDelta(x509: X509, a: Bytes)
    ensures ParseInfo(x509, a, EMPTY_INFO) == Act(MessagesDelta(x509, Read(a)), EMPTY_INFO)
  {
  }

  lemma ServerMessage(x509: X509, m: Item)
    requires m.tag == MESSAGE_SERVER_HELLO
    ensures MessageDelta(x509, m) == ServerHelloDelta(m.data)
  {
  }

  lemma NegAmong(c: Delta, d: Delta, e: Delta)
    requires OnlyCert(c) && OnlyCert(e)
    ensures Then(Then(c, d), e).neg == d.neg
  {
  }

  // ---- certificates

  /** The subject's common name or else its first organization, the issuer's common name, the DNS
      names, and the name of the signature algorithm less a dash at its end. */
  ghost predicate Describes(f: CertFields, c: X509Cert) {
    && f.subject == (if c.commonName != "" || c.organization == [] then c.commonName else c.organization[0])
    && f.issuer == c.issuerCommonName && f.sans == c.dnsNames
    && (if exists s :: c.signatureAlgorithm == s + "-" then f.sigAlg + "-" == c.signatureAlgorithm
        else f.sigAlg == c.signatureAlgorithm)
  }

  lemma Described(c: X509Cert)
    ensures Describes(CertFieldsOf(c), c)
  {
    hide TrimDash;
    Dashed(c.signatureAlgorithm);
  }

  lemma Dashed(name: string)
    ensures if exists s :: name == s + "-" then TrimDash(name) + "-" == name else TrimDash(name) == name
  {
    if s :| name == s + "-" {
      assert name[|name| - 1] == '-' && name[..|name| - 1] == s;
    } else if |name| > 0 && name[|name| - 1] == '-' {
      assert name == name[..|name| - 1] + "-";
    }
  }

  /** A chain that is shorter than one length, or whose first certificate is empty, says nothing,
      whatever follows it. */
  lemma EmptyChain(x509: X509, n: nat, rest: Bytes)
    requires n < 0x100_0000
    ensures n < 3 ==> CertificateDelta(x509, PutBe24(n) + rest) == NOP
    ensures CertificateDelta(x509, PutBe24(n) + (PutBe24(0) + rest)) == NOP
  {
    hide PutBe24, Be24;
    var a, b := PutBe24(n) + rest, PutBe24(n) + (PutBe24(0) + rest);
    assert Be24(a[0], a[1], a[2]) == n && Be24(b[0], b[1], b[2]) == n && Be24(b[3], b[4], b[5]) == 0;
  }

  /** From every cut of a capture with one certificate chain among messages that are passed over,
      the first certificate is shown as soon as it is all there, and nothing before. */
  lemma CertificateAtEveryCut(x509: X509, a: Bytes, buf: Bytes, ders: seq<Bytes>, pre: seq<Item>, post: seq<Item>,
                              rs: seq<Record>, tail: Bytes)
    requires CertsFit(ders) && ders != [] && ders[0] != [] && PassedOver(pre) && PassedOver(post)
    requires a <= buf && Carries(buf, pre + [Item(MESSAGE_CERTIFICATE, PutChain(ders))] + post, rs, tail)
    ensures var n := if |pre| < |Read(a)| then |Read(a)[|pre|].data| else 0;
            var i := ParseInfo(x509, a, EMPTY_INFO);
            if n < 6 + |ders[0]| || x509(ders[0]).None? then i == EMPTY_INFO
            else i == EMPTY_INFO.(hasCert := true, cert := i.cert) && Describes(i.cert, x509(ders[0]).value)
    ensures a == buf ==> |pre| < |Read(a)| && |Read(a)[|pre|].data| >= 6 + |ders[0]|
  {
    hide Messages, Collect, MessagesDelta, MessageDelta, Then, Carries, PutBe24, PutChain, PutCerts, CertFieldsOf,
      CertificateDelta;
    var h, m := |pre|, Item(MESSAGE_CERTIFICATE, PutChain(ders));
    var ma, mb := Read(a), pre + [m] + post;
    CarriedMessages(buf, mb, rs, tail);
    assert Read(buf) == mb;
    ReadCut(a, buf);
    ReadDelta(x509, a);
    ChainLength(ders);
    assert forall i :: 0 <= i < |pre| ==> mb[i] == pre[i];
    assert forall i :: 0 <= i < |post| ==> mb[h + 1 + i] == post[i];
    if h < |ma| {
      var n := |ma[h].data|;
      assert ma[h].data == PutChain(ders)[..n];
      AroundAt(x509, ma, h);
      PassedCut(ma[..h], pre);
      PassedCut(ma[h + 1..], post);
      PassedOverNop(x509, ma[..h]);
      PassedOverNop(x509, ma[h + 1..]);
      CertificateRoundTrip(x509, ders, n);
      CertificateMessage(x509, ma[h]);
      if x509(ders[0]).Some? {
        Described(x509(ders[0]).value);
      }
      ThenNop(MessageDelta(x509, ma[h]));
    } else {
      PassedCut(ma, pre);
      PassedOverNop(x509, ma);
    }
    assert Act(NOP, EMPTY_INFO) == EMPTY_INFO;
  }

  lemma PassedCut(a: seq<Item>, b: seq<Item>)
    requires PassedOver(b) && |a| <= |b| && forall i :: 0 <= i < |a| ==> a[i].tag == b[i].tag
    ensures PassedOver(a)
  {
    forall m | m in a
      ensures exists k :: k in b && k.tag == m.tag
    {
      var i :| 0 <= i < |a| && a[i] == m;
      assert b[i] in b;
    }
  }

  lemma ChainLength(ders: seq<Bytes>)
    requires CertsFit(ders) && ders != []
    ensures |PutChain(ders)| >= 6 + |ders[0]|
  {
  }

  lemma CertificateMessage(x509: X509, m: Item)
    requires m.tag == MESSAGE_CERTIFICATE
    ensures MessageDelta(x509, m) == CertificateDelta(x509, m.data)
  {
  }
}
