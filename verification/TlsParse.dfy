/** The handshake parser as it runs: a cursor that is advanced, loops over buffers, and an
    `Info` that is written in place.  Every method is proved to make exactly the update that
    `TlsSpec` gives for its input, for every byte string, however truncated. */
module TlsParse {
  import opened Bytes
  import opened TlsInfo
  import opened TlsSpec

  /** What one connection's handshake has told us; updated in place. */
  class Info {
    var hasClientHello: bool
    var hasServerHello: bool
    var hasCert: bool
    var sni: Name
    var alpn: seq<Name>
    var clientVersion: u16
    var negVersion: u16
    var cipherSuite: u16
    var group: u16
    var offeredSigs: seq<u16>
    var certSubject: string
    var certIssuer: string
    var certSans: seq<string>
    var certSigAlg: string

    function View(): InfoV
      reads this
    {
      InfoV(hasClientHello, hasServerHello, hasCert, sni, alpn, clientVersion, negVersion,
            cipherSuite, group, offeredSigs, CertFields(certSubject, certIssuer, certSans, certSigAlg))
    }

    constructor From(i: InfoV)
      ensures View() == i
    {
      hasClientHello, hasServerHello, hasCert := i.hasClientHello, i.hasServerHello, i.hasCert;
      sni, alpn, clientVersion, negVersion := i.sni, i.alpn, i.clientVersion, i.negVersion;
      cipherSuite, group, offeredSigs := i.cipherSuite, i.group, i.offeredSigs;
      certSubject, certIssuer, certSans, certSigAlg := i.cert.subject, i.cert.issuer, i.cert.sans, i.cert.sigAlg;
    }
  }

  /** A position in a byte string; reading moves it, and reading what is not there fails. */
  class Reader {
    const b: Bytes
    var off: nat

    ghost predicate Valid()
      reads this
    {
      off <= |b|
    }

    constructor (b: Bytes)
      ensures Valid() && off == 0 && this.b == b
    {
      this.b := b;
      off := 0;
    }

    method U8() returns (v: byte, ok: bool)
      requires Valid()
      modifies this
      ensures Valid() && ok == (old(off) + 1 <= |b|)
      ensures if ok then v == b[old(off)] && off == old(off) + 1 else v == 0 && off == old(off)
    {
      if off + 1 > |b| {
        return 0, false;
      }
      v := b[off];
      off := off + 1;
      ok := true;
    }

    method U16() returns (v: u16, ok: bool)
      requires Valid()
      modifies this
      ensures Valid() && ok == (old(off) + 2 <= |b|)
      ensures if ok then v == Be16(b[old(off)], b[old(off) + 1]) && off == old(off) + 2 else v == 0 && off == old(off)
    {
      if off + 2 > |b| {
        return 0, false;
      }
      v := Be16(b[off], b[off + 1]);
      off := off + 2;
      ok := true;
    }

    method U24() returns (v: nat, ok: bool)
      requires Valid()
      modifies this
      ensures Valid() && ok == (old(off) + 3 <= |b|)
      ensures if ok then v == Be24(b[old(off)], b[old(off) + 1], b[old(off) + 2]) && off == old(off) + 3
              else v == 0 && off == old(off)
    {
      if off + 3 > |b| {
        return 0, false;
      }
      v := Be24(b[off], b[off + 1], b[off + 2]);
      off := off + 3;
      ok := true;
    }

    method Take(n: nat) returns (v: Bytes, ok: bool)
      requires Valid()
      modifies this
      ensures Valid() && ok == (old(off) + n <= |b|)
      ensures if ok then v == b[old(off)..old(off) + n] && off == old(off) + n else v == [] && off == old(off)
    {
      if off + n > |b| {
        return [], false;
      }
      v := b[off..off + n];
      off := off + n;
      ok := true;
    }

    /** A skip past the end leaves the cursor at the end, so every later read fails. */
    method Skip(n: nat) returns (ok: bool)
      requires Valid()
      modifies this
      ensures Valid() && ok == (old(off) + n <= |b|)
      ensures off == if ok then old(off) + n else |b|
    {
      if off + n > |b| {
        off := |b|;
        return false;
      }
      off := off + n;
      ok := true;
    }

    method SkipVec() returns (ok: bool)
      requires Valid()
      modifies this
      ensures Valid() && ok == SkipVec8(b, old(off)).Some?
      ensures ok ==> off == SkipVec8(b, old(off)).value
    {
      var l, ok8 := U8();
      if !ok8 {
        return false;
      }
      ok := Skip(l);
    }
  }

  // ---- lists inside extensions

  method ParseSni(b: Bytes) returns (name: Name)
    ensures name == SniOf(b)
  {
    if |b| < 2 {
      return [];
    }
    var r := new Reader(b);
    var listLen, _ := r.U16();
    var end := r.off + listLen;
    while r.off + 3 <= end && r.off + 3 <= |r.b|
      invariant r.Valid() && r.b == b && fresh(r)
      invariant ScanSni(b, r.off, end) == ScanSni(b, 2, end)
      decreases |b| - r.off
    {
      var ntype, _ := r.U8();
      var nlen, _ := r.U16();
      var entry, ok := r.Take(nlen);
      if !ok {
        return [];
      }
      if ntype == 0 {
        return entry;
      }
    }
    return [];
  }

  method ParseAlpn(b: Bytes) returns (out: seq<Name>)
    ensures out == AlpnOf(b)
  {
    out := [];
    if |b| < 2 {
      return;
    }
    var r := new Reader(b);
    var listLen, _ := r.U16();
    out := AlpnNames(r, b, r.off + listLen);
  }

  method AlpnNames(r: Reader, b: Bytes, end: int) returns (out: seq<Name>)
    requires r.Valid() && r.b == b && r.off == 2
    modifies r
    ensures out == ScanAlpn(b, 2, end)
  {
    hide ScanAlpn;
    out := [];
    while r.off + 1 <= end && r.off < |r.b|
      invariant r.Valid() && r.b == b
      invariant out + ScanAlpn(b, r.off, end) == ScanAlpn(b, 2, end)
      decreases |b| - r.off
    {
      AlpnNext(b, r.off, end, out);
      var l, _ := r.U8();
      var name, ok := r.Take(l);
      if !ok {
        return;
      }
      out := out + [name];
    }
    AlpnNext(b, r.off, end, out);
  }

  /** One round of the name loop. */
  lemma AlpnNext(b: Bytes, off: nat, end: int, out: seq<Name>)
    ensures off + 1 > end || off >= |b| || off + 1 + b[off] > |b| ==> out + ScanAlpn(b, off, end) == out
    ensures off + 1 <= end && off < |b| && off + 1 + b[off] <= |b| ==>
              out + ScanAlpn(b, off, end) == out + [b[off + 1..off + 1 + b[off]]] + ScanAlpn(b, off + 1 + b[off], end)
  {
  }

  method ParseU16List(b: Bytes) returns (out: seq<u16>)
    ensures out == U16sOf(b)
  {
    out := [];
    if |b| < 2 {
      return;
    }
    var r := new Reader(b);
    var l, _ := r.U16();
    var end := r.off + l;
    while r.off + 2 <= end && r.off + 2 <= |r.b|
      invariant r.Valid() && r.b == b && fresh(r)
      invariant out + ScanU16s(b, r.off, end) == ScanU16s(b, 2, end)
      decreases |b| - r.off
    {
      var v, _ := r.U16();
      AppendAssoc(out, [v], ScanU16s(b, r.off, end));
      out := out + [v];
    }
  }

  // ---- extensions

  method HandleExtension(etype: u16, data: Bytes, info: Info, server: bool)
    modifies info
    ensures info.View() == Act(ExtDelta(Item(etype, data), server), old(info.View()))
  {
    if etype == EXT_SERVER_NAME {
      if !server {
        var s := ParseSni(data);
        if s != [] {
          info.sni := s;
        }
      }
    } else if etype == EXT_SIGNATURE_ALGORITHMS {
      if !server {
        info.offeredSigs := ParseU16List(data);
      }
    } else if etype == EXT_ALPN {
      info.alpn := ParseAlpn(data);
    } else if etype == EXT_SUPPORTED_VERSIONS {
      if server && |data| >= 2 {
        info.negVersion := Be16(data[0], data[1]);
      }
    } else if etype == EXT_KEY_SHARE {
      if server && |data| >= 2 {
        info.group := Be16(data[0], data[1]);
      }
    }
  }

  /** What is known once the extensions from `off` on are folded into `i`. */
  ghost function After(b: Bytes, off: nat, end: int, server: bool, i: InfoV): InfoV {
    Act(ExtsDelta(Walk(b, off, end), server), i)
  }

  method ParseExtensions(r: Reader, info: Info, server: bool)
    requires r.Valid()
    modifies r, info
    ensures r.Valid()
    ensures info.View() == Act(ExtsDelta(BlockExts(r.b, old(r.off)), server), old(info.View()))
  {
    var extLen, ok := r.U16();
    if ok {
      WalkExtensions(r, r.off + extLen, info, server);
    }
  }

  method WalkExtensions(r: Reader, end: nat, info: Info, server: bool)
    requires r.Valid()
    modifies r, info
    ensures r.Valid()
    ensures info.View() == After(r.b, old(r.off), end, server, old(info.View()))
  {
    hide After;
    ghost var goal := After(r.b, r.off, end, server, info.View());
    while r.off + 4 <= end && r.off + 4 <= |r.b|
      invariant r.Valid()
      invariant After(r.b, r.off, end, server, info.View()) == goal
      decreases |r.b| - r.off
    {
      var cut := NextExtension(r, end, info, server);
      if cut {
        return;
      }
    }
    AfterEnd(r.b, r.off, end, server, info.View());
  }

  /** One round of the extension loop; `cut` when the capture ended inside the extension. */
  method NextExtension(r: Reader, ghost end: nat, info: Info, server: bool) returns (cut: bool)
    requires r.Valid() && r.off + 4 <= end && r.off + 4 <= |r.b|
    modifies r, info
    ensures r.Valid() && r.off > old(r.off)
    ensures After(r.b, old(r.off), end, server, old(info.View()))
         == if cut then info.View() else After(r.b, r.off, end, server, info.View())
  {
    ghost var b, off, before := r.b, r.off, info.View();
    var etype, _ := r.U16();
    var elen, _ := r.U16();
    var data, got := r.Take(elen);
    if !got {
      // use what there is of this extension, and stop
      AfterCut(b, off, end, server, before);
      HandleExtension(etype, r.b[r.off..], info, server);
      return true;
    }
    AfterNext(b, off, end, server, before);
    HandleExtension(etype, data, info, server);
    return false;
  }

  /** One round of the extension loop, on an extension cut short ... */
  lemma AfterCut(b: Bytes, off: nat, end: int, server: bool, i: InfoV)
    requires off + 4 <= end && off + 4 <= |b| < off + 4 + Be16(b[off + 2], b[off + 3])
    ensures After(b, off, end, server, i) == Act(ExtDelta(Item(Be16(b[off], b[off + 1]), b[off + 4..]), server), i)
  {
    ExtsDeltaCons(Item(Be16(b[off], b[off + 1]), b[off + 4..]), [], server, i);
  }

  /** ... and on a complete one. */
  lemma AfterNext(b: Bytes, off: nat, end: int, server: bool, i: InfoV)
    requires off + 4 <= end && off + 4 <= |b| && off + 4 + Be16(b[off + 2], b[off + 3]) <= |b|
    ensures var stop := off + 4 + Be16(b[off + 2], b[off + 3]);
            After(b, off, end, server, i)
            == After(b, stop, end, server, Act(ExtDelta(Item(Be16(b[off], b[off + 1]), b[off + 4..stop]), server), i))
  {
    var stop := off + 4 + Be16(b[off + 2], b[off + 3]);
    ExtsDeltaCons(Item(Be16(b[off], b[off + 1]), b[off + 4..stop]), Walk(b, stop, end), server, i);
  }

  lemma AfterEnd(b: Bytes, off: nat, end: int, server: bool, i: InfoV)
    requires off + 4 > end || off + 4 > |b|
    ensures After(b, off, end, server, i) == i
  {
  }

  lemma ExtsDeltaCons(e: Item, rest: seq<Item>, server: bool, i: InfoV)
    ensures Act(ExtsDelta([e] + rest, server), i) == Act(ExtsDelta(rest, server), Act(ExtDelta(e, server), i))
    ensures Act(ExtsDelta([e], server), i) == Act(ExtDelta(e, server), i)
  {
    assert ([e] + rest)[1..] == rest && [e][1..] == [];
    ActThen(ExtDelta(e, server), ExtsDelta(rest, server), i);
    ThenNop(ExtDelta(e, server));
  }

  // ---- handshake messages

  /** Skips random and session id. */
  method SkipSession(r: Reader) returns (ok: bool)
    requires r.Valid() && r.off == 2
    modifies r
    ensures r.Valid() && ok == SessionEnd(r.b).Some?
    ensures ok ==> r.off == SessionEnd(r.b).value
  {
    ok := r.Skip(32); // random
    if ok {
      ok := r.SkipVec(); // session id
    }
  }

  /** Skips cipher suites and compression methods.  The result of skipping the suites is not
      looked at: past the end, the next read fails. */
  method SkipOffer(r: Reader) returns (ok: bool)
    requires r.Valid() && SessionEnd(r.b) == Some(r.off)
    modifies r
    ensures r.Valid() && ok == OfferEnd(r.b).Some?
    ensures ok ==> r.off == OfferEnd(r.b).value
  {
    var csLen;
    csLen, ok := r.U16();
    if ok {
      var _ := r.Skip(csLen);
      ok := r.SkipVec(); // compression methods
    }
  }

  method ParseClientHello(b: Bytes, info: Info)
    modifies info
    ensures info.View() == Act(ClientHelloDelta(b), old(info.View()))
  {
    hide SessionEnd, BlockExts, ExtsDelta;
    var r := new Reader(b);
    var ver, ok := r.U16();
    if !ok {
      return;
    }
    info.hasClientHello := true;
    info.clientVersion := ver;
    if info.negVersion == 0 {
      info.negVersion := ver;
    }
    ghost var head := NOP.(clientHello := true, clientVersion := Some(ver), neg := IfZero(ver));
    assert info.View() == Act(head, old(info.View()));
    ok := SkipSession(r);
    if !ok {
      return;
    }
    ok := SkipOffer(r);
    if !ok {
      return;
    }
    ActThen(head, ExtsDelta(BlockExts(b, r.off), false), old(info.View()));
    ParseExtensions(r, info, false);
  }

  lemma ResolveAct(d: Delta, suite: u16, i: InfoV)
    requires d.neg.Always?
    ensures Act(d.(neg := Always(Resolve13(d.neg.v, suite))), i)
         == Act(d, i).(negVersion := Resolve13(Act(d, i).negVersion, suite))
  {
  }

  /** What a ServerHello writes before its session id, and before its compression byte. */
  function HeadDelta(ver: u16): Delta { NOP.(serverHello := true, neg := Always(ver)) }

  function SuiteDelta(ver: u16, cs: u16): Delta { HeadDelta(ver).(cipher := Some(cs)) }

  lemma SuiteAct(ver: u16, cs: u16, i: InfoV)
    ensures Act(SuiteDelta(ver, cs), i) == Act(HeadDelta(ver), i).(cipherSuite := cs)
  {
  }

  lemma ExtsAct(ver: u16, cs: u16, es: seq<Item>, i: InfoV)
    ensures var d := Then(SuiteDelta(ver, cs), ExtsDelta(es, true));
            var j := Act(ExtsDelta(es, true), Act(SuiteDelta(ver, cs), i));
            Act(d.(neg := Always(Resolve13(d.neg.v, cs))), i) == j.(negVersion := Resolve13(j.negVersion, cs))
  {
    hide ExtsDelta, Act;
    ActThen(SuiteDelta(ver, cs), ExtsDelta(es, true), i);
    ResolveAct(Then(SuiteDelta(ver, cs), ExtsDelta(es, true)), cs, i);
  }

  method ParseServerHello(b: Bytes, info: Info)
    modifies info
    ensures info.View() == Act(ServerHelloDelta(b), old(info.View()))
  {
    hide SessionEnd, BlockExts, ExtsDelta, Act, Info.View;
    ActNop(info.View());
    var r := new Reader(b);
    var ver, ok := r.U16();
    if !ok {
      return;
    }
    SetHello(ver, info);
    ok := SkipSession(r);
    if !ok {
      return;
    }
    ghost var i := old(info.View());
    var cs;
    cs, ok := r.U16();
    if !ok {
      return;
    }
    SetSuite(ver, cs, info, i);
    var _, gotCompression := r.U8();
    if !gotCompression {
      return;
    }
    ExtsAct(ver, cs, BlockExts(b, r.off), i);
    FinishServerHello(r, cs, info);
  }

  lemma ActNop(i: InfoV)
    ensures Act(NOP, i) == i
  {
  }

  method SetHello(ver: u16, info: Info)
    modifies info
    ensures info.View() == Act(HeadDelta(ver), old(info.View()))
  {
    info.hasServerHello := true;
    info.negVersion := ver;
  }

  method SetSuite(ver: u16, cs: u16, info: Info, ghost i: InfoV)
    requires info.View() == Act(HeadDelta(ver), i)
    modifies info
    ensures info.View() == Act(SuiteDelta(ver, cs), i)
  {
    hide Act;
    SuiteAct(ver, cs, i);
    info.cipherSuite := cs;
  }

  /** The rest of the hello.  The last word on the version is the suite's, where only TLS 1.3 has
      it: a cut capture may hold the suite and not the extension that selects the version. */
  method FinishServerHello(r: Reader, cs: u16, info: Info)
    requires r.Valid()
    modifies r, info
    ensures var i := Act(ExtsDelta(BlockExts(r.b, old(r.off)), true), old(info.View()));
            info.View() == i.(negVersion := Resolve13(i.negVersion, cs))
  {
    ParseExtensions(r, info, true);
    if info.negVersion < TLS13 && IsTls13Cipher(cs) {
      info.negVersion := TLS13;
    }
  }

  /** The DER bytes of the first certificate; empty when they are not all there. */
  method TakeDer(b: Bytes) returns (der: Bytes)
    ensures der == if FirstDer(b).Some? then FirstDer(b).value else []
    ensures FirstDer(b).Some? ==> |der| > 0
  {
    if |b| < 3 {
      return [];
    }
    var r := new Reader(b);
    var total, _ := r.U24();
    var end := r.off + total;
    if end > |b| {
      end := |b|;
    }
    if r.off + 3 > end {
      return [];
    }
    var clen, _ := r.U24();
    var ok;
    der, ok := r.Take(clen);
  }

  method ParseCertificate(x509: X509, b: Bytes, info: Info)
    modifies info
    ensures info.View() == Act(CertificateDelta(x509, b), old(info.View()))
  {
    var der := TakeDer(b);
    if |der| == 0 {
      return;
    }
    var parsed := x509(der);
    if parsed.None? {
      return;
    }
    StoreCertificate(parsed.value, info);
  }

  method StoreCertificate(cert: X509Cert, info: Info)
    modifies info
    ensures info.View() == Act(NOP.(cert := Some(CertFieldsOf(cert))), old(info.View()))
  {
    info.hasCert := true;
    StoreSubject(cert, info);
    info.certIssuer := cert.issuerCommonName;
    info.certSans := cert.dnsNames;
    info.certSigAlg := TrimDash(cert.signatureAlgorithm);
  }

  method StoreSubject(cert: X509Cert, info: Info)
    modifies info`certSubject
    ensures info.certSubject == CertFieldsOf(cert).subject
  {
    info.certSubject := cert.commonName;
    if info.certSubject == "" && |cert.organization| > 0 {
      info.certSubject := cert.organization[0];
    }
  }

  // ---- streams and buffers

  method CollectHandshake(buf: Bytes) returns (out: Bytes)
    ensures out == Collect(buf, 0)
  {
    hide Collect;
    out := [];
    var p := 0;
    while p + 5 <= |buf|
      invariant p <= |buf|
      invariant out + Collect(buf, p) == Collect(buf, 0)
      decreases |buf| - p
    {
      CollectNext(buf, p, out);
      var ct := buf[p];
      var length := Be16(buf[p + 3], buf[p + 4]);
      if ct != CT_HANDSHAKE {
        break;
      }
      var start := p + 5;
      var end := start + length;
      if end > |buf| {
        end := |buf|;
      }
      out := out + buf[start..end];
      if end != start + length {
        return;
      }
      p := end;
    }
    CollectNext(buf, p, out);
  }

  /** One round of the record loop. */
  lemma CollectNext(buf: Bytes, p: nat, out: Bytes)
    requires p <= |buf|
    ensures p + 5 > |buf| || buf[p] != CT_HANDSHAKE ==> out + Collect(buf, p) == out
    ensures p + 5 <= |buf| && buf[p] == CT_HANDSHAKE ==>
              var stop := p + 5 + Be16(buf[p + 3], buf[p + 4]);
              out + Collect(buf, p)
              == if stop > |buf| then out + buf[p + 5..|buf|] else out + buf[p + 5..stop] + Collect(buf, stop)
  {
    hide Collect, Be16;
    CollectAt(buf, p);
    if p + 5 <= |buf| && p + 5 + Be16(buf[p + 3], buf[p + 4]) <= |buf| {
      var stop := p + 5 + Be16(buf[p + 3], buf[p + 4]);
      AppendAssoc(out, buf[p + 5..stop], Collect(buf, stop));
    }
  }

  method ParseHandshakeStream(x509: X509, s: Bytes, info: Info)
    modifies info
    ensures info.View() == Act(MessagesDelta(x509, Messages(s, 0)), old(info.View()))
  {
    hide Act, Messages, MessagesDelta, MessageDelta;
    var p := 0;
    while p + 4 <= |s|
      invariant p <= |s|
      invariant Act(MessagesDelta(x509, Messages(s, p)), info.View())
             == Act(MessagesDelta(x509, Messages(s, 0)), old(info.View()))
      decreases |s| - p
    {
      MessagesNext(x509, s, p, info.View());
      var mtype := s[p];
      var mlen := Be24(s[p + 1], s[p + 2], s[p + 3]);
      var body := s[p + 4..];
      if mlen > |body| {
        mlen := |body|;
      }
      body := body[..mlen];
      assert body == s[p + 4..p + 4 + mlen];
      ParseMessage(x509, mtype, body, info);
      p := p + 4 + mlen;
    }
    MessagesEnd(x509, s, p, info.View());
  }

  lemma MessagesEnd(x509: X509, s: Bytes, p: nat, i: InfoV)
    requires p + 4 > |s|
    ensures Act(MessagesDelta(x509, Messages(s, p)), i) == i
  {
  }

  /** The dispatch on the message type. */
  method ParseMessage(x509: X509, mtype: byte, body: Bytes, info: Info)
    modifies info
    ensures info.View() == Act(MessageDelta(x509, Item(mtype, body)), old(info.View()))
  {
    if mtype == HS_CLIENT_HELLO {
      ParseClientHello(body, info);
    } else if mtype == HS_SERVER_HELLO {
      ParseServerHello(body, info);
    } else if mtype == HS_CERTIFICATE {
      ParseCertificate(x509, body, info);
    }
  }

  /** One round of the message loop. */
  lemma MessagesNext(x509: X509, s: Bytes, p: nat, i: InfoV)
    requires p + 4 <= |s|
    ensures var stop := Min(p + 4 + Be24(s[p + 1], s[p + 2], s[p + 3]), |s|);
            Act(MessagesDelta(x509, Messages(s, p)), i)
            == Act(MessagesDelta(x509, Messages(s, stop)), Act(MessageDelta(x509, Item(s[p], s[p + 4..stop])), i))
  {
    var stop := Min(p + 4 + Be24(s[p + 1], s[p + 2], s[p + 3]), |s|);
    hide Messages, MessagesDelta, MessageDelta, Act, Be24;
    var m, rest := Item(s[p], s[p + 4..stop]), Messages(s, stop);
    MessagesAt(s, p);
    MessagesAt(s, stop);
    assert s[p + 4..|s|] == s[p + 4..] && [m] + [] == [m];
    assert Messages(s, p) == [m] + rest;
    FirstMessage(x509, m, rest);
    ActThen(MessageDelta(x509, m), MessagesDelta(x509, rest), i);
  }

  lemma FirstMessage(x509: X509, m: Item, rest: seq<Item>)
    ensures MessagesDelta(x509, [m] + rest) == Then(MessageDelta(x509, m), MessagesDelta(x509, rest))
  {
    hide MessageDelta;
    assert ([m] + rest)[1..] == rest;
  }

  /** Folds everything a captured buffer shows into `info`. */
  method Parse(x509: X509, buf: Bytes, info: Info)
    modifies info
    ensures info.View() == ParseInfo(x509, buf, old(info.View()))
  {
    var stream := CollectHandshake(buf);
    if |stream| == 0 {
      return;
    }
    ParseHandshakeStream(x509, stream, info);
  }
}
