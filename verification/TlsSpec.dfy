/** What a parse of captured bytes means: the items each layer frames, and the update
    (`Delta`) each item stands for.  The imperative parser is proved against these. */
module TlsSpec {
  import opened Bytes
  import opened TlsInfo

  const CT_HANDSHAKE := 22
  const HS_CLIENT_HELLO := 1
  const HS_SERVER_HELLO := 2
  const HS_CERTIFICATE := 11

  const EXT_SERVER_NAME := 0
  const EXT_SIGNATURE_ALGORITHMS := 13
  const EXT_ALPN := 16
  const EXT_SUPPORTED_VERSIONS := 43
  const EXT_KEY_SHARE := 51

  const TLS13: u16 := 0x0304

  /** A tagged byte string: a handshake message, or a hello extension. */
  datatype Item = Item(tag: u16, data: Bytes)

  /** What `x509.ParseCertificate` reads out of one DER certificate. */
  datatype X509Cert = X509Cert(
    commonName: string,
    organization: seq<string>,
    issuerCommonName: string,
    dnsNames: seq<string>,
    signatureAlgorithm: string)

  /** The X.509 decoder is foreign code: every result below holds for any such function. */
  type X509 = Bytes -> Option<X509Cert>

  // Every layer is read at an offset into a fixed byte string, as the cursor of the parser
  // does it: `off` is where to go on reading, `end` where the declared length says to stop.

  // ---- record layer (section 5.1 of RFC 8446)

  /** The payloads of the leading handshake records from `p` on, joined; the last one may be
      cut short. */
  function Collect(buf: Bytes, p: nat): Bytes
    decreases |buf| - p
  {
    if p + 5 > |buf| || buf[p] != CT_HANDSHAKE then []
    else
      var stop := p + 5 + Be16(buf[p + 3], buf[p + 4]);
      if stop > |buf| then buf[p + 5..] else buf[p + 5..stop] + Collect(buf, stop)
  }

  lemma CollectAt(buf: Bytes, p: nat)
    ensures p + 5 > |buf| || buf[p] != CT_HANDSHAKE ==> Collect(buf, p) == []
    ensures p + 5 <= |buf| && buf[p] == CT_HANDSHAKE ==>
              var stop := p + 5 + Be16(buf[p + 3], buf[p + 4]);
              Collect(buf, p) == if stop > |buf| then buf[p + 5..] else buf[p + 5..stop] + Collect(buf, stop)
  {
  }

  // ---- handshake messages (section 4 of RFC 8446)

  /** The messages of a handshake stream; the last one may be cut short. */
  function Messages(s: Bytes, p: nat): seq<Item>
    decreases |s| - p
  {
    if p + 4 > |s| then []
    else
      var stop := p + 4 + Be24(s[p + 1], s[p + 2], s[p + 3]);
      if stop > |s| then [Item(s[p], s[p + 4..])]
      else [Item(s[p], s[p + 4..stop])] + Messages(s, stop)
  }

  lemma MessagesAt(s: Bytes, p: nat)
    ensures p + 4 > |s| ==> Messages(s, p) == []
    ensures p + 4 <= |s| ==>
              var stop := p + 4 + Be24(s[p + 1], s[p + 2], s[p + 3]);
              Messages(s, p) == if stop > |s| then [Item(s[p], s[p + 4..])]
                  else [Item(s[p], s[p + 4..stop])] + Messages(s, stop)
  {
  }

  // ---- extensions (section 4.2 of RFC 8446)

  /** The extensions of a block; the last one may be cut short. */
  function Walk(b: Bytes, off: nat, end: int): seq<Item>
    decreases |b| - off
  {
    if off + 4 > end || off + 4 > |b| then []
    else
      var tag, stop := Be16(b[off], b[off + 1]), off + 4 + Be16(b[off + 2], b[off + 3]);
      if stop > |b| then [Item(tag, b[off + 4..])]
      else [Item(tag, b[off + 4..stop])] + Walk(b, stop, end)
  }

  lemma WalkAt(b: Bytes, off: nat, end: int)
    ensures off + 4 > end || off + 4 > |b| ==> Walk(b, off, end) == []
    ensures off + 4 <= end && off + 4 <= |b| ==>
              var tag, stop := Be16(b[off], b[off + 1]), off + 4 + Be16(b[off + 2], b[off + 3]);
              Walk(b, off, end) == if stop > |b| then [Item(tag, b[off + 4..])]
                  else [Item(tag, b[off + 4..stop])] + Walk(b, stop, end)
  {
  }

  /** The extensions of a block that starts with its own length. */
  function BlockExts(b: Bytes, off: nat): seq<Item> {
    if off + 2 > |b| then [] else Walk(b, off + 2, off + 2 + Be16(b[off], b[off + 1]))
  }

  /** Section 3 of RFC 6066: the first entry of type host_name, empty when there is none. */
  function ScanSni(b: Bytes, off: nat, end: int): Name
    decreases |b| - off
  {
    if off + 3 > end || off + 3 > |b| then []
    else
      var stop := off + 3 + Be16(b[off + 1], b[off + 2]);
      if stop > |b| then []
      else if b[off] == 0 then b[off + 3..stop]
      else ScanSni(b, stop, end)
  }

  lemma ScanSniAt(b: Bytes, off: nat, end: int)
    ensures off + 3 > end || off + 3 > |b| ==> ScanSni(b, off, end) == []
    ensures off + 3 <= end && off + 3 <= |b| ==>
              var stop := off + 3 + Be16(b[off + 1], b[off + 2]);
              ScanSni(b, off, end) == if stop > |b| then [] else if b[off] == 0 then b[off + 3..stop]
                  else ScanSni(b, stop, end)
  {
  }

  function SniOf(b: Bytes): Name {
    if |b| < 2 then [] else ScanSni(b, 2, 2 + Be16(b[0], b[1]))
  }

  /** Section 3.1 of RFC 7301: the complete protocol names. */
  function ScanAlpn(b: Bytes, off: nat, end: int): seq<Name>
    decreases |b| - off
  {
    if off + 1 > end || off >= |b| || off + 1 + b[off] > |b| then []
    else [b[off + 1..off + 1 + b[off]]] + ScanAlpn(b, off + 1 + b[off], end)
  }

  function AlpnOf(b: Bytes): seq<Name> {
    if |b| < 2 then [] else ScanAlpn(b, 2, 2 + Be16(b[0], b[1]))
  }

  function ScanU16s(b: Bytes, off: nat, end: int): seq<u16>
    decreases |b| - off
  {
    if off + 2 > end || off + 2 > |b| then [] else [Be16(b[off], b[off + 1])] + ScanU16s(b, off + 2, end)
  }

  function U16sOf(b: Bytes): seq<u16> {
    if |b| < 2 then [] else ScanU16s(b, 2, 2 + Be16(b[0], b[1]))
  }

  function ExtDelta(e: Item, server: bool): Delta {
    if e.tag == EXT_SERVER_NAME && !server then
      NOP.(sni := var s := SniOf(e.data); if s != [] then Some(s) else None)
    else if e.tag == EXT_SIGNATURE_ALGORITHMS && !server then NOP.(sigs := Some(U16sOf(e.data)))
    else if e.tag == EXT_ALPN then NOP.(alpn := Some(AlpnOf(e.data)))
    else if e.tag == EXT_SUPPORTED_VERSIONS && server && |e.data| >= 2 then
      NOP.(neg := Always(Be16(e.data[0], e.data[1])))
    else if e.tag == EXT_KEY_SHARE && server && |e.data| >= 2 then
      NOP.(group := Some(Be16(e.data[0], e.data[1])))
    else NOP
  }

  function ExtsDelta(es: seq<Item>, server: bool): Delta {
    if es == [] then NOP else Then(ExtDelta(es[0], server), ExtsDelta(es[1..], server))
  }

  // ---- hellos (sections 4.1.2 and 4.1.3 of RFC 8446)

  /** Where a vector with a one-byte length ends, if it is all there. */
  function SkipVec8(b: Bytes, off: nat): (r: Option<nat>)
    ensures r.Some? ==> off < r.value <= |b|
  {
    if off + 1 > |b| || off + 1 + b[off] > |b| then None else Some(off + 1 + b[off])
  }

  /** Where version, random and session id end. */
  function SessionEnd(b: Bytes): (r: Option<nat>)
    ensures r.Some? ==> 34 < r.value <= |b|
  {
    if |b| < 34 then None else SkipVec8(b, 34)
  }

  /** Where the cipher suites and compression methods of a ClientHello end. */
  function OfferEnd(b: Bytes): (r: Option<nat>)
    ensures r.Some? ==> 34 < r.value <= |b|
  {
    var s := SessionEnd(b);
    if s.None? || s.value + 2 > |b| then None
    else
      var stop := s.value + 2 + Be16(b[s.value], b[s.value + 1]);
      if stop > |b| then None else SkipVec8(b, stop)
  }

  function ClientHelloDelta(b: Bytes): Delta {
    if |b| < 2 then NOP
    else
      var ver := Be16(b[0], b[1]);
      var head := NOP.(clientHello := true, clientVersion := Some(ver), neg := IfZero(ver));
      var block := OfferEnd(b);
      if block.None? then head else Then(head, ExtsDelta(BlockExts(b, block.value), false))
  }

  predicate IsTls13Cipher(c: u16) { 0x1301 <= c <= 0x1305 }

  /** A suite that exists only in TLS 1.3 settles the version when the extension did not. */
  function Resolve13(v: u16, suite: u16): u16 {
    if v < TLS13 && IsTls13Cipher(suite) then TLS13 else v
  }

  function ServerHelloDelta(b: Bytes): Delta {
    if |b| < 2 then NOP
    else
      var head := NOP.(serverHello := true, neg := Always(Be16(b[0], b[1])));
      var s := SessionEnd(b);
      if s.None? || s.value + 2 > |b| then head
      else
        var suite := Be16(b[s.value], b[s.value + 1]);
        if s.value + 3 > |b| then head.(cipher := Some(suite))
        else
          var d := Then(head.(cipher := Some(suite)), ExtsDelta(BlockExts(b, s.value + 3), true));
          d.(neg := Always(Resolve13(d.neg.v, suite)))
  }

  // ---- certificate (section 7.4.2 of RFC 5246)

  function TrimDash(s: string): string {
    if |s| > 0 && s[|s| - 1] == '-' then s[..|s| - 1] else s
  }

  function CertFieldsOf(c: X509Cert): CertFields {
    CertFields(
      if c.commonName == "" && |c.organization| > 0 then c.organization[0] else c.commonName,
      c.issuerCommonName,
      c.dnsNames,
      TrimDash(c.signatureAlgorithm))
  }

  /** The first certificate of the list, if it is all there. */
  function FirstDer(b: Bytes): Option<Bytes> {
    if |b| < 6 || Be24(b[0], b[1], b[2]) < 3 then None
    else
      var n := Be24(b[3], b[4], b[5]);
      if n == 0 || 6 + n > |b| then None else Some(b[6..6 + n])
  }

  function CertificateDelta(x509: X509, b: Bytes): Delta {
    var der := FirstDer(b);
    if der.None? then NOP
    else
      var c := x509(der.value);
      if c.None? then NOP else NOP.(cert := Some(CertFieldsOf(c.value)))
  }

  // ---- streams and buffers

  function MessageDelta(x509: X509, m: Item): Delta {
    if m.tag == HS_CLIENT_HELLO then ClientHelloDelta(m.data)
    else if m.tag == HS_SERVER_HELLO then ServerHelloDelta(m.data)
    else if m.tag == HS_CERTIFICATE then CertificateDelta(x509, m.data)
    else NOP
  }

  function MessagesDelta(x509: X509, ms: seq<Item>): Delta {
    if ms == [] then NOP else Then(MessageDelta(x509, ms[0]), MessagesDelta(x509, ms[1..]))
  }

  /** The update that parsing the buffer makes. */
  function BufferDelta(x509: X509, buf: Bytes): Delta {
    MessagesDelta(x509, Messages(Collect(buf, 0), 0))
  }

  /** What is known after parsing `buf` with `i` known before. */
  function ParseInfo(x509: X509, buf: Bytes, i: InfoV): InfoV {
    Act(BufferDelta(x509, buf), i)
  }
}
