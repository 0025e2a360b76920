/** When the order of the two directions matters for a handshake of one ClientHello and one
    ServerHello: a client that offers protocols beside a server that names another list, and a
    server that settles on version zero. */
module HelloOrder {
  import opened Bytes
  import opened TlsInfo
  import opened TlsSpec
  import opened TlsNumbers
  import opened TlsWire
  import opened TlsHello
  import opened Reassembly

  /** `buf` is a handshake with one message of interest, cut into records anywhere. */
  ghost predicate CarriesOne(buf: Bytes, m: Item) {
    exists pre, post, rs, tail :: PassedOver(pre) && PassedOver(post) && Carries(buf, pre + [m] + post, rs, tail)
  }

  lemma OneMessage(x509: X509, buf: Bytes, m: Item)
    requires CarriesOne(buf, m)
    ensures BufferDelta(x509, buf) == MessageDelta(x509, m)
    ensures m.tag == MESSAGE_CLIENT_HELLO ==> ClientBytes(buf)
    ensures m.tag == MESSAGE_SERVER_HELLO ==> ServerBytes(buf)
  {
    hide MessageDelta, BufferDelta, Carries, Messages, Collect;
    var pre, post, rs, tail :| PassedOver(pre) && PassedOver(post) && Carries(buf, pre + [m] + post, rs, tail);
    BufferOfOne(x509, pre, m, post, buf, rs, tail);
    CarriedMessages(buf, pre + [m] + post, rs, tail);
  }

  /** A ClientHello with these extensions, each type once. */
  ghost predicate IsClient(h: ClientHello, es: seq<Ext>) {
    (forall e :: e in es ==> ClientExt(e)) && AllFit(es) && DistinctTypes(es) && h.exts == ToItems(es) && ClientFits(h)
  }

  ghost predicate IsServer(h: ServerHello, es: seq<Ext>) {
    (forall e :: e in es ==> ServerExt(e)) && AllFit(es) && DistinctTypes(es) && h.exts == ToItems(es) && ServerFits(h)
  }

  /** The list that the extensions carry, if any. */
  ghost predicate Names(es: seq<Ext>, alpn: Option<seq<Name>>) {
    && (forall ns: seq<Name> :: Alpn(ns) in es ==> alpn == Some(ns))
    && (alpn.Some? ==> Alpn(alpn.value) in es)
  }

  lemma SomeNames(es: seq<Ext>, alpn: Option<seq<Name>>)
    requires forall ns: seq<Name> :: Alpn(ns) in es ==> alpn == Some(ns)
    requires NoExt(es, (e: Ext) => e.Alpn?) ==> alpn.None?
    ensures Names(es, alpn)
  {
    if alpn.Some? {
      var e :| e in es && e.Alpn?;
      assert Alpn(e.names) in es;
    }
  }

  /** The server selects version zero, and its suite does not imply TLS 1.3. */
  ghost predicate SettlesOnZero(version: u16, suite: u16, es: seq<Ext>) {
    && suite !in SUITES_TLS13
    && (SelectedVersion(0) in es || (version == 0 && forall e :: e in es ==> !e.SelectedVersion?))
  }

  /** What a hello says whose extensions write `d`. */
  function ClientDelta(version: u16, d: Delta): Delta {
    Then(NOP.(clientHello := true, clientVersion := Some(version), neg := IfZero(version)), d)
  }

  function ServerDelta(version: u16, suite: u16, d: Delta): Delta {
    var e := Then(NOP.(serverHello := true, neg := Always(version), cipher := Some(suite)), d);
    e.(neg := Always(Negotiated(e.neg.v, suite)))
  }

  lemma ClientSays(version: u16, es: seq<Ext>, d: Delta)
    requires ClientWrites(es, d)
    ensures Names(es, ClientDelta(version, d).alpn) && ClientDelta(version, d).neg == IfZero(version)
  {
    SomeNames(es, d.alpn);
  }

  lemma ServerSays(version: u16, suite: u16, es: seq<Ext>, d: Delta)
    requires ServerWrites(es, d)
    ensures Names(es, ServerDelta(version, suite, d).alpn)
    ensures ServerDelta(version, suite, d).neg == Always(0) <==> SettlesOnZero(version, suite, es)
  {
    SomeNames(es, d.alpn);
    if e :| e in es && e.SelectedVersion? {
      assert SelectedVersion(e.version) in es;
    }
  }

  /** The two do not carry different lists. */
  ghost predicate SameLists(es: seq<Ext>, fs: seq<Ext>) {
    forall offered: seq<Name>, named: seq<Name> :: Alpn(offered) in es && Alpn(named) in fs ==> offered == named
  }

  /** What the two say fits together exactly when their lists and versions do. */
  lemma HellosCompatible(version: u16, es: seq<Ext>, c: Delta, chosen: u16, suite: u16, fs: seq<Ext>, d: Delta)
    requires ClientWrites(es, c) && ServerWrites(fs, d)
    ensures Compatible(ClientDelta(version, c), ServerDelta(chosen, suite, d))
       <==> SameLists(es, fs) && (SettlesOnZero(chosen, suite, fs) ==> version == 0)
  {
    hide ClientDelta, ServerDelta, ClientWrites, ServerWrites, SettlesOnZero;
    ClientSays(version, es, c);
    ServerSays(chosen, suite, fs, d);
  }

  /** A handshake, with each direction cut into chunks anywhere: the order in which they arrive
      does not matter if and only if the two hellos do not carry different protocol lists, and the
      server does not settle on version zero against the client's. */
  lemma HelloOrderIff(x509: X509, i: InfoV, client: Dir, cds: seq<Bytes>, h: ClientHello, es: seq<Ext>,
                      sds: seq<Bytes>, g: ServerHello, fs: seq<Ext>)
    requires IsClient(h, es) && CarriesOne(Accepted(cds), Item(MESSAGE_CLIENT_HELLO, PutClientHello(h)))
    requires IsServer(g, fs) && CarriesOne(Accepted(sds), Item(MESSAGE_SERVER_HELLO, PutServerHello(g)))
    ensures Names(es, BufferDelta(x509, Accepted(cds)).alpn) && Names(fs, BufferDelta(x509, Accepted(sds)).alpn)
    ensures BufferDelta(x509, Accepted(cds)).neg == IfZero(h.version)
    ensures BufferDelta(x509, Accepted(sds)).neg == Always(0) <==> SettlesOnZero(g.version, g.suite, fs)
    ensures Confluent(x509, i, client, cds, sds)
       <==> SameLists(es, fs) && (SettlesOnZero(g.version, g.suite, fs) ==> h.version == 0)
  {
    hide BufferDelta, PutClientHello, PutServerHello, ClientBytes, ServerBytes, CarriesOne, Confluent, Accepted,
      SettlesOnZero, SameLists, ExtsDelta, ToItems, DistinctTypes, AllFit, ClientFits, ServerFits, ClientHelloDelta,
      ServerHelloDelta, Compatible, ClientWrites, ServerWrites, Names, ClientExt, ServerExt;
    OneMessage(x509, Accepted(cds), Item(MESSAGE_CLIENT_HELLO, PutClientHello(h)));
    OneMessage(x509, Accepted(sds), Item(MESSAGE_SERVER_HELLO, PutServerHello(g)));
    ClientHelloSent(h);
    ServerHelloSent(g);
    ClientFields(es);
    ServerFields(fs);
    var c, d := ExtsDelta(h.exts, false), ExtsDelta(g.exts, true);
    ClientSays(h.version, es, c);
    ServerSays(g.version, g.suite, fs, d);
    HellosCompatible(h.version, es, c, g.version, g.suite, fs, d);
    Confluence(x509, i, client, cds, sds);
  }

  lemma AcceptedOne(buf: Bytes)
    ensures Accepted([buf]) == buf
  {
    assert [buf][..0] == [];
  }

  // ---- at an input

  /** One message in one record. */
  function Framed(m: Item): Bytes
    requires Sendable([m]) && |SendMessages([m])| < TWO16
  {
    Frames([Record(3, 3, SendMessages([m]))])
  }

  lemma FramedCarries(m: Item)
    requires Sendable([m]) && |SendMessages([m])| < TWO16
    ensures CarriesOne(Framed(m), m)
  {
    var rs := [Record(3, 3, SendMessages([m]))];
    assert Payloads(rs) == SendMessages([m]) + [] == SendMessages([m]);
    assert [] + [m] + [] == [m] && Framed(m) == Frames(rs) + [];
    assert PassedOver([]);
    assert Carries(Framed(m), [] + [m] + [], rs, []);
  }

  const H2: Name := [0x68, 0x32]
  const HTTP11: Name := [0x68, 0x74, 0x74, 0x70, 0x2f, 0x31, 0x2e, 0x31]

  const ZEROS: Bytes := seq(32, i => 0)

  /** Both hellos, each in one record. */
  lemma Handshake(offered: seq<Name>, named: seq<Name>, version: u16)
      returns (h: ClientHello, g: ServerHello, cbuf: Bytes, sbuf: Bytes)
    requires offered in [[H2], [H2, HTTP11]] && named == [H2]
    ensures IsClient(h, [Alpn(offered)]) && h.version == 0x0303
    ensures IsServer(g, [Alpn(named)]) && g.version == version && g.suite == 0xc02f
    ensures CarriesOne(cbuf, Item(MESSAGE_CLIENT_HELLO, PutClientHello(h)))
    ensures CarriesOne(sbuf, Item(MESSAGE_SERVER_HELLO, PutServerHello(g)))
    ensures Accepted([cbuf]) == cbuf && Accepted([sbuf]) == sbuf
  {
    hide ToItems, PutClientHello, PutServerHello, CarriesOne, Framed, Sendable, SendMessages, ClientFits, ServerFits,
      BlockFits, PutBlock, AllFit, DistinctTypes, ClientExt, ServerExt, ExtFits;
    SmallBlock(offered);
    SmallBlock(named);
    h := ClientHello(0x0303, ZEROS, [], [0xc02f], [0], ToItems([Alpn(offered)]));
    g := ServerHello(version, ZEROS, [], 0xc02f, 0, ToItems([Alpn(named)]));
    SmallHellos(h, g);
    var cm, sm := Item(MESSAGE_CLIENT_HELLO, PutClientHello(h)), Item(MESSAGE_SERVER_HELLO, PutServerHello(g));
    SmallMessage(cm);
    SmallMessage(sm);
    cbuf, sbuf := Framed(cm), Framed(sm);
    FramedCarries(cm);
    FramedCarries(sm);
    AcceptedOne(cbuf);
    AcceptedOne(sbuf);
  }

  /** "h2" and "http/1.1" offered, "h2" chosen: the order matters. */
  lemma OfferedTwoChosenOne(x509: X509, i: InfoV, client: Dir) returns (cbuf: Bytes, sbuf: Bytes)
    ensures !Confluent(x509, i, client, [cbuf], [sbuf])
    ensures BufferDelta(x509, cbuf).alpn == Some([H2, HTTP11]) && BufferDelta(x509, sbuf).alpn == Some([H2])
  {
    hide Confluent, CarriesOne, BufferDelta, PutClientHello, PutServerHello, Accepted, SettlesOnZero, ClientFits,
      ServerFits, AllFit, DistinctTypes, ToItems, ClientExt, ServerExt;
    var h, g;
    h, g, cbuf, sbuf := Handshake([H2, HTTP11], [H2], 0x0303);
    var es, fs := [Alpn([H2, HTTP11])], [Alpn([H2])];
    assert Alpn([H2, HTTP11]) in es && Alpn([H2]) in fs && [H2, HTTP11] != [H2];
    HelloOrderIff(x509, i, client, [cbuf], h, es, [sbuf], g, fs);
  }

  /** One protocol offered and named, TLS 1.2 offered, and version zero selected: the order
      matters. */
  lemma SettledOnZero(x509: X509, i: InfoV, client: Dir) returns (cbuf: Bytes, sbuf: Bytes)
    ensures !Confluent(x509, i, client, [cbuf], [sbuf])
    ensures BufferDelta(x509, cbuf).neg == IfZero(0x0303) && BufferDelta(x509, sbuf).neg == Always(0)
    ensures BufferDelta(x509, cbuf).alpn == BufferDelta(x509, sbuf).alpn == Some([H2])
  {
    hide Confluent, CarriesOne, BufferDelta, PutClientHello, PutServerHello, Accepted, ClientFits,
      ServerFits, AllFit, DistinctTypes, ToItems, ClientExt, ServerExt;
    var h, g;
    h, g, cbuf, sbuf := Handshake([H2], [H2], 0);
    var es := [Alpn([H2])];
    assert Alpn([H2]) in es && SettlesOnZero(g.version, g.suite, es);
    HelloOrderIff(x509, i, client, [cbuf], h, es, [sbuf], g, es);
  }

  lemma SmallHellos(h: ClientHello, g: ServerHello)
    requires |h.random| == 32 && h.sessionId == [] && |h.suites| == 1 && |h.compression| == 1
    requires BlockFits(h.exts) && |PutBlock(h.exts)| <= 20
    requires |g.random| == 32 && g.sessionId == [] && BlockFits(g.exts) && |PutBlock(g.exts)| <= 20
    ensures ClientFits(h) && |PutClientHello(h)| <= 80
    ensures ServerFits(g) && |PutServerHello(g)| <= 80
  {
    hide PutBlock, BlockFits;
  }

  lemma SmallBlock(ns: seq<Name>)
    requires ns == [H2, HTTP11] || ns == [H2]
    ensures ClientExt(Alpn(ns)) && ServerExt(Alpn(ns)) && AllFit([Alpn(ns)]) && DistinctTypes([Alpn(ns)])
    ensures BlockFits(ToItems([Alpn(ns)])) && |PutBlock(ToItems([Alpn(ns)]))| <= 20
  {
    NamesLength(ns);
    NamesLength(ns[1..]);
    OneItem(Alpn(ns));
    assert |ToItem(Alpn(ns)).data| == 2 + |PutNames(ns)|;
  }

  lemma NamesLength(ns: seq<Name>)
    requires NamesFit(ns)
    ensures |PutNames(ns)| == if ns == [] then 0 else 1 + |ns[0]| + |PutNames(ns[1..])|
  {
  }

  lemma OneItem(e: Ext)
    requires ExtFits(e) && |ToItem(e).data| <= 14
    ensures AllFit([e]) && BlockFits(ToItems([e])) && |PutBlock(ToItems([e]))| <= 20
  {
    hide ToItem, ExtFits;
    assert [e][1..] == [] && ToItems([]) == [];
    var items := ToItems([e]);
    assert items == [ToItem(e)] && items[1..] == [] && PutExts([]) == [];
    assert PutExts(items) == ExtHeader(items[0]) + (items[0].data + []);
  }

  lemma SmallMessage(m: Item)
    requires m.tag < 0x100 && |m.data| <= 80
    ensures Sendable([m]) && |SendMessages([m])| <= 84 && |Framed(m)| <= 89
  {
    assert [m][1..] == [] && SendMessages([]) == [];
    assert SendMessages([m]) == MessageHeader(m) + (m.data + []);
    var rs := [Record(3, 3, SendMessages([m]))];
    assert rs[1..] == [] && Frames([]) == [];
    assert Frames(rs) == RecordHeader(rs[0]) + (rs[0].payload + []);
  }
}
