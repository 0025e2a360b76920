/** Hellos as values, their bytes (sections 4.1.2, 4.1.3 and 4.2 of RFC 8446), and what the
    parser knows after seeing them inside any handshake, cut into records anywhere. */
module TlsHello {
  import opened Bytes
  import opened TlsInfo
  import opened TlsSpec
  import opened TlsNumbers
  import opened TlsTruncation
  import opened TlsWire

  // ---- extensions

  datatype Ext =
    | ServerName(entries: seq<NameEntry>)
    | SignatureAlgorithms(schemes: seq<u16>)
    | Alpn(names: seq<Name>)
    | SelectedVersion(version: u16)
    | ServerKeyShare(group: u16, key: Bytes)
    | Other(tag: u16, data: Bytes)

  predicate ExtFits(e: Ext) {
    match e
    case ServerName(es) => EntriesFit(es) && |PutEntries(es)| < TWO16 - 2
    case SignatureAlgorithms(vs) => 2 * |vs| < TWO16 - 2
    case Alpn(ns) => NamesFit(ns) && |PutNames(ns)| < TWO16 - 2
    case SelectedVersion(_) => true
    case ServerKeyShare(_, key) => |key| < TWO16 - 2
    case Other(_, data) => |data| < TWO16
  }

  /** `Other` stands for the types the parser does not look at on that side. */
  predicate ClientExt(e: Ext) {
    ExtFits(e) && !e.SelectedVersion? && !e.ServerKeyShare? &&
    (e.Other? ==> e.tag !in {TYPE_SERVER_NAME, TYPE_SIGNATURE_ALGORITHMS, TYPE_ALPN})
  }

  predicate ServerExt(e: Ext) {
    ExtFits(e) && !e.ServerName? && !e.SignatureAlgorithms? &&
    (e.Other? ==> e.tag !in {TYPE_ALPN, TYPE_SUPPORTED_VERSIONS, TYPE_KEY_SHARE})
  }

  function ToItem(e: Ext): Item
    requires ExtFits(e)
  {
    match e
    case ServerName(es) => Item(TYPE_SERVER_NAME, PutBe16(|PutEntries(es)|) + PutEntries(es))
    case SignatureAlgorithms(vs) => Item(TYPE_SIGNATURE_ALGORITHMS, PutBe16(2 * |vs|) + PutU16s(vs))
    case Alpn(ns) => Item(TYPE_ALPN, PutBe16(|PutNames(ns)|) + PutNames(ns))
    case SelectedVersion(v) => Item(TYPE_SUPPORTED_VERSIONS, PutBe16(v))
    case ServerKeyShare(g, key) => Item(TYPE_KEY_SHARE, PutBe16(g) + key)
    case Other(tag, data) => Item(tag, data)
  }

  predicate AllFit(es: seq<Ext>) {
    forall e :: e in es ==> ExtFits(e)
  }

  function ToItems(es: seq<Ext>): (r: seq<Item>)
    requires AllFit(es)
    ensures |r| == |es| && forall k :: 0 <= k < |es| ==> r[k] == ToItem(es[k])
  {
    if es == [] then [] else [ToItem(es[0])] + ToItems(es[1..])
  }

  /** No extension type twice (section 4.2 of RFC 8446). */
  ghost predicate DistinctTypes(es: seq<Ext>)
    requires AllFit(es)
  {
    forall i, j :: 0 <= i < j < |es| ==> ToItem(es[i]).tag != ToItem(es[j]).tag
  }

  /** What each extension is read as. */
  lemma ExtRead(e: Ext)
    requires ExtFits(e)
    ensures e.ServerName? ==> SniOf(ToItem(e).data) == FirstHost(e.entries)
    ensures e.SignatureAlgorithms? ==> U16sOf(ToItem(e).data) == e.schemes
    ensures e.Alpn? ==> AlpnOf(ToItem(e).data) == e.names
    ensures e.SelectedVersion? ==> |ToItem(e).data| >= 2 && Be16(ToItem(e).data[0], ToItem(e).data[1]) == e.version
    ensures e.ServerKeyShare? ==> |ToItem(e).data| >= 2 && Be16(ToItem(e).data[0], ToItem(e).data[1]) == e.group
  {
    var b := ToItem(e).data;
    match e
    case ServerName(es) => Piece(b, 0, PutBe16(|PutEntries(es)|), PutEntries(es)); SniSent(b, 2, es);
    case SignatureAlgorithms(vs) => Piece(b, 0, PutBe16(2 * |vs|), PutU16s(vs)); U16sSent(b, 2, vs);
    case Alpn(ns) => Piece(b, 0, PutBe16(|PutNames(ns)|), PutNames(ns)); AlpnSent(b, 2, ns);
    case ServerKeyShare(g, key) => Piece(b, 0, PutBe16(g), key);
    case _ =>
  }

  // ---- one extension of a type decides its field

  lemma {:induction false} SoleWriter(es: seq<Item>, e: Item, server: bool)
    requires DistinctHandled(es) && e in es
    ensures e.tag == TYPE_SERVER_NAME ==> ExtsDelta(es, server).sni == ExtDelta(e, server).sni
    ensures e.tag == TYPE_SIGNATURE_ALGORITHMS ==> ExtsDelta(es, server).sigs == ExtDelta(e, server).sigs
    ensures e.tag == TYPE_ALPN ==> ExtsDelta(es, server).alpn == ExtDelta(e, server).alpn
    ensures e.tag == TYPE_KEY_SHARE ==> ExtsDelta(es, server).group == ExtDelta(e, server).group
    ensures e.tag == TYPE_SUPPORTED_VERSIONS ==> ExtsDelta(es, server).neg == ExtDelta(e, server).neg
  {
    hide ExtDelta, DistinctHandled;
    DistinctTail(es);
    WritesNeedTag(es[1..], server);
    ExtNeedsTag(es[0], server);
    if e != es[0] {
      SoleWriter(es[1..], e, server);
      assert Handled(es[0].tag) ==> es[0].tag != e.tag;
    }
  }

  /** The order of the extensions does not matter, nor do the ones nobody looks at: only which
      handled extensions there are. */
  lemma ExtensionOrder(es: seq<Item>, fs: seq<Item>, server: bool)
    requires DistinctHandled(es) && DistinctHandled(fs)
    requires forall e: Item :: Handled(e.tag) ==> (e in es <==> e in fs)
    ensures ExtsDelta(es, server) == ExtsDelta(fs, server)
  {
    WritesNeedTag(es, server);
    WritesNeedTag(fs, server);
    SameField(es, fs, TYPE_SERVER_NAME, server);
    SameField(es, fs, TYPE_SIGNATURE_ALGORITHMS, server);
    SameField(es, fs, TYPE_ALPN, server);
    SameField(es, fs, TYPE_KEY_SHARE, server);
    SameField(es, fs, TYPE_SUPPORTED_VERSIONS, server);
  }

  lemma SameField(es: seq<Item>, fs: seq<Item>, tag: u16, server: bool)
    requires DistinctHandled(es) && DistinctHandled(fs) && Handled(tag)
    requires forall e: Item :: Handled(e.tag) ==> (e in es <==> e in fs)
    ensures tag == TYPE_SERVER_NAME ==> ExtsDelta(es, server).sni == ExtsDelta(fs, server).sni
    ensures tag == TYPE_SIGNATURE_ALGORITHMS ==> ExtsDelta(es, server).sigs == ExtsDelta(fs, server).sigs
    ensures tag == TYPE_ALPN ==> ExtsDelta(es, server).alpn == ExtsDelta(fs, server).alpn
    ensures tag == TYPE_KEY_SHARE ==> ExtsDelta(es, server).group == ExtsDelta(fs, server).group
    ensures tag == TYPE_SUPPORTED_VERSIONS ==> ExtsDelta(es, server).neg == ExtsDelta(fs, server).neg
  {
    hide ExtsDelta, ExtDelta, DistinctHandled;
    WritesNeedTag(es, server);
    WritesNeedTag(fs, server);
    if HasTag(es, tag) {
      var e :| e in es && e.tag == tag;
      SoleWriter(es, e, server);
      SoleWriter(fs, e, server);
    } else {
      assert !HasTag(fs, tag);
    }
  }

  // ---- hellos

  datatype ClientHello = ClientHello(
    version: u16, random: Bytes, sessionId: Bytes, suites: seq<u16>, compression: Bytes, exts: seq<Item>)

  datatype ServerHello = ServerHello(
    version: u16, random: Bytes, sessionId: Bytes, suite: u16, compression: byte, exts: seq<Item>)

  predicate ClientFits(h: ClientHello) {
    |h.random| == 32 && |h.sessionId| < 0x100 && 2 * |h.suites| < TWO16 && |h.compression| < 0x100 && BlockFits(h.exts)
  }

  predicate ServerFits(h: ServerHello) {
    |h.random| == 32 && |h.sessionId| < 0x100 && BlockFits(h.exts)
  }

  function PutClientHello(h: ClientHello): Bytes
    requires ClientFits(h)
  {
    PutBe16(h.version) + (h.random + ([|h.sessionId| as byte] + (h.sessionId
    + (PutBe16(2 * |h.suites|) + (PutU16s(h.suites)
    + ([|h.compression| as byte] + (h.compression + PutBlock(h.exts))))))))
  }

  function PutServerHello(h: ServerHello): Bytes
    requires ServerFits(h)
  {
    PutBe16(h.version) + (h.random + ([|h.sessionId| as byte] + (h.sessionId
    + (PutBe16(h.suite) + ([h.compression] + PutBlock(h.exts))))))
  }

  /** The fields before the session id, and the session id. */
  lemma SessionSent(b: Bytes, version: u16, random: Bytes, sid: Bytes, rest: Bytes)
    requires |random| == 32 && |sid| < 0x100
    requires b == PutBe16(version) + (random + ([|sid| as byte] + (sid + rest)))
    ensures SessionEnd(b) == Some(35 + |sid|) && b[35 + |sid|..] == rest
    ensures Be16(b[0], b[1]) == version
  {
    assert b[0..] == b;
    Piece(b, 0, PutBe16(version), random + ([|sid| as byte] + (sid + rest)));
    Piece(b, 2, random, [|sid| as byte] + (sid + rest));
    Piece(b, 34, [|sid| as byte], sid + rest);
    Piece(b, 35, sid, rest);
    assert b[34] == [|sid| as byte][0];
  }

  /** The cipher suites and compression methods, each after its length. */
  lemma OfferSent(b: Bytes, n2: Bytes, suites: Bytes, n1: Bytes, compression: Bytes, rest: Bytes)
    requires SessionEnd(b).Some? && b[SessionEnd(b).value..] == n2 + (suites + (n1 + (compression + rest)))
    requires |n2| == 2 && Be16(n2[0], n2[1]) == |suites| && |n1| == 1 && n1[0] == |compression|
    ensures OfferEnd(b).Some? && b[OfferEnd(b).value..] == rest
  {
    hide SessionEnd;
    var off := SessionEnd(b).value;
    Piece(b, off, n2, suites + (n1 + (compression + rest)));
    Piece(b, off + 2, suites, n1 + (compression + rest));
    Piece(b, off + 2 + |suites|, n1, compression + rest);
    Piece(b, off + 3 + |suites|, compression, rest);
    assert b[off] == n2[0] && b[off + 1] == n2[1] && b[off + 2 + |suites|] == n1[0];
  }

  lemma ClientHelloSent(h: ClientHello)
    requires ClientFits(h)
    ensures ClientHelloDelta(PutClientHello(h))
         == Then(NOP.(clientHello := true, clientVersion := Some(h.version), neg := IfZero(h.version)),
              ExtsDelta(h.exts, false))
    ensures HelloExts(Item(MESSAGE_CLIENT_HELLO, PutClientHello(h))) == h.exts
  {
    hide ExtsDelta, PutBlock, PutU16s, BlockFits, SessionEnd, OfferEnd, PutBe16;
    var b: Bytes := PutClientHello(h);
    var rest := [|h.compression| as byte] + (h.compression + PutBlock(h.exts));
    SessionSent(b, h.version, h.random, h.sessionId, PutBe16(2 * |h.suites|) + (PutU16s(h.suites) + rest));
    OfferSent(b, PutBe16(2 * |h.suites|), PutU16s(h.suites), [|h.compression| as byte], h.compression,
        PutBlock(h.exts));
    BlockSent(b, OfferEnd(b).value, h.exts);
  }

  lemma ServerHelloSent(h: ServerHello)
    requires ServerFits(h)
    ensures var d := Then(NOP.(serverHello := true, neg := Always(h.version), cipher := Some(h.suite)),
            ExtsDelta(h.exts, true));
            ServerHelloDelta(PutServerHello(h)) == d.(neg := Always(Negotiated(d.neg.v, h.suite)))
    ensures HelloExts(Item(MESSAGE_SERVER_HELLO, PutServerHello(h))) == h.exts
  {
    hide ExtsDelta, PutBlock, BlockFits, SessionEnd, PutBe16;
    var b, off := PutServerHello(h), 35 + |h.sessionId|;
    SessionSent(b, h.version, h.random, h.sessionId, PutBe16(h.suite) + ([h.compression] + PutBlock(h.exts)));
    Piece(b, off, PutBe16(h.suite), [h.compression] + PutBlock(h.exts));
    Piece(b, off + 2, [h.compression], PutBlock(h.exts));
    assert b[off] == PutBe16(h.suite)[0] && b[off + 1] == PutBe16(h.suite)[1];
    BlockSent(b, off + 3, h.exts);
  }

  // ---- whole handshakes

  lemma {:induction false} MessagesDeltaAppend(x509: X509, a: seq<Item>, b: seq<Item>)
    ensures MessagesDelta(x509, a + b) == Then(MessagesDelta(x509, a), MessagesDelta(x509, b))
  {
    hide MessageDelta, Then;
    if a == [] {
      assert a + b == b;
      ThenNop(MessagesDelta(x509, b));
    } else {
      assert (a + b)[1..] == a[1..] + b && (a + b)[0] == a[0];
      MessagesDeltaAppend(x509, a[1..], b);
      ThenAssoc(MessageDelta(x509, a[0]), MessagesDelta(x509, a[1..]), MessagesDelta(x509, b));
    }
  }

  lemma MessagesDeltaAround(x509: X509, pre: seq<Item>, m: Item, post: seq<Item>)
    ensures MessagesDelta(x509, pre + [m] + post)
         == Then(Then(MessagesDelta(x509, pre), MessageDelta(x509, m)), MessagesDelta(x509, post))
  {
    hide MessageDelta, Then;
    MessagesDeltaAppend(x509, pre + [m], post);
    MessagesDeltaAppend(x509, pre, [m]);
    assert [m][1..] == [];
    ThenNop(MessageDelta(x509, m));
  }

  /** Handshake messages of the types the parser passes over. */
  ghost predicate PassedOver(ms: seq<Item>) {
    forall m :: m in ms ==> m.tag !in {MESSAGE_CLIENT_HELLO, MESSAGE_SERVER_HELLO, MESSAGE_CERTIFICATE}
  }

  lemma {:induction false} PassedOverNop(x509: X509, ms: seq<Item>)
    requires PassedOver(ms)
    ensures MessagesDelta(x509, ms) == NOP
  {
    if ms != [] {
      assert ms[0] in ms && forall m :: m in ms[1..] ==> m in ms;
      PassedOverNop(x509, ms[1..]);
    }
  }

  /** `buf` starts with `ms`, cut into handshake records anywhere, and then holds something
      that is not a whole header of a handshake record. */
  ghost predicate Carries(buf: Bytes, ms: seq<Item>, rs: seq<Record>, tail: Bytes) {
    && Sendable(ms) && Framable(rs) && Payloads(rs) == SendMessages(ms)
    && (|tail| < 5 || tail[0] != RECORD_HANDSHAKE)
    && buf == Frames(rs) + tail
  }

  lemma CarriedMessages(buf: Bytes, ms: seq<Item>, rs: seq<Record>, tail: Bytes)
    requires Carries(buf, ms, rs, tail)
    ensures Messages(Collect(buf, 0), 0) == ms
  {
    assert buf[0..] == buf;
    CollectFrames(buf, 0, rs, tail);
    var s := Collect(buf, 0);
    assert s[0..] == s;
    MessagesSent(s, 0, ms);
  }

  ghost predicate NoExt(es: seq<Ext>, p: Ext -> bool) {
    forall e :: e in es ==> !p(e)
  }

  lemma {:induction false} ItemIn(es: seq<Ext>, e: Ext)
    requires AllFit(es) && e in es
    ensures ToItem(e) in ToItems(es)
  {
    var k :| 0 <= k < |es| && es[k] == e;
    assert ToItems(es)[k] == ToItem(e);
  }

  lemma ItemFrom(es: seq<Ext>, tag: u16)
    requires AllFit(es)
    ensures HasTag(ToItems(es), tag) ==> exists e :: e in es && ToItem(e).tag == tag
  {
    if it :| it in ToItems(es) && it.tag == tag {
      var k :| 0 <= k < |es| && ToItems(es)[k] == it;
      assert es[k] in es && ToItem(es[k]).tag == tag;
    }
  }

  lemma DistinctItems(es: seq<Ext>)
    requires AllFit(es) && DistinctTypes(es)
    ensures DistinctHandled(ToItems(es))
  {
  }

  /** A ClientHello among messages that are passed over, in records cut anywhere, gives back
      exactly what it says. */
  lemma ClientRoundTrip(x509: X509, h: ClientHello, es: seq<Ext>, pre: seq<Item>, post: seq<Item>,
                        buf: Bytes, rs: seq<Record>, tail: Bytes)
    requires (forall e :: e in es ==> ClientExt(e)) && AllFit(es) && DistinctTypes(es)
    requires h.exts == ToItems(es) && ClientFits(h)
    requires PassedOver(pre) && PassedOver(post)
    requires Carries(buf, pre + [Item(MESSAGE_CLIENT_HELLO, PutClientHello(h))] + post, rs, tail)
    ensures var i := ParseInfo(x509, buf, EMPTY_INFO);
            && i == EMPTY_INFO.(hasClientHello := true, clientVersion := h.version, negVersion := h.version,
                                sni := i.sni, alpn := i.alpn, offeredSigs := i.offeredSigs)
            && (forall ns: seq<NameEntry> :: ServerName(ns) in es ==> i.sni == FirstHost(ns))
            && (NoExt(es, (e: Ext) => e.ServerName?) ==> i.sni == [])
            && (forall ns: seq<Name> :: Alpn(ns) in es ==> i.alpn == ns)
            && (NoExt(es, (e: Ext) => e.Alpn?) ==> i.alpn == [])
            && (forall vs: seq<u16> :: SignatureAlgorithms(vs) in es ==> i.offeredSigs == vs)
            && (NoExt(es, (e: Ext) => e.SignatureAlgorithms?) ==> i.offeredSigs == [])
  {
    var m := Item(MESSAGE_CLIENT_HELLO, PutClientHello(h));
    BufferOfOne(x509, pre, m, post, buf, rs, tail);
    ClientHelloSent(h);
    ClientFields(es);
    hide ExtsDelta, ToItems, Carries, ClientFits, PutClientHello, BufferDelta, ClientHelloDelta, DistinctTypes, AllFit,
      ClientWrites, NoExt, Act, Then, FirstHost;
    ClientShown(h.version, es, ExtsDelta(ToItems(es), false));
    assert ParseInfo(x509, buf, EMPTY_INFO)
        == Act(Then(NOP.(clientHello := true, clientVersion := Some(h.version), neg := IfZero(h.version)),
                    ExtsDelta(ToItems(es), false)), EMPTY_INFO);
  }

  /** What a ClientHello shows from nothing. */
  lemma ClientShown(version: u16, es: seq<Ext>, d: Delta)
    requires ClientWrites(es, d)
    ensures var i := Act(Then(NOP.(clientHello := true, clientVersion := Some(version), neg := IfZero(version)), d),
                         EMPTY_INFO);
            && i == EMPTY_INFO.(hasClientHello := true, clientVersion := version, negVersion := version,
                                sni := i.sni, alpn := i.alpn, offeredSigs := i.offeredSigs)
            && (forall ns: seq<NameEntry> :: ServerName(ns) in es ==> i.sni == FirstHost(ns))
            && (NoExt(es, (e: Ext) => e.ServerName?) ==> i.sni == [])
            && (forall ns: seq<Name> :: Alpn(ns) in es ==> i.alpn == ns)
            && (NoExt(es, (e: Ext) => e.Alpn?) ==> i.alpn == [])
            && (forall vs: seq<u16> :: SignatureAlgorithms(vs) in es ==> i.offeredSigs == vs)
            && (NoExt(es, (e: Ext) => e.SignatureAlgorithms?) ==> i.offeredSigs == [])
  {
    hide FirstHost, NoExt;
  }

  lemma BufferOfOne(x509: X509, pre: seq<Item>, m: Item, post: seq<Item>, buf: Bytes, rs: seq<Record>, tail: Bytes)
    requires PassedOver(pre) && PassedOver(post) && Carries(buf, pre + [m] + post, rs, tail)
    ensures BufferDelta(x509, buf) == MessageDelta(x509, m)
  {
    hide MessageDelta, Carries;
    CarriedMessages(buf, pre + [m] + post, rs, tail);
    MessagesDeltaAround(x509, pre, m, post);
    PassedOverNop(x509, pre);
    PassedOverNop(x509, post);
    ThenNop(MessageDelta(x509, m));
  }

  /** What the extensions of a ClientHello write. */
  ghost predicate ClientWrites(es: seq<Ext>, d: Delta) {
    && d == NOP.(sni := d.sni, alpn := d.alpn, sigs := d.sigs)
    && (forall ns: seq<NameEntry> :: ServerName(ns) in es ==> Pick(d.sni, []) == FirstHost(ns))
    && (NoExt(es, (e: Ext) => e.ServerName?) ==> d.sni.None?)
    && (forall ns: seq<Name> :: Alpn(ns) in es ==> d.alpn == Some(ns))
    && (NoExt(es, (e: Ext) => e.Alpn?) ==> d.alpn.None?)
    && (forall vs: seq<u16> :: SignatureAlgorithms(vs) in es ==> d.sigs == Some(vs))
    && (NoExt(es, (e: Ext) => e.SignatureAlgorithms?) ==> d.sigs.None?)
  }

  lemma ClientFields(es: seq<Ext>)
    requires (forall e :: e in es ==> ClientExt(e)) && AllFit(es) && DistinctTypes(es)
    ensures ClientWrites(es, ExtsDelta(ToItems(es), false))
  {
    hide ToItems, ExtsDelta, FirstHost, DistinctTypes;
    var items := ToItems(es);
    WritesNeedTag(items, false);
    ClientWritesNothingElse(items);
    forall e | e in es
      ensures e.ServerName? ==> Pick(ExtsDelta(items, false).sni, []) == FirstHost(e.entries)
      ensures e.Alpn? ==> ExtsDelta(items, false).alpn == Some(e.names)
      ensures e.SignatureAlgorithms? ==> ExtsDelta(items, false).sigs == Some(e.schemes)
    {
      ClientField(es, e);
    }
    forall tag | HasTag(items, tag)
      ensures exists e :: e in es && ToItem(e).tag == tag
    {
      ItemFrom(es, tag);
    }
  }

  lemma ClientField(es: seq<Ext>, e: Ext)
    requires AllFit(es) && DistinctTypes(es) && e in es
    ensures var d := ExtsDelta(ToItems(es), false);
            && (e.ServerName? ==> Pick(d.sni, []) == FirstHost(e.entries))
            && (e.Alpn? ==> d.alpn == Some(e.names))
            && (e.SignatureAlgorithms? ==> d.sigs == Some(e.schemes))
  {
    hide ToItems, ExtsDelta, SniOf, AlpnOf, U16sOf, DistinctTypes, FirstHost;
    DistinctItems(es);
    ItemIn(es, e);
    ExtRead(e);
    SoleWriter(ToItems(es), ToItem(e), false);
  }

  lemma {:induction false} ClientWritesNothingElse(es: seq<Item>)
    ensures ExtsDelta(es, false).neg == IfZero(0) && ExtsDelta(es, false).group.None?
  {
    if es != [] {
      ClientWritesNothingElse(es[1..]);
    }
  }

  /** A ServerHello among messages that are passed over, in records cut anywhere, gives back
      exactly what it says; its version is the selected one when there is one. */
  lemma ServerRoundTrip(x509: X509, h: ServerHello, es: seq<Ext>, pre: seq<Item>, post: seq<Item>,
                        buf: Bytes, rs: seq<Record>, tail: Bytes)
    requires (forall e :: e in es ==> ServerExt(e)) && AllFit(es) && DistinctTypes(es)
    requires h.exts == ToItems(es) && ServerFits(h)
    requires PassedOver(pre) && PassedOver(post)
    requires Carries(buf, pre + [Item(MESSAGE_SERVER_HELLO, PutServerHello(h))] + post, rs, tail)
    ensures var i := ParseInfo(x509, buf, EMPTY_INFO);
            && i == EMPTY_INFO.(hasServerHello := true, cipherSuite := h.suite,
                                negVersion := i.negVersion, alpn := i.alpn, group := i.group)
            && (forall v: u16 :: SelectedVersion(v) in es ==> i.negVersion == Negotiated(v, h.suite))
            && (NoExt(es, (e: Ext) => e.SelectedVersion?) ==> i.negVersion == Negotiated(h.version, h.suite))
            && (forall g: u16, key: Bytes :: ServerKeyShare(g, key) in es ==> i.group == g)
            && (NoExt(es, (e: Ext) => e.ServerKeyShare?) ==> i.group == 0)
            && (forall ns: seq<Name> :: Alpn(ns) in es ==> i.alpn == ns)
            && (NoExt(es, (e: Ext) => e.Alpn?) ==> i.alpn == [])
  {
    BufferOfOne(x509, pre, Item(MESSAGE_SERVER_HELLO, PutServerHello(h)), post, buf, rs, tail);
    ServerHelloSent(h);
    ServerFields(es);
    hide ExtsDelta, ToItems, Carries, ServerFits, PutServerHello, BufferDelta, ServerHelloDelta, DistinctTypes, AllFit;
    var d := Then(NOP.(serverHello := true, neg := Always(h.version), cipher := Some(h.suite)),
        ExtsDelta(ToItems(es), true));
    assert ParseInfo(x509, buf, EMPTY_INFO) == Act(d.(neg := Always(Negotiated(d.neg.v, h.suite))), EMPTY_INFO);
  }

  /** What the extensions of a ServerHello write. */
  ghost predicate ServerWrites(es: seq<Ext>, d: Delta) {
    && d == NOP.(neg := d.neg, alpn := d.alpn, group := d.group)
    && (forall v: u16 :: SelectedVersion(v) in es ==> d.neg == Always(v))
    && (NoExt(es, (e: Ext) => e.SelectedVersion?) ==> d.neg == IfZero(0))
    && (forall g: u16, key: Bytes :: ServerKeyShare(g, key) in es ==> d.group == Some(g))
    && (NoExt(es, (e: Ext) => e.ServerKeyShare?) ==> d.group.None?)
    && (forall ns: seq<Name> :: Alpn(ns) in es ==> d.alpn == Some(ns))
    && (NoExt(es, (e: Ext) => e.Alpn?) ==> d.alpn.None?)
  }

  lemma ServerFields(es: seq<Ext>)
    requires (forall e :: e in es ==> ServerExt(e)) && AllFit(es) && DistinctTypes(es)
    ensures ServerWrites(es, ExtsDelta(ToItems(es), true))
  {
    hide ToItems, ExtsDelta, DistinctTypes;
    var items := ToItems(es);
    WritesNeedTag(items, true);
    ServerWritesNothingElse(items);
    forall e | e in es
      ensures e.SelectedVersion? ==> ExtsDelta(items, true).neg == Always(e.version)
      ensures e.ServerKeyShare? ==> ExtsDelta(items, true).group == Some(e.group)
      ensures e.Alpn? ==> ExtsDelta(items, true).alpn == Some(e.names)
    {
      ServerField(es, e);
    }
    forall tag | HasTag(items, tag)
      ensures exists e :: e in es && ToItem(e).tag == tag
    {
      ItemFrom(es, tag);
    }
  }

  lemma ServerField(es: seq<Ext>, e: Ext)
    requires AllFit(es) && DistinctTypes(es) && e in es
    ensures var d := ExtsDelta(ToItems(es), true);
            && (e.SelectedVersion? ==> d.neg == Always(e.version))
            && (e.ServerKeyShare? ==> d.group == Some(e.group))
            && (e.Alpn? ==> d.alpn == Some(e.names))
  {
    hide ToItems, ExtsDelta, SniOf, AlpnOf, U16sOf, DistinctTypes;
    DistinctItems(es);
    ItemIn(es, e);
    ExtRead(e);
    SoleWriter(ToItems(es), ToItem(e), true);
  }

  lemma {:induction false} ServerWritesNothingElse(es: seq<Item>)
    ensures ExtsDelta(es, true).sni.None? && ExtsDelta(es, true).sigs.None?
  {
    if es != [] {
      ServerWritesNothingElse(es[1..]);
    }
  }

  /** Two captures of one handshake whose hello lists its extensions in another order, or has
      other extensions nobody looks at, show the same; the messages around it are arbitrary,
      and each capture is cut into records on its own. */
  lemma ClientExtensionOrderOnTheWire(x509: X509, h: ClientHello, g: ClientHello, pre: seq<Item>, post: seq<Item>,
                                      buf: Bytes, rs: seq<Record>, tail: Bytes,
                                      buf': Bytes, rs': seq<Record>, tail': Bytes, i: InfoV)
    requires ClientFits(h) && ClientFits(g) && h.version == g.version
    requires DistinctHandled(h.exts) && DistinctHandled(g.exts)
    requires forall e: Item :: Handled(e.tag) ==> (e in h.exts <==> e in g.exts)
    requires Carries(buf, pre + [Item(MESSAGE_CLIENT_HELLO, PutClientHello(h))] + post, rs, tail)
    requires Carries(buf', pre + [Item(MESSAGE_CLIENT_HELLO, PutClientHello(g))] + post, rs', tail')
    ensures ParseInfo(x509, buf, i) == ParseInfo(x509, buf', i)
  {
    hide Carries, MessagesDelta, DistinctHandled, PutClientHello, ClientFits, ClientHelloDelta;
    ClientHelloSent(h);
    ClientHelloSent(g);
    ExtensionOrder(h.exts, g.exts, false);
    CarriedMessages(buf, pre + [Item(MESSAGE_CLIENT_HELLO, PutClientHello(h))] + post, rs, tail);
    CarriedMessages(buf', pre + [Item(MESSAGE_CLIENT_HELLO, PutClientHello(g))] + post, rs', tail');
    MessagesDeltaAround(x509, pre, Item(MESSAGE_CLIENT_HELLO, PutClientHello(h)), post);
    MessagesDeltaAround(x509, pre, Item(MESSAGE_CLIENT_HELLO, PutClientHello(g)), post);
  }

  lemma ServerExtensionOrderOnTheWire(x509: X509, h: ServerHello, g: ServerHello, pre: seq<Item>, post: seq<Item>,
                                      buf: Bytes, rs: seq<Record>, tail: Bytes,
                                      buf': Bytes, rs': seq<Record>, tail': Bytes, i: InfoV)
    requires ServerFits(h) && ServerFits(g) && h.version == g.version && h.suite == g.suite
    requires DistinctHandled(h.exts) && DistinctHandled(g.exts)
    requires forall e: Item :: Handled(e.tag) ==> (e in h.exts <==> e in g.exts)
    requires Carries(buf, pre + [Item(MESSAGE_SERVER_HELLO, PutServerHello(h))] + post, rs, tail)
    requires Carries(buf', pre + [Item(MESSAGE_SERVER_HELLO, PutServerHello(g))] + post, rs', tail')
    ensures ParseInfo(x509, buf, i) == ParseInfo(x509, buf', i)
  {
    hide Carries, MessagesDelta, DistinctHandled, PutServerHello, ServerFits, ServerHelloDelta;
    ServerHelloSent(h);
    ServerHelloSent(g);
    ExtensionOrder(h.exts, g.exts, true);
    CarriedMessages(buf, pre + [Item(MESSAGE_SERVER_HELLO, PutServerHello(h))] + post, rs, tail);
    CarriedMessages(buf', pre + [Item(MESSAGE_SERVER_HELLO, PutServerHello(g))] + post, rs', tail');
    MessagesDeltaAround(x509, pre, Item(MESSAGE_SERVER_HELLO, PutServerHello(h)), post);
    MessagesDeltaAround(x509, pre, Item(MESSAGE_SERVER_HELLO, PutServerHello(g)), post);
  }

  // ---- certificates

  predicate CertsFit(ders: seq<Bytes>) {
    (forall d :: d in ders ==> |d| < 0x100_0000) && |PutCerts(ders)| < 0x100_0000
  }

  /** Section 7.4.2 of RFC 5246. */
  function PutCerts(ders: seq<Bytes>): Bytes {
    if ders == [] then [] else PutBe24(|ders[0]| % 0x100_0000) + (ders[0] + PutCerts(ders[1..]))
  }

  function PutChain(ders: seq<Bytes>): Bytes
    requires CertsFit(ders)
  {
    PutBe24(|PutCerts(ders)|) + PutCerts(ders)
  }

  /** The certificate shown is the first of the chain, as soon as it is all there. */
  lemma CertificateRoundTrip(x509: X509, ders: seq<Bytes>, n: nat)
    requires CertsFit(ders) && ders != [] && ders[0] != [] && n <= |PutChain(ders)|
    ensures CertificateDelta(x509, PutChain(ders)[..n])
         == if n < 6 + |ders[0]| || x509(ders[0]).None? then NOP
            else NOP.(cert := Some(CertFieldsOf(x509(ders[0]).value)))
  {
    hide PutBe24, Be24, CertFieldsOf;
    var list, rest := PutCerts(ders), PutCerts(ders[1..]);
    var full := PutBe24(|list|) + list;
    assert full[0..] == full;
    Piece(full, 0, PutBe24(|list|), list);
    Piece(full, 3, PutBe24(|ders[0]|), ders[0] + rest);
    Piece(full, 6, ders[0], rest);
    assert forall k :: 0 <= k < n ==> full[..n][k] == full[k];
    if n >= 6 + |ders[0]| {
      assert full[..n][6..6 + |ders[0]|] == ders[0];
    }
  }
}
