/** What can be believed of a hello whose capture was cut short. */
module TlsTruncation {
  import opened Bytes
  import opened TlsInfo
  import opened TlsSpec
  import opened TlsNumbers
  import opened TlsPrefix

  // ---- what an extension list can write

  predicate Handled(tag: u16) {
    tag == TYPE_SERVER_NAME || tag == TYPE_SIGNATURE_ALGORITHMS || tag == TYPE_ALPN
    || tag == TYPE_SUPPORTED_VERSIONS || tag == TYPE_KEY_SHARE
  }

  ghost predicate HasTag(es: seq<Item>, tag: u16) {
    exists e :: e in es && e.tag == tag
  }

  /** Section 4.2 of RFC 8446 allows each extension type once; only the types that are looked
      at matter. */
  ghost predicate DistinctHandled(es: seq<Item>) {
    forall i, j :: 0 <= i < j < |es| && Handled(es[i].tag) ==> es[i].tag != es[j].tag
  }

  lemma DistinctTail(es: seq<Item>)
    requires es != [] && DistinctHandled(es)
    ensures DistinctHandled(es[1..])
    ensures Handled(es[0].tag) ==> !HasTag(es[1..], es[0].tag)
  {
    var rest := es[1..];
    assert forall k :: 0 <= k < |rest| ==> rest[k] == es[k + 1];
  }

  lemma ExtNeedsTag(e: Item, server: bool)
    ensures e.tag != TYPE_SERVER_NAME ==> ExtDelta(e, server).sni.None?
    ensures e.tag != TYPE_SIGNATURE_ALGORITHMS ==> ExtDelta(e, server).sigs.None?
    ensures e.tag != TYPE_ALPN ==> ExtDelta(e, server).alpn.None?
    ensures e.tag != TYPE_KEY_SHARE ==> ExtDelta(e, server).group.None?
    ensures e.tag != TYPE_SUPPORTED_VERSIONS ==> ExtDelta(e, server).neg == IfZero(0)
    ensures var d := ExtDelta(e, server);
            d.cipher.None? && d.clientVersion.None? && d.cert.None? && !d.clientHello && !d.serverHello
  {
    hide SniOf, AlpnOf, U16sOf;
  }

  /** A field is written only by an extension of the type that carries it. */
  lemma {:induction false} WritesNeedTag(es: seq<Item>, server: bool)
    ensures ExtsDelta(es, server).sni.Some? ==> HasTag(es, TYPE_SERVER_NAME)
    ensures ExtsDelta(es, server).sigs.Some? ==> HasTag(es, TYPE_SIGNATURE_ALGORITHMS)
    ensures ExtsDelta(es, server).alpn.Some? ==> HasTag(es, TYPE_ALPN)
    ensures ExtsDelta(es, server).group.Some? ==> HasTag(es, TYPE_KEY_SHARE)
    ensures ExtsDelta(es, server).neg != IfZero(0) ==> HasTag(es, TYPE_SUPPORTED_VERSIONS)
    ensures var d := ExtsDelta(es, server);
            d.cipher.None? && d.clientVersion.None? && d.cert.None? && !d.clientHello && !d.serverHello
  {
    hide ExtDelta;
    if es != [] {
      ExtNeedsTag(es[0], server);
      WritesNeedTag(es[1..], server);
      assert es[0] in es && forall e :: e in es[1..] ==> e in es;
    }
  }

  // ---- partial knowledge

  ghost predicate PartList<T(!new)>(p: Option<seq<T>>, f: Option<seq<T>>) {
    p.Some? ==> f.Some? && p.value <= f.value
  }

  /** Scalars are unknown or right, lists are unknown or leading parts of the right ones. */
  ghost predicate Partial(p: Delta, f: Delta) {
    && (p.sni.Some? ==> p.sni == f.sni)
    && PartList(p.alpn, f.alpn)
    && PartList(p.sigs, f.sigs)
    && (p.clientVersion.Some? ==> p.clientVersion == f.clientVersion)
    && (p.cipher.Some? ==> p.cipher == f.cipher)
    && (p.group.Some? ==> p.group == f.group)
  }

  lemma NopPartial(f: Delta)
    ensures Partial(NOP, f)
  {
  }

  lemma ExtPartial(tag: u16, a: Bytes, b: Bytes, server: bool)
    requires a <= b
    ensures Partial(ExtDelta(Item(tag, a), server), ExtDelta(Item(tag, b), server))
  {
    if |a| >= 2 {
      var end := 2 + Be16(a[0], a[1]);
      SniPrefix(a, b, 2, end);
      AlpnPrefix(a, b, 2, end);
      U16sPrefix(a, b, 2, end);
    }
  }

  lemma {:induction false} ExtsPartial(a: seq<Item>, b: seq<Item>, server: bool)
    requires Cut(a, b) && DistinctHandled(b)
    ensures Partial(ExtsDelta(a, server), ExtsDelta(b, server))
  {
    if a == [] {
      NopPartial(ExtsDelta(b, server));
    } else {
      hide ExtDelta, Partial, Then, DistinctHandled;
      DistinctTail(b);
      WritesNeedTag(b[1..], server);
      assert |a| == 1 ==> a[1..] == [];
      assert a[0] == Item(b[0].tag, a[0].data) && b[0] == Item(b[0].tag, b[0].data);
      ExtsPartial(a[1..], b[1..], server);
      ExtPartial(b[0].tag, a[0].data, b[0].data, server);
      PartialThen(ExtDelta(a[0], server), ExtDelta(b[0], server), ExtsDelta(a[1..], server), ExtsDelta(b[1..], server),
                  b[0].tag, server, a[0].data, b[0].data);
    }
  }

  /** The later extensions are silent on what this one says. */
  lemma PartialThen(pa: Delta, fa: Delta, pb: Delta, fb: Delta, tag: u16, server: bool, da: Bytes, db: Bytes)
    requires Partial(pa, fa) && Partial(pb, fb)
    requires pa == ExtDelta(Item(tag, da), server) && fa == ExtDelta(Item(tag, db), server)
    requires tag == TYPE_SERVER_NAME ==> fb.sni.None?
    requires tag == TYPE_SIGNATURE_ALGORITHMS ==> fb.sigs.None?
    requires tag == TYPE_ALPN ==> fb.alpn.None?
    requires tag == TYPE_KEY_SHARE ==> fb.group.None?
    ensures Partial(Then(pa, pb), Then(fa, fb))
  {
    hide SniOf, AlpnOf, U16sOf;
  }

  // ---- hellos

  /** The extensions of a hello, as far as they were captured. */
  function HelloExts(m: Item): seq<Item> {
    if m.tag == MESSAGE_CLIENT_HELLO && OfferEnd(m.data).Some? then BlockExts(m.data, OfferEnd(m.data).value)
    else if m.tag == MESSAGE_SERVER_HELLO
         && SessionEnd(m.data).Some? then BlockExts(m.data, SessionEnd(m.data).value + 3)
    else []
  }

  predicate IsHello(m: Item) { m.tag == MESSAGE_CLIENT_HELLO || m.tag == MESSAGE_SERVER_HELLO }

  lemma PartialAfter(head: Delta, p: Delta, f: Delta)
    requires Partial(p, f)
    requires head.sni.None? && head.alpn.None? && head.sigs.None? && head.group.None?
    requires f.cipher.None? && f.clientVersion.None?
    ensures Partial(Then(head, p), Then(head, f))
  {
  }

  lemma ClientHelloPartial(a: Bytes, b: Bytes)
    requires a <= b && DistinctHandled(HelloExts(Item(MESSAGE_CLIENT_HELLO, b)))
    ensures Partial(ClientHelloDelta(a), ClientHelloDelta(b))
  {
    hide ExtsDelta, BlockExts, DistinctHandled;
    SessionPrefix(a, b);
    if |a| >= 2 && OfferEnd(b).Some? {
      var off := OfferEnd(b).value;
      var ver := Be16(a[0], a[1]);
      var head := NOP.(clientHello := true, clientVersion := Some(ver), neg := IfZero(ver));
      WritesNeedTag(BlockExts(b, off), false);
      BlockPrefix(a, b, off);
      ExtsPartial(BlockExts(a, off), BlockExts(b, off), false);
      PartialAfter(head, ExtsDelta(BlockExts(a, off), false), ExtsDelta(BlockExts(b, off), false));
    }
  }

  lemma ServerHelloPartial(a: Bytes, b: Bytes)
    requires a <= b && DistinctHandled(HelloExts(Item(MESSAGE_SERVER_HELLO, b)))
    ensures Partial(ServerHelloDelta(a), ServerHelloDelta(b))
  {
    hide ExtsDelta, BlockExts, DistinctHandled, SessionEnd;
    SessionPrefix(a, b);
    if |a| >= 2 && SessionEnd(b).Some? && SessionEnd(b).value + 3 <= |b| {
      var off := SessionEnd(b).value + 3;
      ServerExtsPartial(a, b, off, NOP.(serverHello := true, neg := Always(Be16(b[0], b[1])),
                                        cipher := Some(Be16(b[off - 3], b[off - 2]))));
    }
  }

  lemma ServerExtsPartial(a: Bytes, b: Bytes, off: nat, head: Delta)
    requires a <= b && DistinctHandled(BlockExts(b, off))
             && head == NOP.(serverHello := true, neg := head.neg, cipher := head.cipher)
    ensures Partial(Then(head, ExtsDelta(BlockExts(a, off), true)), Then(head, ExtsDelta(BlockExts(b, off), true)))
    ensures Partial(head, Then(head, ExtsDelta(BlockExts(b, off), true)))
    ensures var d := ExtsDelta(BlockExts(b, off), true); d.cipher.None? && d.clientVersion.None?
  {
    hide ExtsDelta, BlockExts, DistinctHandled;
    WritesNeedTag(BlockExts(b, off), true);
    BlockPrefix(a, b, off);
    ExtsPartial(BlockExts(a, off), BlockExts(b, off), true);
    PartialAfter(head, ExtsDelta(BlockExts(a, off), true), ExtsDelta(BlockExts(b, off), true));
  }

  // ---- buffers with one hello in them

  /** At most one hello, and it repeats none of the extensions that are looked at. */
  ghost predicate OneHello(ms: seq<Item>) {
    && (forall i, j :: 0 <= i < j < |ms| && IsHello(ms[i]) ==> !IsHello(ms[j]))
    && (forall m :: m in ms ==> DistinctHandled(HelloExts(m)))
  }

  ghost predicate HasHello(ms: seq<Item>) {
    exists m :: m in ms && IsHello(m)
  }

  /** Nothing but what a Certificate message writes. */
  ghost predicate OnlyCert(d: Delta) {
    d == NOP.(cert := d.cert)
  }

  lemma {:induction false} NoHelloOnlyCert(x509: X509, ms: seq<Item>)
    requires !HasHello(ms)
    ensures OnlyCert(MessagesDelta(x509, ms))
  {
    if ms != [] {
      assert ms[0] in ms && forall m :: m in ms[1..] ==> m in ms;
      NoHelloOnlyCert(x509, ms[1..]);
    }
  }

  lemma OneHelloTail(ms: seq<Item>)
    requires ms != [] && OneHello(ms)
    ensures OneHello(ms[1..]) && (IsHello(ms[0]) ==> !HasHello(ms[1..]))
    ensures DistinctHandled(HelloExts(ms[0]))
  {
    var rest := ms[1..];
    assert forall k :: 0 <= k < |rest| ==> rest[k] == ms[k + 1];
  }

  lemma MessagePartial(x509: X509, tag: u16, a: Bytes, b: Bytes)
    requires a <= b && DistinctHandled(HelloExts(Item(tag, b)))
    ensures Partial(MessageDelta(x509, Item(tag, a)), MessageDelta(x509, Item(tag, b)))
  {
    hide ClientHelloDelta, ServerHelloDelta, HelloExts;
    if tag == MESSAGE_CLIENT_HELLO {
      ClientHelloPartial(a, b);
    } else if tag == MESSAGE_SERVER_HELLO {
      ServerHelloPartial(a, b);
    }
  }

  lemma PartialOnlyCert(p: Delta, f: Delta, c: Delta, d: Delta)
    requires Partial(p, f)
    ensures OnlyCert(c) && OnlyCert(d) ==> Partial(Then(p, c), Then(f, d))
    ensures OnlyCert(c) && OnlyCert(d) ==> Partial(Then(c, p), Then(d, f))
  {
  }

  lemma CutHello(a: seq<Item>, b: seq<Item>)
    requires Cut(a, b) && !HasHello(b)
    ensures !HasHello(a)
  {
    if a != [] {
      assert b[0] in b && forall m :: m in b[1..] ==> m in b;
      if |a| > 1 || a[0] == b[0] {
        if Cut(a[1..], b[1..]) {
          CutHello(a[1..], b[1..]);
        }
      }
    }
  }

  lemma {:induction false} MessagesPartial(x509: X509, a: seq<Item>, b: seq<Item>)
    requires Cut(a, b) && OneHello(b)
    ensures Partial(MessagesDelta(x509, a), MessagesDelta(x509, b))
  {
    hide MessageDelta, HelloExts, DistinctHandled, OneHello, Partial, Then, HasHello, OnlyCert;
    if a == [] {
      NopPartial(MessagesDelta(x509, b));
    } else {
      OneHelloTail(b);
      MessagePartial(x509, a[0].tag, a[0].data, b[0].data);
      var da, db := MessageDelta(x509, a[0]), MessageDelta(x509, b[0]);
      if IsHello(b[0]) {
        NoHelloOnlyCert(x509, b[1..]);
        if |a| == 1 {
          assert a[1..] == [];
        } else {
          assert Cut(a[1..], b[1..]);
        }
        CutHello(a[1..], b[1..]);
        NoHelloOnlyCert(x509, a[1..]);
        PartialOnlyCert(da, db, MessagesDelta(x509, a[1..]), MessagesDelta(x509, b[1..]));
      } else {
        OnlyCertOfOther(x509, a[0]);
        OnlyCertOfOther(x509, b[0]);
        assert |a| == 1 ==> a[1..] == [];
        MessagesPartial(x509, a[1..], b[1..]);
        PartialOnlyCert(MessagesDelta(x509, a[1..]), MessagesDelta(x509, b[1..]), da, db);
      }
    }
  }

  lemma OnlyCertOfOther(x509: X509, m: Item)
    requires !IsHello(m)
    ensures OnlyCert(MessageDelta(x509, m))
  {
  }

  /** Every truncation of a capture with one hello in it: what was never known before is either
      still unknown or what the whole capture would have shown, and lists are leading parts. */
  lemma TruncationSound(x509: X509, a: Bytes, b: Bytes)
    requires a <= b && OneHello(Messages(Collect(b, 0), 0))
    ensures var p, f := ParseInfo(x509, a, EMPTY_INFO), ParseInfo(x509, b, EMPTY_INFO);
            && (p.sni == [] || p.sni == f.sni)
            && p.alpn <= f.alpn
            && p.offeredSigs <= f.offeredSigs
            && (p.clientVersion == 0 || p.clientVersion == f.clientVersion)
            && (p.cipherSuite == 0 || p.cipherSuite == f.cipherSuite)
            && (p.group == 0 || p.group == f.group)
  {
    hide MessagesDelta, OneHello;
    CollectPrefix(a, b, 0);
    MessagesPrefix(Collect(a, 0), Collect(b, 0), 0);
    MessagesPartial(x509, Messages(Collect(a, 0), 0), Messages(Collect(b, 0), 0));
  }

  // ---- the version of a truncated ServerHello

  /** Every supported_versions extension selects TLS 1.3 (section 4.2.1 of RFC 8446). */
  ghost predicate SelectsTls13(es: seq<Item>) {
    forall e :: e in es && e.tag == TYPE_SUPPORTED_VERSIONS && |e.data| >= 2
        ==> Be16(e.data[0], e.data[1]) == VERSION_TLS13
  }

  lemma {:induction false} CutSelectsTls13(a: seq<Item>, b: seq<Item>)
    requires Cut(a, b) && SelectsTls13(b)
    ensures SelectsTls13(a)
  {
    if a != [] {
      assert b[0] in b && forall e :: e in b[1..] ==> e in b;
      assert |a| == 1 ==> a[1..] == [];
      CutSelectsTls13(a[1..], b[1..]);
      assert forall e :: e in a ==> e == a[0] || e in a[1..];
    }
  }

  lemma {:induction false} NegOfTls13(es: seq<Item>)
    requires SelectsTls13(es)
    ensures ExtsDelta(es, true).neg in {IfZero(0), Always(VERSION_TLS13)}
  {
    if es != [] {
      assert es[0] in es && forall e :: e in es[1..] ==> e in es;
      NegOfTls13(es[1..]);
    }
  }

  /** A TLS 1.3 ServerHello with a 1.3-only suite, cut after `n` bytes, resolves to TLS 1.3 at
      every cut after the compression byte, and to its legacy version at every earlier one. */
  lemma Tls13AtEveryCut(b: Bytes, n: nat)
    requires n <= |b| && SessionEnd(b).Some? && SessionEnd(b).value + 3 <= |b|
    requires Be16(b[0], b[1]) < VERSION_TLS13
             && Be16(b[SessionEnd(b).value], b[SessionEnd(b).value + 1]) in SUITES_TLS13
    requires SelectsTls13(HelloExts(Item(MESSAGE_SERVER_HELLO, b)))
    ensures ServerHelloDelta(b[..n]).neg
         == if n < 2 then IfZero(0)
            else if n < SessionEnd(b).value + 3 then Always(Be16(b[0], b[1]))
            else Always(VERSION_TLS13)
  {
    hide SessionEnd, BlockExts, ExtsDelta, SelectsTls13, ServerHelloDelta;
    var a, off := b[..n], SessionEnd(b).value + 3;
    SessionPrefix(a, b);
    ServerNeg(a);
    SessionStart(a, b);
    if n >= off {
      assert SessionEnd(a) == SessionEnd(b);
      SelectsAfterCut(a, b, off);
    }
  }

  lemma SessionStart(a: Bytes, b: Bytes)
    requires a <= b
    ensures SessionEnd(b).Some? ==>
              SessionEnd(b).value >= 35 && (SessionEnd(b).value <= |a| ==> SessionEnd(a) == SessionEnd(b))
  {
  }

  lemma ServerNeg(b: Bytes)
    ensures var s := SessionEnd(b);
            ServerHelloDelta(b).neg
            == if |b| < 2 then IfZero(0)
               else if s.None? || s.value + 3 > |b| then Always(Be16(b[0], b[1]))
               else
                 var d := ThenNeg(Always(Be16(b[0], b[1])), ExtsDelta(BlockExts(b, s.value + 3), true).neg);
                 Always(Negotiated(d.v, Be16(b[s.value], b[s.value + 1])))
  {
    hide SessionEnd, BlockExts, ExtsDelta;
  }

  lemma SelectsAfterCut(a: Bytes, b: Bytes, off: nat)
    requires a <= b && off <= |a| && SelectsTls13(BlockExts(b, off))
    ensures ExtsDelta(BlockExts(a, off), true).neg in {IfZero(0), Always(VERSION_TLS13)}
  {
    hide BlockExts, ExtsDelta, SelectsTls13;
    BlockPrefix(a, b, off);
    CutSelectsTls13(BlockExts(a, off), BlockExts(b, off));
    NegOfTls13(BlockExts(a, off));
  }
}
