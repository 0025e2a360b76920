/** What exactly is read of well-formed bytes that are cut anywhere, or followed by anything: each
    list ends where its length says, an item that is cut short is seen as far as it goes, and
    nothing before the cut is lost. */
module TlsExact {
  import opened Bytes
  import opened TlsInfo
  import opened TlsSpec
  import opened TlsNumbers
  import opened TlsWire
  import opened TlsHello

  /** One is the start of the other: a list that is cut, or that is followed by something. */
  predicate Meets(a: Bytes, b: Bytes) { a <= b || b <= a }

  lemma PieceOfPrefix(b: Bytes, off: nat, p: Bytes, q: Bytes)
    requires off <= |b| && b[off..] <= p + q
    ensures off + |p| <= |b| ==> b[off..off + |p|] == p && b[off + |p|..] <= q
    ensures off + |p| > |b| ==> b[off..] == p[..|b| - off]
  {
    var c, w := b[off..], p + q;
    assert c == w[..|c|];
    if off + |p| <= |b| {
      assert b[off..off + |p|] == c[..|p|] == w[..|p|] == p;
      assert b[off + |p|..] == c[|p|..] == w[|p|..|c|] == q[..|c| - |p|];
    } else {
      assert w[..|c|] == p[..|c|];
    }
  }

  lemma PieceOfLonger(b: Bytes, off: nat, p: Bytes, q: Bytes)
    requires off <= |b| && p + q <= b[off..]
    ensures off + |p| <= |b| && b[off..off + |p|] == p && q <= b[off + |p|..]
  {
    var c, w := b[off..], p + q;
    assert w == c[..|w|];
    assert b[off..off + |p|] == c[..|p|] == w[..|p|] == p;
    assert q == w[|p|..] == c[|p|..|w|] && b[off + |p|..] == c[|p|..];
  }

  lemma PieceOfCut(b: Bytes, off: nat, p: Bytes, q: Bytes)
    requires off <= |b| && Meets(b[off..], p + q)
    ensures off + |p| <= |b| ==> b[off..off + |p|] == p && Meets(b[off + |p|..], q)
    ensures off + |p| <= |b| ==> forall i :: 0 <= i < |p| ==> b[off + i] == p[i]
    ensures off + |p| > |b| ==> b[off..] == p[..|b| - off]
  {
    if b[off..] <= p + q {
      PieceOfPrefix(b, off, p, q);
    } else {
      PieceOfLonger(b, off, p, q);
    }
    if off + |p| <= |b| {
      var g := b[off..off + |p|];
      assert forall i :: 0 <= i < |p| ==> g[i] == b[off + i];
    }
  }

  // ---- records

  /** What `n` bytes of framed records carry. */
  function CutPayloads(rs: seq<Record>, n: nat): Bytes {
    if rs == [] || n < 5 then []
    else if n - 5 < |rs[0].payload| then rs[0].payload[..n - 5]
    else rs[0].payload + CutPayloads(rs[1..], n - 5 - |rs[0].payload|)
  }

  /** One record that is cut anywhere, or followed by others. */
  lemma CollectCut(buf: Bytes, p: nat, r: Record, more: Bytes)
    requires |r.payload| < TWO16 && p <= |buf| && buf[p..] <= RecordHeader(r) + (r.payload + more)
    ensures var stop := p + 5 + |r.payload|;
            && (stop <= |buf| ==> buf[stop..] <= more)
            && Collect(buf, p) == if p + 5 > |buf| then []
                                  else if stop > |buf| then r.payload[..|buf| - p - 5]
                                  else r.payload + Collect(buf, stop)
  {
    hide RecordHeader, Be16, Collect;
    var h := RecordHeader(r);
    CollectAt(buf, p);
    PieceOfPrefix(buf, p, h, r.payload + more);
    if p + 5 <= |buf| {
      var g := buf[p..p + 5];
      assert g == h && buf[p] == g[0] && buf[p + 3] == g[3] && buf[p + 4] == g[4];
      assert Be16(buf[p + 3], buf[p + 4]) == |r.payload|;
      PieceOfPrefix(buf, p + 5, r.payload, more);
    }
  }

  lemma CutPayloadsAt(rs: seq<Record>, n: nat)
    ensures rs == [] || n < 5 ==> CutPayloads(rs, n) == []
    ensures rs != [] && n >= 5 ==>
              CutPayloads(rs, n) == if n - 5 < |rs[0].payload| then rs[0].payload[..n - 5]
                                    else rs[0].payload + CutPayloads(rs[1..], n - 5 - |rs[0].payload|)
  {
  }

  lemma {:induction false} CollectAtEveryCut(buf: Bytes, p: nat, rs: seq<Record>)
    requires Framable(rs) && p <= |buf| && buf[p..] <= Frames(rs)
    ensures Collect(buf, p) == CutPayloads(rs, |buf| - p)
    decreases |rs|
  {
    hide RecordHeader, Collect, Framable, CutPayloads, Be16;
    CutPayloadsAt(rs, |buf| - p);
    if rs == [] {
      CollectAt(buf, p);
    } else {
      FramableTail(rs);
      CollectCut(buf, p, rs[0], Frames(rs[1..]));
      var stop := p + 5 + |rs[0].payload|;
      if stop <= |buf| {
        CollectAtEveryCut(buf, stop, rs[1..]);
      }
    }
  }

  // ---- messages and extensions

  /** Items of four bytes and their data, in `n` bytes. */
  function CutItems(es: seq<Item>, n: int): seq<Item> {
    if es == [] || n < 4 then []
    else if n - 4 < |es[0].data| then [Item(es[0].tag, es[0].data[..n - 4])]
    else [es[0]] + CutItems(es[1..], n - 4 - |es[0].data|)
  }

  lemma CutItemsAt(es: seq<Item>, n: int)
    ensures es == [] || n < 4 ==> CutItems(es, n) == []
    ensures es != [] && n >= 4 ==>
              CutItems(es, n) == if n - 4 < |es[0].data| then [Item(es[0].tag, es[0].data[..n - 4])]
                                 else [es[0]] + CutItems(es[1..], n - 4 - |es[0].data|)
  {
  }

  /** One message that is cut anywhere, or followed by others. */
  lemma MessageCut(s: Bytes, p: nat, m: Item, more: Bytes)
    requires m.tag < 0x100 && |m.data| < 0x100_0000
    requires p <= |s| && s[p..] <= MessageHeader(m) + (m.data + more)
    ensures var stop := p + 4 + |m.data|;
            && (stop <= |s| ==> s[stop..] <= more)
            && Messages(s, p) == if p + 4 > |s| then []
                                 else if stop > |s| then [Item(m.tag, m.data[..|s| - p - 4])]
                                 else [m] + Messages(s, stop)
  {
    hide MessageHeader, Be24, Messages;
    var h := MessageHeader(m);
    MessagesAt(s, p);
    PieceOfPrefix(s, p, h, m.data + more);
    if p + 4 <= |s| {
      var g := s[p..p + 4];
      assert g == h && s[p] == g[0] && s[p + 1] == g[1] && s[p + 2] == g[2] && s[p + 3] == g[3];
      PieceOfPrefix(s, p + 4, m.data, more);
    }
  }

  lemma {:induction false} MessagesAtEveryCut(s: Bytes, p: nat, ms: seq<Item>)
    requires Sendable(ms) && p <= |s| && s[p..] <= SendMessages(ms)
    ensures Messages(s, p) == CutItems(ms, |s| - p)
    decreases |ms|
  {
    hide MessageHeader, Messages, Sendable, CutItems, Be24;
    CutItemsAt(ms, |s| - p);
    if ms == [] {
      MessagesAt(s, p);
    } else {
      SendableTail(ms);
      MessageCut(s, p, ms[0], SendMessages(ms[1..]));
      var stop := p + 4 + |ms[0].data|;
      if stop <= |s| {
        MessagesAtEveryCut(s, stop, ms[1..]);
      }
    }
  }

  /** One extension that is cut anywhere, or followed by others or by anything. */
  lemma ExtCut(b: Bytes, off: nat, end: nat, e: Item, more: Bytes)
    requires |e.data| < TWO16 && off <= |b| && Meets(b[off..], ExtHeader(e) + (e.data + more)) && off + 4 <= end
    ensures var stop := off + 4 + |e.data|;
            && (stop <= |b| ==> Meets(b[stop..], more))
            && Walk(b, off, end) == if off + 4 > |b| then []
                                    else if stop > |b| then [Item(e.tag, e.data[..|b| - off - 4])]
                                    else [e] + Walk(b, stop, end)
  {
    hide ExtHeader, Be16, Walk, Meets;
    var h := ExtHeader(e);
    WalkAt(b, off, end);
    PieceOfCut(b, off, h, e.data + more);
    if off + 4 <= |b| {
      assert b[off] == h[0] && b[off + 1] == h[1] && b[off + 2] == h[2] && b[off + 3] == h[3];
      PieceOfCut(b, off + 4, e.data, more);
    }
  }

  lemma {:induction false} WalkAtEveryCut(b: Bytes, off: nat, end: nat, es: seq<Item>)
    requires ItemsFit(es) && off <= |b| && Meets(b[off..], PutExts(es)) && end == off + |PutExts(es)|
    ensures Walk(b, off, end) == CutItems(es, |b| - off)
    decreases |es|
  {
    hide ExtHeader, Be16, Walk, ItemsFit, Meets, CutItems;
    CutItemsAt(es, |b| - off);
    if es == [] {
      WalkAt(b, off, end);
    } else {
      ItemsFitTail(es);
      ExtCut(b, off, end, es[0], PutExts(es[1..]));
      var stop := off + 4 + |es[0].data|;
      if stop <= |b| {
        WalkAtEveryCut(b, stop, end, es[1..]);
      }
    }
  }

  lemma BlockAtEveryCut(b: Bytes, off: nat, es: seq<Item>)
    requires BlockFits(es) && off <= |b| && Meets(b[off..], PutBlock(es))
    ensures BlockExts(b, off) == CutItems(es, |b| - off - 2)
  {
    hide PutBe16, PutExts, Walk, Be16, ItemsFit, Meets;
    var n := PutBe16(|PutExts(es)|);
    PieceOfCut(b, off, n, PutExts(es));
    if off + 2 <= |b| {
      assert b[off] == n[0] && b[off + 1] == n[1];
      WalkAtEveryCut(b, off + 2, off + 2 + |PutExts(es)|, es);
    }
  }

  // ---- the lists inside extensions

  /** The first host name, if the entries up to it fit in `n` bytes. */
  function HostWithin(es: seq<NameEntry>, n: int): Name {
    if es == [] || n < 3 + |es[0].name| then []
    else if es[0].ntype == 0 then es[0].name
    else HostWithin(es[1..], n - 3 - |es[0].name|)
  }

  lemma {:induction false} SniAtEveryCut(b: Bytes, off: nat, end: nat, es: seq<NameEntry>)
    requires EntriesFit(es) && off <= |b| && Meets(b[off..], PutEntries(es)) && end == off + |PutEntries(es)|
    ensures ScanSni(b, off, end) == HostWithin(es, |b| - off)
    decreases |es|
  {
    hide EntryHeader, Be16, ScanSni, EntriesFit, Meets;
    ScanSniAt(b, off, end);
    if es != [] {
      EntriesFitTail(es);
      var h, name, more := EntryHeader(es[0]), es[0].name, PutEntries(es[1..]);
      PieceOfCut(b, off, h, name + more);
      if off + 3 <= |b| {
        assert b[off] == h[0] && b[off + 1] == h[1] && b[off + 2] == h[2];
        PieceOfCut(b, off + 3, name, more);
        if off + 3 + |name| <= |b| {
          SniAtEveryCut(b, off + 3 + |name|, end, es[1..]);
        }
      }
    }
  }

  /** The names that fit in `n` bytes. */
  function NamesWithin(ns: seq<Name>, n: int): seq<Name> {
    if ns == [] || n < 1 + |ns[0]| then [] else [ns[0]] + NamesWithin(ns[1..], n - 1 - |ns[0]|)
  }

  lemma ScanAlpnAt(b: Bytes, off: nat, end: int)
    ensures off + 1 > end || off >= |b| || off + 1 + b[off] > |b| ==> ScanAlpn(b, off, end) == []
    ensures off + 1 <= end && off < |b| && off + 1 + b[off] <= |b| ==>
              ScanAlpn(b, off, end) == [b[off + 1..off + 1 + b[off]]] + ScanAlpn(b, off + 1 + b[off], end)
  {
  }

  lemma {:induction false} AlpnAtEveryCut(b: Bytes, off: nat, end: nat, ns: seq<Name>)
    requires NamesFit(ns) && off <= |b| && Meets(b[off..], PutNames(ns)) && end == off + |PutNames(ns)|
    ensures ScanAlpn(b, off, end) == NamesWithin(ns, |b| - off)
    decreases |ns|
  {
    hide ScanAlpn, Meets;
    ScanAlpnAt(b, off, end);
    if ns != [] {
      var h, name, more := [|ns[0]| as byte], ns[0], PutNames(ns[1..]);
      PieceOfCut(b, off, h, name + more);
      if off < |b| {
        assert b[off] == h[0];
        PieceOfCut(b, off + 1, name, more);
        if off + 1 + |name| <= |b| {
          AlpnAtEveryCut(b, off + 1 + |name|, end, ns[1..]);
        }
      }
    }
  }

  lemma ScanU16sAt(b: Bytes, off: nat, end: int)
    ensures off + 2 > end || off + 2 > |b| ==> ScanU16s(b, off, end) == []
    ensures off + 2 <= end && off + 2 <= |b| ==>
              ScanU16s(b, off, end) == [Be16(b[off], b[off + 1])] + ScanU16s(b, off + 2, end)
  {
  }

  /** As many numbers as `n` bytes hold. */
  function U16sWithin(vs: seq<u16>, n: int): seq<u16> {
    if vs == [] || n < 2 then [] else [vs[0]] + U16sWithin(vs[1..], n - 2)
  }

  lemma {:induction false} U16sHalf(vs: seq<u16>, n: nat)
    ensures U16sWithin(vs, n) == vs[..Min(n / 2, |vs|)]
  {
    if vs != [] && n >= 2 {
      U16sHalf(vs[1..], n - 2);
      assert n / 2 == (n - 2) / 2 + 1;
    }
  }

  lemma {:induction false} U16sAtEveryCut(b: Bytes, off: nat, end: nat, vs: seq<u16>)
    requires off <= |b| && Meets(b[off..], PutU16s(vs)) && end == off + |PutU16s(vs)|
    ensures ScanU16s(b, off, end) == U16sWithin(vs, |b| - off)
    decreases |vs|
  {
    hide PutBe16, Meets, ScanU16s, Be16;
    ScanU16sAt(b, off, end);
    if vs != [] {
      var h, more := PutBe16(vs[0]), PutU16s(vs[1..]);
      PieceOfCut(b, off, h, more);
      if off + 2 <= |b| {
        assert b[off] == h[0] && b[off + 1] == h[1];
        U16sAtEveryCut(b, off + 2, end, vs[1..]);
      }
    }
  }

  // ---- what each extension says

  /** Every type of extension, cut anywhere, on either side. */
  lemma ExtAtEveryCut(e: Ext, d: Bytes, server: bool)
    requires ExtFits(e) && Meets(d, ToItem(e).data)
    ensures var n, x := |d| - 2, ExtDelta(Item(ToItem(e).tag, d), server);
            match e
            case ServerName(es) =>
              x == NOP.(sni := if !server && HostWithin(es, n) != [] then Some(HostWithin(es, n)) else None)
            case SignatureAlgorithms(vs) =>
              x == if server then NOP else NOP.(sigs := Some(if n < 0 then [] else vs[..Min(n / 2, |vs|)]))
            case Alpn(ns) => x == NOP.(alpn := Some(NamesWithin(ns, n)))
            case SelectedVersion(v) => x == if server && n >= 0 then NOP.(neg := Always(v)) else NOP
            case ServerKeyShare(g, _) => x == if server && n >= 0 then NOP.(group := Some(g)) else NOP
            case Other(tag, _) =>
              tag !in {TYPE_SERVER_NAME, TYPE_SIGNATURE_ALGORITHMS, TYPE_ALPN, TYPE_SUPPORTED_VERSIONS,
                  TYPE_KEY_SHARE} ==>
                x == NOP
  {
    hide PutBe16, Be16, ScanSni, ScanAlpn, ScanU16s, PutEntries, PutNames, PutU16s, Meets;
    match e
    case ServerName(es) => SniData(es, d);
    case SignatureAlgorithms(vs) => U16sData(vs, d);
    case Alpn(ns) => AlpnData(ns, d);
    case SelectedVersion(v) => FirstTwo(v, [], d);
    case ServerKeyShare(g, key) => FirstTwo(g, key, d);
    case Other(_, _) =>
  }

  lemma FirstTwo(v: u16, rest: Bytes, d: Bytes)
    requires Meets(d, PutBe16(v) + rest) || (rest == [] && Meets(d, PutBe16(v)))
    ensures |d| >= 2 ==> Be16(d[0], d[1]) == v && Meets(d[2..], rest)
  {
    hide PutBe16, Be16;
    assert d[0..] == d && PutBe16(v) + [] == PutBe16(v);
    PieceOfCut(d, 0, PutBe16(v), rest);
    if |d| >= 2 {
      assert d[0] == PutBe16(v)[0] && d[1] == PutBe16(v)[1];
    }
  }

  lemma SniData(es: seq<NameEntry>, d: Bytes)
    requires ExtFits(ServerName(es)) && Meets(d, ToItem(ServerName(es)).data)
    ensures SniOf(d) == HostWithin(es, |d| - 2)
  {
    hide PutBe16, Be16, ScanSni, PutEntries, Meets;
    FirstTwo(|PutEntries(es)|, PutEntries(es), d);
    if |d| >= 2 {
      SniAtEveryCut(d, 2, 2 + |PutEntries(es)|, es);
    }
  }

  lemma AlpnData(ns: seq<Name>, d: Bytes)
    requires ExtFits(Alpn(ns)) && Meets(d, ToItem(Alpn(ns)).data)
    ensures AlpnOf(d) == NamesWithin(ns, |d| - 2)
  {
    hide PutBe16, Be16, ScanAlpn, PutNames, Meets;
    FirstTwo(|PutNames(ns)|, PutNames(ns), d);
    if |d| >= 2 {
      AlpnAtEveryCut(d, 2, 2 + |PutNames(ns)|, ns);
    }
  }

  lemma U16sData(vs: seq<u16>, d: Bytes)
    requires |PutU16s(vs)| < TWO16 && Meets(d, PutBe16(|PutU16s(vs)|) + PutU16s(vs))
    ensures U16sOf(d) == if |d| < 2 then [] else vs[..Min((|d| - 2) / 2, |vs|)]
  {
    hide PutBe16, Be16, ScanU16s, PutU16s, Meets, Min, U16sOf, U16sWithin;
    FirstTwo(|PutU16s(vs)|, PutU16s(vs), d);
    U16sOfAt(d);
    if |d| >= 2 {
      U16sAtEveryCut(d, 2, 2 + |PutU16s(vs)|, vs);
      U16sHalf(vs, |d| - 2);
    }
  }

  lemma U16sOfAt(d: Bytes)
    ensures U16sOf(d) == if |d| < 2 then [] else ScanU16s(d, 2, 2 + Be16(d[0], d[1]))
  {
  }

  // ---- hellos

  /** Where the extension block of a ClientHello starts, and of a ServerHello. */
  function ClientBlock(h: ClientHello): nat { 38 + |h.sessionId| + 2 * |h.suites| + |h.compression| }

  function ServerBlock(h: ServerHello): nat { 38 + |h.sessionId| }

  lemma ClientEnds(h: ClientHello)
    requires ClientFits(h)
    ensures var b := PutClientHello(h);
            && |b| >= ClientBlock(h) >= 38 && b[ClientBlock(h)..] == PutBlock(h.exts)
            && Be16(b[0], b[1]) == h.version && OfferEnd(b) == Some(ClientBlock(h))
  {
    hide PutBlock, PutU16s, BlockFits, SessionEnd, OfferEnd, PutBe16;
    var b: Bytes := PutClientHello(h);
    var rest := [|h.compression| as byte] + (h.compression + PutBlock(h.exts));
    SessionSent(b, h.version, h.random, h.sessionId, PutBe16(2 * |h.suites|) + (PutU16s(h.suites) + rest));
    OfferSent(b, PutBe16(2 * |h.suites|), PutU16s(h.suites), [|h.compression| as byte], h.compression,
        PutBlock(h.exts));
    assert |b| == ClientBlock(h) + |PutBlock(h.exts)|;
  }

  lemma CutEnds(a: Bytes, b: Bytes)
    requires a <= b
    ensures SessionEnd(b).Some? ==> SessionEnd(a) == if SessionEnd(b).value <= |a| then SessionEnd(b) else None
    ensures OfferEnd(b).Some? ==> OfferEnd(a) == if OfferEnd(b).value <= |a| then OfferEnd(b) else None
  {
  }

  /** A ClientHello cut after `n` bytes: its version as soon as that is there, and its extensions
      as far as they are. */
  lemma ClientHelloAtEveryCut(h: ClientHello, n: nat)
    requires ClientFits(h) && n <= |PutClientHello(h)|
    ensures ClientHelloDelta(PutClientHello(h)[..n])
         == if n < 2 then NOP
            else Then(NOP.(clientHello := true, clientVersion := Some(h.version), neg := IfZero(h.version)),
                      ExtsDelta(CutItems(h.exts, n - ClientBlock(h) - 2), false))
  {
    hide PutClientHello, ClientFits, PutBlock, OfferEnd, BlockExts, ExtsDelta, Be16;
    var b := PutClientHello(h);
    var a, off := b[..n], ClientBlock(h);
    ClientEnds(h);
    CutEnds(a, b);
    if n >= 2 {
      assert a[0] == b[0] && a[1] == b[1];
      if off <= n {
        assert a[off..] <= b[off..];
        FitsBlock(h);
        BlockAtEveryCut(a, off, h.exts);
      } else {
        NoExts(h.exts, n - off - 2, false);
        ThenNop(NOP.(clientHello := true, clientVersion := Some(h.version), neg := IfZero(h.version)));
      }
    }
  }

  lemma FitsBlock(h: ClientHello)
    requires ClientFits(h)
    ensures BlockFits(h.exts)
  {
  }

  lemma NoExts(es: seq<Item>, n: int, server: bool)
    requires n < 4
    ensures ExtsDelta(CutItems(es, n), server) == NOP
  {
  }

  /** A ServerHello cut after `n` bytes: its version as soon as that is there, its suite as soon as
      that is, and after the compression byte its extensions as far as they are and the version
      that they and the suite amount to. */
  lemma ServerHelloAtEveryCut(h: ServerHello, n: nat)
    requires ServerFits(h) && n <= |PutServerHello(h)|
    ensures ServerHelloDelta(PutServerHello(h)[..n])
         == var head := NOP.(serverHello := true, neg := Always(h.version));
            if n < 2 then NOP
            else if n < ServerBlock(h) - 1 then head
            else if n < ServerBlock(h) then head.(cipher := Some(h.suite))
            else
              var d := Then(head.(cipher := Some(h.suite)), ExtsDelta(CutItems(h.exts, n - ServerBlock(h) - 2), true));
              d.(neg := Always(Negotiated(d.neg.v, h.suite)))
  {
    hide PutServerHello, ServerFits, PutBlock, SessionEnd, BlockExts, ExtsDelta, Be16, Then;
    var b := PutServerHello(h);
    var a, off := b[..n], ServerBlock(h);
    ServerEnds(h);
    CutEnds(a, b);
    if n >= 2 {
      assert a[0] == b[0] && a[1] == b[1];
    }
    if n >= off - 1 {
      assert a[off - 3] == b[off - 3] && a[off - 2] == b[off - 2];
    }
    if n >= off {
      assert a[off..] <= b[off..];
      BlockAtEveryCut(a, off, h.exts);
    }
  }

  lemma ServerEnds(h: ServerHello)
    requires ServerFits(h)
    ensures var b, off := PutServerHello(h), ServerBlock(h);
            && |b| >= off >= 38 && b[off..] == PutBlock(h.exts) && Be16(b[0], b[1]) == h.version
            && SessionEnd(b) == Some(off - 3) && Be16(b[off - 3], b[off - 2]) == h.suite
    ensures BlockFits(h.exts)
  {
    hide PutBlock, BlockFits, SessionEnd, PutBe16;
    var b, off := PutServerHello(h), 35 + |h.sessionId|;
    SessionSent(b, h.version, h.random, h.sessionId, PutBe16(h.suite) + ([h.compression] + PutBlock(h.exts)));
    Piece(b, off, PutBe16(h.suite), [h.compression] + PutBlock(h.exts));
    Piece(b, off + 2, [h.compression], PutBlock(h.exts));
    assert b[off] == PutBe16(h.suite)[0] && b[off + 1] == PutBe16(h.suite)[1];
  }

  // ---- captures

  /** Any beginning of a capture says exactly what its whole messages say, and its last one as far
      as it goes. */
  lemma BufferAtEveryCut(x509: X509, a: Bytes, ms: seq<Item>, rs: seq<Record>)
    requires Sendable(ms) && Framable(rs) && Payloads(rs) == SendMessages(ms) && a <= Frames(rs)
    ensures BufferDelta(x509, a) == MessagesDelta(x509, CutItems(ms, |CutPayloads(rs, |a|)|))
  {
    hide Collect, Messages, MessagesDelta, Frames, Framable, SendMessages;
    assert a[0..] == a;
    CollectAtEveryCut(a, 0, rs);
    var s := Collect(a, 0);
    CutOfPayloads(rs, |a|);
    assert s[0..] == s;
    MessagesAtEveryCut(s, 0, ms);
  }

  lemma {:induction false} CutOfPayloads(rs: seq<Record>, n: nat)
    ensures CutPayloads(rs, n) <= Payloads(rs)
  {
    if rs != [] && n >= 5 && n - 5 >= |rs[0].payload| {
      CutOfPayloads(rs[1..], n - 5 - |rs[0].payload|);
    }
  }

  /** The message types, with the numbers of the standards. */
  lemma MessageTypes(x509: X509, b: Bytes)
    ensures MessageDelta(x509, Item(MESSAGE_CLIENT_HELLO, b)) == ClientHelloDelta(b)
    ensures MessageDelta(x509, Item(MESSAGE_SERVER_HELLO, b)) == ServerHelloDelta(b)
    ensures MessageDelta(x509, Item(MESSAGE_CERTIFICATE, b)) == CertificateDelta(x509, b)
    ensures forall t: u16 :: t !in {MESSAGE_CLIENT_HELLO, MESSAGE_SERVER_HELLO, MESSAGE_CERTIFICATE} ==>
              MessageDelta(x509, Item(t, b)) == NOP
  {
  }
}
