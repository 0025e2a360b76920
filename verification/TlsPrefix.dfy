/** What a parse of a prefix has to do with a parse of the whole: the absorption law behind
    re-parsing a growing buffer, and what a truncated capture can be trusted for. */
module TlsPrefix {
  import opened Bytes
  import opened TlsInfo
  import opened TlsSpec

  // ---- a prefix of the bytes gives a cut of the items

  /** `a` is `b` cut somewhere: leading items of `b`, the data of the last one cut short. */
  ghost predicate Cut(a: seq<Item>, b: seq<Item>) {
    a == [] || (b != [] && a[0].tag == b[0].tag &&
                ((|a| == 1 && a[0].data <= b[0].data) || (a[0] == b[0] && Cut(a[1..], b[1..]))))
  }

  lemma SlicePrefix(a: Bytes, b: Bytes, i: nat, j: nat)
    requires a <= b && i <= j <= |b|
    ensures j <= |a| ==> a[i..j] == b[i..j]
    ensures i <= |a| <= j ==> a[i..] <= b[i..j]
  {
  }

  lemma CutCons(x: Item, a: seq<Item>, b: seq<Item>)
    requires Cut(a, b)
    ensures Cut([x] + a, [x] + b)
  {
    assert ([x] + a)[1..] == a && ([x] + b)[1..] == b;
  }

  lemma {:induction false} WalkPrefix(a: Bytes, b: Bytes, off: nat, end: int)
    requires a <= b
    ensures Cut(Walk(a, off, end), Walk(b, off, end))
    decreases |a| - off
  {
    hide Walk;
    WalkAt(a, off, end);
    WalkAt(b, off, end);
    if off + 4 <= end && off + 4 <= |a| {
      var stop := off + 4 + Be16(a[off + 2], a[off + 3]);
      if stop <= |a| {
        SlicePrefix(a, b, off + 4, stop);
        WalkPrefix(a, b, stop, end);
        CutCons(Item(Be16(a[off], a[off + 1]), a[off + 4..stop]), Walk(a, stop, end), Walk(b, stop, end));
      } else {
        SlicePrefix(a, b, off + 4, Min(stop, |b|));
      }
    }
  }

  lemma {:induction false} MessagesPrefix(a: Bytes, b: Bytes, p: nat)
    requires a <= b
    ensures Cut(Messages(a, p), Messages(b, p))
    decreases |a| - p
  {
    hide Messages, Be24;
    MessagesAt(a, p);
    MessagesAt(b, p);
    if p + 4 <= |a| {
      var stop := p + 4 + Be24(a[p + 1], a[p + 2], a[p + 3]);
      if stop <= |a| {
        SlicePrefix(a, b, p + 4, stop);
        MessagesPrefix(a, b, stop);
        CutCons(Item(a[p], a[p + 4..stop]), Messages(a, stop), Messages(b, stop));
      } else {
        SlicePrefix(a, b, p + 4, Min(stop, |b|));
      }
    }
  }

  lemma AppendPrefix(p: Bytes, a: Bytes, b: Bytes)
    requires a <= b
    ensures p + a <= p + b
  {
  }

  /** Seeing less of a buffer never changes the start of its handshake stream. */
  lemma {:induction false} CollectPrefix(a: Bytes, b: Bytes, p: nat)
    requires a <= b
    ensures Collect(a, p) <= Collect(b, p)
    decreases |a| - p
  {
    hide Collect;
    CollectAt(a, p);
    CollectAt(b, p);
    if p + 5 <= |a| && a[p] == CT_HANDSHAKE {
      var stop := p + 5 + Be16(a[p + 3], a[p + 4]);
      SlicePrefix(a, b, p + 5, Min(stop, |b|));
      if stop <= |a| {
        CollectPrefix(a, b, stop);
        AppendPrefix(a[p + 5..stop], Collect(a, stop), Collect(b, stop));
      } else if stop <= |b| {
        assert b[p + 5..stop] <= Collect(b, p);
      }
    }
  }

  lemma CutNil(b: seq<Item>)
    ensures Cut([], b)
  {
  }

  lemma BlockPrefix(a: Bytes, b: Bytes, off: nat)
    requires a <= b
    ensures Cut(BlockExts(a, off), BlockExts(b, off))
  {
    hide Walk, Cut;
    if off + 2 > |a| {
      CutNil(BlockExts(b, off));
    } else {
      WalkPrefix(a, b, off + 2, off + 2 + Be16(a[off], a[off + 1]));
    }
  }

  // ---- lists inside an extension

  /** A name read from a truncated list is the name of the whole list. */
  lemma {:induction false} SniPrefix(a: Bytes, b: Bytes, off: nat, end: int)
    requires a <= b
    ensures ScanSni(a, off, end) == [] || ScanSni(a, off, end) == ScanSni(b, off, end)
    decreases |a| - off
  {
    if off + 3 <= end && off + 3 <= |a| {
      var stop := off + 3 + Be16(a[off + 1], a[off + 2]);
      if stop <= |a| {
        SlicePrefix(a, b, off + 3, stop);
        if a[off] != 0 {
          SniPrefix(a, b, stop, end);
        }
      }
    }
  }

  lemma {:induction false} AlpnPrefix(a: Bytes, b: Bytes, off: nat, end: int)
    requires a <= b
    ensures ScanAlpn(a, off, end) <= ScanAlpn(b, off, end)
    decreases |a| - off
  {
    if off + 1 <= end && off < |a| && off + 1 + a[off] <= |a| {
      SlicePrefix(a, b, off + 1, off + 1 + a[off]);
      AlpnPrefix(a, b, off + 1 + a[off], end);
    }
  }

  lemma {:induction false} U16sPrefix(a: Bytes, b: Bytes, off: nat, end: int)
    requires a <= b
    ensures ScanU16s(a, off, end) <= ScanU16s(b, off, end)
    decreases |a| - off
  {
    if off + 2 <= end && off + 2 <= |a| {
      U16sPrefix(a, b, off + 2, end);
    }
  }

  // ---- absorption

  lemma ExtCovered(tag: u16, a: Bytes, b: Bytes, server: bool)
    requires a <= b
    ensures Covered(ExtDelta(Item(tag, a), server), ExtDelta(Item(tag, b), server))
  {
    if tag == EXT_SERVER_NAME && |a| >= 2 {
      SniPrefix(a, b, 2, 2 + Be16(a[0], a[1]));
    }
  }

  lemma NopCovered(b: Delta)
    ensures Covered(NOP, b)
  {
  }

  lemma {:induction false} ExtsCovered(a: seq<Item>, b: seq<Item>, server: bool)
    requires Cut(a, b)
    ensures Covered(ExtsDelta(a, server), ExtsDelta(b, server))
  {
    if a == [] {
      NopCovered(ExtsDelta(b, server));
    } else if |a| == 1 && a[0].data <= b[0].data {
      assert a[1..] == [];
      ExtCovered(a[0].tag, a[0].data, b[0].data, server);
      ThenNop(ExtDelta(a[0], server));
      CoveredBefore(ExtDelta(a[0], server), ExtDelta(b[0], server), ExtsDelta(b[1..], server));
    } else {
      ExtsCovered(a[1..], b[1..], server);
      CoveredAfter(ExtDelta(a[0], server), ExtsDelta(a[1..], server), ExtsDelta(b[1..], server));
    }
  }

  lemma SessionPrefix(a: Bytes, b: Bytes)
    requires a <= b
    ensures SessionEnd(a).Some? ==> SessionEnd(b) == SessionEnd(a)
    ensures OfferEnd(a).Some? ==> OfferEnd(b) == OfferEnd(a)
  {
  }

  lemma ClientHelloCovered(a: Bytes, b: Bytes)
    requires a <= b
    ensures Covered(ClientHelloDelta(a), ClientHelloDelta(b))
  {
    if |a| < 2 {
      NopCovered(ClientHelloDelta(b));
    } else {
      var ver := Be16(a[0], a[1]);
      var head := NOP.(clientHello := true, clientVersion := Some(ver), neg := IfZero(ver));
      SessionPrefix(a, b);
      if OfferEnd(a).Some? {
        var off := OfferEnd(a).value;
        BlockPrefix(a, b, off);
        ExtsCovered(BlockExts(a, off), BlockExts(b, off), false);
        CoveredAfter(head, ExtsDelta(BlockExts(a, off), false), ExtsDelta(BlockExts(b, off), false));
      } else if OfferEnd(b).Some? {
        CoveredBefore(head, head, ExtsDelta(BlockExts(b, OfferEnd(b).value), false));
      }
    }
  }

  lemma ServerHelloCovered(a: Bytes, b: Bytes)
    requires a <= b
    ensures Covered(ServerHelloDelta(a), ServerHelloDelta(b))
  {
    hide BlockExts, ExtsDelta, SessionEnd;
    if |a| < 2 {
      NopCovered(ServerHelloDelta(b));
    } else {
      SessionPrefix(a, b);
      var s := SessionEnd(a);
      if s.Some? && s.value + 3 <= |a| {
        BlockPrefix(a, b, s.value + 3);
        ExtsCovered(BlockExts(a, s.value + 3), BlockExts(b, s.value + 3), true);
      }
    }
  }

  lemma CertificateCovered(x509: X509, a: Bytes, b: Bytes)
    requires a <= b
    ensures Covered(CertificateDelta(x509, a), CertificateDelta(x509, b))
  {
    if FirstDer(a).Some? {
      SlicePrefix(a, b, 6, 6 + Be24(a[3], a[4], a[5]));
    }
  }

  lemma MessageCovered(x509: X509, tag: u16, a: Bytes, b: Bytes)
    requires a <= b
    ensures Covered(MessageDelta(x509, Item(tag, a)), MessageDelta(x509, Item(tag, b)))
  {
    hide Covered, ClientHelloDelta, ServerHelloDelta, CertificateDelta;
    ClientHelloCovered(a, b);
    ServerHelloCovered(a, b);
    CertificateCovered(x509, a, b);
    NopCovered(NOP);
  }

  lemma {:induction false} MessagesCovered(x509: X509, a: seq<Item>, b: seq<Item>)
    requires Cut(a, b)
    ensures Covered(MessagesDelta(x509, a), MessagesDelta(x509, b))
  {
    hide Covered, MessageDelta;
    if a == [] {
      NopCovered(MessagesDelta(x509, b));
    } else if |a| == 1 && a[0].data <= b[0].data {
      assert a[1..] == [];
      MessageCovered(x509, a[0].tag, a[0].data, b[0].data);
      ThenNop(MessageDelta(x509, a[0]));
      CoveredBefore(MessageDelta(x509, a[0]), MessageDelta(x509, b[0]), MessagesDelta(x509, b[1..]));
    } else {
      MessagesCovered(x509, a[1..], b[1..]);
      CoveredAfter(MessageDelta(x509, a[0]), MessagesDelta(x509, a[1..]), MessagesDelta(x509, b[1..]));
    }
  }

  lemma BufferCovered(x509: X509, a: Bytes, b: Bytes)
    requires a <= b
    ensures Covered(BufferDelta(x509, a), BufferDelta(x509, b))
  {
    CollectPrefix(a, b, 0);
    MessagesPrefix(Collect(a, 0), Collect(b, 0), 0);
    MessagesCovered(x509, Messages(Collect(a, 0), 0), Messages(Collect(b, 0), 0));
  }

  /** Parsing a prefix first changes nothing about parsing the whole, whatever was known
      before, wherever the prefix ends. */
  lemma Absorption(x509: X509, a: Bytes, b: Bytes, i: InfoV)
    requires a <= b
    ensures ParseInfo(x509, b, ParseInfo(x509, a, i)) == ParseInfo(x509, b, i)
  {
    BufferCovered(x509, a, b);
    CoveredIffAbsorbed(BufferDelta(x509, a), BufferDelta(x509, b));
  }
}
