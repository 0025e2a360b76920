/** Handshakes as they are put on the wire, and what parsing them gives back: the round trips
    against the framing of RFC 8446, and the irrelevance of extension order. */
module TlsWire {
  import opened Bytes
  import opened TlsInfo
  import opened TlsSpec
  import opened TlsNumbers

  /** Reading off the first piece of what is left. */
  lemma Piece(b: Bytes, off: nat, p: Bytes, q: Bytes)
    requires off <= |b| && b[off..] == p + q
    ensures off + |p| <= |b| && b[off + |p|..] == q && b[off..off + |p|] == p
    ensures forall i :: 0 <= i < |p| ==> b[off + i] == p[i]
  {
    assert forall i :: 0 <= i < |b| - off ==> b[off..][i] == b[off + i];
  }

  // ---- record layer

  datatype Record = Record(major: byte, minor: byte, payload: Bytes)

  /** Section 5.1 of RFC 8446; the version is the sender's, nobody looks at it. */
  function RecordHeader(r: Record): (h: Bytes)
    requires |r.payload| < TWO16
    ensures |h| == 5 && h[0] == RECORD_HANDSHAKE && Be16(h[3], h[4]) == |r.payload|
  {
    [RECORD_HANDSHAKE, r.major, r.minor] + PutBe16(|r.payload|)
  }

  predicate Framable(rs: seq<Record>) {
    forall r :: r in rs ==> |r.payload| < TWO16
  }

  function Frames(rs: seq<Record>): Bytes
    requires Framable(rs)
  {
    if rs == [] then [] else RecordHeader(rs[0]) + (rs[0].payload + Frames(rs[1..]))
  }

  function Payloads(rs: seq<Record>): Bytes {
    if rs == [] then [] else rs[0].payload + Payloads(rs[1..])
  }

  lemma CollectStep(buf: Bytes, p: nat, header: Bytes, payload: Bytes, rest: Bytes)
    requires p <= |buf| && buf[p..] == header + (payload + rest)
    requires |header| == 5 && header[0] == RECORD_HANDSHAKE && Be16(header[3], header[4]) == |payload|
    ensures p + 5 + |payload| <= |buf| && buf[p + 5 + |payload|..] == rest
    ensures Collect(buf, p) == payload + Collect(buf, p + 5 + |payload|)
  {
    hide Be16, Collect;
    CollectAt(buf, p);
    Piece(buf, p, header, payload + rest);
    Piece(buf, p + 5, payload, rest);
    assert buf[p] == header[0] && buf[p + 3] == header[3] && buf[p + 4] == header[4];
  }

  lemma CollectNone(buf: Bytes, p: nat, tail: Bytes)
    requires p <= |buf| && buf[p..] == [] + tail
    requires |tail| < 5 || tail[0] != RECORD_HANDSHAKE
    ensures Collect(buf, p) == []
  {
    assert [] + tail == tail;
    assert |tail| >= 5 ==> buf[p] == buf[p..][0];
  }

  lemma FramableTail(rs: seq<Record>)
    requires Framable(rs) && rs != []
    ensures |rs[0].payload| < TWO16 && Framable(rs[1..])
  {
  }

  /** Reassembling framed payloads gives their concatenation, up to the first thing that is
      not a whole header of a handshake record. */
  lemma {:induction false} CollectFrames(buf: Bytes, p: nat, rs: seq<Record>, tail: Bytes)
    requires Framable(rs) && p <= |buf| && buf[p..] == Frames(rs) + tail
    requires |tail| < 5 || tail[0] != RECORD_HANDSHAKE
    ensures Collect(buf, p) == Payloads(rs)
    decreases |rs|
  {
    hide RecordHeader, Be16, Collect, Framable;
    if rs == [] {
      CollectNone(buf, p, tail);
    } else {
      FramableTail(rs);
      var r, more := rs[0], Frames(rs[1..]);
      AppendAssoc(RecordHeader(r), r.payload + more, tail);
      AppendAssoc(r.payload, more, tail);
      CollectStep(buf, p, RecordHeader(r), r.payload, more + tail);
      CollectFrames(buf, p + 5 + |r.payload|, rs[1..], tail);
    }
  }

  // ---- handshake messages

  predicate Sendable(ms: seq<Item>) {
    forall m :: m in ms ==> m.tag < 0x100 && |m.data| < 0x100_0000
  }

  function MessageHeader(m: Item): (h: Bytes)
    requires m.tag < 0x100 && |m.data| < 0x100_0000
    ensures |h| == 4 && h[0] == m.tag && Be24(h[1], h[2], h[3]) == |m.data|
  {
    [m.tag as byte] + PutBe24(|m.data|)
  }

  function SendMessages(ms: seq<Item>): Bytes
    requires Sendable(ms)
  {
    if ms == [] then [] else MessageHeader(ms[0]) + (ms[0].data + SendMessages(ms[1..]))
  }

  lemma MessagesStep(s: Bytes, p: nat, header: Bytes, body: Bytes, rest: Bytes)
    requires p <= |s| && s[p..] == header + (body + rest)
    requires |header| == 4 && Be24(header[1], header[2], header[3]) == |body|
    ensures p + 4 + |body| <= |s| && s[p + 4 + |body|..] == rest
    ensures Messages(s, p) == [Item(header[0], body)] + Messages(s, p + 4 + |body|)
  {
    hide Be24, Messages;
    MessagesAt(s, p);
    Piece(s, p, header, body + rest);
    Piece(s, p + 4, body, rest);
    assert s[p] == header[0] && s[p + 1] == header[1] && s[p + 2] == header[2] && s[p + 3] == header[3];
  }

  lemma MessagesNone(s: Bytes, p: nat)
    requires p == |s|
    ensures Messages(s, p) == []
  {
  }

  lemma SendableTail(ms: seq<Item>)
    requires Sendable(ms) && ms != []
    ensures ms[0].tag < 0x100 && |ms[0].data| < 0x100_0000 && Sendable(ms[1..])
  {
  }

  lemma {:induction false} MessagesSent(s: Bytes, p: nat, ms: seq<Item>)
    requires Sendable(ms) && p <= |s| && s[p..] == SendMessages(ms)
    ensures Messages(s, p) == ms
    decreases |ms|
  {
    hide MessageHeader, Be24, Messages, Sendable;
    if ms == [] {
      assert |s| == p;
      MessagesNone(s, p);
    } else {
      SendableTail(ms);
      var m := ms[0];
      MessagesStep(s, p, MessageHeader(m), m.data, SendMessages(ms[1..]));
      MessagesSent(s, p + 4 + |m.data|, ms[1..]);
    }
  }

  // ---- extensions

  predicate ItemsFit(es: seq<Item>) {
    forall e :: e in es ==> |e.data| < TWO16
  }

  function ExtHeader(e: Item): (h: Bytes)
    requires |e.data| < TWO16
    ensures |h| == 4 && Be16(h[0], h[1]) == e.tag && Be16(h[2], h[3]) == |e.data|
  {
    PutBe16(e.tag) + PutBe16(|e.data|)
  }

  function PutExts(es: seq<Item>): Bytes
    requires ItemsFit(es)
  {
    if es == [] then [] else ExtHeader(es[0]) + (es[0].data + PutExts(es[1..]))
  }

  lemma WalkStep(b: Bytes, off: nat, header: Bytes, data: Bytes, rest: Bytes)
    requires off <= |b| && b[off..] == header + (data + rest)
    requires |header| == 4 && Be16(header[2], header[3]) == |data|
    ensures off + 4 + |data| <= |b| && b[off + 4 + |data|..] == rest
    ensures Walk(b, off, |b|) == [Item(Be16(header[0], header[1]), data)] + Walk(b, off + 4 + |data|, |b|)
  {
    hide Be16, Walk;
    WalkAt(b, off, |b|);
    Piece(b, off, header, data + rest);
    Piece(b, off + 4, data, rest);
    assert b[off] == header[0] && b[off + 1] == header[1] && b[off + 2] == header[2] && b[off + 3] == header[3];
  }

  lemma WalkNone(b: Bytes, off: nat)
    requires off == |b|
    ensures Walk(b, off, |b|) == []
  {
  }

  lemma ItemsFitTail(es: seq<Item>)
    requires ItemsFit(es) && es != []
    ensures |es[0].data| < TWO16 && ItemsFit(es[1..])
  {
  }

  lemma {:induction false} WalkSent(b: Bytes, off: nat, es: seq<Item>)
    requires ItemsFit(es) && off <= |b| && b[off..] == PutExts(es)
    ensures Walk(b, off, |b|) == es
    decreases |es|
  {
    hide ExtHeader, Be16, Walk, ItemsFit;
    if es == [] {
      assert |b| == off;
      WalkNone(b, off);
    } else {
      ItemsFitTail(es);
      var e := es[0];
      WalkStep(b, off, ExtHeader(e), e.data, PutExts(es[1..]));
      WalkSent(b, off + 4 + |e.data|, es[1..]);
    }
  }

  predicate BlockFits(es: seq<Item>) { ItemsFit(es) && |PutExts(es)| < TWO16 }

  function PutBlock(es: seq<Item>): Bytes
    requires BlockFits(es)
  {
    PutBe16(|PutExts(es)|) + PutExts(es)
  }

  lemma BlockSent(b: Bytes, off: nat, es: seq<Item>)
    requires BlockFits(es) && off <= |b| && b[off..] == PutBlock(es)
    ensures BlockExts(b, off) == es
  {
    hide PutBe16, PutExts, Walk, Be16, ItemsFit;
    var n := PutBe16(|PutExts(es)|);
    Piece(b, off, n, PutExts(es));
    assert b[off] == n[0] && b[off + 1] == n[1];
    WalkSent(b, off + 2, es);
  }

  // ---- lists inside extensions

  datatype NameEntry = NameEntry(ntype: byte, name: Name)

  predicate EntriesFit(es: seq<NameEntry>) {
    forall e :: e in es ==> |e.name| < TWO16
  }

  function EntryHeader(e: NameEntry): (h: Bytes)
    requires |e.name| < TWO16
    ensures |h| == 3 && h[0] == e.ntype && Be16(h[1], h[2]) == |e.name|
  {
    [e.ntype] + PutBe16(|e.name|)
  }

  function PutEntries(es: seq<NameEntry>): Bytes
    requires EntriesFit(es)
  {
    if es == [] then [] else EntryHeader(es[0]) + (es[0].name + PutEntries(es[1..]))
  }

  /** The first entry of type host_name. */
  function FirstHost(es: seq<NameEntry>): Name {
    if es == [] then [] else if es[0].ntype == 0 then es[0].name else FirstHost(es[1..])
  }

  lemma {:induction false} SniSent(b: Bytes, off: nat, es: seq<NameEntry>)
    requires EntriesFit(es) && off <= |b| && b[off..] == PutEntries(es)
    ensures ScanSni(b, off, |b|) == FirstHost(es)
    decreases |es|
  {
    hide EntryHeader, Be16, ScanSni, EntriesFit;
    if es == [] {
      ScanSniAt(b, off, |b|);
    } else {
      EntriesFitTail(es);
      SniStep(b, off, EntryHeader(es[0]), es[0].name, PutEntries(es[1..]));
      SniSent(b, off + 3 + |es[0].name|, es[1..]);
    }
  }

  lemma EntriesFitTail(es: seq<NameEntry>)
    requires EntriesFit(es) && es != []
    ensures |es[0].name| < TWO16 && EntriesFit(es[1..])
  {
  }

  lemma SniStep(b: Bytes, off: nat, h: Bytes, name: Name, rest: Bytes)
    requires off <= |b| && b[off..] == h + (name + rest)
    requires |h| == 3 && Be16(h[1], h[2]) == |name|
    ensures off + 3 + |name| <= |b| && b[off + 3 + |name|..] == rest
    ensures ScanSni(b, off, |b|) == if h[0] == 0 then name else ScanSni(b, off + 3 + |name|, |b|)
  {
    hide Be16, ScanSni;
    ScanSniAt(b, off, |b|);
    Piece(b, off, h, name + rest);
    Piece(b, off + 3, name, rest);
    assert b[off] == h[0] && b[off + 1] == h[1] && b[off + 2] == h[2];
  }

  predicate NamesFit(ns: seq<Name>) {
    forall n :: n in ns ==> |n| < 0x100
  }

  function PutNames(ns: seq<Name>): Bytes
    requires NamesFit(ns)
  {
    if ns == [] then [] else [|ns[0]| as byte] + (ns[0] + PutNames(ns[1..]))
  }

  lemma {:induction false} AlpnSent(b: Bytes, off: nat, ns: seq<Name>)
    requires NamesFit(ns) && off <= |b| && b[off..] == PutNames(ns)
    ensures ScanAlpn(b, off, |b|) == ns
    decreases |ns|
  {
    if ns != [] {
      var n, rest := ns[0], PutNames(ns[1..]);
      Piece(b, off, [|n| as byte], n + rest);
      Piece(b, off + 1, n, rest);
      assert b[off] == [|n| as byte][0];
      AlpnSent(b, off + 1 + |n|, ns[1..]);
    }
  }

  function PutU16s(vs: seq<u16>): (r: Bytes)
    ensures |r| == 2 * |vs|
  {
    if vs == [] then [] else PutBe16(vs[0]) + PutU16s(vs[1..])
  }

  lemma {:induction false} U16sSent(b: Bytes, off: nat, vs: seq<u16>)
    requires off <= |b| && b[off..] == PutU16s(vs)
    ensures ScanU16s(b, off, |b|) == vs
    decreases |vs|
  {
    if vs != [] {
      var v, rest := vs[0], PutU16s(vs[1..]);
      Piece(b, off, PutBe16(v), rest);
      assert b[off] == PutBe16(v)[0] && b[off + 1] == PutBe16(v)[1];
      U16sSent(b, off + 2, vs[1..]);
    }
  }
}
