/** Captured chunks come one by one, from two directions, and the whole of a direction's
    buffer is parsed again after each.  What the connection's information is in the end. */
module Reassembly {
  import opened Bytes
  import opened TlsInfo
  import opened TlsSpec
  import opened TlsNumbers
  import opened TlsPrefix

  const MAX_WIRE_BUF := 16384

  datatype Dir = Out | In

  function Other(dir: Dir): Dir { if dir == Out then In else Out }

  datatype Chunk = Chunk(dir: Dir, data: Bytes)

  /** The two reassembly buffers of a connection and what they have shown. */
  datatype Wire = Wire(outBuf: Bytes, inBuf: Bytes, info: InfoV) {
    function Buf(dir: Dir): Bytes { if dir == Out then outBuf else inBuf }
  }

  /** A full buffer refuses the chunk; a chunk that is let in is never split. */
  function Push(buf: Bytes, data: Bytes): Bytes {
    if |buf| < MAX_WIRE_BUF then buf + data else buf
  }

  /** One captured chunk: append to its direction's buffer and parse that buffer again. */
  function WireStep(x509: X509, w: Wire, c: Chunk): Wire {
    var buf := Push(w.Buf(c.dir), c.data);
    Wire(if c.dir == Out then buf else w.outBuf,
         if c.dir == In then buf else w.inBuf,
         ParseInfo(x509, buf, w.info))
  }

  function WireRun(x509: X509, w: Wire, cs: seq<Chunk>): Wire {
    if cs == [] then w else WireStep(x509, WireRun(x509, w, cs[..|cs| - 1]), cs[|cs| - 1])
  }

  function Start(i: InfoV): Wire { Wire([], [], i) }

  /** The data that came from one direction. */
  function From(cs: seq<Chunk>, dir: Dir): seq<Bytes> {
    if cs == [] then []
    else
      var last := cs[|cs| - 1];
      From(cs[..|cs| - 1], dir) + (if last.dir == dir then [last.data] else [])
  }

  /** What the buffer lets in. */
  function Accepted(ds: seq<Bytes>): Bytes {
    if ds == [] then [] else Push(Accepted(ds[..|ds| - 1]), ds[|ds| - 1])
  }

  /** Data is lost only once the buffer is full. */
  lemma {:induction false} RefusedIsFull(ds: seq<Bytes>)
    ensures |Accepted(ds)| < 16384 ==> Accepted(ds) == Concat(ds)
    ensures Accepted(ds) <= Concat(ds)
  {
    if ds != [] {
      var init, last := ds[..|ds| - 1], ds[|ds| - 1];
      assert ds == init + [last];
      ConcatSnoc(init, last);
      RefusedIsFull(init);
    }
  }

  /** Nothing is refused exactly when there is room before the last chunk. */
  lemma AcceptedAll(ds: seq<Bytes>)
    requires forall d :: d in ds ==> d != []
    ensures Accepted(ds) == Concat(ds) <==> ds == [] || |Concat(ds[..|ds| - 1])| < 16384
  {
    if ds != [] {
      var init, last := ds[..|ds| - 1], ds[|ds| - 1];
      assert ds == init + [last];
      ConcatSnoc(init, last);
      RefusedIsFull(init);
      assert last in ds;
    }
  }

  lemma ParseNothing(x509: X509, i: InfoV)
    ensures ParseInfo(x509, [], i) == i
  {
  }

  lemma FromSnoc(cs: seq<Chunk>, c: Chunk, dir: Dir)
    ensures From(cs + [c], dir) == From(cs, dir) + (if c.dir == dir then [c.data] else [])
    ensures Accepted(From(cs + [c], dir)) == if c.dir == dir then Push(Accepted(From(cs, dir)), c.data)
            else Accepted(From(cs, dir))
  {
    assert (cs + [c])[..|cs|] == cs;
    var ds := From(cs, dir);
    assert (ds + [c.data])[..|ds|] == ds && ds + [] == ds;
  }

  lemma {:induction false} BufIsAccepted(x509: X509, i: InfoV, cs: seq<Chunk>, dir: Dir)
    ensures WireRun(x509, Start(i), cs).Buf(dir) == Accepted(From(cs, dir))
  {
    hide ParseInfo, WireRun, From, Accepted;
    if cs == [] {
      RunNil(x509, Start(i), dir);
    } else {
      var init, last := cs[..|cs| - 1], cs[|cs| - 1];
      BufIsAccepted(x509, i, init, dir);
      assert cs == init + [last];
      RunSnoc(x509, Start(i), init, last);
      FromSnoc(init, last, dir);
    }
  }

  /** Chunks of one direction, into an empty buffer. */
  lemma {:induction false} OneDirection(x509: X509, w: Wire, cs: seq<Chunk>, dir: Dir)
    requires w.Buf(dir) == [] && forall c :: c in cs ==> c.dir == dir
    ensures WireRun(x509, w, cs).info == ParseInfo(x509, Accepted(From(cs, dir)), w.info)
    ensures WireRun(x509, w, cs).Buf(dir) == Accepted(From(cs, dir))
    ensures WireRun(x509, w, cs).Buf(Other(dir)) == w.Buf(Other(dir))
  {
    hide ParseInfo, WireRun, From, Accepted;
    if cs == [] {
      RunNil(x509, w, dir);
      ParseNothing(x509, w.info);
    } else {
      var init, last := cs[..|cs| - 1], cs[|cs| - 1];
      OneDirection(x509, w, init, dir);
      assert cs == init + [last] && last in cs;
      RunSnoc(x509, w, init, last);
      FromSnoc(init, last, dir);
      Absorption(x509, Accepted(From(init, dir)), Accepted(From(cs, dir)), w.info);
    }
  }

  lemma RunNil(x509: X509, w: Wire, dir: Dir)
    ensures WireRun(x509, w, []) == w && From([], dir) == [] && Accepted([]) == []
  {
  }

  lemma RunSnoc(x509: X509, w: Wire, cs: seq<Chunk>, c: Chunk)
    ensures WireRun(x509, w, cs + [c]) == WireStep(x509, WireRun(x509, w, cs), c)
  {
    assert (cs + [c])[..|cs|] == cs;
  }

  /** One direction: however the bytes are cut into chunks, the information is that of one
      parse of all the bytes let in, on top of what was known at the start. */
  lemma ChunkingIndependence(x509: X509, i: InfoV, cs: seq<Chunk>, dir: Dir)
    requires forall c :: c in cs ==> c.dir == dir
    ensures WireRun(x509, Start(i), cs).info == ParseInfo(x509, Accepted(From(cs, dir)), i)
  {
    OneDirection(x509, Start(i), cs, dir);
  }

  /** ... which is one parse of the whole stream when the buffer had room before the last chunk. */
  lemma WholeStream(x509: X509, i: InfoV, cs: seq<Chunk>, dir: Dir)
    requires forall c :: c in cs ==> c.dir == dir
    requires forall d :: d in From(cs, dir) ==> d != []
    requires cs == [] || |Concat(From(cs, dir)[..|From(cs, dir)| - 1])| < 16384
    ensures WireRun(x509, Start(i), cs).info == ParseInfo(x509, Concat(From(cs, dir)), i)
  {
    ChunkingIndependence(x509, i, cs, dir);
    AcceptedAll(From(cs, dir));
  }

  // ---- two directions

  /** A field after two buffers wrote it in some order. */
  ghost predicate JoinedField<T(!new)>(was: T, c: Option<T>, s: Option<T>, now: T) {
    if c.Some? && s.Some? then now == c.value || now == s.value else now == Pick(s, Pick(c, was))
  }

  ghost predicate JoinedNeg(was: u16, c: NegWrite, s: NegWrite, now: u16) {
    match (c, s)
    case (Always(a), Always(b)) => now == a || now == b
    case (Always(a), IfZero(b)) => if a != 0 then now == a else now == 0 || now == b
    case (IfZero(a), Always(b)) => if b != 0 then now == b else now == 0 || now == a
    case (IfZero(a), IfZero(b)) =>
      if was != 0 then now == was else (now == 0 || now == a || now == b) && (now == 0 ==> a == 0 && b == 0)
  }

  /** What is known, given what the two buffers show by now: a field that only one of them writes
      is what that one says, a field that both write is what one of them says. */
  ghost predicate Joined(i0: InfoV, c: Delta, s: Delta, i: InfoV) {
    && i.hasClientHello == (i0.hasClientHello || c.clientHello || s.clientHello)
    && i.hasServerHello == (i0.hasServerHello || c.serverHello || s.serverHello)
    && i.hasCert == (i0.hasCert || c.cert.Some? || s.cert.Some?)
    && JoinedField(i0.sni, c.sni, s.sni, i.sni)
    && JoinedField(i0.alpn, c.alpn, s.alpn, i.alpn)
    && JoinedField(i0.clientVersion, c.clientVersion, s.clientVersion, i.clientVersion)
    && JoinedNeg(i0.negVersion, c.neg, s.neg, i.negVersion)
    && JoinedField(i0.cipherSuite, c.cipher, s.cipher, i.cipherSuite)
    && JoinedField(i0.group, c.group, s.group, i.group)
    && JoinedField(i0.offeredSigs, c.sigs, s.sigs, i.offeredSigs)
    && JoinedField(i0.cert, c.cert, s.cert, i.cert)
  }

  lemma JoinedMore(i0: InfoV, c: Delta, c': Delta, s: Delta, i: InfoV)
    requires Joined(i0, c, s, i) && Covered(c, c')
    ensures Joined(i0, c', s, Act(c', i))
  {
  }

  lemma JoinedSwap(i0: InfoV, c: Delta, s: Delta, i: InfoV)
    ensures Joined(i0, c, s, i) <==> Joined(i0, s, c, i)
  {
  }

  lemma JoinedStart(x509: X509, i: InfoV)
    ensures Joined(i, BufferDelta(x509, []), BufferDelta(x509, []), i)
  {
    assert BufferDelta(x509, []) == NOP;
  }

  /** After any interleaving of any two streams, the information joins what the two buffers show. */
  lemma {:induction false} JoinedRun(x509: X509, i: InfoV, cs: seq<Chunk>, dir: Dir)
    ensures Joined(i, BufferDelta(x509, Accepted(From(cs, dir))), BufferDelta(x509, Accepted(From(cs, Other(dir)))),
                   WireRun(x509, Start(i), cs).info)
  {
    hide BufferDelta, Joined, Covered, Accepted, From, WireRun, Act;
    if cs == [] {
      RunNil(x509, Start(i), dir);
      RunNil(x509, Start(i), Other(dir));
      JoinedStart(x509, i);
    } else {
      var init, last := cs[..|cs| - 1], cs[|cs| - 1];
      assert cs == init + [last];
      JoinedRun(x509, i, init, dir);
      JoinedStep(x509, i, init, last, dir);
    }
  }

  lemma JoinedStep(x509: X509, i: InfoV, cs: seq<Chunk>, last: Chunk, dir: Dir)
    requires Joined(i, BufferDelta(x509, Accepted(From(cs, dir))), BufferDelta(x509, Accepted(From(cs, Other(dir)))),
                    WireRun(x509, Start(i), cs).info)
    ensures Joined(i, BufferDelta(x509, Accepted(From(cs + [last], dir))),
                   BufferDelta(x509, Accepted(From(cs + [last], Other(dir)))),
                       WireRun(x509, Start(i), cs + [last]).info)
  {
    hide BufferDelta, Joined, Covered, Accepted, From, WireRun, Act;
    var now, before := Accepted(From(cs + [last], last.dir)), Accepted(From(cs, last.dir));
    FromSnoc(cs, last, dir);
    FromSnoc(cs, last, Other(dir));
    BufIsAccepted(x509, i, cs, last.dir);
    RunSnoc(x509, Start(i), cs, last);
    assert last.dir == dir || last.dir == Other(dir);
    BufferCovered(x509, before, now);
    var c, s := BufferDelta(x509, before), BufferDelta(x509, Accepted(From(cs, Other(last.dir))));
    var info := WireRun(x509, Start(i), cs).info;
    JoinedSwap(i, c, s, info);
    JoinedMore(i, c, BufferDelta(x509, now), s, info);
    JoinedSwap(i, BufferDelta(x509, now), s, Act(BufferDelta(x509, now), info));
  }

  /** The chunks arrive in some order that keeps the order of each direction. */
  ghost predicate Interleaves(cs: seq<Chunk>, client: Dir, cds: seq<Bytes>, sds: seq<Bytes>) {
    From(cs, client) == cds && From(cs, Other(client)) == sds
  }

  /** All interleavings end with the same information. */
  ghost predicate Confluent(x509: X509, i: InfoV, client: Dir, cds: seq<Bytes>, sds: seq<Bytes>) {
    forall p, q :: Interleaves(p, client, cds, sds) && Interleaves(q, client, cds, sds)
                   ==> WireRun(x509, Start(i), p).info == WireRun(x509, Start(i), q).info
  }

  function ChunksOf(ds: seq<Bytes>, dir: Dir): (cs: seq<Chunk>)
    ensures |cs| == |ds| && forall k :: 0 <= k < |ds| ==> cs[k] == Chunk(dir, ds[k])
  {
    seq(|ds|, k requires 0 <= k < |ds| => Chunk(dir, ds[k]))
  }

  lemma {:induction false} FromChunksOf(ds: seq<Bytes>, dir: Dir)
    ensures From(ChunksOf(ds, dir), dir) == ds && From(ChunksOf(ds, dir), Other(dir)) == []
  {
    if ds != [] {
      var init := ds[..|ds| - 1];
      FromChunksOf(init, dir);
      assert ChunksOf(ds, dir)[..|ds| - 1] == ChunksOf(init, dir);
      assert ds == init + [ds[|ds| - 1]];
    }
  }

  lemma {:induction false} RunAppend(x509: X509, w: Wire, a: seq<Chunk>, b: seq<Chunk>, dir: Dir)
    ensures WireRun(x509, w, a + b) == WireRun(x509, WireRun(x509, w, a), b)
    ensures From(a + b, dir) == From(a, dir) + From(b, dir)
  {
    hide WireStep, WireRun, From;
    if b == [] {
      assert a + b == a && From(a, dir) + [] == From(a, dir);
      RunNil(x509, WireRun(x509, w, a), dir);
    } else {
      var init, last := b[..|b| - 1], b[|b| - 1];
      RunAppend(x509, w, a, init, dir);
      assert a + b == (a + init) + [last] && b == init + [last];
      RunSnoc(x509, w, a + init, last);
      RunSnoc(x509, WireRun(x509, w, a), init, last);
      FromSnoc(a + init, last, dir);
      FromSnoc(init, last, dir);
    }
  }

  /** All of one direction before all of the other. */
  lemma OneAfterTheOther(x509: X509, i: InfoV, first: Dir, fds: seq<Bytes>, ods: seq<Bytes>)
    ensures var p := ChunksOf(fds, first) + ChunksOf(ods, Other(first));
            && From(p, first) == fds && From(p, Other(first)) == ods
            && WireRun(x509, Start(i), p).info == ParseInfo(x509, Accepted(ods), ParseInfo(x509, Accepted(fds), i))
  {
    hide ParseInfo, WireRun, From, Accepted;
    var a, b := ChunksOf(fds, first), ChunksOf(ods, Other(first));
    FromChunksOf(fds, first);
    FromChunksOf(ods, Other(first));
    RunAppend(x509, Start(i), a, b, first);
    RunAppend(x509, Start(i), a, b, Other(first));
    OneDirection(x509, Start(i), a, first);
    OneDirection(x509, WireRun(x509, Start(i), a), b, Other(first));
    assert [] + ods == ods && fds + [] == fds;
  }

  // ---- when the order matters

  predicate AgreeOn<T(==)>(c: Option<T>, s: Option<T>) { c.None? || s.None? || c == s }

  /** The version: two settled ones are the same, a settled one is not zero beside one that is only
      a suggestion, and two suggestions differ only where a version is known. */
  predicate AgreeOnNeg(was: u16, c: NegWrite, s: NegWrite) {
    match (c, s)
    case (Always(a), Always(b)) => a == b
    case (Always(a), IfZero(b)) => a != 0 || b == 0
    case (IfZero(a), Always(b)) => b != 0 || a == 0
    case (IfZero(a), IfZero(b)) => was != 0 || a == 0 || b == 0 || a == b
  }

  /** Field by field: not both directions write it, or both write the same. */
  predicate Agree(i: InfoV, c: Delta, s: Delta) {
    && AgreeOn(c.sni, s.sni) && AgreeOn(c.alpn, s.alpn) && AgreeOn(c.clientVersion, s.clientVersion)
    && AgreeOn(c.cipher, s.cipher) && AgreeOn(c.group, s.group) && AgreeOn(c.sigs, s.sigs) && AgreeOn(c.cert, s.cert)
    && AgreeOnNeg(i.negVersion, c.neg, s.neg)
  }

  lemma JoinedUnique(i0: InfoV, c: Delta, s: Delta, i: InfoV, j: InfoV)
    requires Joined(i0, c, s, i) && Joined(i0, c, s, j) && Agree(i0, c, s)
    ensures i == j
  {
  }

  lemma OrderMatters(i: InfoV, c: Delta, s: Delta)
    ensures Agree(i, c, s) <==> Act(s, Act(c, i)) == Act(c, Act(s, i))
  {
  }

  /** Any two streams: the order in which their chunks arrive does not matter if and only if, field
      by field, what they say in the end agrees. */
  lemma FieldConfluence(x509: X509, i: InfoV, dir: Dir, cds: seq<Bytes>, sds: seq<Bytes>)
    ensures Confluent(x509, i, dir, cds, sds)
       <==> Agree(i, BufferDelta(x509, Accepted(cds)), BufferDelta(x509, Accepted(sds)))
  {
    if Agree(i, BufferDelta(x509, Accepted(cds)), BufferDelta(x509, Accepted(sds))) {
      AgreeConfluent(x509, i, dir, cds, sds);
    } else {
      DisagreeDiffer(x509, i, dir, cds, sds);
    }
  }

  lemma AgreeConfluent(x509: X509, i: InfoV, dir: Dir, cds: seq<Bytes>, sds: seq<Bytes>)
    requires Agree(i, BufferDelta(x509, Accepted(cds)), BufferDelta(x509, Accepted(sds)))
    ensures Confluent(x509, i, dir, cds, sds)
  {
    hide BufferDelta, WireRun, Joined, Agree, Accepted, From;
    forall p, q | Interleaves(p, dir, cds, sds) && Interleaves(q, dir, cds, sds)
      ensures WireRun(x509, Start(i), p).info == WireRun(x509, Start(i), q).info
    {
      JoinedRun(x509, i, p, dir);
      JoinedRun(x509, i, q, dir);
      JoinedUnique(i, BufferDelta(x509, Accepted(cds)), BufferDelta(x509, Accepted(sds)),
                   WireRun(x509, Start(i), p).info, WireRun(x509, Start(i), q).info);
    }
  }

  /** All of one direction before the other, and the other way round, end differently. */
  lemma DisagreeDiffer(x509: X509, i: InfoV, dir: Dir, cds: seq<Bytes>, sds: seq<Bytes>)
    requires !Agree(i, BufferDelta(x509, Accepted(cds)), BufferDelta(x509, Accepted(sds)))
    ensures !Confluent(x509, i, dir, cds, sds)
  {
    hide BufferDelta, WireRun, Agree, Act, Accepted, From;
    var c, s := BufferDelta(x509, Accepted(cds)), BufferDelta(x509, Accepted(sds));
    var p := ChunksOf(cds, dir) + ChunksOf(sds, Other(dir));
    var q := ChunksOf(sds, Other(dir)) + ChunksOf(cds, dir);
    OneAfterTheOther(x509, i, dir, cds, sds);
    OneAfterTheOther(x509, i, Other(dir), sds, cds);
    OrderMatters(i, c, s);
    assert Interleaves(p, dir, cds, sds) && Interleaves(q, dir, cds, sds);
  }

  // ---- a client and a server

  /** What a stream of the client's can write: it holds no ServerHello and no Certificate. */
  ghost predicate ClientSide(d: Delta) {
    !d.serverHello && d.cipher.None? && d.group.None? && d.cert.None? && d.neg.IfZero?
  }

  /** What a stream of the server's can write: it holds no ClientHello. */
  ghost predicate ServerSide(d: Delta) {
    !d.clientHello && d.clientVersion.None? && d.sni.None? && d.sigs.None? && (d.neg.IfZero? ==> d.neg.v == 0)
  }

  ghost predicate NoMessage(ms: seq<Item>, tag: u16) {
    forall m :: m in ms ==> m.tag != tag
  }

  lemma {:induction false} ClientExtsSide(es: seq<Item>)
    ensures ClientSide(ExtsDelta(es, false))
  {
    if es != [] {
      ClientExtsSide(es[1..]);
    }
  }

  lemma {:induction false} ServerExtsSide(es: seq<Item>)
    ensures ServerSide(ExtsDelta(es, true))
  {
    if es != [] {
      ServerExtsSide(es[1..]);
    }
  }

  lemma MessageSide(x509: X509, m: Item)
    ensures m.tag !in {MESSAGE_SERVER_HELLO, MESSAGE_CERTIFICATE} ==> ClientSide(MessageDelta(x509, m))
    ensures m.tag != MESSAGE_CLIENT_HELLO ==> ServerSide(MessageDelta(x509, m))
  {
    hide ExtsDelta, BlockExts, SessionEnd, OfferEnd, FirstDer;
    if m.tag == MESSAGE_CLIENT_HELLO && OfferEnd(m.data).Some? {
      ClientExtsSide(BlockExts(m.data, OfferEnd(m.data).value));
    } else if m.tag == MESSAGE_SERVER_HELLO && SessionEnd(m.data).Some? {
      ServerExtsSide(BlockExts(m.data, SessionEnd(m.data).value + 3));
    }
  }

  lemma {:induction false} ClientStream(x509: X509, ms: seq<Item>)
    requires NoMessage(ms, MESSAGE_SERVER_HELLO) && NoMessage(ms, MESSAGE_CERTIFICATE)
    ensures ClientSide(MessagesDelta(x509, ms))
  {
    hide MessageDelta;
    if ms != [] {
      assert ms[0] in ms && forall m :: m in ms[1..] ==> m in ms;
      MessageSide(x509, ms[0]);
      ClientStream(x509, ms[1..]);
    }
  }

  lemma {:induction false} ServerStream(x509: X509, ms: seq<Item>)
    requires NoMessage(ms, MESSAGE_CLIENT_HELLO)
    ensures ServerSide(MessagesDelta(x509, ms))
  {
    hide MessageDelta;
    if ms != [] {
      assert ms[0] in ms && forall m :: m in ms[1..] ==> m in ms;
      MessageSide(x509, ms[0]);
      ServerStream(x509, ms[1..]);
    }
  }

  ghost predicate ClientBytes(b: Bytes) {
    var ms := Messages(Collect(b, 0), 0);
    NoMessage(ms, MESSAGE_SERVER_HELLO) && NoMessage(ms, MESSAGE_CERTIFICATE)
  }

  ghost predicate ServerBytes(b: Bytes) {
    NoMessage(Messages(Collect(b, 0), 0), MESSAGE_CLIENT_HELLO)
  }

  lemma {:induction false} CutNoMessage(a: seq<Item>, b: seq<Item>, tag: u16)
    requires Cut(a, b) && NoMessage(b, tag)
    ensures NoMessage(a, tag)
  {
    if a != [] {
      assert b[0] in b && forall m :: m in b[1..] ==> m in b;
      assert |a| == 1 ==> a[1..] == [];
      CutNoMessage(a[1..], b[1..], tag);
      assert forall m :: m in a ==> m == a[0] || m in a[1..];
    }
  }

  lemma SidesOfPrefix(x509: X509, a: Bytes, b: Bytes)
    requires a <= b
    ensures ClientBytes(b) ==> ClientBytes(a) && ClientSide(BufferDelta(x509, a))
    ensures ServerBytes(b) ==> ServerBytes(a) && ServerSide(BufferDelta(x509, a))
  {
    hide NoMessage, MessagesDelta, ClientSide, ServerSide;
    CollectPrefix(a, b, 0);
    var ma, mb := Messages(Collect(a, 0), 0), Messages(Collect(b, 0), 0);
    MessagesPrefix(Collect(a, 0), Collect(b, 0), 0);
    if ClientBytes(b) {
      CutNoMessage(ma, mb, MESSAGE_SERVER_HELLO);
      CutNoMessage(ma, mb, MESSAGE_CERTIFICATE);
      ClientStream(x509, ma);
    }
    if ServerBytes(b) {
      CutNoMessage(ma, mb, MESSAGE_CLIENT_HELLO);
      ServerStream(x509, ma);
    }
  }

  /** What the client's bytes and the server's say fits together: the server settles on a
      version other than zero (or the client names none), and the two do not name different
      application protocols. */
  predicate Compatible(c: Delta, s: Delta) {
    && !(s.neg == Always(0) && c.neg.v != 0)
    && (c.alpn.None? || s.alpn.None? || c.alpn == s.alpn)
  }

  lemma SidesAgree(i: InfoV, c: Delta, s: Delta)
    requires ClientSide(c) && ServerSide(s)
    ensures Agree(i, c, s) <==> Compatible(c, s)
  {
  }

  /** A client and a server: the order in which their chunks arrive does not matter if and only if
      what they say is compatible. */
  lemma Confluence(x509: X509, i: InfoV, client: Dir, cds: seq<Bytes>, sds: seq<Bytes>)
    requires ClientBytes(Accepted(cds)) && ServerBytes(Accepted(sds))
    ensures Confluent(x509, i, client, cds, sds)
       <==> Compatible(BufferDelta(x509, Accepted(cds)), BufferDelta(x509, Accepted(sds)))
  {
    hide BufferDelta, Confluent, ClientBytes, ServerBytes, ClientSide, ServerSide, Agree, Compatible;
    FieldConfluence(x509, i, client, cds, sds);
    SidesOfPrefix(x509, Accepted(cds), Accepted(cds));
    SidesOfPrefix(x509, Accepted(sds), Accepted(sds));
    SidesAgree(i, BufferDelta(x509, Accepted(cds)), BufferDelta(x509, Accepted(sds)));
  }

  /** In every case, all but the version and the application protocols are settled, and the
      version is once the server names one other than zero. */
  lemma SettledFields(x509: X509, i: InfoV, client: Dir, p: seq<Chunk>, q: seq<Chunk>)
    requires From(p, client) == From(q, client) && From(p, Other(client)) == From(q, Other(client))
    requires ClientBytes(Accepted(From(p, client))) && ServerBytes(Accepted(From(p, Other(client))))
    ensures var ip, iq := WireRun(x509, Start(i), p).info, WireRun(x509, Start(i), q).info;
            && ip == iq.(negVersion := ip.negVersion, alpn := ip.alpn)
            && (BufferDelta(x509, Accepted(From(p, Other(client)))).neg != Always(0) ==> ip.negVersion == iq.negVersion)
  {
    hide BufferDelta, WireRun, ClientBytes, ServerBytes;
    JoinedRun(x509, i, p, client);
    JoinedRun(x509, i, q, client);
    SidesOfPrefix(x509, Accepted(From(p, client)), Accepted(From(p, client)));
    SidesOfPrefix(x509, Accepted(From(p, Other(client))), Accepted(From(p, Other(client))));
  }
}
