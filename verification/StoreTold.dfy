/** What a store shows, told from the operations that led to it and from nothing else. */
module StoreTold {
  import opened Bytes
  import opened Endpoint
  import opened TlsSpec
  import opened Reassembly
  import opened StoreSpec
  import opened StoreLaws
  import opened StoreRuns
  import opened StoreTotals

  // ---- plaintext samples

  /** The session is not in the snapshot. */
  predicate Missing(js: seq<Join>, ssl: u64) {
    forall i :: 0 <= i < |js| ==> js[i].stat.ssl != ssl
  }

  /** The chunks handed in for a session and direction since the session was last closed, or missing
      from a snapshot of the sessions. */
  function Handed(ops: seq<Op>, ssl: u64, d: Dir): seq<Bytes> {
    if ops == [] then [] else HandedAfter(Handed(ops[..|ops| - 1], ssl, d), ops[|ops| - 1], ssl, d)
  }

  function HandedAfter(before: seq<Bytes>, op: Op, ssl: u64, d: Dir): seq<Bytes> {
    if op.OpData? && op.ssl == ssl && op.data != [] && (op.dir == 1 <==> d == Out) then before + [op.data]
    else if op.OpClose? && op.close.ssl == ssl then []
    else if op.OpStats? && Missing(op.joins, ssl) then []
    else before
  }

  /** The log of chunks is what was handed in, and there is a sample while there is any. */
  ghost predicate ChunksTold(v: StoreV, ops: seq<Op>, ssl: u64) {
    && (ssl in v.samples <==> Handed(ops, ssl, Out) != [] || Handed(ops, ssl, In) != [])
    && (ssl in v.chunks <==> ssl in v.samples)
    && (ssl in v.chunks ==> v.chunks[ssl] == Chunks(Handed(ops, ssl, Out), Handed(ops, ssl, In)))
  }

  lemma HandedSnoc(ops: seq<Op>, op: Op, ssl: u64, d: Dir)
    ensures Handed(ops + [op], ssl, d) == HandedAfter(Handed(ops, ssl, d), op, ssl, d)
  {
    assert (ops + [op])[..|ops|] == ops;
  }

  lemma ToldStep(x509: X509, v: StoreV, ops: seq<Op>, op: Op, ssl: u64)
    requires ChunksTold(v, ops, ssl) && Legal(v, op)
    ensures ChunksTold(Next(x509, v, op), ops + [op], ssl)
  {
    HandedSnoc(ops, op, ssl, Out);
    HandedSnoc(ops, op, ssl, In);
    hide Handed;
    match op
    case OpFlows(fs, order) =>
      hide TouchAll, RetireAll, RetireOrder, Seen;
      UpdateFlowsExact(v, fs, order);
    case OpWire(_, _, _) => hide FoldWire;
    case OpData(_, _, _) => hide AddChunk;
    case OpClose(_, _, _) => hide Recache, ResolvesTo, Finalize;
    case OpStats(js) =>
      hide JoinAll, JoinsLegal, Zero;
      JoinAllExact(Zero(v), js);
      assert ssl in LiveSsl(js) <==> !Missing(js, ssl);
  }

  lemma {:induction false} ChunksToldRun(x509: X509, h: int, p: int, ops: seq<Op>, ssl: u64)
    requires CanRun(x509, NewStore(h, p), ops)
    ensures ChunksTold(Run(x509, NewStore(h, p), ops), ops, ssl)
  {
    hide ChunksTold, Legal, Next;
    if ops == [] {
      assert ChunksTold(NewStore(h, p), [], ssl) by {
        NothingHanded(h, p, ssl);
      }
    } else {
      var init, op := ops[..|ops| - 1], ops[|ops| - 1];
      assert ops == init + [op];
      ChunksToldRun(x509, h, p, init, ssl);
      ToldStep(x509, Run(x509, NewStore(h, p), init), init, op, ssl);
    }
  }

  lemma NothingHanded(h: int, p: int, ssl: u64)
    ensures ChunksTold(NewStore(h, p), [], ssl)
  {
  }

  /** A capacity as it is used. */
  function AtLeastZero(n: int): nat { if n < 0 then 0 else n }

  lemma {:induction false} Capacities(x509: X509, h: int, p: int, ops: seq<Op>)
    requires CanRun(x509, NewStore(h, p), ops)
    ensures var v := Run(x509, NewStore(h, p), ops); v.maxHistory == AtLeastZero(h) && v.peekBytes == AtLeastZero(p)
  {
    hide Legal, Next;
    if ops != [] {
      Capacities(x509, h, p, ops[..|ops| - 1]);
      SameCapacities(x509, Run(x509, NewStore(h, p), ops[..|ops| - 1]), ops[|ops| - 1]);
    }
  }

  lemma SameCapacities(x509: X509, v: StoreV, op: Op)
    requires Legal(v, op)
    ensures Next(x509, v, op).maxHistory == v.maxHistory && Next(x509, v, op).peekBytes == v.peekBytes
  {
    match op
    case OpFlows(fs, order) =>
      hide TouchAll, RetireAll, RetireOrder, Seen;
      UpdateFlowsExact(v, fs, order);
    case OpWire(_, _, _) => hide FoldWire;
    case OpData(_, _, _) =>
    case OpClose(_, _, _) => hide Recache, ResolvesTo, Finalize;
    case OpStats(js) =>
      hide JoinAll, JoinsLegal, Zero;
      JoinAllExact(Zero(v), js);
  }

  /** In every reachable store there is a sample of a session exactly if chunks were handed in since
      it was last closed or missing; its head is the first of them, and its tail the last bytes of
      them all, as many as the store was asked to keep. */
  lemma SampleTold(x509: X509, h: int, p: int, ops: seq<Op>, ssl: u64)
    requires CanRun(x509, NewStore(h, p), ops)
    ensures var v := Run(x509, NewStore(h, p), ops);
            var outs, ins := Handed(ops, ssl, Out), Handed(ops, ssl, In);
            && (ssl in v.samples <==> outs != [] || ins != [])
            && (ssl in v.samples ==>
                  && v.samples[ssl].headOut == (if outs == [] then [] else outs[0])
                  && v.samples[ssl].headIn == (if ins == [] then [] else ins[0])
                  && v.samples[ssl].tailOut == LastN(Concat(outs), AtLeastZero(p))
                  && v.samples[ssl].tailIn == LastN(Concat(ins), AtLeastZero(p)))
  {
    hide Run, CanRun, Handed, Conserved, HistoryOk, ConnsOk;
    ChunksToldRun(x509, h, p, ops, ssl);
    Capacities(x509, h, p, ops);
    RunInv(x509, h, p, ops);
  }

  /** ... and the history is the end of the log of retirements, as long as it was asked to be. */
  lemma HistoryTold(x509: X509, h: int, p: int, ops: seq<Op>)
    requires CanRun(x509, NewStore(h, p), ops)
    ensures var v := Run(x509, NewStore(h, p), ops);
            v.history == LastN(v.retired, AtLeastZero(h)) && |v.history| == Min(|v.retired|, AtLeastZero(h))
  {
    hide Run, CanRun, Conserved, SamplesOk, ConnsOk;
    Capacities(x509, h, p, ops);
    RunInv(x509, h, p, ops);
  }

  // ---- what only a listing can say

  /** The entry was listed in some snapshot. */
  ghost predicate Listed(ops: seq<Op>, f: Flow) {
    exists i :: 0 <= i < |ops| && ops[i].OpFlows? && f in ops[i].flows
  }

  ghost predicate Identifies(f: Flow, c: ConnV) {
    && f.pid == c.pid && f.comm == c.comm && f.tx == c.tx && f.rx == c.rx
    && c.local == Some(AddrPort(IpFrom(f.saddr, f.isIpv6), f.sport))
    && c.remote == Some(AddrPort(IpFrom(f.daddr, f.isIpv6), f.dport))
  }

  predicate Anonymous(c: ConnV) {
    c.pid == 0 && c.comm == "" && c.local.None? && c.remote.None? && c.tx == 0 && c.rx == 0
  }

  /** A connection is marked only by a hello or a listing, and directed, closed, identified and
      counted only by listings. */
  ghost predicate SaidOf(c: ConnV, ops: seq<Op>) {
    && (c.isTls ==> SawHello(c) || exists f :: Listed(ops, f) && f.sock == c.sock && f.isTls)
    && (c.direction != 0 ==> exists f :: Listed(ops, f) && f.sock == c.sock && f.direction == c.direction)
    && (c.closed ==> exists f :: Listed(ops, f) && f.sock == c.sock && f.closed)
    && (!Anonymous(c) ==> exists f :: Listed(ops, f) && f.sock == c.sock && Identifies(f, c))
  }

  ghost predicate AllSaid(v: StoreV, ops: seq<Op>) {
    forall k :: k in v.conns ==> v.conns[k].sock == k && SaidOf(v.conns[k], ops)
  }

  lemma SaidLonger(c: ConnV, ops: seq<Op>, op: Op)
    requires SaidOf(c, ops)
    ensures SaidOf(c, ops + [op])
  {
    hide Identifies, Anonymous, SawHello;
    forall f | Listed(ops, f)
      ensures Listed(ops + [op], f)
    {
      var i :| 0 <= i < |ops| && ops[i].OpFlows? && f in ops[i].flows;
      assert (ops + [op])[i] == ops[i];
    }
  }

  lemma SaidBlank(id: nat, sock: u64, ops: seq<Op>)
    ensures SaidOf(NewConn(id, sock), ops)
  {
  }

  lemma SaidTouched(c: ConnV, f: Flow, ops: seq<Op>)
    requires SaidOf(c, ops) && Listed(ops, f) && f.sock == c.sock
    ensures SaidOf(TouchConn(c, f), ops) && TouchConn(c, f).sock == c.sock
  {
    hide TouchConn, Listed, IpFrom;
    TouchShows(c, f);
  }

  lemma {:induction false} SaidTouchAll(v: StoreV, fs: seq<Flow>, ops: seq<Op>)
    requires AllSaid(v, ops) && forall f :: f in fs ==> Listed(ops, f)
    ensures AllSaid(TouchAll(v, fs), ops)
  {
    hide Touch, SaidOf, Listed, NewConn, TouchConn;
    if fs != [] {
      var init, f := fs[..|fs| - 1], fs[|fs| - 1];
      assert f in fs && forall g :: g in init ==> g in fs;
      SaidTouchAll(v, init, ops);
      var u := TouchAll(v, init);
      TouchAt(u, f);
      SaidBlank(u.created, f.sock, ops);
      NewBlank(u.created, f.sock);
      SaidTouched(if f.sock in u.conns then u.conns[f.sock] else NewConn(u.created, f.sock), f, ops);
    }
  }

  /** What a connection was said to be does not depend on what else it holds. */
  lemma SaidSame(c: ConnV, d: ConnV, ops: seq<Op>)
    requires SaidOf(c, ops)
    requires d == c.(ptx := d.ptx, prx := d.prx, plain := d.plain, plainFinal := d.plainFinal, wire := d.wire,
             seen := d.seen,
                     isTls := d.isTls, preexisting := d.preexisting)
    requires d.isTls ==> SawHello(d) || (c.isTls && !SawHello(c))
    ensures SaidOf(d, ops)
  {
    hide Listed, IpFrom;
  }

  lemma FoldSaid(x509: X509, c: ConnV, chunk: Chunk, ops: seq<Op>)
    requires SaidOf(c, ops)
    ensures SaidOf(FoldWire(x509, c, chunk), ops) && FoldWire(x509, c, chunk).sock == c.sock
  {
    hide BufferDelta, SaidOf;
    SaidSame(c, FoldWire(x509, c, chunk), ops);
  }

  lemma SaidStep(x509: X509, v: StoreV, op: Op, ops: seq<Op>)
    requires AllSaid(v, ops) && Legal(v, op) && (op.OpFlows? ==> forall f :: f in op.flows ==> Listed(ops, f))
    ensures AllSaid(Next(x509, v, op), ops)
  {
    hide AllSaid, Listed, UpdateFlows, RetireOrder, ApplyWire, ApplyClose, UpdateStats, JoinsLegal, ResolvesTo;
    match op
    case OpFlows(fs, order) => SaidFlows(v, fs, order, ops);
    case OpWire(sock, dir, data) => SaidWire(x509, v, sock, dir, data, ops);
    case OpData(ssl, dir, data) => SaidData(v, ssl, dir, data, ops);
    case OpClose(e, peer, t) => SaidClose(v, e, peer, t, ops);
    case OpStats(js) => SaidStats(v, js, ops);
  }

  lemma SaidWire(x509: X509, v: StoreV, sock: u64, dir: byte, data: Bytes, ops: seq<Op>)
    requires AllSaid(v, ops)
    ensures AllSaid(ApplyWire(x509, v, sock, dir, data), ops)
  {
    hide SaidOf, NewConn, FoldWire;
    SaidBlank(v.created, sock, ops);
    NewBlank(v.created, sock);
    FoldSaid(x509, if sock in v.conns then v.conns[sock] else NewConn(v.created, sock), Chunk(DirOf(dir), data), ops);
  }

  lemma SaidData(v: StoreV, ssl: u64, dir: byte, data: Bytes, ops: seq<Op>)
    requires AllSaid(v, ops)
    ensures AllSaid(ApplyData(v, ssl, dir, data), ops)
  {
    hide SaidOf;
  }

  lemma SaidClose(v: StoreV, e: Close, peer: Option<AddrPort>, t: Option<u64>, ops: seq<Op>)
    requires AllSaid(v, ops) && ResolvesTo(v, e.pid, e.fd, peer, t)
    ensures AllSaid(ApplyClose(v, e, peer, t), ops)
  {
    hide SaidOf, Recache, Finalize;
    if t.Some? && t.value in v.conns {
      FinalizeSaid(v, v.conns[t.value], e, ops);
    }
  }

  lemma SaidFlows(v: StoreV, fs: seq<Flow>, order: seq<u64>, ops: seq<Op>)
    requires AllSaid(v, ops) && RetireOrder(v, fs, order) && forall f :: f in fs ==> Listed(ops, f)
    ensures AllSaid(UpdateFlows(v, fs, order), ops)
  {
    hide SaidOf, Listed, TouchAll, RetireAll;
    SaidTouchAll(v, fs, ops);
    RetireAllExact(TouchAll(v, fs), order);
  }

  lemma SaidStats(v: StoreV, js: seq<Join>, ops: seq<Op>)
    requires AllSaid(v, ops) && JoinsLegal(Zero(v), js)
    ensures AllSaid(UpdateStats(v, js), ops)
  {
    hide SaidOf, UpdateStats, JoinsLegal, SumTx, SumRx, LastSample;
    PlaintextJoin(v, js);
    forall k | k in v.conns
      ensures SaidOf(UpdateStats(v, js).conns[k], ops)
    {
      SaidSame(v.conns[k], UpdateStats(v, js).conns[k], ops);
    }
  }

  lemma FinalizeSaid(v: StoreV, c: ConnV, e: Close, ops: seq<Op>)
    requires SaidOf(c, ops)
    ensures SaidOf(Finalize(v, c, e), ops) && Finalize(v, c, e).sock == c.sock
  {
    hide SaidOf;
    SaidSame(c, Finalize(v, c, e), ops);
  }

  /** In every reachable store, and so a connection that was never listed with a direction has
      none, and one that was never listed is known by its socket alone. */
  lemma {:induction false} SaidRun(x509: X509, h: int, p: int, ops: seq<Op>)
    requires CanRun(x509, NewStore(h, p), ops)
    ensures AllSaid(Run(x509, NewStore(h, p), ops), ops)
  {
    hide SaidOf, Legal, Next, Listed;
    if ops != [] {
      var init, op := ops[..|ops| - 1], ops[|ops| - 1];
      assert ops == init + [op];
      SaidRun(x509, h, p, init);
      var v := Run(x509, NewStore(h, p), init);
      forall k | k in v.conns
        ensures SaidOf(v.conns[k], ops)
      {
        SaidLonger(v.conns[k], init, op);
      }
      LastListed(init, op);
      SaidStep(x509, v, op, ops);
    }
  }

  lemma LastListed(ops: seq<Op>, op: Op)
    ensures op.OpFlows? ==> forall f :: f in op.flows ==> Listed(ops + [op], f)
  {
    assert (ops + [op])[|ops|] == op;
  }
}
