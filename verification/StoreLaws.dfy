/** What every run of store operations keeps. */
module StoreLaws {
  import opened Bytes
  import opened Endpoint
  import opened TlsInfo
  import opened TlsSpec
  import opened Reassembly
  import opened StoreSpec

  // ---- the invariant, part by part

  /** Connections are created once: every one is live or retired, never both, never twice. */
  ghost predicate Live(v: StoreV, id: nat) {
    exists k :: k in v.conns && v.conns[k].id == id
  }

  ghost predicate Retired(v: StoreV, id: nat) {
    exists i :: 0 <= i < |v.retired| && v.retired[i].id == id
  }

  ghost predicate Conserved(v: StoreV) {
    Accounted(v) && Distinct(v) && |v.conns| + |v.retired| == v.created
  }

  ghost predicate Accounted(v: StoreV) {
    && (forall n: nat :: n < v.created <==> Live(v, n) || Retired(v, n))
    && (forall n: nat :: !(Live(v, n) && Retired(v, n)))
  }

  ghost predicate Distinct(v: StoreV) {
    && (forall j, k :: j in v.conns && k in v.conns && v.conns[j].id == v.conns[k].id ==> j == k)
    && (forall i, j :: 0 <= i < j < |v.retired| ==> v.retired[i].id != v.retired[j].id)
  }

  /** The history ring is the tail of the log of retirements. */
  ghost predicate HistoryOk(v: StoreV) {
    && v.history == LastN(v.retired, v.maxHistory)
    && (forall c :: c in v.retired ==> c.closed && c.closedAt && c.wire.outBuf == [] && c.wire.inBuf == [])
  }

  ghost predicate Classified(c: ConnV) {
    && (SawHello(c) ==> c.isTls)
    && (c.preexisting <==> c.isTls && !SawHello(c))
  }

  /** Buffers and information are those of the chunks seen since the connection was created. */
  ghost predicate Reassembled(x509: X509, c: ConnV) {
    var w := WireRun(x509, Start(EMPTY_INFO), c.seen);
    if c.closedAt then c.wire == Wire([], [], w.info) else c.wire == w
  }

  ghost predicate Sound(x509: X509, c: ConnV) {
    Classified(c) && Reassembled(x509, c)
  }

  ghost predicate ConnsOk(x509: X509, v: StoreV) {
    && (forall k :: k in v.conns ==> v.conns[k].sock == k && !v.conns[k].closedAt && Sound(x509, v.conns[k]))
    && (forall c :: c in v.retired ==> Sound(x509, c))
  }

  /** Head is the first chunk, tail the last bytes of everything since the sample was made. */
  ghost predicate Represents(s: Sample, c: Chunks, peek: nat) {
    && s.headOut == (if c.outs == [] then [] else c.outs[0])
    && s.headIn == (if c.ins == [] then [] else c.ins[0])
    && s.tailOut == LastN(Concat(c.outs), peek)
    && s.tailIn == LastN(Concat(c.ins), peek)
    && (forall d :: d in c.outs ==> d != []) && (forall d :: d in c.ins ==> d != [])
  }

  /** Each sample is one of chunks, and there is none of nothing. */
  ghost predicate SamplesOk(v: StoreV) {
    && v.samples.Keys == v.chunks.Keys
    && (forall ssl :: ssl in v.samples ==> Represents(v.samples[ssl], v.chunks[ssl], v.peekBytes))
    && (forall ssl :: ssl in v.samples ==> v.chunks[ssl].outs != [] || v.chunks[ssl].ins != [])
  }

  ghost predicate Inv(x509: X509, v: StoreV) {
    Conserved(v) && HistoryOk(v) && ConnsOk(x509, v) && SamplesOk(v)
  }

  // ---- creation

  lemma EnsureConserved(v: StoreV, sock: u64)
    requires Conserved(v)
    ensures Conserved(Ensure(v, sock))
  {
    hide Ensure;
    EnsureFrame(v, sock);
    if sock !in v.conns {
      AddConserved(v, Ensure(v, sock), sock);
    }
  }

  lemma EnsureFrame(v: StoreV, sock: u64)
    ensures var w := Ensure(v, sock);
            && sock in w.conns && w.retired == v.retired
            && (if sock in v.conns then w == v
                else w.conns == v.conns[sock := w.conns[sock]] && w.conns[sock].id == v.created
                     && w.created == v.created + 1)
  {
  }

  /** One more connection, with a new identity. */
  lemma AddConserved(v: StoreV, w: StoreV, sock: u64)
    requires Conserved(v) && sock !in v.conns && sock in w.conns && w.retired == v.retired
    requires w.conns == v.conns[sock := w.conns[sock]] && w.conns[sock].id == v.created && w.created == v.created + 1
    ensures Conserved(w)
  {
    assert !Live(v, v.created) && !Retired(v, v.created);
    assert forall k :: k in v.conns ==> Live(v, v.conns[k].id);
    forall n: nat
      ensures Live(w, n) <==> Live(v, n) || n == v.created
      ensures Retired(w, n) <==> Retired(v, n)
    {
      AddLive(v, w, sock, n);
    }
    hide Live, Retired;
  }

  lemma AddLive(v: StoreV, w: StoreV, sock: u64, n: nat)
    requires sock !in v.conns && sock in w.conns && w.retired == v.retired
    requires w.conns == v.conns[sock := w.conns[sock]] && w.conns[sock].id == v.created
    ensures Live(w, n) <==> Live(v, n) || n == v.created
    ensures Retired(w, n) <==> Retired(v, n)
  {
    if Live(v, n) {
      var k :| k in v.conns && v.conns[k].id == n;
      assert k in w.conns && w.conns[k].id == n;
    }
  }

  /** Rewriting records in place neither creates nor retires. */
  lemma SameIdsConserved(v: StoreV, w: StoreV)
    requires Conserved(v) && w.conns.Keys == v.conns.Keys && w.created == v.created && w.retired == v.retired
    requires forall k :: k in v.conns ==> w.conns[k].id == v.conns[k].id
    ensures Conserved(w)
  {
    assert |w.conns.Keys| == |w.conns| && |v.conns.Keys| == |v.conns|;
    forall n: nat
      ensures Live(w, n) <==> Live(v, n)
      ensures Retired(w, n) <==> Retired(v, n)
    {
      if Live(v, n) {
        var j :| j in v.conns && v.conns[j].id == n;
        assert j in w.conns && w.conns[j].id == n;
      }
      if Live(w, n) {
        var j :| j in w.conns && w.conns[j].id == n;
        assert j in v.conns && v.conns[j].id == n;
      }
    }
  }

  lemma RetireConserved(v: StoreV, k: u64)
    requires Conserved(v) && k in v.conns
    ensures Conserved(Retire(v, k))
  {
    hide Conserved, PushHistory;
    var w := Retire(v, k);
    assert w.conns.Keys == v.conns.Keys - {k};
    MoveConserved(v, w, k);
  }

  /** One connection moves from the table to the log. */
  lemma MoveConserved(v: StoreV, w: StoreV, k: u64)
    requires Conserved(v) && k in v.conns && w.conns == v.conns - {k} && w.created == v.created
    requires |w.retired| == |v.retired| + 1 && v.retired <= w.retired && w.retired[|v.retired|].id == v.conns[k].id
    ensures Conserved(w)
  {
    assert |w.conns| == |v.conns| - 1 by {
      assert w.conns.Keys == v.conns.Keys - {k};
    }
    MoveAccounted(v, w, k);
    MoveDistinct(v, w, k);
  }

  lemma MoveAccounted(v: StoreV, w: StoreV, k: u64)
    requires Conserved(v) && k in v.conns && w.conns == v.conns - {k} && w.created == v.created
    requires |w.retired| == |v.retired| + 1 && v.retired <= w.retired && w.retired[|v.retired|].id == v.conns[k].id
    ensures Accounted(w)
  {
    assert Live(v, v.conns[k].id);
    forall n: nat
      ensures Live(w, n) <==> Live(v, n) && n != v.conns[k].id
      ensures Retired(w, n) <==> Retired(v, n) || n == v.conns[k].id
    {
      MoveOne(v, w, k, n);
    }
    hide Live, Retired, Distinct;
  }

  lemma MoveDistinct(v: StoreV, w: StoreV, k: u64)
    requires Conserved(v) && k in v.conns && w.conns == v.conns - {k}
    requires |w.retired| == |v.retired| + 1 && v.retired <= w.retired && w.retired[|v.retired|].id == v.conns[k].id
    ensures Distinct(w)
  {
    assert Live(v, v.conns[k].id);
    assert forall i :: 0 <= i < |v.retired| ==> Retired(v, v.retired[i].id);
  }

  lemma MoveOne(v: StoreV, w: StoreV, k: u64, n: nat)
    requires k in v.conns && w.conns == v.conns - {k}
    requires forall j :: j in v.conns && v.conns[j].id == v.conns[k].id ==> j == k
    requires |w.retired| == |v.retired| + 1 && v.retired <= w.retired && w.retired[|v.retired|].id == v.conns[k].id
    ensures Live(w, n) <==> Live(v, n) && n != v.conns[k].id
    ensures Retired(w, n) <==> Retired(v, n) || n == v.conns[k].id
  {
    if Live(v, n) && n != v.conns[k].id {
      var j :| j in v.conns && v.conns[j].id == n;
      assert j in w.conns && w.conns[j].id == n;
    }
    if Retired(v, n) {
      var i :| 0 <= i < |v.retired| && v.retired[i].id == n;
      assert w.retired[i].id == n;
    }
  }

  // ---- each step keeps the invariant

  lemma NewSound(x509: X509, id: nat, sock: u64)
    ensures Sound(x509, NewConn(id, sock))
  {
    RunNil(x509, Start(EMPTY_INFO), Out);
  }

  lemma RetiredSound(x509: X509, c: ConnV)
    requires Sound(x509, c) && !c.closedAt
    ensures Sound(x509, RetiredConn(c))
  {
    hide WireRun;
  }

  lemma EnsureInv(x509: X509, v: StoreV, sock: u64)
    requires Inv(x509, v)
    ensures Inv(x509, Ensure(v, sock)) && sock in Ensure(v, sock).conns
  {
    hide Conserved, HistoryOk, SamplesOk, Represents, Sound;
    NewSound(x509, v.created, sock);
    EnsureConserved(v, sock);
    SameHistory(v, Ensure(v, sock));
    SameSamples(v, Ensure(v, sock));
  }

  lemma SameHistory(v: StoreV, w: StoreV)
    requires HistoryOk(v) && w.history == v.history && w.retired == v.retired && w.maxHistory == v.maxHistory
    ensures HistoryOk(w)
  {
  }

  lemma SameSamples(v: StoreV, w: StoreV)
    requires SamplesOk(v) && w.samples == v.samples && w.chunks == v.chunks && w.peekBytes == v.peekBytes
    ensures SamplesOk(w)
  {
  }

  /** Rewriting records in place keeps the invariant if the records stay well classified. */
  lemma RewriteInv(x509: X509, v: StoreV, w: StoreV)
    requires Inv(x509, v) && w == v.(conns := w.conns, pidfd := w.pidfd) && w.conns.Keys == v.conns.Keys
    requires forall k :: k in v.conns ==>
               w.conns[k].id == v.conns[k].id && w.conns[k].sock == k && !w.conns[k].closedAt && Sound(x509, w.conns[k])
    ensures Inv(x509, w)
  {
    hide Conserved, HistoryOk, SamplesOk, Represents, Sound;
    SameIdsConserved(v, w);
    SameHistory(v, w);
    SameSamples(v, w);
  }

  lemma PutInv(x509: X509, v: StoreV, k: u64, c: ConnV)
    requires Inv(x509, v) && k in v.conns
    requires c.id == v.conns[k].id && c.sock == k && !c.closedAt && Sound(x509, c)
    ensures Inv(x509, Put(v, k, c))
  {
    hide Conserved, HistoryOk, SamplesOk, Represents, Sound;
    assert Put(v, k, c).conns.Keys == v.conns.Keys;
    RewriteInv(x509, v, Put(v, k, c));
  }

  lemma TouchInv(x509: X509, v: StoreV, f: Flow)
    requires Inv(x509, v)
    ensures Inv(x509, Touch(v, f))
  {
    hide Conserved, HistoryOk, SamplesOk;
    EnsureInv(x509, v, f.sock);
    var w := Ensure(v, f.sock);
    PutInv(x509, w, f.sock, TouchConn(w.conns[f.sock], f));
  }

  lemma {:induction false} TouchAllInv(x509: X509, v: StoreV, fs: seq<Flow>)
    requires Inv(x509, v)
    ensures Inv(x509, TouchAll(v, fs))
  {
    hide Inv, Touch;
    if fs != [] {
      TouchAllInv(x509, v, fs[..|fs| - 1]);
      TouchInv(x509, TouchAll(v, fs[..|fs| - 1]), fs[|fs| - 1]);
    }
  }

  lemma PushLastN(r: seq<ConnV>, c: ConnV, cap: nat)
    ensures PushHistory(LastN(r, cap), c, cap) == LastN(r + [c], cap)
  {
  }

  lemma RetireInv(x509: X509, v: StoreV, k: u64)
    requires Inv(x509, v) && k in v.conns && v.conns[k].closed
    ensures Inv(x509, Retire(v, k))
  {
    hide Conserved, SamplesOk, Represents, Sound;
    RetiredSound(x509, v.conns[k]);
    RetireConserved(v, k);
    PushLastN(v.retired, RetiredConn(v.conns[k]), v.maxHistory);
    SameSamples(v, Retire(v, k));
  }

  lemma {:induction false} RetireAllInv(x509: X509, v: StoreV, ks: seq<u64>)
    requires Inv(x509, v) && NoDup(ks) && forall k :: k in ks ==> k in v.conns && v.conns[k].closed
    ensures Inv(x509, RetireAll(v, ks))
  {
    hide Inv, Retire;
    if ks != [] {
      var init, last := ks[..|ks| - 1], ks[|ks| - 1];
      assert last in ks && last !in init && forall k :: k in init ==> k in ks;
      RetireAllInv(x509, v, init);
      assert last !in (set k | k in init);
      RetireInv(x509, RetireAll(v, init), last);
    }
  }

  lemma UpdateFlowsInv(x509: X509, v: StoreV, fs: seq<Flow>, order: seq<u64>)
    requires Inv(x509, v) && RetireOrder(v, fs, order)
    ensures Inv(x509, UpdateFlows(v, fs, order))
  {
    hide Inv;
    TouchAllInv(x509, v, fs);
    RetireAllInv(x509, TouchAll(v, fs), order);
  }

  lemma WireInv(x509: X509, v: StoreV, sock: u64, dir: byte, data: Bytes)
    requires Inv(x509, v)
    ensures Inv(x509, ApplyWire(x509, v, sock, dir, data))
  {
    hide Conserved, HistoryOk, SamplesOk, BufferDelta, WireRun;
    if data != [] {
      EnsureInv(x509, v, sock);
      var w := Ensure(v, sock);
      RunSnoc(x509, Start(EMPTY_INFO), w.conns[sock].seen, Chunk(DirOf(dir), data));
      PutInv(x509, w, sock, FoldWire(x509, w.conns[sock], Chunk(DirOf(dir), data)));
    }
  }

  // ---- samples

  /** Cutting the tail after each chunk is cutting the whole once. */
  lemma TailOfTail(s: Bytes, d: Bytes, max: nat)
    ensures AppendTail(LastN(s, max), d, max) == LastN(s + d, max)
  {
  }

  lemma AddChunkRepresents(s: Sample, c: Chunks, dir: byte, data: Bytes, peek: nat)
    requires Represents(s, c, peek) && data != []
    ensures Represents(AddChunk(s, dir, data, peek), LogChunk(c, dir, data), peek)
  {
    hide Concat, LastN;
    assert c.outs != [] ==> c.outs[0] in c.outs;
    assert c.ins != [] ==> c.ins[0] in c.ins;
    if dir == 1 {
      TailOfTail(Concat(c.outs), data, peek);
      ConcatSnoc(c.outs, data);
    } else {
      TailOfTail(Concat(c.ins), data, peek);
      ConcatSnoc(c.ins, data);
    }
  }

  lemma DataInv(x509: X509, v: StoreV, ssl: u64, dir: byte, data: Bytes)
    requires Inv(x509, v)
    ensures Inv(x509, ApplyData(v, ssl, dir, data))
  {
    hide Conserved, HistoryOk, Represents, AddChunk;
    if data != [] {
      var w := ApplyData(v, ssl, dir, data);
      EmptyRepresents(v.peekBytes);
      AddChunkRepresents(if ssl in v.samples then v.samples[ssl] else NO_SAMPLE,
                         if ssl in v.samples then v.chunks[ssl] else Chunks([], []), dir, data, v.peekBytes);
      SameIdsConserved(v, w);
      SameHistory(v, w);
    }
  }

  lemma EmptyRepresents(peek: nat)
    ensures Represents(NO_SAMPLE, Chunks([], []), peek)
  {
  }

  lemma DropSamplesInv(x509: X509, v: StoreV, w: StoreV)
    requires Inv(x509, v) && w == v.(pidfd := w.pidfd, samples := w.samples, chunks := w.chunks)
    requires w.samples.Keys == w.chunks.Keys
    requires forall ssl :: ssl in w.samples ==>
             ssl in v.samples && w.samples[ssl] == v.samples[ssl] && w.chunks[ssl] == v.chunks[ssl]
    ensures Inv(x509, w)
  {
    hide Conserved, HistoryOk, Represents;
    SameIdsConserved(v, w);
    SameHistory(v, w);
  }

  // ---- plaintext totals

  lemma CloseInv(x509: X509, v: StoreV, e: Close, peer: Option<AddrPort>, t: Option<u64>)
    requires Inv(x509, v) && ResolvesTo(v, e.pid, e.fd, peer, t)
    ensures Inv(x509, ApplyClose(v, e, peer, t))
  {
    var w := v.(pidfd := Recache(v, e.pid, e.fd, peer, t), samples := v.samples - {e.ssl},
        chunks := v.chunks - {e.ssl});
    hide Conserved, HistoryOk, Represents, Recache;
    DropSamplesInv(x509, v, w);
    if t.Some? {
      hide SamplesOk;
      PutInv(x509, w, t.value, Finalize(v, v.conns[t.value], e));
    }
  }

  lemma ZeroInv(x509: X509, v: StoreV)
    requires Inv(x509, v)
    ensures Inv(x509, Zero(v))
  {
    hide Conserved, HistoryOk, SamplesOk;
    RewriteInv(x509, v, Zero(v));
  }

  lemma JoinStatInv(x509: X509, v: StoreV, j: Join)
    requires Inv(x509, v) && ResolvesTo(v, j.stat.pid, j.stat.fd, j.peer, j.target)
    ensures Inv(x509, JoinStat(v, j))
  {
    hide Conserved, HistoryOk, SamplesOk, Recache;
    var w := v.(pidfd := Recache(v, j.stat.pid, j.stat.fd, j.peer, j.target));
    RewriteInv(x509, v, w);
    if j.target.Some? {
      PutInv(x509, w, j.target.value, AddStat(v, v.conns[j.target.value], j.stat));
    }
  }

  lemma {:induction false} JoinAllInv(x509: X509, v: StoreV, js: seq<Join>)
    requires Inv(x509, v) && JoinsLegal(v, js)
    ensures Inv(x509, JoinAll(v, js))
  {
    hide Inv, JoinStat, ResolvesTo;
    if js != [] {
      JoinAllInv(x509, v, js[..|js| - 1]);
      JoinStatInv(x509, JoinAll(v, js[..|js| - 1]), js[|js| - 1]);
    }
  }

  lemma EvictInv(x509: X509, v: StoreV, live: set<u64>)
    requires Inv(x509, v)
    ensures Inv(x509, Evict(v, live))
  {
    DropSamplesInv(x509, v, Evict(v, live));
  }

  lemma UpdateStatsInv(x509: X509, v: StoreV, js: seq<Join>)
    requires Inv(x509, v) && JoinsLegal(Zero(v), js)
    ensures Inv(x509, UpdateStats(v, js))
  {
    hide Inv, JoinsLegal;
    ZeroInv(x509, v);
    JoinAllInv(x509, Zero(v), js);
    EvictInv(x509, JoinAll(Zero(v), js), LiveSsl(js));
  }

  // ---- runs

  lemma NextInv(x509: X509, v: StoreV, op: Op)
    requires Inv(x509, v) && Legal(v, op)
    ensures Inv(x509, Next(x509, v, op))
  {
    hide Inv, RetireOrder, ResolvesTo, JoinsLegal;
    match op
    case OpFlows(fs, order) => UpdateFlowsInv(x509, v, fs, order);
    case OpWire(sock, dir, data) => WireInv(x509, v, sock, dir, data);
    case OpData(ssl, dir, data) => DataInv(x509, v, ssl, dir, data);
    case OpClose(e, peer, t) => CloseInv(x509, v, e, peer, t);
    case OpStats(js) => UpdateStatsInv(x509, v, js);
  }

  lemma NewInv(x509: X509, maxHistory: int, peekBytes: int)
    ensures Inv(x509, NewStore(maxHistory, peekBytes))
  {
    var v := NewStore(maxHistory, peekBytes);
    assert forall n: nat :: !Live(v, n) && !Retired(v, n);
  }

  /** Every reachable store: connections are conserved, the history is the tail of the log of
      retirements, the classification is right, and samples represent what was seen. */
  lemma {:induction false} RunInv(x509: X509, maxHistory: int, peekBytes: int, ops: seq<Op>)
    requires CanRun(x509, NewStore(maxHistory, peekBytes), ops)
    ensures Inv(x509, Run(x509, NewStore(maxHistory, peekBytes), ops))
  {
    hide Inv, Legal, Next;
    if ops == [] {
      NewInv(x509, maxHistory, peekBytes);
    } else {
      RunInv(x509, maxHistory, peekBytes, ops[..|ops| - 1]);
      NextInv(x509, Run(x509, NewStore(maxHistory, peekBytes), ops[..|ops| - 1]), ops[|ops| - 1]);
    }
  }
}
