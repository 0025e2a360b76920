/** How the store moves: what one snapshot does exactly, what a connection never loses, and
    where the plaintext bytes go. */
module StoreRuns {
  import opened Bytes
  import opened Endpoint
  import opened TlsSpec
  import opened TlsInfo
  import opened Reassembly
  import opened StoreSpec

  // ---- one flow snapshot, exactly

  lemma TouchAt(v: StoreV, f: Flow)
    ensures var k, w := f.sock, Touch(v, f);
            var c := if k in v.conns then v.conns[k] else NewConn(v.created, k);
            && w == v.(conns := w.conns, created := w.created) && v.created <= w.created
            && w.conns == v.conns[k := TouchConn(c, f)] && TouchConn(c, f).id == c.id
  {
    hide IpFrom;
  }

  lemma {:induction false} TouchAllFrame(v: StoreV, fs: seq<Flow>)
    ensures var w := TouchAll(v, fs);
            && w.conns.Keys == v.conns.Keys + Seen(fs)
            && (forall k :: k in v.conns && k !in Seen(fs) ==> w.conns[k] == v.conns[k])
            && w == v.(conns := w.conns, created := w.created)
            && v.created <= w.created
  {
    hide Touch, TouchConn, Seen;
    if fs == [] {
      SeenNil();
    } else {
      var init, last := fs[..|fs| - 1], fs[|fs| - 1];
      TouchAllFrame(v, init);
      TouchAt(TouchAll(v, init), last);
      assert fs == init + [last];
      SeenSnoc(init, last);
    }
  }

  lemma SeenNil()
    ensures Seen([]) == {}
  {
  }

  lemma SeenSnoc(fs: seq<Flow>, f: Flow)
    ensures Seen(fs + [f]) == Seen(fs) + {f.sock}
  {
    forall k
      ensures k in Seen(fs + [f]) <==> k in Seen(fs) || k == f.sock
    {
      if k in Seen(fs) {
        var g :| g in fs && g.sock == k;
        assert g in fs + [f];
      }
      assert f in fs + [f];
    }
  }

  /** The kernel's table lists each socket once. */
  ghost predicate DistinctSocks(fs: seq<Flow>) {
    forall i, j :: 0 <= i < j < |fs| ==> fs[i].sock != fs[j].sock
  }

  lemma TouchLast(v: StoreV, init: seq<Flow>, f: Flow)
    requires f.sock !in Seen(init)
    ensures var w, k := Touch(TouchAll(v, init), f), f.sock;
            && k in w.conns
            && w.conns[k] == TouchConn(if k in v.conns then v.conns[k] else NewConn(w.conns[k].id, k), f)
  {
    hide TouchAll, Touch, TouchConn, Seen;
    TouchAllFrame(v, init);
    TouchAt(TouchAll(v, init), f);
    NewId(TouchAll(v, init).created, f.sock);
  }

  lemma NewId(id: nat, sock: u64)
    ensures NewConn(id, sock).id == id
  {
  }

  lemma {:induction false} TouchedOnce(v: StoreV, fs: seq<Flow>, i: nat)
    requires DistinctSocks(fs) && i < |fs|
    ensures var w, k := TouchAll(v, fs), fs[i].sock;
            && k in w.conns
            && w.conns[k] == TouchConn(if k in v.conns then v.conns[k] else NewConn(w.conns[k].id, k), fs[i])
  {
    hide Touch, TouchConn, NewConn;
    var init, last := fs[..|fs| - 1], fs[|fs| - 1];
    if i < |init| {
      TouchedOnce(v, init, i);
      TouchAt(TouchAll(v, init), last);
    } else {
      assert last.sock !in Seen(init);
      TouchLast(v, init, last);
    }
  }

  /** What an entry says, the connection shows. */
  ghost predicate ShowsFlow(c: ConnV, f: Flow) {
    && c.pid == f.pid && c.comm == f.comm
    && c.local == Some(AddrPort(IpFrom(f.saddr, f.isIpv6), f.sport))
    && c.remote == Some(AddrPort(IpFrom(f.daddr, f.isIpv6), f.dport))
    && c.tx == f.tx && c.rx == f.rx && c.closed == f.closed
    && (f.isTls ==> c.isTls) && (f.direction != 0 ==> c.direction == f.direction)
    && (c.preexisting <==> c.isTls && !c.wire.info.hasClientHello && !c.wire.info.hasServerHello)
  }

  /** What an entry does not say stays as it was. */
  ghost predicate KeepsRest(c: ConnV, d: ConnV, f: Flow) {
    && d.id == c.id && d.sock == c.sock && d.ptx == c.ptx && d.prx == c.prx && d.plain == c.plain
         && d.plainFinal == c.plainFinal
    && d.wire == c.wire && d.seen == c.seen && d.closedAt == c.closedAt
    && (f.direction == 0 ==> d.direction == c.direction)
    && (!f.isTls ==> d.isTls == c.isTls)
  }

  /** A connection of which nothing is known yet. */
  ghost predicate Blank(c: ConnV) {
    && c.pid == 0 && c.comm == "" && c.local.None? && c.remote.None? && c.direction == 0
    && c.tx == 0 && c.rx == 0 && c.ptx == 0 && c.prx == 0
    && !c.isTls && !c.closed && !c.preexisting && !c.closedAt && !c.plainFinal
    && c.wire == Wire([], [], EMPTY_INFO) && c.plain == Sample([], [], [], []) && c.seen == []
  }

  /** After a snapshot, the connection of every listed socket, whether it is seen for the first time
      or not, shows what its entry says, and keeps what the entry does not say; a first one starts
      from nothing. */
  lemma TouchAllExact(v: StoreV, fs: seq<Flow>, i: nat)
    requires DistinctSocks(fs) && i < |fs|
    ensures var w, k := TouchAll(v, fs), fs[i].sock;
            && k in w.conns && ShowsFlow(w.conns[k], fs[i])
            && (k in v.conns ==> KeepsRest(v.conns[k], w.conns[k], fs[i]))
            && (k !in v.conns ==> exists c :: Blank(c) && c.sock == k && KeepsRest(c, w.conns[k], fs[i]))
  {
    hide TouchAll, TouchConn, NewConn;
    TouchedOnce(v, fs, i);
    var w, k := TouchAll(v, fs), fs[i].sock;
    var c := if k in v.conns then v.conns[k] else NewConn(w.conns[k].id, k);
    NewBlank(w.conns[k].id, k);
    TouchShows(c, fs[i]);
  }

  lemma NewBlank(id: nat, sock: u64)
    ensures Blank(NewConn(id, sock)) && NewConn(id, sock).id == id && NewConn(id, sock).sock == sock
  {
  }

  lemma TouchShows(c: ConnV, f: Flow)
    ensures ShowsFlow(TouchConn(c, f), f) && KeepsRest(c, TouchConn(c, f), f)
  {
    hide IpFrom;
  }

  /** A connection as it is kept for good: with a close time, without its buffers, and otherwise as
      it was. */
  function Kept(c: ConnV): ConnV { c.(closedAt := true, wire := Wire([], [], c.wire.info)) }

  function RetiredInOrder(v: StoreV, order: seq<u64>): seq<ConnV>
    requires forall k :: k in order ==> k in v.conns
  {
    if order == [] then []
    else RetiredInOrder(v, order[..|order| - 1]) + [Kept(v.conns[order[|order| - 1]])]
  }

  lemma RetiredIsKept(c: ConnV)
    ensures RetiredConn(c) == Kept(c)
  {
  }

  lemma {:induction false} RetireAllExact(v: StoreV, order: seq<u64>)
    requires NoDup(order) && forall k :: k in order ==> k in v.conns
    ensures RetireAll(v, order).conns == v.conns - (set k | k in order)
    ensures RetireAll(v, order).retired == v.retired + RetiredInOrder(v, order)
    ensures var w := RetireAll(v, order); w == v.(conns := w.conns, history := w.history, retired := w.retired)
  {
    if order == [] {
      assert v.retired + [] == v.retired;
    } else {
      var init, last := order[..|order| - 1], order[|order| - 1];
      RetireAllExact(v, init);
      assert last !in (set k | k in init);
      RetiredIsKept(v.conns[last]);
      AppendAssoc(v.retired, RetiredInOrder(v, init), [Kept(v.conns[last])]);
    }
  }

  /** One snapshot: the live connections afterwards are the old ones and the listed ones less
      those that closed and are not listed, which are moved as they were to the log, each once. */
  lemma UpdateFlowsExact(v: StoreV, fs: seq<Flow>, order: seq<u64>)
    requires RetireOrder(v, fs, order)
    ensures forall k :: k in order <==> k in Gone(v, Seen(fs))
    ensures var w := UpdateFlows(v, fs, order);
            && w.conns.Keys == (v.conns.Keys + Seen(fs)) - Gone(v, Seen(fs))
            && (forall k :: k in w.conns && k !in Seen(fs) ==> w.conns[k] == v.conns[k])
            && (forall k :: k in Seen(fs) ==> w.conns[k] == TouchAll(v, fs).conns[k])
            && w.retired == v.retired + RetiredInOrder(v, order)
            && w == v.(conns := w.conns, history := w.history, retired := w.retired, created := w.created)
  {
    hide TouchAll, RetireAll, RetiredInOrder;
    TouchAllFrame(v, fs);
    RetireAllExact(TouchAll(v, fs), order);
    assert forall k :: k in order ==> k in v.conns && TouchAll(v, fs).conns[k] == v.conns[k];
    SameRetired(TouchAll(v, fs), v, order);
  }

  lemma {:induction false} SameRetired(v: StoreV, w: StoreV, order: seq<u64>)
    requires forall k :: k in order ==> k in v.conns && k in w.conns && v.conns[k] == w.conns[k]
    ensures RetiredInOrder(v, order) == RetiredInOrder(w, order)
  {
    if order != [] {
      SameRetired(v, w, order[..|order| - 1]);
    }
  }

  // ---- what a connection never loses

  ghost predicate Evolves(c: ConnV, d: ConnV) {
    && d.id == c.id && d.sock == c.sock
    && (c.isTls ==> d.isTls)
    && (c.wire.info.hasClientHello ==> d.wire.info.hasClientHello)
    && (c.wire.info.hasServerHello ==> d.wire.info.hasServerHello)
    && (c.wire.info.hasCert ==> d.wire.info.hasCert)
    && (c.plainFinal ==> d.plainFinal)
    && c.seen <= d.seen
  }

  /** The connection at `k` goes on, live or as a new entry of the log. */
  ghost predicate Continues(v: StoreV, w: StoreV, k: u64)
    requires k in v.conns
  {
    || (k in w.conns && Evolves(v.conns[k], w.conns[k]))
    || (exists i :: |v.retired| <= i < |w.retired| && Evolves(v.conns[k], w.retired[i]))
  }

  /** The log of retirements only grows, so a retired connection never changes; a live one
      keeps its identity and its flags. */
  ghost predicate Progress(v: StoreV, w: StoreV) {
    v.retired <= w.retired && forall k :: k in v.conns ==> Continues(v, w, k)
  }

  lemma RewriteProgress(v: StoreV, w: StoreV)
    requires w.retired == v.retired && forall k :: k in v.conns ==> k in w.conns && Evolves(v.conns[k], w.conns[k])
    ensures Progress(v, w)
  {
  }

  lemma ProgressTrans(u: StoreV, v: StoreV, w: StoreV)
    requires Progress(u, v) && Progress(v, w)
    ensures Progress(u, w)
  {
    forall k | k in u.conns
      ensures Continues(u, w, k)
    {
      if k in v.conns && Evolves(u.conns[k], v.conns[k]) {
        assert Continues(v, w, k);
        if !(k in w.conns && Evolves(v.conns[k], w.conns[k])) {
          var i :| |v.retired| <= i < |w.retired| && Evolves(v.conns[k], w.retired[i]);
          assert Evolves(u.conns[k], w.retired[i]);
        }
      } else {
        assert Continues(u, v, k);
        var i :| |u.retired| <= i < |v.retired| && Evolves(u.conns[k], v.retired[i]);
        assert w.retired[i] == v.retired[i];
      }
    }
  }

  lemma TouchProgress(v: StoreV, f: Flow)
    ensures Progress(v, Touch(v, f))
  {
    RewriteProgress(v, Touch(v, f));
  }

  lemma {:induction false} TouchAllProgress(v: StoreV, fs: seq<Flow>)
    ensures Progress(v, TouchAll(v, fs))
  {
    hide Touch, Progress;
    if fs == [] {
      SameProgress(v);
    } else {
      var u := TouchAll(v, fs[..|fs| - 1]);
      TouchAllProgress(v, fs[..|fs| - 1]);
      TouchProgress(u, fs[|fs| - 1]);
      ProgressTrans(v, u, TouchAll(v, fs));
    }
  }

  lemma SameProgress(v: StoreV)
    ensures Progress(v, v)
  {
    RewriteProgress(v, v);
  }

  lemma RetireProgress(v: StoreV, k: u64)
    requires k in v.conns
    ensures Progress(v, Retire(v, k))
  {
    var w := Retire(v, k);
    assert Evolves(v.conns[k], w.retired[|v.retired|]);
    forall j | j in v.conns
      ensures Continues(v, w, j)
    {
      if j != k {
        assert j in w.conns;
      }
    }
  }

  lemma {:induction false} RetireAllProgress(v: StoreV, ks: seq<u64>)
    requires NoDup(ks) && forall k :: k in ks ==> k in v.conns
    ensures Progress(v, RetireAll(v, ks))
  {
    hide Retire, Progress;
    if ks == [] {
      SameProgress(v);
    } else {
      var init, last := ks[..|ks| - 1], ks[|ks| - 1];
      assert last !in (set k | k in init);
      RetireAllProgress(v, init);
      RetireProgress(RetireAll(v, init), last);
      ProgressTrans(v, RetireAll(v, init), RetireAll(v, ks));
    }
  }

  lemma WireProgress(x509: X509, v: StoreV, sock: u64, dir: byte, data: Bytes)
    ensures Progress(v, ApplyWire(x509, v, sock, dir, data))
  {
    hide FoldWire;
    if data != [] {
      FoldEvolves(x509, Ensure(v, sock).conns[sock], Chunk(DirOf(dir), data));
    }
    forall c
      ensures Evolves(c, c)
    {
    }
    RewriteProgress(v, ApplyWire(x509, v, sock, dir, data));
  }

  lemma FoldEvolves(x509: X509, c: ConnV, chunk: Chunk)
    ensures Evolves(c, FoldWire(x509, c, chunk))
  {
    hide BufferDelta;
  }

  lemma {:induction false} JoinAllProgress(v: StoreV, js: seq<Join>)
    requires JoinsLegal(v, js)
    ensures Progress(v, JoinAll(v, js))
  {
    hide Progress, ResolvesTo;
    if js == [] {
      SameProgress(v);
    } else {
      var init, last := js[..|js| - 1], js[|js| - 1];
      var u := JoinAll(v, init);
      JoinAllProgress(v, init);
      JoinStatProgress(u, last);
      ProgressTrans(v, u, JoinAll(v, js));
    }
  }

  lemma JoinStatProgress(v: StoreV, j: Join)
    requires ResolvesTo(v, j.stat.pid, j.stat.fd, j.peer, j.target)
    ensures Progress(v, JoinStat(v, j))
  {
    hide Recache;
    RewriteProgress(v, JoinStat(v, j));
  }

  lemma NextProgress(x509: X509, v: StoreV, op: Op)
    requires Legal(v, op)
    ensures Progress(v, Next(x509, v, op))
  {
    hide Progress, RetireOrder, ResolvesTo, JoinsLegal;
    match op
    case OpFlows(fs, order) =>
      FlowsProgress(v, fs, order);
    case OpWire(sock, dir, data) => WireProgress(x509, v, sock, dir, data);
    case OpData(ssl, dir, data) => RewriteProgress(v, ApplyData(v, ssl, dir, data));
    case OpClose(e, peer, t) => CloseProgress(v, e, peer, t);
    case OpStats(js) =>
      RewriteProgress(v, Zero(v));
      JoinAllProgress(Zero(v), js);
      ProgressTrans(v, Zero(v), JoinAll(Zero(v), js));
      RewriteProgress(JoinAll(Zero(v), js), UpdateStats(v, js));
      ProgressTrans(v, JoinAll(Zero(v), js), UpdateStats(v, js));
  }

  lemma FlowsProgress(v: StoreV, fs: seq<Flow>, order: seq<u64>)
    requires RetireOrder(v, fs, order)
    ensures Progress(v, UpdateFlows(v, fs, order))
  {
    hide Progress, TouchAll, RetireAll;
    TouchAllProgress(v, fs);
    RetireAllProgress(TouchAll(v, fs), order);
    ProgressTrans(v, TouchAll(v, fs), UpdateFlows(v, fs, order));
  }

  lemma CloseProgress(v: StoreV, e: Close, peer: Option<AddrPort>, t: Option<u64>)
    requires ResolvesTo(v, e.pid, e.fd, peer, t)
    ensures Progress(v, ApplyClose(v, e, peer, t))
  {
    hide Recache;
    RewriteProgress(v, ApplyClose(v, e, peer, t));
  }

  lemma RunMore(x509: X509, v: StoreV, ops: seq<Op>, op: Op)
    requires CanRun(x509, v, ops) && Legal(Run(x509, v, ops), op)
    ensures CanRun(x509, v, ops + [op]) && Run(x509, v, ops + [op]) == Next(x509, Run(x509, v, ops), op)
  {
    hide Legal, Next;
    assert (ops + [op])[..|ops|] == ops;
  }

  lemma NextJoin(v: StoreV, js: seq<Join>, j: Join)
    requires JoinsLegal(v, js) && ResolvesTo(JoinAll(v, js), j.stat.pid, j.stat.fd, j.peer, j.target)
    ensures JoinsLegal(v, js + [j]) && JoinAll(v, js + [j]) == JoinStat(JoinAll(v, js), j)
    ensures LiveSsl(js + [j]) == LiveSsl(js) + {j.stat.ssl}
  {
    hide JoinStat, ResolvesTo;
    assert (js + [j])[..|js|] == js;
    assert forall i :: i in js + [j] <==> i in js || i == j;
  }

  /** From any point of a run to its end, nothing that was retired changes and nothing that was live
      is lost. */
  lemma {:induction false} PastProgress(x509: X509, v: StoreV, ops: seq<Op>, n: nat)
    requires CanRun(x509, v, ops) && n <= |ops|
    ensures CanRun(x509, v, ops[..n]) && Progress(Run(x509, v, ops[..n]), Run(x509, v, ops))
    decreases |ops|
  {
    hide Progress, Legal, Next;
    if n == |ops| {
      assert ops[..n] == ops;
      SameProgress(Run(x509, v, ops));
    } else {
      var init := ops[..|ops| - 1];
      assert init[..n] == ops[..n];
      PastProgress(x509, v, init, n);
      NextProgress(x509, Run(x509, v, init), ops[|ops| - 1]);
      ProgressTrans(Run(x509, v, ops[..n]), Run(x509, v, init), Run(x509, v, ops));
    }
  }

  /** Over any run: retired connections stay as they were retired, live ones keep identity,
      flags and chunks until they are retired with them. */
  lemma {:induction false} RunProgress(x509: X509, v: StoreV, ops: seq<Op>)
    requires CanRun(x509, v, ops)
    ensures Progress(v, Run(x509, v, ops))
  {
    hide Progress, Legal, Next;
    if ops == [] {
      SameProgress(v);
    } else {
      var u := Run(x509, v, ops[..|ops| - 1]);
      RunProgress(x509, v, ops[..|ops| - 1]);
      NextProgress(x509, u, ops[|ops| - 1]);
      ProgressTrans(v, u, Run(x509, v, ops));
    }
  }
}
