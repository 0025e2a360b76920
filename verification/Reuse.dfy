/** Two lives of a socket that feed one connection: its entry is marked closed and deleted by a
    poll, and the socket sends again before the next, because its pointer is reused, or because
    it was only half closed.  Runs, from the start, in which a captured chunk is refused and in
    which the bytes shown fall. */
module Reuse {
  import opened Bytes
  import opened EventCodec
  import opened TlsInfo
  import opened TlsSpec
  import opened Reassembly
  import opened StoreSpec
  import opened StoreLaws
  import opened StoreRuns
  import opened KernelSpec
  import opened TraceFacts
  import opened KernelLaws
  import opened System
  import opened Capture

  // ---- runs, one after the other

  ghost predicate Reaches(x509: X509, s: Sys, w: Sys) {
    exists acts :: CanDo(x509, s, acts) && w == DoAll(x509, s, acts)
  }

  lemma ReachNone(x509: X509, s: Sys)
    ensures Reaches(x509, s, s)
  {
    assert CanDo(x509, s, []) && DoAll(x509, s, []) == s;
  }

  lemma ReachMore(x509: X509, s: Sys, w: Sys, a: Act)
    requires Reaches(x509, s, w) && Can(w, a)
    ensures Reaches(x509, s, Do(x509, w, a))
  {
    hide Can, Do;
    var acts :| CanDo(x509, s, acts) && w == DoAll(x509, s, acts);
    assert (acts + [a])[..|acts|] == acts;
    assert CanDo(x509, s, acts + [a]) && DoAll(x509, s, acts + [a]) == Do(x509, w, a);
  }

  // ---- one socket, sending the same record start again and again

  datatype Sender = Sender(sk: u64, ctx: Ctx, tuple: Tuple, mem: Bytes) {
    predicate Fits() { |mem| == 1023 && StartsRecord(mem) }

    function Send(): Probe { SendMsg(ctx, sk, 1, 1023, tuple, User(mem, true)) }

    function Event(): Event { WireEvent(1, sk, mem) }
  }

  function Copies(c: Chunk, n: nat): seq<Chunk> {
    if n == 0 then [] else Copies(c, n - 1) + [c]
  }

  ghost predicate OnlySocket(s: Sys, sk: u64) {
    s.Kernel().flows.Keys <= {sk} && s.store.conns.Keys <= {sk}
  }

  /** The chunks an entry has captured, when it has counted 1023 bytes with each. */
  function Sends(k: KernelV, sk: u64): int {
    if sk !in k.flows then 0
    else if k.flows[sk].tx == 1023 * k.flows[sk].wireOut then k.flows[sk].wireOut
    else -1
  }

  /** The entry has captured `n` chunks, the connection has seen `m`, and all are handled. */
  ghost predicate Ready(x509: X509, s: Sys, p: Sender, n: nat, m: nat) {
    && SysOk(x509, s) && s.taken == |s.Kernel().ring| && OnlySocket(s, p.sk)
    && n == Sends(s.Kernel(), p.sk) && MovedEver(s.trace, p.sk, Out) == 1023 * m
    && Copies(Chunk(Out, p.mem), m) == if p.sk in s.store.conns then s.store.conns[p.sk].seen else []
  }

  lemma SendCaptures(k: KernelV, p: Sender, n: nat)
    requires p.Fits() && n < 16 && n == Sends(k, p.sk)
    ensures var w := Step(k, p.Send());
            && w.ring == k.ring + [p.Event()]
            && w.flows.Keys == k.flows.Keys + {p.sk} && Sends(w, p.sk) == n + 1
  {
    hide Transfer, StartsRecord, FlowGet;
    TransferExact(k, p.sk, 1, 1023, Out, p.ctx, p.tuple, User(p.mem, true));
    FlowGetKeeps(k, p.sk, p.ctx, p.tuple);
    CaptureExact(n, Move(p.sk, 1, 1023, p.ctx, p.tuple, User(p.mem, true)));
    assert p.mem[..1023] == p.mem;
  }

  /** One send and its event. */
  lemma Feed(x509: X509, s: Sys, p: Sender, n: nat, m: nat) returns (w: Sys)
    requires Ready(x509, s, p, n, m) && p.Fits() && n < 16
    ensures Can(s, Fire(p.Send())) && w.store == s.store && w == Do(x509, s, Fire(p.Send()))
    ensures SysOk(x509, w) && w.Kernel().ring == s.Kernel().ring + [p.Event()] && w.taken == s.taken
    ensures w.Kernel().flows.Keys == s.Kernel().flows.Keys + {p.sk} && Sends(w.Kernel(), p.sk) == n + 1
    ensures MovedEver(w.trace, p.sk, Out) == 1023 * (m + 1)
  {
    hide Trace, Step, Inv, Sender.Fits, Alternates, Copies, Sends, MovedEver;
    StillAlternates(s.trace, p.Send(), p.sk);
    w := Do(x509, s, Fire(p.Send()));
    StepOk(x509, s, Fire(p.Send()));
    TraceMore(s.trace, p.Send());
    SendCaptures(s.Kernel(), p, n);
  }

  lemma Eat(x509: X509, s: Sys, w: Sys, p: Sender, n: nat, m: nat) returns (z: Sys)
    requires Ready(x509, s, p, n, m) && p.Fits() && SysOk(x509, w) && w.store == s.store && w.taken == s.taken
    requires w.Kernel().ring == s.Kernel().ring + [p.Event()]
    requires w.Kernel().flows.Keys == s.Kernel().flows.Keys + {p.sk} && Sends(w.Kernel(), p.sk) == n + 1
    requires MovedEver(w.trace, p.sk, Out) == 1023 * (m + 1)
    ensures Can(w, Deliver([], None, None)) && z == Do(x509, w, Deliver([], None, None))
    ensures Ready(x509, z, p, n + 1, m + 1) && SameConn(s, z, p.sk)
  {
    hide Trace, Inv, Alternates, Received, ApplyWire, StartsRecord, MovedEver;
    ReceivedAsSent(w, []);
    z := Do(x509, w, Deliver([], None, None));
    StepOk(x509, w, Deliver([], None, None));
    FedWire(x509, w.store, p.sk, 1, p.mem, p.sk);
    WireKeys(x509, w.store, p.sk, p.mem);
  }

  /** A connection of the socket, once there, stays the same one. */
  ghost predicate SameConn(s: Sys, w: Sys, sk: u64) {
    sk in s.store.conns ==> sk in w.store.conns && w.store.conns[sk].id == s.store.conns[sk].id
  }

  lemma WireKeys(x509: X509, v: StoreV, sk: u64, data: Bytes)
    requires data != []
    ensures var w := ApplyWire(x509, v, sk, 1, data);
            w.conns.Keys == v.conns.Keys + {sk} && (sk in v.conns ==> w.conns[sk].id == v.conns[sk].id)
  {
    hide WireStep;
  }

  lemma {:induction false} Feeds(x509: X509, s0: Sys, s: Sys, p: Sender, n: nat, m: nat, j: nat) returns (z: Sys)
    requires Ready(x509, s, p, n, m) && p.Fits() && n + j <= 16 && Reaches(x509, s0, s)
    ensures Reaches(x509, s0, z) && Ready(x509, z, p, n + j, m + j) && SameConn(s, z, p.sk)
    decreases j
  {
    hide Ready, Reaches, Can, Do, Trace, SysOk, Sender.Fits;
    if j == 0 {
      return s;
    }
    var w := Feed(x509, s, p, n, m);
    ReachMore(x509, s0, s, Fire(p.Send()));
    var y := Eat(x509, s, w, p, n, m);
    ReachMore(x509, s0, w, Deliver([], None, None));
    z := Feeds(x509, s0, y, p, n + 1, m + 1, j - 1);
  }

  // ---- the socket closes, and is polled

  /** Closed, or half closed by the other side. */
  lemma Closing(x509: X509, s: Sys, p: Sender, n: nat, m: nat, state: nat) returns (w: Sys)
    requires Ready(x509, s, p, n, m) && p.sk in s.Kernel().flows && state in {7, 8}
    ensures var a := Fire(SetState(p.sk, true, 1, state)); Can(s, a) && w == Do(x509, s, a)
    ensures Ready(x509, w, p, n, m) && p.sk in w.Kernel().flows && w.Kernel().flows[p.sk].closed
  {
    hide Trace, Inv, Step, Sends, Alternates, Copies;
    var q := SetState(p.sk, true, 1, state);
    StillAlternates(s.trace, q, p.sk);
    w := Do(x509, s, Fire(q));
    StepOk(x509, s, Fire(q));
    TraceMore(s.trace, q);
    ClosedEntry(s.Kernel(), q);
  }

  lemma StillAlternates(tr: seq<Probe>, q: Probe, sk: u64)
    requires Alternates(tr) && (q.SetState? || q.SendMsg?)
    ensures Alternates(tr + [q])
    ensures MovedEver(tr + [q], sk, Out) == MovedEver(tr, sk, Out) + if q.SendMsg? && q.sk == sk then q.size else 0
  {
    assert (tr + [q])[..|tr|] == tr;
  }

  lemma ClosedEntry(k: KernelV, q: Probe)
    requires q.SetState? && q.tcp && q.sk in k.flows && q.newState in {7, 8}
    ensures var w := Step(k, q);
            && w.flows.Keys == k.flows.Keys && w.ring == k.ring
            && Sends(w, q.sk) == Sends(k, q.sk) && w.flows[q.sk].closed
  {
  }

  /** A poll of the one socket can be done. */
  lemma CanPoll(x509: X509, s: Sys, p: Sender, n: nat, m: nat)
    requires Ready(x509, s, p, n, m) && p.sk in s.Kernel().flows
    ensures Can(s, PollFlows([FlowOf(p.sk, s.Kernel().flows[p.sk])], []))
  {
    hide Trace, Inv, Alternates, TouchAll, MovedEver, Sends;
    var fs := [FlowOf(p.sk, s.Kernel().flows[p.sk])];
    assert fs[0] in fs && fs[0].sock in Seen(fs) && Seen(fs) == {p.sk};
    assert s.Kernel().flows.Keys == {p.sk};
    TouchAllFrame(s.store, fs);
    assert Gone(TouchAll(s.store, fs), Seen(fs)) == {};
  }

  /** What it makes of the connection. */
  lemma PolledConn(x509: X509, s: Sys, p: Sender, n: nat, m: nat, fs: seq<Flow>)
    requires Ready(x509, s, p, n, m) && p.sk in s.Kernel().flows && fs == [FlowOf(p.sk, s.Kernel().flows[p.sk])]
    requires RetireOrder(s.store, fs, [])
    ensures var w := UpdateFlows(s.store, fs, []);
            && w.conns.Keys == {p.sk} && w.conns[p.sk].tx == s.Kernel().flows[p.sk].tx
            && Copies(Chunk(Out, p.mem), m) == w.conns[p.sk].seen
            && (p.sk in s.store.conns ==> w.conns[p.sk].id == s.store.conns[p.sk].id)
  {
    hide Trace, SysOk, TouchAll, RetireAll, UpdateFlows, RetireOrder, TouchConn, NewConn, MovedEver, Sends;
    assert fs[0] in fs && fs[0].sock in Seen(fs) && Seen(fs) == {p.sk};
    FlowsKeep(s.store, fs, [], p.sk);
    UpdateFlowsExact(s.store, fs, []);
    TouchAllExact(s.store, fs, 0);
    TouchTx(if p.sk in s.store.conns then s.store.conns[p.sk]
            else NewConn(TouchAll(s.store, fs).conns[p.sk].id, p.sk), fs[0]);
  }

  /** What it makes of the entry. */
  lemma PolledEntry(s: Sys, p: Sender, n: nat, m: nat, fs: seq<Flow>)
    requires Alternates(s.trace) && p.sk in s.Kernel().flows && s.Kernel().flows.Keys <= {p.sk}
    requires fs == [FlowOf(p.sk, s.Kernel().flows[p.sk])]
    requires n == Sends(s.Kernel(), p.sk) && MovedEver(s.trace, p.sk, Out) == 1023 * m
    ensures var k, w := s.Kernel(), Trace(s.trace + Deletes(fs));
            && w.flows.Keys <= {p.sk} && w.ring == k.ring
            && Sends(w, p.sk) == (if k.flows[p.sk].closed then 0 else n)
            && MovedEver(s.trace + Deletes(fs), p.sk, Out) == 1023 * m
  {
    hide Trace, Alternates;
    DeletesExact(s.trace, fs);
    DeletesClosed(fs, p.sk);
    assert fs[0].sock == p.sk && fs[..0] == [];
    assert s.trace + [] == s.trace && (s.trace + [DeleteFlow(p.sk)])[..|s.trace|] == s.trace;
  }

  /** A poll of the one socket. */
  lemma Polled(x509: X509, s: Sys, p: Sender, n: nat, m: nat) returns (fs: seq<Flow>, w: Sys)
    requires Ready(x509, s, p, n, m) && p.sk in s.Kernel().flows
    ensures Can(s, PollFlows(fs, [])) && w == Do(x509, s, PollFlows(fs, [])) && p.sk in w.store.conns
    ensures Ready(x509, w, p, if s.Kernel().flows[p.sk].closed then 0 else n, m)
    ensures w.store.conns[p.sk].tx == 1023 * n && SameConn(s, w, p.sk)
  {
    hide Trace, Inv, Alternates, UpdateFlows, RetireOrder, MovedEver, Deletes, ListsFlows;
    fs := [FlowOf(p.sk, s.Kernel().flows[p.sk])];
    CanPoll(x509, s, p, n, m);
    w := Do(x509, s, PollFlows(fs, []));
    StepOk(x509, s, PollFlows(fs, []));
    PolledConn(x509, s, p, n, m, fs);
    PolledEntry(s, p, n, m, fs);
  }

  lemma TouchTx(c: ConnV, f: Flow)
    ensures TouchConn(c, f).tx == f.tx && TouchConn(c, f).id == c.id
  {
  }

  // ---- what is in the buffer

  lemma {:induction false} CopiesFrom(mem: Bytes, m: nat)
    requires |mem| == 1023
    ensures var ds := From(Copies(Chunk(Out, mem), m), Out);
            |ds| == m && |Concat(ds)| == 1023 * m && forall d :: d in ds ==> d == mem
    ensures m > 0 ==> From(Copies(Chunk(Out, mem), m), Out)[..m - 1] == From(Copies(Chunk(Out, mem), m - 1), Out)
  {
    hide From, Concat;
    if m == 0 {
      NothingFrom();
    } else {
      var cs := Copies(Chunk(Out, mem), m - 1);
      CopiesFrom(mem, m - 1);
      FromSnoc(cs, Chunk(Out, mem), Out);
      ConcatSnoc(From(cs, Out), mem);
    }
  }

  lemma NothingFrom()
    ensures From([], Out) == [] && |Concat<byte>([])| == 0
  {
  }

  /** One life of `n` sends, closed in this way and polled once, and `j` more sends after that. */
  lemma TwoLives(x509: X509, maxHistory: int, peekBytes: int, p: Sender, n: nat, state: nat, j: nat)
      returns (u: Sys, z: Sys)
    requires p.Fits() && 0 < n <= 16 && j <= 16
    requires state in {7, 8}
    ensures Reaches(x509, Initial(maxHistory, peekBytes), u) && p.sk in u.store.conns
    ensures Ready(x509, u, p, 0, n) && u.store.conns[p.sk].tx == 1023 * n
    ensures Reaches(x509, u, z) && Ready(x509, z, p, j, n + j) && SameConn(u, z, p.sk)
  {
    hide Reaches, Can, Do, Trace, Sender.Fits, Inv, Alternates;
    var s0 := Initial(maxHistory, peekBytes);
    ReachNone(x509, s0);
    StartReady(x509, maxHistory, peekBytes, p);
    var s := Feeds(x509, s0, s0, p, 0, 0, n);
    var w := Closing(x509, s, p, n, n, state);
    ReachMore(x509, s0, s, Fire(SetState(p.sk, true, 1, state)));
    var fs;
    fs, u := Polled(x509, w, p, n, n);
    ReachMore(x509, s0, w, PollFlows(fs, []));
    ReachNone(x509, u);
    z := Feeds(x509, u, u, p, 0, n, j);
  }

  /** A life of sixteen sends and one of two: the eighteenth chunk is refused, the seventeenth
      overfilled the buffer. */
  lemma SecondLifeRefused(x509: X509, maxHistory: int, peekBytes: int, p: Sender, state: nat) returns (u: Sys, z: Sys)
    requires p.Fits() && state in {7, 8}
    ensures Reaches(x509, Initial(maxHistory, peekBytes), u) && Reaches(x509, u, z) && p.sk in z.store.conns
    ensures var c := z.store.conns[p.sk];
            && c.seen == Copies(Chunk(Out, p.mem), 18)
            && c.wire.Buf(Out) == Concat(From(Copies(Chunk(Out, p.mem), 17), Out)) && |c.wire.Buf(Out)| == 17391
  {
    hide Reaches, Sender.Fits;
    u, z := TwoLives(x509, maxHistory, peekBytes, p, 16, state, 2);
    Overfull(x509, z, p);
  }

  /** Two sends, a half close, a poll, one more send on the same connection, and another poll: the
      bytes shown fall from 2046 to 1023, though the socket has moved 3069. */
  lemma HalfCloseFalls(x509: X509, maxHistory: int, peekBytes: int, p: Sender) returns (u: Sys, z: Sys, fs: seq<Flow>)
    requires p.Fits()
    ensures Reaches(x509, Initial(maxHistory, peekBytes), u) && p.sk in u.store.conns && u.store.conns[p.sk].tx == 2046
    ensures Reaches(x509, u, z) && Can(z, PollFlows(fs, [])) && MovedEver(z.trace, p.sk, Out) == 3069
    ensures var w := Do(x509, z, PollFlows(fs, []));
            p.sk in w.store.conns && w.store.conns[p.sk].id == u.store.conns[p.sk].id && w.store.conns[p.sk].tx == 1023
  {
    hide Reaches, Can, Do, Trace, Sender.Fits, Inv, Alternates;
    u, z := TwoLives(x509, maxHistory, peekBytes, p, 2, 8, 1);
    var w;
    fs, w := Polled(x509, z, p, 1, 3);
  }

  lemma StartReady(x509: X509, maxHistory: int, peekBytes: int, p: Sender)
    ensures Ready(x509, Initial(maxHistory, peekBytes), p, 0, 0)
  {
    NewInv(x509, maxHistory, peekBytes);
  }

  lemma Overfull(x509: X509, z: Sys, p: Sender)
    requires Ready(x509, z, p, 2, 18) && p.Fits()
    ensures p.sk in z.store.conns && z.store.conns[p.sk].seen == Copies(Chunk(Out, p.mem), 18)
    ensures var buf := z.store.conns[p.sk].wire.Buf(Out);
            buf == Concat(From(Copies(Chunk(Out, p.mem), 17), Out)) && |buf| == 17391
  {
    hide Trace, WireRun, From, Conserved, HistoryOk, SamplesOk, Alternates, Concat;
    var c := Chunk(Out, p.mem);
    assert |Copies(c, 18)| == 18 by {
      CopiesLength(c, 18);
    }
    var most, all := From(Copies(c, 17), Out), From(Copies(c, 18), Out);
    CopiesFrom(p.mem, 18);
    CopiesFrom(p.mem, 17);
    CopiesFrom(p.mem, 16);
    BufIsAccepted(x509, EMPTY_INFO, Copies(c, 18), Out);
    AcceptedAll(most);
    assert all[..|all| - 1] == most;
    assert Accepted(all) == Push(Accepted(most), all[17]);
  }

  lemma {:induction false} CopiesLength(c: Chunk, n: nat)
    ensures |Copies(c, n)| == n
  {
    if n > 0 {
      CopiesLength(c, n - 1);
    }
  }
}
