/** Captured handshakes across the layers: what the kernel side captures in one life of a socket
    is what the table reassembles, nothing is refused on the way, and what the table shows, until
    and after it retires the connection, is what the captured bytes say. */
module Capture {
  import opened Bytes
  import opened Endpoint
  import opened EventCodec
  import opened TlsInfo
  import opened TlsSpec
  import opened Reassembly
  import opened StoreSpec
  import opened StoreLaws
  import opened StoreRuns
  import opened KernelSpec
  import opened TraceFacts
  import opened KernelLaws
  import opened System

  // ---- the buffers are large enough

  lemma {:induction false} ConcatBound(ds: seq<Bytes>)
    requires forall d :: d in ds ==> |d| <= 1023
    ensures |Concat(ds)| <= 1023 * |ds|
  {
    if ds != [] {
      assert ds[0] in ds && forall d :: d in ds[1..] ==> d in ds;
      ConcatBound(ds[1..]);
    }
  }

  /** Sixteen events cannot fill a reassembly buffer. */
  lemma NeverRefused(ds: seq<Bytes>)
    requires Bounded(ds)
    ensures Accepted(ds) == Concat(ds) && |Concat(ds)| <= 16368 < 16384
  {
    ConcatBound(ds);
    RefusedIsFull(ds);
  }

  /** Whatever the interleaving of the two directions, the chunks captured in the life of one
      entry end up whole in the two buffers. */
  lemma LifetimeFits(x509: X509, i: InfoV, tr: seq<Probe>, sk: u64, cs: seq<Chunk>, d: Dir)
    requires From(cs, d) == Captured(tr, sk, d)
    ensures WireRun(x509, Start(i), cs).Buf(d) == Concat(Captured(tr, sk, d))
    ensures |Concat(Captured(tr, sk, d))| <= 16368
  {
    CaptureBound(tr, sk, d);
    NeverRefused(Captured(tr, sk, d));
    BufIsAccepted(x509, i, cs, d);
  }

  // ---- from the ring into the table

  /** The events the reader has handled. */
  function Handled(s: Sys): seq<Event> {
    if s.taken <= |s.Kernel().ring| then s.Kernel().ring[..s.taken] else s.Kernel().ring
  }

  /** No chunk of the socket waits in the ring. */
  ghost predicate AllHandled(s: Sys, sk: u64) {
    forall d: Dir :: Wires(Handled(s), sk, d) == Wires(s.Kernel().ring, sk, d)
  }

  /** A life of a socket can begin: it has no connection, and nothing of it is captured or waits
      in the ring. */
  ghost predicate Fresh(s: Sys, sk: u64) {
    sk !in s.store.conns && AllHandled(s, sk) && forall d: Dir :: Captured(s.trace, sk, d) == []
  }

  /** The connection has been fed the chunks handled since `s0`. */
  ghost predicate Fed(s0: Sys, s: Sys, sk: u64) {
    if sk in s.store.conns then
      forall d: Dir :: Wires(Handled(s), sk, d) == Wires(s0.Kernel().ring, sk, d) + From(s.store.conns[sk].seen, d)
    else forall d: Dir :: Wires(Handled(s), sk, d) == Wires(s0.Kernel().ring, sk, d)
  }

  /** No entry of the socket was deleted since `s0`. */
  ghost predicate Lasts(s0: Sys, s: Sys, sk: u64) {
    s0.trace <= s.trace && DeleteFlow(sk) !in s.trace[|s0.trace|..]
  }

  /** While no entry of the socket is deleted, its connection stays open and is fed every chunk. */
  ghost predicate Living(s0: Sys, s: Sys, sk: u64) {
    Lasts(s0, s, sk) && SmallSends(s.trace) ==> Fed(s0, s, sk) && (sk in s.store.conns ==> !s.store.conns[sk].closed)
  }

  lemma Earlier(s0: Sys, s: Sys, w: Sys, sk: u64)
    requires s0.trace <= s.trace <= w.trace
    ensures Lasts(s0, w, sk) ==> Lasts(s0, s, sk)
    ensures SmallSends(w.trace) ==> SmallSends(s.trace)
  {
    assert s.trace[|s0.trace|..] <= w.trace[|s0.trace|..];
    assert forall p :: p in s.trace[|s0.trace|..] ==> p in w.trace[|s0.trace|..];
    assert forall p :: p in s.trace ==> p in w.trace;
  }

  lemma HandledGrows(s: Sys, w: Sys)
    requires s.taken <= |s.Kernel().ring| && w.taken == s.taken && s.Kernel().ring <= w.Kernel().ring
    ensures Handled(w) == Handled(s)
  {
    hide Trace;
  }

  /** A step that handles no event, and leaves what the connection has seen. */
  lemma FedQuiet(s0: Sys, s: Sys, w: Sys, sk: u64)
    requires Fed(s0, s, sk) && Handled(w) == Handled(s)
    requires if sk in s.store.conns
             then sk in w.store.conns && w.store.conns[sk].seen == s.store.conns[sk].seen
             else sk in w.store.conns ==> w.store.conns[sk].seen == []
    ensures Fed(s0, w, sk)
  {
    hide Trace, Wires;
    forall d
      ensures From([], d) == []
      ensures Wires(s0.Kernel().ring, sk, d) + [] == Wires(s0.Kernel().ring, sk, d)
    {
    }
  }

  // ---- snapshots

  /** A snapshot that does not retire the connection leaves what it has seen; the connection is
      closed afterwards only if it was before or its entry was listed as closed and deleted. */
  lemma FlowsKeep(v: StoreV, fs: seq<Flow>, order: seq<u64>, sk: u64)
    requires RetireOrder(v, fs, order) && DistinctSocks(fs) && (sk in v.conns ==> sk in Seen(fs) || !v.conns[sk].closed)
    ensures var w := UpdateFlows(v, fs, order);
            && (sk in v.conns ==> sk in w.conns && w.conns[sk].seen == v.conns[sk].seen)
            && (sk in w.conns && sk !in v.conns ==> w.conns[sk].seen == [])
            && (sk in w.conns ==>
                  w.conns[sk].closed
                  == if sk in Seen(fs) then DeleteFlow(sk) in Deletes(fs) else sk in v.conns && v.conns[sk].closed)
  {
    hide TouchAll, RetireAll, RetireOrder, UpdateFlows, IpFrom;
    UpdateFlowsExact(v, fs, order);
    DeletesClosed(fs, sk);
    if i :| 0 <= i < |fs| && fs[i].sock == sk {
      TouchAllExact(v, fs, i);
      assert forall j :: 0 <= j < |fs| && fs[j].sock == sk ==> j == i;
    } else {
      assert sk !in Seen(fs);
    }
  }

  lemma LivingFlows(x509: X509, s0: Sys, s: Sys, fs: seq<Flow>, order: seq<u64>, sk: u64)
    requires SysOk(x509, s) && Can(s, PollFlows(fs, order)) && s0.trace <= s.trace && Living(s0, s, sk)
    ensures Living(s0, Do(x509, s, PollFlows(fs, order)), sk)
  {
    hide Trace, Alternates, Inv, UpdateFlows, Fed, SmallSends, RetireOrder;
    var w := Do(x509, s, PollFlows(fs, order));
    StepGrows(x509, s, PollFlows(fs, order));
    Earlier(s0, s, w, sk);
    HandledGrows(s, w);
    assert w.trace[|s0.trace|..] == s.trace[|s0.trace|..] + Deletes(fs);
    if Lasts(s0, w, sk) && SmallSends(w.trace) {
      FlowsKeep(s.store, fs, order, sk);
      FedQuiet(s0, s, w, sk);
    }
  }

  // ---- events

  /** One chunk for the socket of the event, none for the others. */
  lemma FedWire(x509: X509, v: StoreV, sock: u64, dir: byte, data: Bytes, sk: u64)
    requires data != []
    ensures var w := Next(x509, v, OpWire(sock, dir, data));
            && (sk in v.conns ==> sk in w.conns && w.conns[sk].closed == v.conns[sk].closed)
            && (sk in w.conns ==>
                  && (sk !in v.conns ==> sk == sock && !w.conns[sk].closed)
                  && var seen := if sk in v.conns then v.conns[sk].seen else [];
                     w.conns[sk].seen == if sk == sock then seen + [Chunk(DirOf(dir), data)] else seen)
            && sock in w.conns
  {
    hide WireStep;
  }

  /** What one more event adds to the chunks of a socket and direction. */
  function Added(e: Event, sk: u64, d: Dir): seq<Bytes> {
    if e.WireEvent? && e.sock == sk && e.dir == Code(d) then [e.data] else []
  }

  lemma OneWire(es: seq<Event>, e: Event, sk: u64, d: Dir)
    ensures Wires(es + [e], sk, d) == Wires(es, sk, d) + Added(e, sk, d)
  {
    assert (es + [e])[..|es|] == es;
  }

  lemma OneChunk(seen: seq<Chunk>, e: Event, d: Dir)
    requires e.WireEvent? && e.dir in {1, 2}
    ensures From(seen + [Chunk(DirOf(e.dir), e.data)], d) == From(seen, d) + Added(e, e.sock, d)
    ensures From([], d) == []
  {
    FromSnoc(seen, Chunk(DirOf(e.dir), e.data), d);
  }

  /** The event's chunk goes where it belongs. */
  lemma FedEvent(x509: X509, s0: Sys, s: Sys, w: Sys, op: Op, e: Event, sk: u64)
    requires Fed(s0, s, sk) && Handled(w) == Handled(s) + [e] && RingOk(s.trace, e) && SmallSends(s.trace)
    requires Legal(s.store, op) && w.store == Next(x509, s.store, op)
    requires if e.WireEvent? then op == OpWire(e.sock, e.dir, e.data) else (op.OpData? || op.OpClose?)
    ensures Fed(s0, w, sk)
    ensures sk in w.store.conns ==> w.store.conns[sk].closed == (sk in s.store.conns && s.store.conns[sk].closed)
  {
    hide Trace, Wires, From, Next, Legal, SmallSends;
    forall d
      ensures Wires(Handled(w), sk, d) == Wires(Handled(s), sk, d) + Added(e, sk, d)
    {
      OneWire(Handled(s), e, sk, d);
    }
    if e.WireEvent? {
      FedWire(x509, s.store, e.sock, e.dir, e.data, sk);
      FedChunk(s0, s, w, e, sk);
    } else {
      OnlyWire(x509, s.store, op);
    }
  }

  lemma FedChunk(s0: Sys, s: Sys, w: Sys, e: Event, sk: u64)
    requires Fed(s0, s, sk) && e.WireEvent? && e.dir in {1, 2}
    requires forall d :: Wires(Handled(w), sk, d) == Wires(Handled(s), sk, d) + Added(e, sk, d)
    requires sk in s.store.conns || sk == e.sock <==> sk in w.store.conns
    requires sk in w.store.conns ==>
               var seen := if sk in s.store.conns then s.store.conns[sk].seen else [];
               w.store.conns[sk].seen == if sk == e.sock then seen + [Chunk(DirOf(e.dir), e.data)] else seen
    ensures Fed(s0, w, sk)
  {
    hide Trace, Wires, From, Handled;
    var seen := if sk in s.store.conns then s.store.conns[sk].seen else [];
    forall d
      ensures Wires(Handled(w), sk, d)
           == Wires(s0.Kernel().ring, sk, d) + (From(seen, d) + Added(e, sk, d))
      ensures sk == e.sock ==> From(seen + [Chunk(DirOf(e.dir), e.data)], d) == From(seen, d) + Added(e, sk, d)
      ensures sk != e.sock ==> From(seen, d) + Added(e, sk, d) == From(seen, d)
      ensures From([], d) == [] && Wires(s0.Kernel().ring, sk, d) + [] == Wires(s0.Kernel().ring, sk, d)
    {
      OneChunk(seen, e, d);
      AppendAssoc(Wires(s0.Kernel().ring, sk, d), From(seen, d), Added(e, sk, d));
      assert [] + Added(e, sk, d) == Added(e, sk, d);
    }
  }

  /** Handling an event, whether or not entries were deleted. */
  lemma FedDeliver(x509: X509, s0: Sys, s: Sys, pad: Bytes, peer: Option<AddrPort>, t: Option<u64>, sk: u64)
    requires SysOk(x509, s) && Can(s, Deliver(pad, peer, t)) && Fed(s0, s, sk) && SmallSends(s.trace)
    ensures var w := Do(x509, s, Deliver(pad, peer, t));
            && Fed(s0, w, sk)
            && (sk in w.store.conns ==> w.store.conns[sk].closed == (sk in s.store.conns && s.store.conns[sk].closed))
  {
    hide Trace, Alternates, Inv, Next, Legal, Received, Fed, SmallSends, Emittable;
    var a := Deliver(pad, peer, t);
    var w, e := Do(x509, s, a), s.Kernel().ring[s.taken];
    ReceivedAsSent(s, pad);
    RingExact(s.trace, s.taken);
    StepIsStoreOp(x509, s, a);
    assert Handled(w) == Handled(s) + [e];
    FedEvent(x509, s0, s, w, OpOf(e, peer, t), e, sk);
  }

  // ---- every step, every run

  lemma FedSame(x509: X509, s0: Sys, s: Sys, a: Act, sk: u64)
    requires SysOk(x509, s) && Can(s, a) && (a.Fire? || a.PollSessions?) && Fed(s0, s, sk)
    ensures Fed(s0, Do(x509, s, a), sk)
    ensures var w := Do(x509, s, a);
            sk in w.store.conns ==> sk in s.store.conns && w.store.conns[sk].closed == s.store.conns[sk].closed
  {
    hide Fed, Trace, Inv, Alternates, UpdateStats, JoinsLegal, ListsSessions;
    StepGrows(x509, s, a);
    HandledGrows(s, Do(x509, s, a));
    if a.PollSessions? {
      OnlyWire(x509, s.store, OpStats(a.joins));
    }
    FedQuiet(s0, s, Do(x509, s, a), sk);
  }

  lemma LivingStep(x509: X509, s0: Sys, s: Sys, a: Act, sk: u64)
    requires SysOk(x509, s) && Can(s, a) && s0.trace <= s.trace && Living(s0, s, sk)
    ensures SysOk(x509, Do(x509, s, a)) && s0.trace <= Do(x509, s, a).trace && Living(s0, Do(x509, s, a), sk)
  {
    hide SysOk, Fed, Trace, Lasts, SmallSends;
    StepOk(x509, s, a);
    TraceGrows(x509, s, a);
    Earlier(s0, s, Do(x509, s, a), sk);
    if Lasts(s0, s, sk) && SmallSends(s.trace) {
      match a
      case Deliver(pad, peer, t) => FedDeliver(x509, s0, s, pad, peer, t, sk);
      case PollFlows(fs, order) => LivingFlows(x509, s0, s, fs, order, sk);
      case _ => FedSame(x509, s0, s, a, sk);
    }
  }

  lemma TraceGrows(x509: X509, s: Sys, a: Act)
    requires SysOk(x509, s) && Can(s, a)
    ensures s.trace <= Do(x509, s, a).trace
  {
    hide Inv, Trace, Alternates;
    StepGrows(x509, s, a);
  }

  lemma {:induction false} LivingRun(x509: X509, s0: Sys, acts: seq<Act>, sk: u64)
    requires SysOk(x509, s0) && Fresh(s0, sk) && CanDo(x509, s0, acts)
    ensures var s := DoAll(x509, s0, acts);
            SysOk(x509, s) && s0.trace <= s.trace && Living(s0, s, sk)
  {
    hide SysOk, Living, Do, Can;
    if acts == [] {
      FreshLives(s0, sk);
    } else {
      LivingRun(x509, s0, acts[..|acts| - 1], sk);
      LivingStep(x509, s0, DoAll(x509, s0, acts[..|acts| - 1]), acts[|acts| - 1], sk);
    }
  }

  lemma FreshLives(s0: Sys, sk: u64)
    requires Fresh(s0, sk)
    ensures Living(s0, s0, sk)
  {
    hide Trace, Wires, Captured;
  }

  /** An empty system is a fresh start for every socket. */
  lemma InitialFresh(x509: X509, maxHistory: int, peekBytes: int, sk: u64)
    ensures SysOk(x509, Initial(maxHistory, peekBytes)) && Fresh(Initial(maxHistory, peekBytes), sk)
  {
    NewInv(x509, maxHistory, peekBytes);
  }

  /** So is any state in which the socket's last life is over: retired, not tracked, and its
      events handled. */
  lemma FreshWhenGone(x509: X509, s: Sys, sk: u64)
    requires SysOk(x509, s) && sk !in s.store.conns && sk !in s.Kernel().flows && AllHandled(s, sk)
    ensures Fresh(s, sk)
  {
    hide Trace, Captured, Moved, Identified, Armed, Wires, Inv, Alternates, AllHandled;
    Accounting(s.trace, sk);
    forall d
      ensures Captured(s.trace, sk, d) == []
    {
      assert d == Out || d == In;
    }
  }

  // ---- what the table shows

  lemma {:induction false} WiresPrefix(es: seq<Event>, n: nat, sk: u64, d: Dir)
    requires n <= |es|
    ensures Wires(es[..n], sk, d) <= Wires(es, sk, d)
  {
    if n == |es| {
      assert es[..n] == es;
    } else {
      assert es[..|es| - 1][..n] == es[..n];
      WiresPrefix(es[..|es| - 1], n, sk, d);
    }
  }

  lemma PrefixBounded(a: seq<Bytes>, b: seq<Bytes>)
    requires a <= b && Bounded(b)
    ensures Bounded(a)
  {
    assert forall d :: d in a ==> d in b;
  }

  lemma DropCommon(w: seq<Bytes>, a: seq<Bytes>, b: seq<Bytes>)
    requires w + a <= w + b
    ensures a <= b && (w + a == w + b ==> a == b)
  {
    assert (w + a)[|w|..] == a && (w + b)[|w|..] == b;
  }

  /** From a fresh start on, while a socket's entry is not deleted: its connection holds, per
      direction, the whole of the chunks handled so far, which are the first of the chunks
      captured.  Nothing is refused, lost, reordered or taken from another socket. */
  lemma AcrossLayers(x509: X509, s0: Sys, acts: seq<Act>, sk: u64, d: Dir)
    requires SysOk(x509, s0) && Fresh(s0, sk) && CanDo(x509, s0, acts)
    requires var s := DoAll(x509, s0, acts);
             sk in s.store.conns && SmallSends(s.trace) && Lasts(s0, s, sk)
    ensures var s := DoAll(x509, s0, acts);
            var c := s.store.conns[sk];
            && From(c.seen, d) <= Captured(s.trace, sk, d)
            && (AllHandled(s, sk) ==> From(c.seen, d) == Captured(s.trace, sk, d))
            && c.wire == WireRun(x509, Start(EMPTY_INFO), c.seen)
            && c.wire.Buf(d) == Concat(From(c.seen, d)) == Accepted(From(c.seen, d))
            && |c.wire.Buf(d)| <= 16368
  {
    hide DoAll, CanDo, Trace, Captured, Wires, From, Conserved, HistoryOk, SamplesOk, WireRun, Alternates, SmallSends;
    LivingRun(x509, s0, acts, sk);
    var s := DoAll(x509, s0, acts);
    var seen, ring := s.store.conns[sk].seen, s.Kernel().ring;
    WiresSince(s0.trace, s.trace, sk, d);
    WiresPrefix(ring, s.taken, sk, d);
    DropCommon(Wires(s0.Kernel().ring, sk, d), From(seen, d), Captured(s.trace, sk, d));
    CaptureBound(s.trace, sk, d);
    PrefixBounded(From(seen, d), Captured(s.trace, sk, d));
    NeverRefused(From(seen, d));
    BufIsAccepted(x509, EMPTY_INFO, seen, d);
  }

  /** The information is that of the chunks of one life: it joins what the two directions say, and
      is one parse of all of one and then of all of the other if they agree. */
  ghost predicate Shows(x509: X509, i: InfoV, tr: seq<Probe>, sk: u64, dir: Dir) {
    var c, e := Concat(Captured(tr, sk, dir)), Concat(Captured(tr, sk, Other(dir)));
    && Joined(EMPTY_INFO, BufferDelta(x509, c), BufferDelta(x509, e), i)
    && (Agree(EMPTY_INFO, BufferDelta(x509, c), BufferDelta(x509, e)) ==>
          i == ParseInfo(x509, e, ParseInfo(x509, c, EMPTY_INFO)))
  }

  lemma ChunksShow(x509: X509, seen: seq<Chunk>, tr: seq<Probe>, sk: u64, dir: Dir)
    requires forall d :: From(seen, d) == Captured(tr, sk, d)
    ensures Shows(x509, WireRun(x509, Start(EMPTY_INFO), seen).info, tr, sk, dir)
  {
    hide Captured, From, WireRun, Joined, Agree, BufferDelta, ParseInfo, Concat, Accepted;
    var cds, sds := Captured(tr, sk, dir), Captured(tr, sk, Other(dir));
    CaptureBound(tr, sk, dir);
    CaptureBound(tr, sk, Other(dir));
    NeverRefused(cds);
    NeverRefused(sds);
    JoinedRun(x509, EMPTY_INFO, seen, dir);
    FieldConfluence(x509, EMPTY_INFO, dir, cds, sds);
    OneAfterTheOther(x509, EMPTY_INFO, dir, cds, sds);
    assert Interleaves(seen, dir, cds, sds);
    assert Interleaves(ChunksOf(cds, dir) + ChunksOf(sds, Other(dir)), dir, cds, sds);
  }

  /** What the table shows of a handshake while the socket's entry lives, once its events are
      handled: what was captured, whatever the interleaving of probes, events and polls. */
  lemma WhatIsShown(x509: X509, s0: Sys, acts: seq<Act>, sk: u64, dir: Dir)
    requires SysOk(x509, s0) && Fresh(s0, sk) && CanDo(x509, s0, acts)
    requires var s := DoAll(x509, s0, acts);
             sk in s.store.conns && SmallSends(s.trace) && Lasts(s0, s, sk) && AllHandled(s, sk)
    ensures var s := DoAll(x509, s0, acts);
            Shows(x509, s.store.conns[sk].wire.info, s.trace, sk, dir)
  {
    hide DoAll, CanDo, Trace, Captured, Wires, From, WireRun, Shows, SysOk, Fresh, AllHandled, SmallSends, Concat,
      Accepted;
    var s := DoAll(x509, s0, acts);
    AcrossLayers(x509, s0, acts, sk, Out);
    AcrossLayers(x509, s0, acts, sk, In);
    forall d
      ensures From(s.store.conns[sk].seen, d) == Captured(s.trace, sk, d)
    {
      assert d == Out || d == In;
    }
    ChunksShow(x509, s.store.conns[sk].seen, s.trace, sk, dir);
  }

  // ---- what is shown after the connection is retired

  /** Between the two polls: the entry is gone, the closed connection waits for its last chunks. */
  ghost predicate Waiting(s0: Sys, s1: Sys, s: Sys, sk: u64, id: nat) {
    && Leaving(s, sk, id) && Fed(s0, s, sk)
    && forall d: Dir :: Wires(s.Kernel().ring, sk, d) == Wires(s1.Kernel().ring, sk, d)
  }

  lemma WaitingStep(x509: X509, s0: Sys, s1: Sys, s: Sys, a: Act, sk: u64, id: nat)
    requires SysOk(x509, s) && Waiting(s0, s1, s, sk, id) && Can(s, a) && SmallSends(Do(x509, s, a).trace)
    requires !a.PollFlows? && (a.Fire? ==> !Touches(a.p, sk))
    ensures SysOk(x509, Do(x509, s, a)) && Waiting(s0, s1, Do(x509, s, a), sk, id)
  {
    hide SysOk, Fed, Leaving, Trace, Wires, SmallSends;
    StepOk(x509, s, a);
    MidStep(x509, s, a, sk, id);
    TraceGrows(x509, s, a);
    Earlier(s, s, Do(x509, s, a), sk);
    if a.Deliver? {
      FedDeliver(x509, s0, s, a.pad, a.peer, a.target, sk);
    } else {
      FedSame(x509, s0, s, a, sk);
    }
    SameWires(x509, s, a, sk);
  }

  lemma SameWires(x509: X509, s: Sys, a: Act, sk: u64)
    requires SysOk(x509, s) && Can(s, a) && !a.PollFlows? && (a.Fire? ==> !Touches(a.p, sk))
    ensures forall d: Dir :: Wires(Do(x509, s, a).Kernel().ring, sk, d) == Wires(s.Kernel().ring, sk, d)
  {
    hide Inv, Trace, Wires, Alternates, Next, Legal, UpdateStats, JoinsLegal, ListsSessions, Received;
    if a.Fire? {
      forall d
        ensures Wires(Trace(s.trace + [a.p]).ring, sk, d) == Wires(Trace(s.trace).ring, sk, d)
      {
        UntouchedRing(s.trace, a.p, sk, d);
      }
    }
  }

  lemma {:induction false} WaitingRun(x509: X509, s0: Sys, s1: Sys, s: Sys, mid: seq<Act>, sk: u64, id: nat)
    requires SysOk(x509, s) && Waiting(s0, s1, s, sk, id) && CanDo(x509, s, mid)
             && SmallSends(DoAll(x509, s, mid).trace)
    requires forall a :: a in mid ==> !a.PollFlows? && (a.Fire? ==> !Touches(a.p, sk))
    ensures SysOk(x509, DoAll(x509, s, mid)) && Waiting(s0, s1, DoAll(x509, s, mid), sk, id)
  {
    hide SysOk, Waiting, Do, Can, SmallSends;
    if mid != [] {
      var init, a := mid[..|mid| - 1], mid[|mid| - 1];
      assert a in mid && forall b :: b in init ==> b in mid;
      var u := DoAll(x509, s, init);
      RunKeepsOk(x509, s, init);
      TraceGrows(x509, u, a);
      Earlier(u, u, Do(x509, u, a), sk);
      WaitingRun(x509, s0, s1, s, init, sk, id);
      WaitingStep(x509, s0, s1, u, a, sk, id);
    }
  }

  lemma {:induction false} RunKeepsOk(x509: X509, s: Sys, acts: seq<Act>)
    requires SysOk(x509, s) && CanDo(x509, s, acts)
    ensures SysOk(x509, DoAll(x509, s, acts))
  {
    hide SysOk, Do, Can;
    if acts != [] {
      RunKeepsOk(x509, s, acts[..|acts| - 1]);
      StepOk(x509, DoAll(x509, s, acts[..|acts| - 1]), acts[|acts| - 1]);
    }
  }

  /** The poll that deletes the entry. */
  lemma WaitingStarts(x509: X509, s0: Sys, s: Sys, fs: seq<Flow>, order: seq<u64>, sk: u64)
    requires SysOk(x509, s) && Can(s, PollFlows(fs, order)) && sk in s.Kernel().flows && s.Kernel().flows[sk].closed
    requires Fed(s0, s, sk) && (sk in s.store.conns ==> !s.store.conns[sk].closed)
    ensures var w := Do(x509, s, PollFlows(fs, order));
            sk in w.store.conns && Waiting(s0, s, w, sk, w.store.conns[sk].id)
  {
    hide Trace, Alternates, Inv, UpdateFlows, Fed, RetireOrder, Wires, Leaving;
    var w := Do(x509, s, PollFlows(fs, order));
    FirstPoll(x509, s, fs, order, sk);
    StepGrows(x509, s, PollFlows(fs, order));
    DeletesExact(s.trace, fs);
    HandledGrows(s, w);
    FlowsKeep(s.store, fs, order, sk);
    FedQuiet(s0, s, w, sk);
  }

  /** What is shown of a connection for good.  A life of the socket begins afresh; its entry is
      closed, and deleted by a poll; no probe touches the socket after that, and its events are
      handled by the poll that retires the connection: the record in the log of retirements
      shows what was captured in that life. */
  lemma WhatIsRetired(x509: X509, s0: Sys, life: seq<Act>, fs: seq<Flow>, order: seq<u64>, mid: seq<Act>,
                      gs: seq<Flow>, after: seq<u64>, sk: u64, dir: Dir)
    requires SysOk(x509, s0) && Fresh(s0, sk) && CanDo(x509, s0, life)
    requires var s := DoAll(x509, s0, life);
             && Lasts(s0, s, sk) && sk in s.Kernel().flows && s.Kernel().flows[sk].closed
             && Can(s, PollFlows(fs, order))
             && var w := Do(x509, s, PollFlows(fs, order));
                && CanDo(x509, w, mid)
                && var u := DoAll(x509, w, mid);
                   AllHandled(u, sk) && SmallSends(u.trace) && Can(u, PollFlows(gs, after))
    requires forall a :: a in mid ==> !a.PollFlows? && (a.Fire? ==> !Touches(a.p, sk))
    ensures var s := DoAll(x509, s0, life);
            var w := Do(x509, s, PollFlows(fs, order));
            var u := DoAll(x509, w, mid);
            var z := Do(x509, u, PollFlows(gs, after));
            && sk in w.store.conns
            && exists i :: |u.store.retired| <= i < |z.store.retired| && z.store.retired[i].id == w.store.conns[sk].id
                           && Shows(x509, z.store.retired[i].wire.info, s.trace, sk, dir)
  {
    hide DoAll, CanDo, Do, Can, Trace, SysOk, Fed, Shows, Captured, SmallSends, Wires;
    var s := DoAll(x509, s0, life);
    var w := Do(x509, s, PollFlows(fs, order));
    var u := DoAll(x509, w, mid);
    LivingRun(x509, s0, life, sk);
    RunTrace(x509, s, fs, order, mid);
    Earlier(s, s, u, sk);
    WaitingStarts(x509, s0, s, fs, order, sk);
    StepOk(x509, s, PollFlows(fs, order));
    var id := w.store.conns[sk].id;
    WaitingRun(x509, s0, s, w, mid, sk, id);
    WaitedFor(x509, s0, s, u, sk, id, dir);
    RetiresAsIs(x509, u, gs, after, sk, id);
  }

  lemma RunTrace(x509: X509, s: Sys, fs: seq<Flow>, order: seq<u64>, mid: seq<Act>)
    requires SysOk(x509, s) && Can(s, PollFlows(fs, order)) && CanDo(x509, Do(x509, s, PollFlows(fs, order)), mid)
    ensures s.trace <= DoAll(x509, Do(x509, s, PollFlows(fs, order)), mid).trace
  {
    hide SysOk, Do, Can, Trace, DoAll, CanDo;
    TraceGrows(x509, s, PollFlows(fs, order));
    StepOk(x509, s, PollFlows(fs, order));
    RunGrows(x509, Do(x509, s, PollFlows(fs, order)), mid);
  }

  lemma {:induction false} RunGrows(x509: X509, s: Sys, acts: seq<Act>)
    requires SysOk(x509, s) && CanDo(x509, s, acts)
    ensures s.trace <= DoAll(x509, s, acts).trace
  {
    hide SysOk, Do, Can, Trace;
    if acts != [] {
      RunGrows(x509, s, acts[..|acts| - 1]);
      RunKeepsOk(x509, s, acts[..|acts| - 1]);
      TraceGrows(x509, DoAll(x509, s, acts[..|acts| - 1]), acts[|acts| - 1]);
    }
  }

  /** When the last event is handled, the waiting connection shows the whole life. */
  lemma WaitedFor(x509: X509, s0: Sys, s: Sys, u: Sys, sk: u64, id: nat, dir: Dir)
    requires SysOk(x509, s) && SysOk(x509, u) && s0.trace <= s.trace && Waiting(s0, s, u, sk, id)
    requires AllHandled(u, sk) && Lasts(s0, s, sk)
    requires forall d: Dir :: Captured(s0.trace, sk, d) == []
    ensures sk in u.store.conns && Shows(x509, u.store.conns[sk].wire.info, s.trace, sk, dir)
  {
    hide Trace, Alternates, Captured, Wires, From, Shows, Conserved, HistoryOk, SamplesOk, WireRun;
    var c := u.store.conns[sk];
    forall d
      ensures From(c.seen, d) == Captured(s.trace, sk, d)
    {
      WiresSince(s0.trace, s.trace, sk, d);
      DropCommon(Wires(s0.Kernel().ring, sk, d), From(c.seen, d), Captured(s.trace, sk, d));
    }
    ChunksShow(x509, c.seen, s.trace, sk, dir);
  }

  /** The poll that retires a closed connection that is not listed moves it to the log with what
      it shows. */
  lemma RetiresAsIs(x509: X509, u: Sys, gs: seq<Flow>, after: seq<u64>, sk: u64, id: nat)
    requires Can(u, PollFlows(gs, after)) && Leaving(u, sk, id)
    ensures var z := Do(x509, u, PollFlows(gs, after));
            exists i :: |u.store.retired| <= i < |z.store.retired| &&
                        z.store.retired[i] == Kept(u.store.conns[sk])
  {
    hide Trace, TouchAll, Seen, UpdateFlows, RetireOrder, Kept;
    UpdateFlowsExact(u.store, gs, after);
    var i := RetiredInOrderHas(u.store, after, sk);
    var z := Do(x509, u, PollFlows(gs, after));
    var n := |u.store.retired| + i;
    assert z.store.retired[n] == Kept(u.store.conns[sk]);
  }
}
