/** Plaintext across the layers: what the probes saw pass in one session is what the table keeps a
    sample of, and what the connection shows for good when the session ends. */
module Plaintext {
  import opened Bytes
  import opened Endpoint
  import opened EventCodec
  import opened TlsSpec
  import opened Reassembly
  import opened StoreSpec
  import opened StoreLaws
  import opened StoreRuns
  import opened StoreTotals
  import opened StoreTold
  import opened StoreExact
  import opened KernelSpec
  import opened TraceFacts
  import opened KernelLaws
  import opened System
  import opened Capture

  // ---- a run of the system is a run of the store

  ghost function OpsOf(x509: X509, s: Sys, acts: seq<Act>): seq<Op>
    requires CanDo(x509, s, acts)
  {
    if acts == [] then []
    else
      var op := StoreOp(DoAll(x509, s, acts[..|acts| - 1]), acts[|acts| - 1]);
      OpsOf(x509, s, acts[..|acts| - 1]) + if op.Some? then [op.value] else []
  }

  /** What is known of every run of the store is known of every run of the system. */
  lemma {:induction false} StoreRun(x509: X509, maxHistory: int, peekBytes: int, acts: seq<Act>)
    requires CanDo(x509, Initial(maxHistory, peekBytes), acts)
    ensures var s0 := Initial(maxHistory, peekBytes);
            && CanRun(x509, NewStore(maxHistory, peekBytes), OpsOf(x509, s0, acts))
            && Run(x509, NewStore(maxHistory, peekBytes), OpsOf(x509, s0, acts)) == DoAll(x509, s0, acts).store
  {
    hide Do, Can, StoreOp, Next, Legal;
    var s0 := Initial(maxHistory, peekBytes);
    if acts != [] {
      var init, a := acts[..|acts| - 1], acts[|acts| - 1];
      StoreRun(x509, maxHistory, peekBytes, init);
      StepIsStoreOp(x509, DoAll(x509, s0, init), a);
      var ops, op := OpsOf(x509, s0, init), StoreOp(DoAll(x509, s0, init), a);
      if op.Some? {
        assert (ops + [op.value])[..|ops|] == ops;
      } else {
        assert ops + [] == ops;
      }
    }
  }

  // ---- one session, from one end to the next

  predicate Frees(p: Probe, ssl: u64) { p.SslFree? && p.ssl == ssl }

  /** The session was not freed since `s0`. */
  ghost predicate Open(s0: Sys, s: Sys, ssl: u64) {
    s0.trace <= s.trace && forall p :: p in s.trace[|s0.trace|..] ==> !Frees(p, ssl)
  }

  ghost predicate NoEnd(es: seq<Event>, ssl: u64) {
    forall e :: e in es ==> !(e.CloseEvent? && e.ssl == ssl)
  }

  /** The events that wait in the ring. */
  function Unread(s: Sys): seq<Event> {
    if s.taken <= |s.Kernel().ring| then s.Kernel().ring[s.taken..] else []
  }

  function Log(v: StoreV, ssl: u64, d: Dir): seq<Bytes> {
    if ssl !in v.chunks then [] else if d == Out then v.chunks[ssl].outs else v.chunks[ssl].ins
  }

  /** A session can begin: nothing has passed in it and there is no sample of it, nor does anything of
      an earlier one at its address wait in the ring. */
  ghost predicate Unbegun(s: Sys, ssl: u64) {
    && ssl !in s.Kernel().sessions && ssl !in s.store.samples && NoEnd(Unread(s), ssl)
    && forall d: Dir :: Pieces(Handled(s), ssl, d) == Pieces(s.Kernel().ring, ssl, d)
  }

  /** The sample is made of the pieces handled since `s0`. */
  ghost predicate Sampled(s0: Sys, s: Sys, ssl: u64) {
    forall d: Dir :: Pieces(Handled(s), ssl, d) == Pieces(s0.Kernel().ring, ssl, d) + Log(s.store, ssl, d)
  }

  ghost predicate Reading(s0: Sys, s: Sys, ssl: u64) {
    Open(s0, s, ssl) ==> Sampled(s0, s, ssl) && NoEnd(Unread(s), ssl)
  }

  lemma OpenBefore(s0: Sys, s: Sys, w: Sys, ssl: u64)
    requires s0.trace <= s.trace <= w.trace && Open(s0, w, ssl)
    ensures Open(s0, s, ssl)
  {
    assert s.trace[|s0.trace|..] <= w.trace[|s0.trace|..];
    assert forall p :: p in s.trace[|s0.trace|..] ==> p in w.trace[|s0.trace|..];
  }

  // ---- the store's side

  lemma LogStep(x509: X509, v: StoreV, op: Op, ssl: u64, d: Dir)
    requires SamplesOk(v) && Legal(v, op)
    ensures Log(Next(x509, v, op), ssl, d) == HandedAfter(Log(v, ssl, d), op, ssl, d)
  {
    hide SamplesOk, HandedAfter, Log, UpdateFlows, RetireOrder, ApplyWire, ApplyData, ApplyClose, UpdateStats;
    hide JoinsLegal, ResolvesTo;
    match op
    case OpData(s, dir, data) => LogData(v, s, dir, data, ssl, d);
    case OpStats(js) => LogStats(v, js, ssl, d);
    case _ => LogOther(x509, v, op, ssl, d);
  }

  lemma LogData(v: StoreV, s: u64, dir: byte, data: Bytes, ssl: u64, d: Dir)
    requires SamplesOk(v)
    ensures Log(ApplyData(v, s, dir, data), ssl, d) == HandedAfter(Log(v, ssl, d), OpData(s, dir, data), ssl, d)
  {
    hide Represents, AddChunk;
  }

  lemma LogStats(v: StoreV, js: seq<Join>, ssl: u64, d: Dir)
    requires SamplesOk(v) && JoinsLegal(Zero(v), js)
    ensures Log(UpdateStats(v, js), ssl, d) == HandedAfter(Log(v, ssl, d), OpStats(js), ssl, d)
  {
    hide Represents, JoinAll, JoinsLegal, Zero;
    JoinAllExact(Zero(v), js);
    assert ssl in LiveSsl(js) <==> !Missing(js, ssl);
    ZeroChunks(v);
  }

  lemma ZeroChunks(v: StoreV)
    ensures Zero(v).chunks == v.chunks && Zero(v).samples == v.samples
  {
  }

  lemma LogOther(x509: X509, v: StoreV, op: Op, ssl: u64, d: Dir)
    requires Legal(v, op) && !op.OpData? && !op.OpStats?
    ensures Log(Next(x509, v, op), ssl, d) == HandedAfter(Log(v, ssl, d), op, ssl, d)
  {
    match op
    case OpFlows(fs, order) =>
      hide TouchAll, RetireAll, RetireOrder, Seen;
      UpdateFlowsExact(v, fs, order);
    case OpWire(_, _, _) => hide FoldWire;
    case OpClose(_, _, _) => hide Recache, ResolvesTo, Finalize;
  }

  /** An event that does not end the session adds its piece. */
  lemma LogEvent(x509: X509, v: StoreV, e: Event, peer: Option<AddrPort>, t: Option<u64>, tr: seq<Probe>, ssl: u64,
                 d: Dir)
    requires SamplesOk(v) && Legal(v, OpOf(e, peer, t)) && RingOk(tr, e) && !(e.CloseEvent? && e.ssl == ssl)
    ensures Log(Next(x509, v, OpOf(e, peer, t)), ssl, d) == Log(v, ssl, d) + Pieces([e], ssl, d)
  {
    hide SamplesOk, Legal, Next, Log, Emittable;
    LogStep(x509, v, OpOf(e, peer, t), ssl, d);
    OneEvent(e, ssl, 0, d);
    assert Log(v, ssl, d) + [] == Log(v, ssl, d);
  }

  // ---- the kernel's side

  lemma {:induction false} TextsPass(was: seq<Probe>, tr: seq<Probe>, ssl: u64, d: Dir)
    requires was <= tr && forall p :: p in tr[|was|..] ==> !Frees(p, ssl)
    ensures Texts(was, ssl, d) <= Texts(tr, ssl, d)
    ensures Texts(was, ssl, d) != Texts(tr, ssl, d) ==> Passed(tr, ssl, d) > 0
    decreases |tr|
  {
    hide PassOf, Carried;
    if was != tr {
      var init, p := tr[..|tr| - 1], tr[|tr| - 1];
      assert tr == init + [p] && was <= init && p in tr[|was|..];
      assert forall q :: q in init[|was|..] ==> q in tr[|was|..] by {
        assert init[|was|..] == tr[|was|..][..|init| - |was|];
      }
      TextsPass(was, init, ssl, d);
      PassesSome(init, p);
    }
  }

  lemma PassesSome(tr: seq<Probe>, p: Probe)
    ensures PassOf(tr, p).Some? ==> PassOf(tr, p).value.n > 0
  {
  }

  lemma {:induction false} PiecesPrefix(es: seq<Event>, n: nat, ssl: u64, d: Dir)
    requires n <= |es|
    ensures Pieces(es[..n], ssl, d) <= Pieces(es, ssl, d)
  {
    if n == |es| {
      assert es[..n] == es;
    } else {
      assert es[..|es| - 1][..n] == es[..n];
      PiecesPrefix(es[..|es| - 1], n, ssl, d);
    }
  }

  /** While there is a sample of an open session, the kernel has the session. */
  lemma SampledLives(x509: X509, s0: Sys, s: Sys, ssl: u64, d: Dir)
    requires SysOk(x509, s) && Alternates(s0.trace) && Open(s0, s, ssl) && Sampled(s0, s, ssl)
    ensures Log(s.store, ssl, d) != [] ==> ssl in s.Kernel().sessions
  {
    hide Trace, Alternates, Inv, Pieces, Texts, Passed, Log, Began;
    PiecesExact(s0.trace, ssl, d);
    PiecesExact(s.trace, ssl, d);
    PiecesPrefix(s.Kernel().ring, s.taken, ssl, d);
    TextsPass(s0.trace, s.trace, ssl, d);
    PlainAccounting(s.trace, ssl);
    assert d == Out || d == In;
  }

  lemma SaidEnd(tr: seq<Probe>, p: Probe, ssl: u64)
    requires !Frees(p, ssl)
    ensures NoEnd(Said(tr, p), ssl)
  {
    hide Due, Carried, Captured, Passed, Began, Moves, PassOf;
  }

  // ---- every step, every run

  lemma ReadFire(x509: X509, s0: Sys, s: Sys, p: Probe, ssl: u64)
    requires SysOk(x509, s) && Can(s, Fire(p)) && !Frees(p, ssl) && Sampled(s0, s, ssl) && NoEnd(Unread(s), ssl)
    ensures var w := Do(x509, s, Fire(p)); Sampled(s0, w, ssl) && NoEnd(Unread(w), ssl)
  {
    hide Trace, Alternates, Inv, Pieces, Log, Step, Said;
    TraceMore(s.trace, p);
    StepRing(s.trace, p);
    SaidEnd(s.trace, p, ssl);
    var w := Do(x509, s, Fire(p));
    HandledGrows(s, w);
    assert Unread(w) == Unread(s) + Said(s.trace, p);
  }

  lemma SampledDeliver(x509: X509, s0: Sys, s: Sys, pad: Bytes, peer: Option<AddrPort>, t: Option<u64>, ssl: u64)
    requires SysOk(x509, s) && Can(s, Deliver(pad, peer, t)) && Sampled(s0, s, ssl)
    requires NoEnd([s.Kernel().ring[s.taken]], ssl)
    ensures var w := Do(x509, s, Deliver(pad, peer, t));
            Sampled(s0, w, ssl) && Handled(w) == Handled(s) + [s.Kernel().ring[s.taken]]
  {
    hide Trace, Alternates, Conserved, HistoryOk, ConnsOk, SamplesOk, Pieces, Log, Next, Legal, Received, Emittable,
      RingOk;
    var a := Deliver(pad, peer, t);
    var w, e := Do(x509, s, a), s.Kernel().ring[s.taken];
    ReceivedAsSent(s, pad);
    RingExact(s.trace, s.taken);
    StepIsStoreOp(x509, s, a);
    assert e in [e] && Handled(w) == Handled(s) + [e];
    forall d
      ensures Pieces(Handled(w), ssl, d) == Pieces(s0.Kernel().ring, ssl, d) + Log(w.store, ssl, d)
    {
      LogEvent(x509, s.store, e, peer, t, s.trace, ssl, d);
      PiecesAppend(Handled(s), [e], ssl, d);
      AppendAssoc(Pieces(s0.Kernel().ring, ssl, d), Log(s.store, ssl, d), Pieces([e], ssl, d));
    }
  }

  lemma ReadDeliver(x509: X509, s0: Sys, s: Sys, pad: Bytes, peer: Option<AddrPort>, t: Option<u64>, ssl: u64)
    requires SysOk(x509, s) && Can(s, Deliver(pad, peer, t)) && Sampled(s0, s, ssl) && NoEnd(Unread(s), ssl)
    ensures var w := Do(x509, s, Deliver(pad, peer, t)); Sampled(s0, w, ssl) && NoEnd(Unread(w), ssl)
  {
    hide Trace, Alternates, Inv, Sampled, Next, Legal, Received;
    var w, e := Do(x509, s, Deliver(pad, peer, t)), s.Kernel().ring[s.taken];
    assert e == Unread(s)[0] && Unread(w) == Unread(s)[1..];
    SampledDeliver(x509, s0, s, pad, peer, t, ssl);
  }

  lemma ReadFlows(x509: X509, s0: Sys, s: Sys, fs: seq<Flow>, order: seq<u64>, ssl: u64)
    requires SysOk(x509, s) && Can(s, PollFlows(fs, order)) && Sampled(s0, s, ssl) && NoEnd(Unread(s), ssl)
    ensures var w := Do(x509, s, PollFlows(fs, order)); Sampled(s0, w, ssl) && NoEnd(Unread(w), ssl)
  {
    hide Trace, Alternates, Conserved, HistoryOk, ConnsOk, SamplesOk, Pieces, Log, RetireOrder, UpdateFlows, Deletes,
      ListsFlows;
    var w := Do(x509, s, PollFlows(fs, order));
    DeletesExact(s.trace, fs);
    HandledGrows(s, w);
    forall d
      ensures Log(w.store, ssl, d) == Log(s.store, ssl, d)
    {
      LogStep(x509, s.store, OpFlows(fs, order), ssl, d);
    }
  }

  lemma ReadSessions(x509: X509, s0: Sys, s: Sys, js: seq<Join>, ssl: u64)
    requires SysOk(x509, s) && Can(s, PollSessions(js)) && Alternates(s0.trace) && Open(s0, s, ssl)
    requires Sampled(s0, s, ssl) && NoEnd(Unread(s), ssl)
    ensures var w := Do(x509, s, PollSessions(js)); Sampled(s0, w, ssl) && NoEnd(Unread(w), ssl)
  {
    hide Trace, Alternates, Conserved, HistoryOk, ConnsOk, SamplesOk, Pieces, Log, JoinsLegal, UpdateStats, Open;
    var w := Do(x509, s, PollSessions(js));
    HandledGrows(s, w);
    forall d
      ensures Log(w.store, ssl, d) == Log(s.store, ssl, d)
    {
      LogStep(x509, s.store, OpStats(js), ssl, d);
      SampledLives(x509, s0, s, ssl, d);
      if Log(s.store, ssl, d) != [] {
        ListedSession(s.Kernel().sessions, js, ssl);
      }
    }
  }

  lemma ListedSession(sessions: map<u64, Session>, js: seq<Join>, ssl: u64)
    requires ListsSessions(sessions, js) && ssl in sessions
    ensures !Missing(js, ssl)
  {
    assert ssl in LiveSsl(js);
  }

  lemma ReadStep(x509: X509, s0: Sys, s: Sys, a: Act, ssl: u64)
    requires SysOk(x509, s) && Can(s, a) && Alternates(s0.trace) && s0.trace <= s.trace && Reading(s0, s, ssl)
    ensures Reading(s0, Do(x509, s, a), ssl)
  {
    hide SysOk, Sampled, NoEnd, Trace, Open, Alternates;
    var w := Do(x509, s, a);
    TraceGrows(x509, s, a);
    if Open(s0, w, ssl) {
      OpenBefore(s0, s, w, ssl);
      match a
      case Fire(p) =>
        LastOpen(s0, s, p, ssl);
        ReadFire(x509, s0, s, p, ssl);
      case Deliver(pad, peer, t) => ReadDeliver(x509, s0, s, pad, peer, t, ssl);
      case PollFlows(fs, order) => ReadFlows(x509, s0, s, fs, order, ssl);
      case PollSessions(js) => ReadSessions(x509, s0, s, js, ssl);
    }
  }

  lemma LastOpen(s0: Sys, s: Sys, p: Probe, ssl: u64)
    requires s0.trace <= s.trace && Open(s0, s.(trace := s.trace + [p]), ssl)
    ensures !Frees(p, ssl)
  {
    var tr := s.trace + [p];
    assert tr[|s0.trace|..][|s.trace| - |s0.trace|] == p;
  }

  lemma {:induction false} ReadRun(x509: X509, s0: Sys, acts: seq<Act>, ssl: u64)
    requires SysOk(x509, s0) && Unbegun(s0, ssl) && CanDo(x509, s0, acts)
    ensures var s := DoAll(x509, s0, acts);
            SysOk(x509, s) && s0.trace <= s.trace && Reading(s0, s, ssl)
  {
    hide Reading, Do, Can, Inv, Alternates, Unbegun, Trace;
    if acts == [] {
      UnbegunReads(x509, s0, ssl);
    } else {
      var init, a := acts[..|acts| - 1], acts[|acts| - 1];
      ReadRun(x509, s0, init, ssl);
      RunKeepsOk(x509, s0, acts);
      TraceGrows(x509, DoAll(x509, s0, init), a);
      ReadStep(x509, s0, DoAll(x509, s0, init), a, ssl);
    }
  }

  lemma UnbegunReads(x509: X509, s0: Sys, ssl: u64)
    requires SysOk(x509, s0) && Unbegun(s0, ssl)
    ensures Reading(s0, s0, ssl)
  {
    hide Trace, Pieces, Alternates, Conserved, HistoryOk, ConnsOk;
    forall d
      ensures Pieces(s0.Kernel().ring, ssl, d) + [] == Pieces(s0.Kernel().ring, ssl, d)
    {
    }
  }

  // ---- what is kept of it

  /** The pieces that passed since `s0`. */
  function TextsSince(s0: Sys, tr: seq<Probe>, ssl: u64, d: Dir): seq<Bytes> {
    var was, now := Texts(s0.trace, ssl, d), Texts(tr, ssl, d);
    if was <= now then now[|was|..] else []
  }

  /** From the time a session can begin on, while it is not freed: the pieces of plaintext handled so
      far are the first of those that passed, and all of them once none waits in the ring; there is a
      sample exactly if there is one, and it is the sample of them.  No poll loses it, and no other
      session adds to it. */
  lemma WhatIsSampled(x509: X509, s0: Sys, acts: seq<Act>, ssl: u64) returns (outs: seq<Bytes>, ins: seq<Bytes>)
    requires SysOk(x509, s0) && Unbegun(s0, ssl) && CanDo(x509, s0, acts) && Open(s0, DoAll(x509, s0, acts), ssl)
    ensures var s := DoAll(x509, s0, acts);
            && outs <= TextsSince(s0, s.trace, ssl, Out) && ins <= TextsSince(s0, s.trace, ssl, In)
            && (Handled(s) == s.Kernel().ring ==>
                  outs == TextsSince(s0, s.trace, ssl, Out) && ins == TextsSince(s0, s.trace, ssl, In))
            && (ssl in s.store.samples <==> outs != [] || ins != [])
            && (ssl in s.store.samples ==> Represents(s.store.samples[ssl], Chunks(outs, ins), s.store.peekBytes))
  {
    hide CanDo, DoAll, Trace, Pieces, Texts, Conserved, HistoryOk, ConnsOk, Alternates, Unbegun, Concat, Log;
    ReadRun(x509, s0, acts, ssl);
    var s := DoAll(x509, s0, acts);
    outs, ins := Log(s.store, ssl, Out), Log(s.store, ssl, In);
    LogSample(x509, s, ssl);
    SinceIsLog(x509, s0, s, ssl, Out);
    SinceIsLog(x509, s0, s, ssl, In);
  }

  /** There is no sample of nothing. */
  lemma LogSample(x509: X509, s: Sys, ssl: u64)
    requires SysOk(x509, s)
    ensures ssl in s.store.samples ==>
              Represents(s.store.samples[ssl], Chunks(Log(s.store, ssl, Out), Log(s.store, ssl, In)), s.store.peekBytes)
    ensures ssl in s.store.samples <==> Log(s.store, ssl, Out) != [] || Log(s.store, ssl, In) != []
  {
    hide Trace, Alternates, Conserved, HistoryOk, ConnsOk, Concat;
  }

  lemma SinceIsLog(x509: X509, s0: Sys, s: Sys, ssl: u64, d: Dir)
    requires SysOk(x509, s) && Alternates(s0.trace) && Open(s0, s, ssl) && Sampled(s0, s, ssl)
    ensures Log(s.store, ssl, d) <= TextsSince(s0, s.trace, ssl, d)
    ensures Handled(s) == s.Kernel().ring ==> Log(s.store, ssl, d) == TextsSince(s0, s.trace, ssl, d)
  {
    hide Trace, Alternates, Inv, Pieces, Texts, Passed, Log;
    PiecesExact(s0.trace, ssl, d);
    PiecesExact(s.trace, ssl, d);
    PiecesPrefix(s.Kernel().ring, s.taken, ssl, d);
    TextsPass(s0.trace, s.trace, ssl, d);
    assert Texts(s.trace, ssl, d) == Texts(s0.trace, ssl, d) + TextsSince(s0, s.trace, ssl, d);
    DropCommon(Texts(s0.trace, ssl, d), Log(s.store, ssl, d), TextsSince(s0, s.trace, ssl, d));
  }

  /** A poll of the sessions keeps the samples of those the kernel has, and drops the others: also that
      of a session whose end waits in the ring. */
  lemma SampleKeptIff(x509: X509, s: Sys, js: seq<Join>, ssl: u64)
    requires Can(s, PollSessions(js))
    ensures ssl in Do(x509, s, PollSessions(js)).store.samples
       <==> ssl in s.store.samples && ssl in s.Kernel().sessions
  {
    hide Trace, JoinsLegal, UpdateStats, SumTx, SumRx, LastSample;
    PlaintextJoin(s.store, js);
  }

  // ---- what is shown when it ends

  /** Between the end of a session and the time that is handled: the ring goes on after what it had, the
      reader is not past that, and none of what is left of it ends the session. */
  ghost predicate Ending(s0: Sys, s: Sys, u: Sys, ssl: u64) {
    && Sampled(s0, u, ssl) && s.Kernel().ring <= u.Kernel().ring && s.taken <= u.taken <= |s.Kernel().ring|
    && NoEnd(s.Kernel().ring[u.taken..], ssl)
  }

  lemma EndingStep(x509: X509, s0: Sys, s: Sys, u: Sys, a: Act, ssl: u64)
    requires SysOk(x509, u) && Can(u, a) && !a.PollSessions? && Ending(s0, s, u, ssl)
    requires Do(x509, u, a).taken <= |s.Kernel().ring|
    ensures Ending(s0, s, Do(x509, u, a), ssl)
  {
    hide Trace, Alternates, Conserved, HistoryOk, ConnsOk, SamplesOk, Pieces, Log, Next, Legal, Received, Emittable,
      RingOk, RetireOrder, UpdateFlows, ListsFlows;
    var w := Do(x509, u, a);
    StepGrows(x509, u, a);
    if a.Deliver? {
      var e := u.Kernel().ring[u.taken];
      assert e == s.Kernel().ring[u.taken..][0] && s.Kernel().ring[w.taken..] == s.Kernel().ring[u.taken..][1..];
      SampledDeliver(x509, s0, u, a.pad, a.peer, a.target, ssl);
    } else {
      HandledGrows(u, w);
      forall d
        ensures Log(w.store, ssl, d) == Log(u.store, ssl, d)
      {
        StepIsStoreOp(x509, u, a);
        if StoreOp(u, a).Some? {
          LogStep(x509, u.store, StoreOp(u, a).value, ssl, d);
        }
      }
    }
  }

  lemma {:induction false} EndingRun(x509: X509, s0: Sys, s: Sys, u: Sys, acts: seq<Act>, ssl: u64)
    requires SysOk(x509, u) && CanDo(x509, u, acts) && Ending(s0, s, u, ssl)
    requires forall a :: a in acts ==> !a.PollSessions?
    requires DoAll(x509, u, acts).taken <= |s.Kernel().ring|
    ensures SysOk(x509, DoAll(x509, u, acts)) && Ending(s0, s, DoAll(x509, u, acts), ssl)
  {
    hide Inv, Trace, Ending, Do, Can, Alternates;
    RunKeepsOk(x509, u, acts);
    if acts != [] {
      var init, a := acts[..|acts| - 1], acts[|acts| - 1];
      assert a in acts && forall b :: b in init ==> b in acts;
      var v := DoAll(x509, u, init);
      RunKeepsOk(x509, u, init);
      StepGrows(x509, v, a);
      EndingRun(x509, s0, s, u, init, ssl);
      EndingStep(x509, s0, s, v, a, ssl);
    }
  }

  /** The session is freed: the event that says so goes to the end of the ring as it was. */
  lemma EndingStarts(x509: X509, s0: Sys, s: Sys, ctx: Ctx, ssl: u64)
    requires SysOk(x509, s) && Can(s, Fire(SslFree(ctx, ssl, true)))
    requires Sampled(s0, s, ssl) && NoEnd(Unread(s), ssl)
    requires Passed(s.trace, ssl, Out) + Passed(s.trace, ssl, In) > 0
    ensures var w := Do(x509, s, Fire(SslFree(ctx, ssl, true)));
            && SysOk(x509, w) && Ending(s0, s, w, ssl)
            && w.Kernel().ring == s.Kernel().ring + [LastWord(s.trace, ctx, ssl)]
  {
    hide Trace, Alternates, Inv, Pieces, Log, Step, Passed, Began;
    var p := SslFree(ctx, ssl, true);
    var w := Do(x509, s, Fire(p));
    StepOk(x509, s, Fire(p));
    TraceMore(s.trace, p);
    StepRing(s.trace, p);
    assert TextSaid(s.trace, p) == [];
    HandledGrows(s, w);
  }

  /** What is said of a session when it is freed: by which process, its descriptor, and its totals. */
  function LastWord(tr: seq<Probe>, ctx: Ctx, ssl: u64): Event {
    CloseEvent(ProcessOf(ctx.id), SessionFd(tr, ssl), ssl, Passed(tr, ssl, Out) % TWO64, Passed(tr, ssl, In) % TWO64)
  }

  /** Between the stores `v` and `w` the connection at `k` was given all that passed in a session
      since `s0`, and nothing else of any connection changed. */
  ghost predicate AllOfIt(s0: Sys, tr: seq<Probe>, ssl: u64, v: StoreV, w: StoreV, k: u64) {
    var outs, ins := TextsSince(s0, tr, ssl, Out), TextsSince(s0, tr, ssl, In);
    && ssl !in w.samples && k in v.conns && k in w.conns && w.conns == v.conns[k := w.conns[k]]
    && w.conns[k] == v.conns[k].(plainFinal := true, plain := w.conns[k].plain,
                      ptx := Passed(tr, ssl, Out) % TWO64, prx := Passed(tr, ssl, In) % TWO64)
    && (if outs != [] || ins != [] then Represents(w.conns[k].plain, Chunks(outs, ins), w.peekBytes)
        else w.conns[k].plain == v.conns[k].plain)
  }

  /** All of a session.  It begins, passes plaintext, and is freed when the ring has room; no sessions
      are polled from then until its end is handled.  Its connection then shows, marked as final, the exact
      totals of what passed, the first piece that was seen in each direction, and the last bytes of all
      that was seen; the sample is gone.  Every other connection is left as it was. */
  lemma WhatIsSettled(x509: X509, s0: Sys, life: seq<Act>, ctx: Ctx, ssl: u64, mid: seq<Act>, pad: Bytes,
                      peer: Option<AddrPort>, k: u64)
    requires SysOk(x509, s0) && Unbegun(s0, ssl) && CanDo(x509, s0, life)
    requires var s := DoAll(x509, s0, life);
             && Open(s0, s, ssl) && Passed(s.trace, ssl, Out) + Passed(s.trace, ssl, In) > 0
             && Can(s, Fire(SslFree(ctx, ssl, true)))
             && var w := Do(x509, s, Fire(SslFree(ctx, ssl, true)));
                && CanDo(x509, w, mid)
                && var u := DoAll(x509, w, mid);
                   && u.taken == |s.Kernel().ring| && Can(u, Deliver(pad, peer, Some(k))) && k in u.store.conns
    requires forall a :: a in mid ==> !a.PollSessions?
    ensures var s := DoAll(x509, s0, life);
            var u := DoAll(x509, Do(x509, s, Fire(SslFree(ctx, ssl, true))), mid);
            AllOfIt(s0, s.trace, ssl, u.store, Do(x509, u, Deliver(pad, peer, Some(k))).store, k)
  {
    hide CanDo, DoAll, Trace, Texts, Inv, Alternates, Unbegun, Log, Sampled, Passed, Represents, Pieces;
    hide ResolvesTo, Began;
    ReadRun(x509, s0, life, ssl);
    var s := DoAll(x509, s0, life);
    EndingStarts(x509, s0, s, ctx, ssl);
    var w := Do(x509, s, Fire(SslFree(ctx, ssl, true)));
    EndingRun(x509, s0, s, w, mid, ssl);
    var u := DoAll(x509, w, mid);
    RunGrows(x509, w, mid);
    RingGrows(x509, w, mid);
    var e := u.Kernel().ring[u.taken];
    assert e == LastWord(s.trace, ctx, ssl);
    SettledShows(x509, s0, s, u, ssl);
    ReceivedAsSent(u, pad);
    CloseExact(u.store, Close(e.pid, e.fd, e.ssl, e.ptx, e.prx), peer, Some(k));
  }

  lemma {:induction false} RingGrows(x509: X509, s: Sys, acts: seq<Act>)
    requires SysOk(x509, s) && CanDo(x509, s, acts)
    ensures s.Kernel().ring <= DoAll(x509, s, acts).Kernel().ring
  {
    hide Inv, Do, Can, Trace, Alternates;
    if acts != [] {
      var init := acts[..|acts| - 1];
      RingGrows(x509, s, init);
      RunKeepsOk(x509, s, init);
      StepGrows(x509, DoAll(x509, s, init), acts[|acts| - 1]);
    }
  }

  /** When the end comes up, the sample is of all that passed. */
  lemma SettledShows(x509: X509, s0: Sys, s: Sys, u: Sys, ssl: u64)
    requires SysOk(x509, s) && SysOk(x509, u) && Alternates(s0.trace) && Open(s0, s, ssl)
    requires Ending(s0, s, u, ssl) && u.taken == |s.Kernel().ring|
    ensures var outs, ins := TextsSince(s0, s.trace, ssl, Out), TextsSince(s0, s.trace, ssl, In);
            && (ssl in u.store.samples <==> outs != [] || ins != [])
            && (ssl in u.store.samples ==> Represents(u.store.samples[ssl], Chunks(outs, ins), u.store.peekBytes))
  {
    hide Trace, Alternates, Inv, Pieces, Texts, Log, Represents, Passed;
    LogSample(x509, u, ssl);
    assert Handled(u) == s.Kernel().ring;
    forall d
      ensures Log(u.store, ssl, d) == TextsSince(s0, s.trace, ssl, d)
    {
      PiecesExact(s0.trace, ssl, d);
      PiecesExact(s.trace, ssl, d);
      TextsPass(s0.trace, s.trace, ssl, d);
      assert Texts(s.trace, ssl, d) == Texts(s0.trace, ssl, d) + TextsSince(s0, s.trace, ssl, d);
      DropCommon(Texts(s0.trace, ssl, d), Log(u.store, ssl, d), TextsSince(s0, s.trace, ssl, d));
    }
  }

  /** An empty system is a beginning for every session. */
  lemma InitialUnbegun(x509: X509, maxHistory: int, peekBytes: int, ssl: u64)
    ensures SysOk(x509, Initial(maxHistory, peekBytes)) && Unbegun(Initial(maxHistory, peekBytes), ssl)
  {
    NewInv(x509, maxHistory, peekBytes);
  }
}
