/** The whole: probes fire in the kernel, one reader takes events off the ring in order, one
    poller takes snapshots of the flows and of the sessions.  A snapshot and what is done with it
    is one step, as are a probe and the handling of an event. */
module System {
  import opened Bytes
  import opened Endpoint
  import opened EventCodec
  import opened TlsInfo
  import opened TlsSpec
  import opened Reassembly
  import opened StoreSpec
  import opened StoreLaws
  import opened StoreRuns
  import opened StoreTotals
  import opened StoreClaims
  import opened KernelSpec
  import opened TraceFacts
  import opened KernelLaws

  /** The kernel's state is that of its trace; the reader has taken so many events off the ring. */
  datatype Sys = Sys(trace: seq<Probe>, taken: nat, store: StoreV) {
    function Kernel(): KernelV { Trace(trace) }
  }

  datatype Act =
    | Fire(p: Probe)
    | Deliver(pad: Bytes, peer: Option<AddrPort>, target: Option<u64>)
    | PollFlows(flows: seq<Flow>, order: seq<u64>)
    | PollSessions(joins: seq<Join>)

  function Initial(maxHistory: int, peekBytes: int): Sys {
    Sys([], 0, NewStore(maxHistory, peekBytes))
  }

  // ---- reading events

  /** The event as it comes out of the ring: packed by one side and decoded by the other. */
  function Received(e: Event, pad: Bytes): Option<Event> {
    if Emittable(e) then Decode(Encode(e, pad)) else None
  }

  function OpOf(e: Event, peer: Option<AddrPort>, t: Option<u64>): Op {
    match e
    case WireEvent(dir, sock, data) => OpWire(sock, dir, data)
    case DataEvent(dir, _, _, _, ssl, data) => OpData(ssl, dir, data)
    case CloseEvent(pid, fd, ssl, ptx, prx) => OpClose(Close(pid, fd, ssl, ptx, prx), peer, t)
  }

  // ---- polling

  function FlowOf(sk: u64, e: Entry): Flow {
    Flow(sk, e.pid, e.saddr, e.daddr, e.sport, e.dport, e.isIpv6, e.direction, e.isTls, e.closed, e.comm, e.tx, e.rx)
  }

  /** The list holds every entry of the map once, in some order. */
  ghost predicate ListsFlows(flows: map<u64, Entry>, fs: seq<Flow>) {
    && DistinctSocks(fs) && Seen(fs) == flows.Keys
    && forall i :: 0 <= i < |fs| ==> fs[i].sock in flows && fs[i] == FlowOf(fs[i].sock, flows[fs[i].sock])
  }

  ghost predicate ListsSessions(sessions: map<u64, Session>, js: seq<Join>) {
    && (forall i, j :: 0 <= i < j < |js| ==> js[i].stat.ssl != js[j].stat.ssl)
    && LiveSsl(js) == sessions.Keys
    && forall i :: 0 <= i < |js| ==>
         js[i].stat.ssl in sessions
         && var s := sessions[js[i].stat.ssl]; js[i].stat == SslStat(js[i].stat.ssl, s.ptx, s.prx, s.pid, s.fd)
  }

  /** The poller deletes the entries that were listed as closed. */
  function Deletes(fs: seq<Flow>): seq<Probe> {
    if fs == [] then []
    else
      var f := fs[|fs| - 1];
      Deletes(fs[..|fs| - 1]) + if f.closed then [DeleteFlow(f.sock)] else []
  }

  // ---- runs

  ghost predicate Can(s: Sys, a: Act) {
    match a
    case Fire(p) => !p.DeleteFlow? && Alternates(s.trace + [p])
    case Deliver(pad, peer, t) =>
      s.taken < |s.Kernel().ring|
      && var e := Received(s.Kernel().ring[s.taken], pad);
         e.Some? ==> Legal(s.store, OpOf(e.value, peer, t))
    case PollFlows(fs, order) => ListsFlows(s.Kernel().flows, fs) && RetireOrder(s.store, fs, order)
    case PollSessions(js) => ListsSessions(s.Kernel().sessions, js) && JoinsLegal(Zero(s.store), js)
  }

  ghost function Do(x509: X509, s: Sys, a: Act): Sys
    requires Can(s, a)
  {
    match a
    case Fire(p) => s.(trace := s.trace + [p])
    case Deliver(pad, peer, t) =>
      var e := Received(s.Kernel().ring[s.taken], pad);
      s.(taken := s.taken + 1, store := if e.Some? then Next(x509, s.store, OpOf(e.value, peer, t)) else s.store)
    case PollFlows(fs, order) => s.(trace := s.trace + Deletes(fs), store := UpdateFlows(s.store, fs, order))
    case PollSessions(js) => s.(store := UpdateStats(s.store, js))
  }

  ghost predicate CanDo(x509: X509, s: Sys, acts: seq<Act>)
    decreases |acts|, 0
  {
    acts == [] || (CanDo(x509, s, acts[..|acts| - 1]) && Can(DoAll(x509, s, acts[..|acts| - 1]), acts[|acts| - 1]))
  }

  ghost function DoAll(x509: X509, s: Sys, acts: seq<Act>): Sys
    requires CanDo(x509, s, acts)
    decreases |acts|, 1
  {
    if acts == [] then s else Do(x509, DoAll(x509, s, acts[..|acts| - 1]), acts[|acts| - 1])
  }

  // ---- what the poller's deletions do

  lemma {:induction false} DeletesExact(tr: seq<Probe>, fs: seq<Flow>)
    requires Alternates(tr)
    ensures Alternates(tr + Deletes(fs))
    ensures var k, w := Trace(tr), Trace(tr + Deletes(fs));
            && w == k.(flows := w.flows)
            && (forall sk :: sk in w.flows ==> sk in k.flows && w.flows[sk] == k.flows[sk])
            && (forall sk :: sk in k.flows ==> (sk in w.flows <==> DeleteFlow(sk) !in Deletes(fs)))
    ensures forall p :: p in Deletes(fs) ==> p.DeleteFlow?
  {
    hide Trace, Alternates;
    if fs == [] {
      assert tr + [] == tr;
    } else {
      var init, f := fs[..|fs| - 1], fs[|fs| - 1];
      DeletesExact(tr, init);
      if f.closed {
        AppendAssoc(tr, Deletes(init), [DeleteFlow(f.sock)]);
        DeleteExact(tr + Deletes(init), f.sock);
      } else {
        assert Deletes(fs) == Deletes(init);
      }
    }
  }

  lemma DeleteExact(tr: seq<Probe>, sk: u64)
    requires Alternates(tr)
    ensures Alternates(tr + [DeleteFlow(sk)])
    ensures Trace(tr + [DeleteFlow(sk)]) == Trace(tr).(flows := Trace(tr).flows - {sk})
  {
    assert (tr + [DeleteFlow(sk)])[..|tr|] == tr;
  }

  lemma {:induction false} DeletesClosed(fs: seq<Flow>, sk: u64)
    ensures DeleteFlow(sk) in Deletes(fs) <==> exists i :: 0 <= i < |fs| && fs[i].sock == sk && fs[i].closed
  {
    if fs != [] {
      var init := fs[..|fs| - 1];
      DeletesClosed(init, sk);
      assert forall i :: 0 <= i < |init| ==> init[i] == fs[i];
    }
  }

  // ---- what every run keeps

  ghost predicate SysOk(x509: X509, s: Sys) {
    Alternates(s.trace) && s.taken <= |s.Kernel().ring| && Inv(x509, s.store)
  }

  /** The store operation of a step, if it is one. */
  ghost function StoreOp(s: Sys, a: Act): Option<Op>
    requires Can(s, a)
  {
    match a
    case Fire(_) => None
    case Deliver(pad, peer, t) =>
      var e := Received(s.Kernel().ring[s.taken], pad);
      if e.Some? then Some(OpOf(e.value, peer, t)) else None
    case PollFlows(fs, order) => Some(OpFlows(fs, order))
    case PollSessions(js) => Some(OpStats(js))
  }

  lemma StepIsStoreOp(x509: X509, s: Sys, a: Act)
    requires Can(s, a)
    ensures StoreOp(s, a).Some? ==> Legal(s.store, StoreOp(s, a).value)
    ensures Do(x509, s, a).store == if StoreOp(s, a).Some? then Next(x509, s.store, StoreOp(s, a).value) else s.store
  {
    hide RetireOrder, JoinsLegal, UpdateFlows, UpdateStats, ApplyClose, ApplyWire, ApplyData, Received, ResolvesTo,
      ListsFlows, ListsSessions, Trace;
  }

  /** The ring only grows, and the reader takes at most one event off it. */
  lemma StepGrows(x509: X509, s: Sys, a: Act)
    requires Can(s, a) && Alternates(s.trace)
    ensures var w := Do(x509, s, a);
            && s.trace <= w.trace && Alternates(w.trace)
            && s.Kernel().ring <= w.Kernel().ring
            && w.taken == s.taken + if a.Deliver? then 1 else 0
  {
    hide RetireOrder, JoinsLegal, UpdateFlows, UpdateStats, Next, Legal, Received, ListsFlows, ListsSessions, Step;
    match a
    case Fire(p) =>
      assert (s.trace + [p])[..|s.trace|] == s.trace;
      StepRing(s.trace, p);
    case PollFlows(fs, order) => DeletesExact(s.trace, fs);
    case _ =>
  }

  lemma StepOk(x509: X509, s: Sys, a: Act)
    requires SysOk(x509, s) && Can(s, a)
    ensures SysOk(x509, Do(x509, s, a))
  {
    hide Inv, Next, Legal, Do, StoreOp;
    StepIsStoreOp(x509, s, a);
    StepGrows(x509, s, a);
    if StoreOp(s, a).Some? {
      NextInv(x509, s.store, StoreOp(s, a).value);
    }
    TakenInRing(s, a);
  }

  lemma TakenInRing(s: Sys, a: Act)
    requires Can(s, a)
    ensures a.Deliver? ==> s.taken < |s.Kernel().ring|
  {
    hide Legal, Received;
  }

  /** In every run, the kernel's trace stays one of alternating threads and the store keeps its
      invariant. */
  lemma {:induction false} RunOk(x509: X509, maxHistory: int, peekBytes: int, acts: seq<Act>)
    requires CanDo(x509, Initial(maxHistory, peekBytes), acts)
    ensures SysOk(x509, DoAll(x509, Initial(maxHistory, peekBytes), acts))
  {
    hide Inv, Do, Can;
    if acts == [] {
      NewInv(x509, maxHistory, peekBytes);
    } else {
      RunOk(x509, maxHistory, peekBytes, acts[..|acts| - 1]);
      StepOk(x509, DoAll(x509, Initial(maxHistory, peekBytes), acts[..|acts| - 1]), acts[|acts| - 1]);
    }
  }

  // ---- events come out as they went in, in order

  lemma ReceivedAsSent(s: Sys, pad: Bytes)
    requires Alternates(s.trace) && s.taken < |s.Kernel().ring|
    ensures Received(s.Kernel().ring[s.taken], pad) == Some(s.Kernel().ring[s.taken])
  {
    hide Encode, Decode, Trace, Alternates;
    RingExact(s.trace, s.taken);
    RoundTrip(s.Kernel().ring[s.taken], pad);
  }

  // ---- the totals of a session that ended

  lemma {:induction false} ClosesAt(es: seq<Event>, n: nat)
    requires n < |es| && es[n].CloseEvent?
    ensures var i := |ClosesOf(es[..n])|; i < |ClosesOf(es)| && ClosesOf(es)[i] == es[n]
  {
    var init := es[..|es| - 1];
    if n == |init| {
      assert es[..n] == init;
    } else {
      assert init[..n] == es[..n];
      ClosesAt(init, n);
    }
  }

  /** No session is resolved to the connection `id` in these steps. */
  ghost predicate AvoidsAll(x509: X509, s: Sys, acts: seq<Act>, id: nat)
    requires CanDo(x509, s, acts)
    decreases |acts|
  {
    acts == [] ||
    (var u := DoAll(x509, s, acts[..|acts| - 1]);
     && AvoidsAll(x509, s, acts[..|acts| - 1], id)
     && (StoreOp(u, acts[|acts| - 1]).Some? ==> Avoids(u.store, StoreOp(u, acts[|acts| - 1]).value, id)))
  }

  lemma {:induction false} SettledThrough(x509: X509, s: Sys, acts: seq<Act>, id: nat, ptx: u64, prx: u64)
    requires CanDo(x509, s, acts) && AvoidsAll(x509, s, acts, id) && Settled(s.store, id, ptx, prx)
    ensures Settled(DoAll(x509, s, acts).store, id, ptx, prx)
  {
    hide Settled, Do, Can, Avoids, StoreOp, Next, Legal;
    if acts != [] {
      var init, a := acts[..|acts| - 1], acts[|acts| - 1];
      SettledThrough(x509, s, init, id, ptx, prx);
      var u := DoAll(x509, s, init);
      StepIsStoreOp(x509, u, a);
      if StoreOp(u, a).Some? {
        SettledKept(x509, u.store, StoreOp(u, a).value, id, ptx, prx);
      }
    }
  }

  /** Once the end of a session is handled and resolved to a connection, the connection's
      plaintext totals are exactly what the probes counted for that session from its creation
      to its end (modulo two to the 64); and they stay so in every further run in which no
      other session is resolved to the connection, through its retirement. */
  lemma Finalization(x509: X509, maxHistory: int, peekBytes: int, before: seq<Act>, pad: Bytes,
                     peer: Option<AddrPort>, k: u64,
                     after: seq<Act>)
    requires CanDo(x509, Initial(maxHistory, peekBytes), before)
    requires var s := DoAll(x509, Initial(maxHistory, peekBytes), before);
             var close := Deliver(pad, peer, Some(k));
             && Can(s, close) && s.Kernel().ring[s.taken].CloseEvent? && k in s.store.conns
             && CanDo(x509, Do(x509, s, close), after)
             && AvoidsAll(x509, Do(x509, s, close), after, s.store.conns[k].id)
    ensures var s := DoAll(x509, Initial(maxHistory, peekBytes), before);
            var nth := |ClosesOf(s.Kernel().ring[..s.taken])|;
            && nth < |Freed(s.trace)|
            && var e := Freed(s.trace)[nth];
               && e == s.Kernel().ring[s.taken]
               && Settled(DoAll(x509, Do(x509, s, Deliver(pad, peer, Some(k))), after).store, s.store.conns[k].id,
                          e.ptx, e.prx)
  {
    hide DoAll, Do, Can, CanDo, AvoidsAll, Settled, Freed, ClosesOf, Trace, Inv, Legal, Next, Received, StoreOp,
      ApplyClose, ResolvesTo;
    var s := DoAll(x509, Initial(maxHistory, peekBytes), before);
    RunOk(x509, maxHistory, peekBytes, before);
    TakenInRing(s, Deliver(pad, peer, Some(k)));
    CloseDelivered(x509, s, pad, peer, k);
    var e := s.Kernel().ring[s.taken];
    SettledThrough(x509, Do(x509, s, Deliver(pad, peer, Some(k))), after, s.store.conns[k].id, e.ptx, e.prx);
  }

  /** Nothing that is resolved in these steps can be resolved to the connection `id`, as the
      table is before each: neither by the cache, nor by its peer, nor by its process. */
  ghost predicate UnclaimedAll(x509: X509, s: Sys, acts: seq<Act>, id: nat)
    requires CanDo(x509, s, acts)
    decreases |acts|
  {
    acts == [] ||
    (var u := DoAll(x509, s, acts[..|acts| - 1]);
     && UnclaimedAll(x509, s, acts[..|acts| - 1], id)
     && (StoreOp(u, acts[|acts| - 1]).Some? ==> Unclaimed(u.store, StoreOp(u, acts[|acts| - 1]).value, id)))
  }

  lemma {:induction false} UnclaimedAvoidsAll(x509: X509, s: Sys, acts: seq<Act>, id: nat)
    requires CanDo(x509, s, acts) && UnclaimedAll(x509, s, acts, id)
    ensures AvoidsAll(x509, s, acts, id)
  {
    hide Do, Can, Avoids, Unclaimed, StoreOp, Next, Legal;
    if acts != [] {
      var init, a := acts[..|acts| - 1], acts[|acts| - 1];
      UnclaimedAvoidsAll(x509, s, init, id);
      var u := DoAll(x509, s, init);
      StepIsStoreOp(x509, u, a);
      if StoreOp(u, a).Some? {
        UnclaimedAvoids(u.store, StoreOp(u, a).value, id);
      }
    }
  }

  /** Once the end of a session is handled, its connection shows exactly what the probes counted
      for it, for as long as no other session can claim the connection. */
  lemma FinalizationUnclaimed(x509: X509, maxHistory: int, peekBytes: int, before: seq<Act>, pad: Bytes,
                              peer: Option<AddrPort>, k: u64, after: seq<Act>)
    requires CanDo(x509, Initial(maxHistory, peekBytes), before)
    requires var s := DoAll(x509, Initial(maxHistory, peekBytes), before);
             var close := Deliver(pad, peer, Some(k));
             && Can(s, close) && s.Kernel().ring[s.taken].CloseEvent? && k in s.store.conns
             && CanDo(x509, Do(x509, s, close), after)
             && UnclaimedAll(x509, Do(x509, s, close), after, s.store.conns[k].id)
    ensures var s := DoAll(x509, Initial(maxHistory, peekBytes), before);
            var nth := |ClosesOf(s.Kernel().ring[..s.taken])|;
            && nth < |Freed(s.trace)|
            && var e := Freed(s.trace)[nth];
               && e == s.Kernel().ring[s.taken]
               && Settled(DoAll(x509, Do(x509, s, Deliver(pad, peer, Some(k))), after).store, s.store.conns[k].id,
                          e.ptx, e.prx)
  {
    hide DoAll, Do, Can, CanDo, AvoidsAll, UnclaimedAll, Settled, Freed, ClosesOf, Trace;
    var s := DoAll(x509, Initial(maxHistory, peekBytes), before);
    UnclaimedAvoidsAll(x509, Do(x509, s, Deliver(pad, peer, Some(k))), after, s.store.conns[k].id);
    Finalization(x509, maxHistory, peekBytes, before, pad, peer, k, after);
  }

  lemma CloseDelivered(x509: X509, s: Sys, pad: Bytes, peer: Option<AddrPort>, k: u64)
    requires SysOk(x509, s) && Can(s, Deliver(pad, peer, Some(k)))
    requires s.Kernel().ring[s.taken].CloseEvent? && k in s.store.conns
    ensures var e, nth := s.Kernel().ring[s.taken], |ClosesOf(s.Kernel().ring[..s.taken])|;
            && nth < |Freed(s.trace)| && Freed(s.trace)[nth] == e
            && Settled(Do(x509, s, Deliver(pad, peer, Some(k))).store, s.store.conns[k].id, e.ptx, e.prx)
  {
    hide Settled, Freed, ClosesOf, Trace, Inv, Received, ApplyClose, ResolvesTo, Alternates;
    var e := s.Kernel().ring[s.taken];
    ReceivedAsSent(s, pad);
    ClosesExact(s.trace);
    ClosesAt(s.Kernel().ring, s.taken);
    CloseSettles(s.store, Close(e.pid, e.fd, e.ssl, e.ptx, e.prx), peer, k);
  }

  // ---- what a poll shows is what happened

  lemma Listed(s: Sys, fs: seq<Flow>, sk: u64) returns (i: nat)
    requires ListsFlows(s.Kernel().flows, fs) && sk in s.Kernel().flows
    ensures i < |fs| && fs[i].sock == sk && fs[i] == FlowOf(sk, s.Kernel().flows[sk])
  {
    hide Trace;
    assert sk in Seen(fs);
    i :| 0 <= i < |fs| && fs[i].sock == sk;
  }

  /** The two ends of a socket, and the name of its process, as the move that identified it has
      them; nothing while there is none. */
  ghost predicate ShowsWho(c: ConnV, w: Option<Move>) {
    if w.None? then
      && c.pid == 0 && c.comm == ""
      && c.local == Some(AddrPort(V4([0, 0, 0, 0]), 0)) && c.remote == Some(AddrPort(V4([0, 0, 0, 0]), 0))
    else
      var t := w.value.tuple;
      && c.pid == ProcessOf(w.value.ctx.id) && c.comm == w.value.ctx.comm
      && c.local == Some(AddrPort(IpFrom(t.saddr, t.isIpv6), t.sport))
      && c.remote == Some(AddrPort(IpFrom(t.daddr, t.isIpv6), t.dport))
  }

  lemma NamedShows(e: Entry, w: Option<Move>, sk: u64, c: ConnV)
    requires NamedBy(e, w) && ShowsFlow(c, FlowOf(sk, e))
    ensures ShowsWho(c, w)
  {
    hide PutLe32;
    if w.None? {
      WordBytes(0);
    }
  }

  /** What a snapshot makes of a listed socket's connection, whether there was one or not. */
  lemma TablePoll(v: StoreV, fs: seq<Flow>, order: seq<u64>, i: nat)
    requires RetireOrder(v, fs, order) && DistinctSocks(fs) && i < |fs|
    ensures var w, f, k := UpdateFlows(v, fs, order), fs[i], fs[i].sock;
            && k in w.conns
            && var c := w.conns[k];
               && ShowsFlow(c, f) && c.sock == (if k in v.conns then v.conns[k].sock else k)
               && c.direction == (if f.direction != 0 then f.direction
                                  else if k in v.conns then v.conns[k].direction else 0)
               && (c.isTls <==> f.isTls || (k in v.conns && v.conns[k].isTls))
               && c.wire == (if k in v.conns then v.conns[k].wire else Wire([], [], EMPTY_INFO))
               && (k in v.conns ==> c.id == v.conns[k].id)
  {
    hide TouchAll, RetireAll, UpdateFlows, RetireOrder, IpFrom;
    UpdateFlowsExact(v, fs, order);
    TouchAllExact(v, fs, i);
    assert fs[i] in fs && fs[i].sock in Seen(fs);
  }

  /** After a poll, the connection of every tracked socket shows what happened on it since its
      entry was created: the bytes moved, the process that identified it and the ends it had then,
      whether it was seen to close and which side opened it.  It is marked as TLS exactly if it was
      before or a record was seen to start, and as older than the program exactly if it is and no
      hello was seen.  What was captured stays. */
  lemma PolledFlows(x509: X509, s: Sys, fs: seq<Flow>, order: seq<u64>, sk: u64)
    requires SysOk(x509, s) && Can(s, PollFlows(fs, order)) && sk in s.Kernel().flows
    ensures var w, was := Do(x509, s, PollFlows(fs, order)).store, s.store.conns;
            && sk in w.conns
            && var c := w.conns[sk];
               && c.sock == sk
               && c.tx == Moved(s.trace, sk, Out) % TWO64
               && c.rx == Moved(s.trace, sk, In) % TWO64
               && ShowsWho(c, Identified(s.trace, sk))
               && c.closed == s.Kernel().flows[sk].closed == ClosedSince(s.trace, sk)
               && c.direction == (if Opened(s.trace, sk) != 0 then Opened(s.trace, sk)
                                  else if sk in was then was[sk].direction else 0)
               && (c.isTls <==> Armed(s.trace, sk) || (sk in was && was[sk].isTls))
               && (c.preexisting <==> c.isTls && !c.wire.info.hasClientHello && !c.wire.info.hasServerHello)
               && c.wire == (if sk in was then was[sk].wire else Wire([], [], EMPTY_INFO))
               && (sk in was ==> c.id == was[sk].id)
  {
    hide Trace, Moved, Identified, Captured, Armed, ClosedSince, Opened, Tracked, Alternates, UpdateFlows, RetireOrder,
      IpFrom, NamedBy, ShowsWho, Conserved, HistoryOk, SamplesOk;
    Accounting(s.trace, sk);
    Lives(s.trace, sk);
    var i := Listed(s, fs, sk);
    TablePoll(s.store, fs, order, i);
    NamedShows(s.Kernel().flows[sk], Identified(s.trace, sk), sk, UpdateFlows(s.store, fs, order).conns[sk]);
  }

  /** What /proc prints of the far end of a socket that was identified is the connection's remote
      end, and nothing else is: so a descriptor of that socket finds a peer in the table. */
  lemma PolledPeer(x509: X509, s: Sys, fs: seq<Flow>, order: seq<u64>, sk: u64, a: Words, v6: bool, port: u16, fd: i32)
    requires SysOk(x509, s) && Can(s, PollFlows(fs, order)) && sk in s.Kernel().flows
    requires Identified(s.trace, sk).Some?
    ensures var w, t := Do(x509, s, PollFlows(fs, order)).store, Identified(s.trace, sk).value.tuple;
            && sk in w.conns
            && (HexAddr(Render(a, v6, port)) == w.conns[sk].remote
                <==> v6 == t.isIpv6 && port == t.dport && (if v6 then a == t.daddr else a[0] == t.daddr[0]))
            && (fd >= 0 ==> HasPeer(w, fd, HexAddr(Render(t.daddr, t.isIpv6, t.dport))))
  {
    hide SysOk, Can, Do, Trace, Identified, Moved, Armed, Render, HexAddr, IpFrom, Opened, ClosedSince;
    PolledFlows(x509, s, fs, order, sk);
    var t := Identified(s.trace, sk).value.tuple;
    EndpointAgreement(a, v6, port, t.daddr, t.isIpv6, t.dport);
    RenderRead(t.daddr, t.isIpv6, t.dport);
  }

  /** ... and these are all the bytes the socket ever moved, exactly if no entry of it that had
      moved any was deleted (as long as they fit the counter). */
  lemma PolledWholeLife(x509: X509, s: Sys, fs: seq<Flow>, order: seq<u64>, sk: u64)
    requires SysOk(x509, s) && Can(s, PollFlows(fs, order)) && sk in s.Kernel().flows
    ensures var w := Do(x509, s, PollFlows(fs, order));
            && sk in w.store.conns
            && (MovedEver(s.trace, sk, Out) < TWO64 ==>
                  (w.store.conns[sk].tx == MovedEver(s.trace, sk, Out) <==> NothingDropped(s.trace, sk, Out)))
            && (MovedEver(s.trace, sk, In) < TWO64 ==>
                  (w.store.conns[sk].rx == MovedEver(s.trace, sk, In) <==> NothingDropped(s.trace, sk, In)))
  {
    hide SysOk, Can, Do, Trace, Moved, MovedEver, NothingDropped;
    PolledFlows(x509, s, fs, order, sk);
    WholeLifeIff(s.trace, sk, Out);
    WholeLifeIff(s.trace, sk, In);
  }

  /** After a poll, the plaintext totals of a connection that is not final are the plaintext
      bytes passed in the live sessions resolved to it; each session is resolved by the process that
      began it and the descriptor it had then. */
  lemma PolledSessions(x509: X509, s: Sys, js: seq<Join>, k: u64)
    requires SysOk(x509, s) && Can(s, PollSessions(js)) && k in s.store.conns && !s.store.conns[k].plainFinal
    ensures var w := Do(x509, s, PollSessions(js));
            && k in w.store.conns
            && w.store.conns[k].ptx == PassedTo(s.trace, js, k, Out) % TWO64
            && w.store.conns[k].prx == PassedTo(s.trace, js, k, In) % TWO64
            && forall i :: 0 <= i < |js| ==>
                 Began(s.trace, js[i].stat.ssl) == Some(Origin(js[i].stat.pid, js[i].stat.fd))
  {
    hide Trace, SumTx, SumRx, PassedTo, Alternates, Inv, UpdateStats, JoinsLegal;
    PlaintextJoin(s.store, js);
    SumsPassed(s, js, k, |js|);
    assert js[..|js|] == js;
    forall i | 0 <= i < |js|
      ensures Began(s.trace, js[i].stat.ssl) == Some(Origin(js[i].stat.pid, js[i].stat.fd))
    {
      PlainAccounting(s.trace, js[i].stat.ssl);
    }
  }

  /** The plaintext bytes of the sessions resolved to the connection at `k`. */
  function PassedTo(tr: seq<Probe>, js: seq<Join>, k: u64, d: Dir): nat {
    if js == [] then 0
    else PassedTo(tr, js[..|js| - 1], k, d) + if js[|js| - 1].target == Some(k)
         then Passed(tr, js[|js| - 1].stat.ssl, d) else 0
  }

  lemma {:induction false} SumsPassed(s: Sys, js: seq<Join>, k: u64, n: nat)
    requires Alternates(s.trace) && ListsSessions(s.Kernel().sessions, js) && n <= |js|
    ensures SumTx(js[..n], k) % TWO64 == PassedTo(s.trace, js[..n], k, Out) % TWO64
    ensures SumRx(js[..n], k) % TWO64 == PassedTo(s.trace, js[..n], k, In) % TWO64
  {
    hide Trace, Alternates, Passed;
    if n > 0 {
      var j := js[n - 1];
      assert js[..n][..n - 1] == js[..n - 1];
      SumsPassed(s, js, k, n - 1);
      PlainAccounting(s.trace, j.stat.ssl);
      ModAdd(SumTx(js[..n - 1], k), PassedTo(s.trace, js[..n - 1], k, Out), j.stat.ptx,
          Passed(s.trace, j.stat.ssl, Out));
      ModAdd(SumRx(js[..n - 1], k), PassedTo(s.trace, js[..n - 1], k, In), j.stat.prx, Passed(s.trace, j.stat.ssl, In));
    }
  }

  lemma ModAdd(a: nat, b: nat, c: nat, d: nat)
    requires a % TWO64 == b % TWO64 && c == d % TWO64
    ensures (a + c) % TWO64 == (b + d) % TWO64
  {
  }

  // ---- a closed flow leaves

  predicate Touches(p: Probe, sk: u64) {
    match p
    case SendMsg(_, s, _, _, _, _) => s == sk
    case RecvExit(_, rc, _, _, _) => rc.sk == sk
    case SetState(s, _, _, _) => s == sk
    case _ => false
  }

  /** Only a probe on the socket makes an entry for it. */
  lemma UntouchedStaysOut(tr: seq<Probe>, p: Probe, sk: u64)
    requires Alternates(tr + [p]) && sk !in Trace(tr).flows && !Touches(p, sk)
    ensures sk !in Trace(tr + [p]).flows
  {
    hide Transfer, OnSetState, OnSslFree, OnSslWrite, OnSslReadExit, Alternates;
    assert (tr + [p])[..|tr|] == tr;
    match p
    case SendMsg(ctx, s, base, n, t, user) => TransferExact(Trace(tr), s, base, n, Out, ctx, t, user);
    case RecvExit(ctx, rc, ret, t, user) =>
      OpenCalls(tr, ctx.id);
      ReturnsOpen(tr, p);
      if ret > 0 {
        TransferExact(Trace(tr).(recvs := Trace(tr).recvs - {ctx.id}), rc.sk, rc.base, ret, In, ctx, t, user);
      }
    case SetState(s, tcp, o, n) => StateElsewhere(Trace(tr), s, tcp, o, n, sk);
    case DeleteFlow(_) =>
    case _ => OtherFlows(Trace(tr), p);
  }

  /** Only a probe on the socket captures from it. */
  lemma UntouchedRing(tr: seq<Probe>, p: Probe, sk: u64, d: Dir)
    requires Alternates(tr + [p]) && !Touches(p, sk)
    ensures Wires(Trace(tr + [p]).ring, sk, d) == Wires(Trace(tr).ring, sk, d)
  {
    hide Step, Trace, Alternates, Said, Due, Captured, Wires;
    TraceMore(tr, p);
    StepRing(tr, p);
    SaidOnce(tr, p);
    WiresAppend(Trace(tr).ring, Said(tr, p), sk, d);
    SaidKinds(tr, p, 0, sk, d);
    assert Wires(Trace(tr).ring, sk, d) + [] == Wires(Trace(tr).ring, sk, d);
  }

  lemma StateElsewhere(k: KernelV, s: u64, tcp: bool, oldState: nat, newState: nat, sk: u64)
    requires s != sk && sk !in k.flows
    ensures sk !in OnSetState(k, s, tcp, oldState, newState).flows
  {
  }

  ghost predicate Leaving(s: Sys, sk: u64, id: nat) {
    sk !in s.Kernel().flows && sk in s.store.conns && s.store.conns[sk].id == id && s.store.conns[sk].closed
  }

  lemma FirstPoll(x509: X509, s: Sys, fs: seq<Flow>, order: seq<u64>, sk: u64)
    requires SysOk(x509, s) && Can(s, PollFlows(fs, order)) && sk in s.Kernel().flows && s.Kernel().flows[sk].closed
    ensures var w := Do(x509, s, PollFlows(fs, order));
            sk in w.store.conns && Leaving(w, sk, w.store.conns[sk].id)
  {
    hide Trace, Alternates, Inv, UpdateFlows, RetireOrder;
    PolledFlows(x509, s, fs, order, sk);
    var i := Listed(s, fs, sk);
    DeletesClosed(fs, sk);
    DeletesExact(s.trace, fs);
  }

  /** Operations other than a snapshot leave a connection where it is, and only a captured chunk
      adds to what it has seen. */
  lemma StaysClosed(x509: X509, v: StoreV, op: Op, k: u64)
    requires Legal(v, op) && !op.OpFlows? && k in v.conns
    ensures var w := Next(x509, v, op);
            k in w.conns && w.conns[k].id == v.conns[k].id && w.conns[k].closed == v.conns[k].closed
  {
    hide JoinsLegal, UpdateStats, ResolvesTo, ApplyClose;
    match op
    case OpWire(_, _, _) => hide WireStep;
    case _ => OnlyWire(x509, v, op);
  }

  lemma OnlyWire(x509: X509, v: StoreV, op: Op)
    requires Legal(v, op) && !op.OpFlows? && !op.OpWire?
    ensures Next(x509, v, op).conns.Keys == v.conns.Keys
    ensures forall k :: k in v.conns ==> SameCapture(v.conns[k], Next(x509, v, op).conns[k])
  {
    hide SumTx, SumRx, LastSample, UpdateStats, JoinsLegal, Recache;
    match op
    case OpData(_, _, _) =>
    case OpClose(e, _, t) =>
      hide Finalize;
      if t.Some? {
        FinalizeKeeps(v, v.conns[t.value], e);
      }
    case OpStats(js) => PlaintextJoin(v, js);
  }

  lemma FinalizeKeeps(v: StoreV, c: ConnV, e: Close)
    ensures SameCapture(c, Finalize(v, c, e))
  {
  }

  ghost predicate SameCapture(c: ConnV, d: ConnV) {
    d.id == c.id && d.seen == c.seen && d.closed == c.closed
  }

  lemma MidStep(x509: X509, s: Sys, a: Act, sk: u64, id: nat)
    requires SysOk(x509, s) && Leaving(s, sk, id) && Can(s, a) && !a.PollFlows? && (a.Fire? ==> !Touches(a.p, sk))
    ensures Leaving(Do(x509, s, a), sk, id)
  {
    hide Trace, Alternates, Inv, Next, Legal, Received;
    StepIsStoreOp(x509, s, a);
    if a.Fire? {
      UntouchedStaysOut(s.trace, a.p, sk);
    }
    if StoreOp(s, a).Some? {
      StaysClosed(x509, s.store, StoreOp(s, a).value, sk);
    }
  }

  lemma {:induction false} MidKeeps(x509: X509, s: Sys, mid: seq<Act>, sk: u64, id: nat)
    requires SysOk(x509, s) && Leaving(s, sk, id) && CanDo(x509, s, mid)
    requires forall a :: a in mid ==> !a.PollFlows? && (a.Fire? ==> !Touches(a.p, sk))
    ensures Leaving(DoAll(x509, s, mid), sk, id) && SysOk(x509, DoAll(x509, s, mid))
  {
    hide Leaving, SysOk, Do, Can;
    if mid != [] {
      var init, a := mid[..|mid| - 1], mid[|mid| - 1];
      assert a in mid && forall b :: b in init ==> b in mid;
      MidKeeps(x509, s, init, sk, id);
      MidStep(x509, DoAll(x509, s, init), a, sk, id);
      StepOk(x509, DoAll(x509, s, init), a);
    }
  }

  lemma {:induction false} RetiredInOrderHas(v: StoreV, order: seq<u64>, k: u64) returns (i: nat)
    requires (forall j :: j in order ==> j in v.conns) && k in order
    ensures i < |RetiredInOrder(v, order)| && RetiredInOrder(v, order)[i] == Kept(v.conns[k])
  {
    var init, last := order[..|order| - 1], order[|order| - 1];
    if k == last {
      i := |RetiredInOrder(v, init)|;
    } else {
      assert order == init + [last];
      i := RetiredInOrderHas(v, init, k);
    }
  }

  /** A flow that is closed is deleted by the next poll of the flows, and its connection is
      retired by the one after, if no probe touches the socket in between. */
  lemma ClosedFlowLeaves(x509: X509, s: Sys, fs: seq<Flow>, order: seq<u64>, mid: seq<Act>, gs: seq<Flow>,
                         after: seq<u64>, sk: u64)
    requires SysOk(x509, s) && Can(s, PollFlows(fs, order)) && sk in s.Kernel().flows && s.Kernel().flows[sk].closed
    requires var w := Do(x509, s, PollFlows(fs, order));
             CanDo(x509, w, mid) && Can(DoAll(x509, w, mid), PollFlows(gs, after))
    requires forall a :: a in mid ==> !a.PollFlows? && (a.Fire? ==> !Touches(a.p, sk))
    ensures var w := Do(x509, s, PollFlows(fs, order));
            var u := DoAll(x509, w, mid);
            var z := Do(x509, u, PollFlows(gs, after));
            && sk !in w.Kernel().flows && sk in w.store.conns
            && sk !in z.store.conns
            && exists i :: |u.store.retired| <= i < |z.store.retired| && z.store.retired[i].id == w.store.conns[sk].id
  {
    hide Inv, Trace, CanDo, DoAll, TouchAll, Seen, Alternates, UpdateFlows, RetireOrder;
    var w := Do(x509, s, PollFlows(fs, order));
    FirstPoll(x509, s, fs, order, sk);
    StepOk(x509, s, PollFlows(fs, order));
    MidKeeps(x509, w, mid, sk, w.store.conns[sk].id);
    var u := DoAll(x509, w, mid);
    UpdateFlowsExact(u.store, gs, after);
    var i := RetiredInOrderHas(u.store, after, sk);
    assert UpdateFlows(u.store, gs, after).retired[|u.store.retired| + i].id == w.store.conns[sk].id;
  }
}
