/** What the kernel maps and the ring hold in every interleaving, against the trace itself. */
module KernelLaws {
  import opened Bytes
  import opened EventCodec
  import opened Reassembly
  import opened KernelSpec
  import opened TraceFacts

  lemma TraceMore(tr: seq<Probe>, p: Probe)
    ensures Trace(tr + [p]) == Step(Trace(tr), p)
  {
    hide Step;
    assert (tr + [p])[..|tr|] == tr;
  }

  // ---- calls and returns

  /** The scratch maps hold exactly the open calls. */
  lemma {:induction false} OpenCalls(tr: seq<Probe>, id: u64)
    ensures var k := Trace(tr);
            && (if id in k.recvs then OpenRecv(tr, id) == Some(k.recvs[id]) else OpenRecv(tr, id).None?)
            && (if id in k.sslReads then OpenRead(tr, id) == Some(k.sslReads[id]) else OpenRead(tr, id).None?)
  {
    hide Transfer, EmitPlaintext;
    if tr != [] {
      var init, p := tr[..|tr| - 1], tr[|tr| - 1];
      OpenCalls(init, id);
      StepCalls(Trace(init), p);
    }
  }

  lemma StepCalls(k: KernelV, p: Probe)
    ensures var w := Step(k, p);
            && (match p
                case RecvEnter(_, _) => w.recvs == k.recvs[p.ctx.id := p.recv]
                case RecvExit(_, _, _, _, _) => w.recvs == k.recvs - {p.ctx.id}
                case _ => w.recvs == k.recvs)
            && (match p
                case SslReadEnter(_, _) => w.sslReads == k.sslReads[p.ctx.id := p.read]
                case SslReadExit(_, _, _, _) => w.sslReads == k.sslReads - {p.ctx.id}
                case _ => w.sslReads == k.sslReads)
  {
    hide Transfer, EmitPlaintext, NewState;
    match p
    case SendMsg(ctx, sk, base, n, t, user) => TransferExact(k, sk, base, n, Out, ctx, t, user);
    case RecvExit(ctx, _, ret, t, user) =>
      if ctx.id in k.recvs && ret > 0 {
        var rc := k.recvs[ctx.id];
        TransferExact(k.(recvs := k.recvs - {ctx.id}), rc.sk, rc.base, ret, In, ctx, t, user);
      }
    case SslWrite(ctx, ssl, buf, num, user) =>
      if num > 0 {
        EmitFrame(k, ssl, buf, num, Out, ctx, user);
      }
    case SslReadExit(ctx, _, ret, user) =>
      if ctx.id in k.sslReads && ret > 0 {
        var c := k.sslReads[ctx.id];
        EmitFrame(k.(sslReads := k.sslReads - {ctx.id}), c.ssl, c.buf, ret, In, ctx, user);
      }
    case _ =>
  }

  lemma EmitFrame(k: KernelV, ssl: u64, buf: u64, n: u64, d: Dir, ctx: Ctx, user: User)
    ensures var w := EmitPlaintext(k, ssl, buf, n, d, ctx, user); w == k.(sessions := w.sessions, ring := w.ring)
  {
  }

  // ---- bytes on the wire

  predicate SameWho(e: Entry, f: Entry) {
    && e.pid == f.pid && e.comm == f.comm && e.isIpv6 == f.isIpv6
    && e.saddr == f.saddr && e.sport == f.sport && e.daddr == f.daddr && e.dport == f.dport
  }

  /** An entry names the process and the two ends of the move that identified it: the whole of an
      address if it is of IPv6 and its first word if not; before any, it names nothing. */
  predicate NamedBy(e: Entry, w: Option<Move>) {
    if w.None? then
      && e.pid == 0 && e.comm == "" && !e.isIpv6
      && e.saddr == [0, 0, 0, 0] && e.sport == 0 && e.daddr == [0, 0, 0, 0] && e.dport == 0
    else
      var t := w.value.tuple;
      && e.pid == ProcessOf(w.value.ctx.id) && e.comm == w.value.ctx.comm
      && e.isIpv6 == t.isIpv6 && e.sport == t.sport && e.dport == t.dport
      && e.saddr[0] == t.saddr[0] && e.daddr[0] == t.daddr[0]
      && (t.isIpv6 ==> e.saddr == t.saddr && e.daddr == t.daddr)
  }

  /** The maps and the ring after a transfer. */
  lemma TransferExact(k: KernelV, sk: u64, base: u64, n: u64, d: Dir, ctx: Ctx, t: Tuple, user: User)
    ensures var w, e := Transfer(k, sk, base, n, d, ctx, t, user), FlowGet(k, sk, ctx, t);
            && w == k.(flows := k.flows[sk := w.flows[sk]], ring := w.ring)
            && var data, f := Captures(Count(e, d), base, n, user), w.flows[sk];
               && SameWho(f, e)
               && f.tx == (if d == Out then Add64(e.tx, n) else e.tx)
               && f.rx == (if d == In then Add64(e.rx, n) else e.rx)
               && f.wireOut as int == e.wireOut + (if d == Out && data.Some? then 1 else 0)
               && f.wireIn as int == e.wireIn + (if d == In && data.Some? then 1 else 0)
               && f.isTls == (e.isTls || (base != 0 && Count(e, d) == 0 && Arms(n, user.mem)))
               && w.ring == if data.Some? then k.ring + [WireEvent(DirCode(d), sk, data.value)] else k.ring
  {
    hide FlowGet, Arms, CaptureWire, Captures;
    var e := FlowGet(k, sk, ctx, t);
    var f := if d == Out then e.(tx := Add64(e.tx, n)) else e.(rx := Add64(e.rx, n));
    CaptureFields(k.(flows := k.flows[sk := f]), sk, base, n, d, user);
    assert k.flows[sk := f][sk := CaptureWire(k.(flows := k.flows[sk := f]), sk, base, n, d, user).flows[sk]]
        == k.flows[sk := CaptureWire(k.(flows := k.flows[sk := f]), sk, base, n, d, user).flows[sk]];
  }

  lemma CaptureFields(k: KernelV, sk: u64, base: u64, n: u64, d: Dir, user: User)
    requires sk in k.flows
    ensures var w, e := CaptureWire(k, sk, base, n, d, user), k.flows[sk];
            && w == k.(flows := k.flows[sk := w.flows[sk]], ring := w.ring)
            && var data, f := Captures(Count(e, d), base, n, user), w.flows[sk];
               && SameWho(f, e) && f.tx == e.tx && f.rx == e.rx
               && f.wireOut as int == e.wireOut + (if d == Out && data.Some? then 1 else 0)
               && f.wireIn as int == e.wireIn + (if d == In && data.Some? then 1 else 0)
               && f.isTls == (e.isTls || (base != 0 && Count(e, d) == 0 && Arms(n, user.mem)))
               && w.ring == if data.Some? then k.ring + [WireEvent(DirCode(d), sk, data.value)] else k.ring
  {
    hide Arms, Cap;
  }

  lemma TransferFlags(k: KernelV, sk: u64, base: u64, n: u64, d: Dir, ctx: Ctx, t: Tuple, user: User)
    ensures var w, e := Transfer(k, sk, base, n, d, ctx, t, user), if sk in k.flows then k.flows[sk] else ZERO_ENTRY;
            w.flows.Keys == k.flows.Keys + {sk}
            && (forall s :: s in k.flows && s != sk ==> w.flows[s] == k.flows[s])
            && w.flows[sk].closed == e.closed && w.flows[sk].direction == e.direction
  {
    hide CaptureWire, FlowGet;
    var e := FlowGet(k, sk, ctx, t);
    var f := if d == Out then e.(tx := Add64(e.tx, n)) else e.(rx := Add64(e.rx, n));
    FlowGetFlags(k, sk, ctx, t);
    CaptureFlags(k.(flows := k.flows[sk := f]), sk, base, n, d, user);
  }

  lemma CaptureFlags(k: KernelV, sk: u64, base: u64, n: u64, d: Dir, user: User)
    requires sk in k.flows
    ensures var w := CaptureWire(k, sk, base, n, d, user);
            w.flows == k.flows[sk := w.flows[sk]]
            && w.flows[sk].closed == k.flows[sk].closed && w.flows[sk].direction == k.flows[sk].direction
  {
    hide Captures, MarkTls, Bump;
    var e := MarkTls(k.flows[sk], base, n, d, user);
    KeepsFlags(k.flows[sk], base, n, d, user);
    KeepsFlags(e, base, n, d, user);
    if Captures(Count(e, d), base, n, user).Some? {
      CaptureLimit(Count(e, d), base, n, user);
    }
  }

  lemma KeepsFlags(e: Entry, base: u64, n: u64, d: Dir, user: User)
    ensures var f := MarkTls(e, base, n, d, user); f.closed == e.closed && f.direction == e.direction
    ensures Count(e, d) < MAX_WIRE_EVENTS ==> Bump(e, d).closed == e.closed && Bump(e, d).direction == e.direction
  {
    hide Arms;
  }

  lemma FlowGetKeeps(k: KernelV, sk: u64, ctx: Ctx, t: Tuple)
    ensures var f, e := FlowGet(k, sk, ctx, t), if sk in k.flows then k.flows[sk] else ZERO_ENTRY;
            && f.tx == e.tx && f.rx == e.rx && f.wireOut == e.wireOut && f.wireIn == e.wireIn && f.isTls == e.isTls
            && (e.pid != 0 ==> SameWho(f, e))
            && (e.pid == 0 ==> forall m: Move :: m.ctx == ctx && m.tuple == t ==> NamedBy(f, Some(m)))
  {
  }

  lemma FlowGetFlags(k: KernelV, sk: u64, ctx: Ctx, t: Tuple)
    ensures var f, e := FlowGet(k, sk, ctx, t), if sk in k.flows then k.flows[sk] else ZERO_ENTRY;
            f.closed == e.closed && f.direction == e.direction
  {
  }

  /** An entry says what was moved and captured since it was created; while there is no entry,
      nothing was. */
  ghost predicate FlowOk(tr: seq<Probe>, flows: map<u64, Entry>, sk: u64) {
    if sk in flows then
      && flows[sk].tx == Moved(tr, sk, Out) % TWO64
      && flows[sk].rx == Moved(tr, sk, In) % TWO64
      && flows[sk].wireOut as int == |Captured(tr, sk, Out)|
      && flows[sk].wireIn as int == |Captured(tr, sk, In)|
      && NamedBy(flows[sk], Identified(tr, sk))
      && flows[sk].isTls == Armed(tr, sk)
    else
      && Moved(tr, sk, Out) == 0 && Moved(tr, sk, In) == 0
      && Captured(tr, sk, Out) == [] && Captured(tr, sk, In) == []
      && Identified(tr, sk).None? && !Armed(tr, sk)
  }

  /** A step that moves nothing on the socket and does not delete its entry. */
  lemma FlowQuiet(tr: seq<Probe>, p: Probe, flows: map<u64, Entry>, g: map<u64, Entry>, sk: u64)
    requires FlowOk(tr, flows, sk) && p != DeleteFlow(sk)
    requires forall d :: Moves(tr, p, d).Some? ==> Moves(tr, p, d).value.sk != sk
    requires if sk in flows then sk in g && Stateless(g[sk]) == Stateless(flows[sk])
             else sk in g ==> Stateless(g[sk]) == ZERO_ENTRY
    ensures FlowOk(tr + [p], g, sk)
  {
    assert (tr + [p])[..|tr|] == tr;
    hide Moves;
  }

  /** The truth after one more move. */
  lemma MovedSnoc(tr: seq<Probe>, p: Probe, d: Dir, m: Move, e: Dir)
    requires p != DeleteFlow(m.sk) && Moves(tr, p, d) == Some(m) && Moves(tr, p, Other(d)).None?
    ensures Moved(tr + [p], m.sk, e) == Moved(tr, m.sk, e) + if e == d then m.n else 0
    ensures var data := Due(|Captured(tr, m.sk, d)|, m);
            Captured(tr + [p], m.sk, e) == if e == d && data.Some? then Captured(tr, m.sk, e) + [data.value]
                else Captured(tr, m.sk, e)
    ensures Armed(tr + [p], m.sk)
       <==> Armed(tr, m.sk) || (m.base != 0 && Captured(tr, m.sk, d) == [] && m.n >= 5 && StartsRecord(m.user.mem))
    ensures var w := Identified(tr, m.sk);
            Identified(tr + [p], m.sk) == if w.Some? && ProcessOf(w.value.ctx.id) != 0 then w else Some(m)
  {
    hide Moves, Due, StartsRecord;
    assert (tr + [p])[..|tr|] == tr;
    assert e == d || e == Other(d);
  }

  lemma FlowMoves(tr: seq<Probe>, p: Probe, k: KernelV, d: Dir, m: Move)
    requires FlowOk(tr, k.flows, m.sk) && p != DeleteFlow(m.sk)
    requires Moves(tr, p, d) == Some(m) && Moves(tr, p, Other(d)).None?
    ensures FlowOk(tr + [p], Transfer(k, m.sk, m.base, m.n, d, m.ctx, m.tuple, m.user).flows, m.sk)
  {
    hide Moves, Captures, Transfer, Moved, Captured, Identified, Arms, Armed, FlowGet, Add64, StartsRecord, Due;
    FlowGetKeeps(k, m.sk, m.ctx, m.tuple);
    CaptureExact(|Captured(tr, m.sk, d)|, m);
    Wraps(Moved(tr, m.sk, Out), m.n);
    Wraps(Moved(tr, m.sk, In), m.n);
    TransferExact(k, m.sk, m.base, m.n, d, m.ctx, m.tuple, m.user);
    MovedSnoc(tr, p, d, m, Out);
    MovedSnoc(tr, p, d, m, In);
  }

  lemma Wraps(a: nat, n: u64)
    ensures Add64(a % TWO64, n) == (a + n) % TWO64 && Add64(0, n) == n % TWO64
  {
  }

  /** Every step keeps every socket's account. */
  lemma FlowStep(tr: seq<Probe>, p: Probe, sk: u64)
    requires FlowOk(tr, Trace(tr).flows, sk) && Alternates(tr + [p])
    ensures FlowOk(tr + [p], Step(Trace(tr), p).flows, sk)
  {
    hide FlowOk, Transfer, SessionGet, DataOf, Trace, Alternates;
    var k := Trace(tr);
    match p
    case SendMsg(ctx, s, base, size, t, user) => FlowTransfer(tr, p, k, Out, Move(s, base, size, ctx, t, user), sk);
    case RecvExit(ctx, rc, ret, t, user) =>
      OpenCalls(tr, ctx.id);
      ReturnsOpen(tr, p);
      if ctx.id in k.recvs && ret > 0 && rc.sk != 0 {
        FlowTransfer(tr, p, k.(recvs := k.recvs - {ctx.id}), In, Move(rc.sk, rc.base, ret, ctx, t, user), sk);
      } else {
        FlowQuiet(tr, p, k.flows, k.flows, sk);
      }
    case DeleteFlow(s) =>
      if s == sk {
        FlowGone(tr, sk, k.flows);
      } else {
        FlowQuiet(tr, p, k.flows, k.flows - {s}, sk);
      }
    case _ => FlowOther(tr, p, k, sk);
  }

  lemma FlowOther(tr: seq<Probe>, p: Probe, k: KernelV, sk: u64)
    requires FlowOk(tr, k.flows, sk) && !p.SendMsg? && !p.RecvExit? && !p.DeleteFlow?
    ensures FlowOk(tr + [p], Step(k, p).flows, sk)
  {
    hide FlowOk, OnSetState, Transfer, OnRecvExit, OnSslFree, OnSslWrite, OnSslReadExit;
    if p.SetState? {
      StateFlows(k, p.sk, p.tcp, p.oldState, p.newState, sk);
    } else {
      OtherFlows(k, p);
    }
    FlowQuiet(tr, p, k.flows, Step(k, p).flows, sk);
  }

  lemma StateFlows(k: KernelV, s: u64, tcp: bool, oldState: nat, newState: nat, sk: u64)
    ensures var g := OnSetState(k, s, tcp, oldState, newState).flows;
            if sk in k.flows then sk in g && Stateless(g[sk]) == Stateless(k.flows[sk])
            else sk in g ==> Stateless(g[sk]) == ZERO_ENTRY
  {
    hide NewState, Stateless;
    NewStateKeeps(Find(k.flows, sk), oldState, newState);
  }

  lemma NewStateKeeps(e: Option<Entry>, oldState: nat, newState: nat)
    ensures var f := NewState(e, oldState, newState);
            && (e.Some? ==> f.Some?)
            && (f.Some? ==> Stateless(f.value) == if e.Some? then Stateless(e.value) else ZERO_ENTRY)
  {
  }

  /** What of an entry does not follow the state of the connection. */
  function Stateless(e: Entry): Entry { e.(direction := 0, closed := false) }

  lemma OtherFlows(k: KernelV, p: Probe)
    requires !p.SendMsg? && !p.RecvExit? && !p.DeleteFlow? && !p.SetState?
    ensures Step(k, p).flows == k.flows
  {
    hide SessionGet, DataOf;
  }

  lemma FlowGone(tr: seq<Probe>, sk: u64, flows: map<u64, Entry>)
    ensures FlowOk(tr + [DeleteFlow(sk)], flows - {sk}, sk)
  {
  }

  lemma FlowTransfer(tr: seq<Probe>, p: Probe, k: KernelV, d: Dir, m: Move, sk: u64)
    requires FlowOk(tr, k.flows, sk) && p != DeleteFlow(sk) && p != DeleteFlow(m.sk)
    requires Moves(tr, p, d) == Some(m) && Moves(tr, p, Other(d)).None?
    ensures FlowOk(tr + [p], Transfer(k, m.sk, m.base, m.n, d, m.ctx, m.tuple, m.user).flows, sk)
  {
    hide FlowOk, Moves, Transfer;
    if sk == m.sk {
      FlowMoves(tr, p, k, d, m);
    } else {
      TransferExact(k, m.sk, m.base, m.n, d, m.ctx, m.tuple, m.user);
      forall e | Moves(tr, p, e).Some?
        ensures e == d
      {
        assert e == d || e == Other(d);
      }
      FlowQuiet(tr, p, k.flows, Transfer(k, m.sk, m.base, m.n, d, m.ctx, m.tuple, m.user).flows, sk);
    }
  }

  /** What returns is what is open. */
  lemma ReturnsOpen(tr: seq<Probe>, p: Probe)
    requires Alternates(tr + [p])
    ensures Alternates(tr)
    ensures p.RecvExit? ==> OpenRecv(tr, p.ctx.id) in {None, Some(p.recv)}
    ensures p.SslReadExit? ==> OpenRead(tr, p.ctx.id) in {None, Some(p.read)}
  {
    assert (tr + [p])[..|tr|] == tr;
  }

  /** However the threads interleave, as long as each returns from the call it is in, an entry
      counts its own socket's bytes, no more and no less, since it was made; it also says how many
      chunks were captured, which process came first, and whether a record was seen. */
  lemma {:induction false} Accounting(tr: seq<Probe>, sk: u64)
    requires Alternates(tr)
    ensures FlowOk(tr, Trace(tr).flows, sk)
  {
    hide FlowOk, Step;
    if tr == [] {
      NothingMoved(sk);
    } else {
      var init, p := tr[..|tr| - 1], tr[|tr| - 1];
      assert tr == init + [p];
      Accounting(init, sk);
      FlowStep(init, p, sk);
    }
  }

  lemma NothingMoved(sk: u64)
    ensures FlowOk([], map[], sk)
  {
  }

  /** No entry of the socket was deleted that had moved bytes in this direction. */
  ghost predicate NothingDropped(tr: seq<Probe>, sk: u64, d: Dir) {
    forall n :: 0 <= n < |tr| && tr[n] == DeleteFlow(sk) ==> Moved(tr[..n], sk, d) == 0
  }

  /** An entry counts the whole of what its socket ever moved exactly if nothing was dropped. */
  lemma {:induction false} WholeLifeIff(tr: seq<Probe>, sk: u64, d: Dir)
    ensures Moved(tr, sk, d) <= MovedEver(tr, sk, d)
    ensures Moved(tr, sk, d) == MovedEver(tr, sk, d) <==> NothingDropped(tr, sk, d)
  {
    hide Moves;
    if tr != [] {
      var init, p := tr[..|tr| - 1], tr[|tr| - 1];
      WholeLifeIff(init, sk, d);
      assert forall n :: 0 <= n < |init| ==> init[n] == tr[n] && init[..n] == tr[..n];
      assert NothingDropped(tr, sk, d) <==>
             NothingDropped(init, sk, d) && (p == DeleteFlow(sk) ==> Moved(init, sk, d) == 0);
      NoDeleteMoves(init, p);
      assert d == Out || d == In;
    }
  }

  // ---- the life of an entry

  ghost predicate LifeOk(tr: seq<Probe>, flows: map<u64, Entry>, sk: u64) {
    && (sk in flows <==> Tracked(tr, sk))
    && (if sk in flows then flows[sk].closed == ClosedSince(tr, sk) && flows[sk].direction == Opened(tr, sk)
        else !ClosedSince(tr, sk) && Opened(tr, sk) == 0)
  }

  lemma LifeStep(tr: seq<Probe>, p: Probe, sk: u64)
    requires LifeOk(tr, Trace(tr).flows, sk) && Alternates(tr + [p])
    ensures LifeOk(tr + [p], Step(Trace(tr), p).flows, sk)
  {
    hide Transfer, OnSetState, OnSslFree, OnSslWrite, OnSslReadExit, Alternates, Trace, MoveOn, Establishes, Closes,
      LifeOk;
    var k := Trace(tr);
    match p
    case SendMsg(ctx, s, base, n, t, user) => LifeMoves(tr, p, k, Out, Move(s, base, n, ctx, t, user), sk);
    case RecvExit(ctx, rc, ret, t, user) =>
      OpenCalls(tr, ctx.id);
      ReturnsOpen(tr, p);
      if ctx.id in k.recvs && ret > 0 && rc.sk != 0 {
        LifeMoves(tr, p, k.(recvs := k.recvs - {ctx.id}), In, Move(rc.sk, rc.base, ret, ctx, t, user), sk);
      } else {
        LifeQuiet(tr, p, k.flows, sk);
      }
    case SetState(s, tcp, o, n) => LifeState(tr, k, s, tcp, o, n, sk);
    case DeleteFlow(s) => LifeDeleted(tr, k.flows, s, sk);
    case _ =>
      OtherFlows(k, p);
      LifeQuiet(tr, p, k.flows, sk);
  }

  lemma LifeQuiet(tr: seq<Probe>, p: Probe, flows: map<u64, Entry>, sk: u64)
    requires LifeOk(tr, flows, sk) && p != DeleteFlow(sk) && !p.SetState?
    requires Moves(tr, p, Out).None? && Moves(tr, p, In).None?
    ensures LifeOk(tr + [p], flows, sk)
  {
    hide Moves;
    assert (tr + [p])[..|tr|] == tr;
  }

  lemma LifeDeleted(tr: seq<Probe>, flows: map<u64, Entry>, s: u64, sk: u64)
    requires LifeOk(tr, flows, sk)
    ensures LifeOk(tr + [DeleteFlow(s)], flows - {s}, sk)
  {
    assert (tr + [DeleteFlow(s)])[..|tr|] == tr;
  }

  lemma LifeState(tr: seq<Probe>, k: KernelV, s: u64, tcp: bool, o: nat, n: nat, sk: u64)
    requires LifeOk(tr, k.flows, sk)
    ensures LifeOk(tr + [SetState(s, tcp, o, n)], OnSetState(k, s, tcp, o, n).flows, sk)
  {
    assert (tr + [SetState(s, tcp, o, n)])[..|tr|] == tr;
  }

  lemma LifeMoves(tr: seq<Probe>, p: Probe, k: KernelV, d: Dir, m: Move, sk: u64)
    requires LifeOk(tr, k.flows, sk) && !p.DeleteFlow? && !p.SetState?
    requires Moves(tr, p, d) == Some(m) && Moves(tr, p, Other(d)).None?
    ensures LifeOk(tr + [p], Transfer(k, m.sk, m.base, m.n, d, m.ctx, m.tuple, m.user).flows, sk)
  {
    hide Moves, Transfer, Captures;
    assert (tr + [p])[..|tr|] == tr;
    TransferFlags(k, m.sk, m.base, m.n, d, m.ctx, m.tuple, m.user);
    assert MoveOn(tr, p, sk).Some? <==> sk == m.sk;
  }

  /** A socket has an entry exactly while it is tracked, and the entry says whether and how the
      socket closed and opened since. */
  lemma {:induction false} Lives(tr: seq<Probe>, sk: u64)
    requires Alternates(tr)
    ensures LifeOk(tr, Trace(tr).flows, sk)
  {
    hide Step, Tracked, ClosedSince, Opened, Alternates;
    if tr == [] {
      NeverLived(sk);
    } else {
      var init, p := tr[..|tr| - 1], tr[|tr| - 1];
      assert tr == init + [p];
      ReturnsOpen(init, p);
      Lives(init, sk);
      LifeStep(init, p, sk);
    }
  }

  lemma NeverLived(sk: u64)
    ensures LifeOk([], map[], sk)
  {
  }

  // ---- plaintext bytes

  /** A session has the plaintext that passed since it began, and comes from where it began. */
  ghost predicate SessionOk(tr: seq<Probe>, sessions: map<u64, Session>, ssl: u64) {
    if ssl in sessions then
      && sessions[ssl].ptx == Passed(tr, ssl, Out) % TWO64
      && sessions[ssl].prx == Passed(tr, ssl, In) % TWO64
      && Passed(tr, ssl, Out) + Passed(tr, ssl, In) > 0
      && Began(tr, ssl) == Some(Origin(sessions[ssl].pid, sessions[ssl].fd))
    else
      Passed(tr, ssl, Out) == 0 && Passed(tr, ssl, In) == 0 && Began(tr, ssl).None?
  }

  ghost predicate FdOk(tr: seq<Probe>, fds: map<u64, i32>, ssl: u64) {
    Given(tr, ssl) == if ssl in fds then fds[ssl] else -1
  }

  /** What a step does to the sessions: it counts what passes, and SSL_free ends one. */
  lemma StepSessions(tr: seq<Probe>, p: Probe)
    requires Alternates(tr + [p])
    ensures var k, w, m := Trace(tr), Step(Trace(tr), p), PassOf(tr, p);
            && (p.SslFree? ==> m.None? && w.sessions == k.sessions - {p.ssl} && w.fds == k.fds - {p.ssl})
            && (p.SslSetFd? ==> m.None? && w.sessions == k.sessions && w.fds == k.fds[p.ssl := p.fd])
            && (m.Some? ==> SessionCounts(k, w.sessions, m.value) && w.fds == k.fds)
            && (!p.SslFree? && !p.SslSetFd? && m.None? ==> w.sessions == k.sessions && w.fds == k.fds)
  {
    hide DataOf, Trace, Alternates, FlowGet;
    if p.SslReadExit? {
      OpenCalls(tr, p.ctx.id);
      ReturnsOpen(tr, p);
    } else if p.SendMsg? || p.RecvExit? {
      hide Captures, MarkTls, Bump;
    }
  }

  ghost predicate SessionCounts(k: KernelV, b: map<u64, Session>, m: Pass) {
    && m.n > 0
    && m.ssl in b && b == k.sessions[m.ssl := b[m.ssl]]
    && var s := if m.ssl in k.sessions then k.sessions[m.ssl]
                else Session(0, 0, ProcessOf(m.ctx.id), if m.ssl in k.fds then k.fds[m.ssl] else -1);
       b[m.ssl] == if m.dir == Out then s.(ptx := (s.ptx + m.n) % TWO64) else s.(prx := (s.prx + m.n) % TWO64)
  }

  lemma PassedSnoc(tr: seq<Probe>, p: Probe, ssl: u64, d: Dir)
    ensures var m := PassOf(tr, p);
            Passed(tr + [p], ssl, d)
            == if p.SslFree? && p.ssl == ssl then 0
               else Passed(tr, ssl, d) + if m.Some? && m.value.ssl == ssl && m.value.dir == d then m.value.n else 0
  {
    assert (tr + [p])[..|tr|] == tr;
  }

  lemma BeganSnoc(tr: seq<Probe>, p: Probe, ssl: u64)
    ensures var m := PassOf(tr, p);
            Began(tr + [p], ssl)
            == if p.SslFree? && p.ssl == ssl then None
               else if Began(tr, ssl).None? && m.Some? && m.value.ssl == ssl
               then Some(Origin(ProcessOf(m.value.ctx.id), Given(tr, ssl)))
               else Began(tr, ssl)
    ensures Given(tr + [p], ssl)
            == if p.SslFree? && p.ssl == ssl then -1
               else if p.SslSetFd? && p.ssl == ssl then p.fd
               else Given(tr, ssl)
  {
    assert (tr + [p])[..|tr|] == tr;
  }

  lemma SessionStep(tr: seq<Probe>, p: Probe, ssl: u64)
    requires SessionOk(tr, Trace(tr).sessions, ssl) && FdOk(tr, Trace(tr).fds, ssl) && Alternates(tr + [p])
    ensures SessionOk(tr + [p], Step(Trace(tr), p).sessions, ssl) && FdOk(tr + [p], Step(Trace(tr), p).fds, ssl)
  {
    hide Step, Passed, PassOf, Began, Given, Alternates, Trace, SessionCounts;
    StepSessions(tr, p);
    PassedSnoc(tr, p, ssl, Out);
    PassedSnoc(tr, p, ssl, In);
    BeganSnoc(tr, p, ssl);
    var m := PassOf(tr, p);
    if m.Some? {
      Counted(Trace(tr), Step(Trace(tr), p).sessions, m.value, ssl, Passed(tr, ssl, Out), Passed(tr, ssl, In));
    }
  }

  lemma Counted(k: KernelV, b: map<u64, Session>, m: Pass, ssl: u64, x: nat, y: nat)
    requires SessionCounts(k, b, m)
    requires if ssl in k.sessions then k.sessions[ssl].ptx == x % TWO64 && k.sessions[ssl].prx == y % TWO64
             else x == 0 && y == 0
    ensures ssl in b <==> ssl in k.sessions || ssl == m.ssl
    ensures ssl in k.sessions && ssl != m.ssl ==> b[ssl] == k.sessions[ssl]
    ensures ssl in b && ssl == m.ssl ==>
              && m.n > 0
              && b[ssl].ptx == (x + if m.dir == Out then m.n else 0) % TWO64
              && b[ssl].prx == (y + if m.dir == In then m.n else 0) % TWO64
              && b[ssl].pid == (if ssl in k.sessions then k.sessions[ssl].pid else ProcessOf(m.ctx.id))
              && b[ssl].fd == if ssl in k.sessions then k.sessions[ssl].fd
                              else if ssl in k.fds then k.fds[ssl] else -1
  {
    WrapsOnce(x, m.n);
    WrapsOnce(y, m.n);
  }

  lemma WrapsOnce(a: nat, n: nat)
    ensures (a % TWO64 + n) % TWO64 == (a + n) % TWO64
  {
  }

  /** ... and likewise every session has exactly the plaintext bytes passed since it began, the
      process that began it and the descriptor it had then. */
  lemma {:induction false} PlainAccounting(tr: seq<Probe>, ssl: u64)
    requires Alternates(tr)
    ensures SessionOk(tr, Trace(tr).sessions, ssl) && FdOk(tr, Trace(tr).fds, ssl)
  {
    hide SessionOk, FdOk, Step;
    if tr == [] {
      NothingPassed(ssl);
    } else {
      var init, p := tr[..|tr| - 1], tr[|tr| - 1];
      assert tr == init + [p];
      PlainAccounting(init, ssl);
      SessionStep(init, p, ssl);
    }
  }

  lemma NothingPassed(ssl: u64)
    ensures SessionOk([], map[], ssl) && FdOk([], map[], ssl)
  {
  }

  // ---- what goes into the ring

  /** The events that say that a session ended. */
  function ClosesOf(es: seq<Event>): seq<Event> {
    if es == [] then []
    else
      var e := es[|es| - 1];
      ClosesOf(es[..|es| - 1]) + if e.CloseEvent? then [e] else []
  }

  /** The chunks in the wire events of one socket and direction. */
  function Wires(es: seq<Event>, sk: u64, d: Dir): seq<Bytes> {
    if es == [] then []
    else
      var e := es[|es| - 1];
      Wires(es[..|es| - 1], sk, d) + if e.WireEvent? && e.sock == sk && e.dir == Code(d) then [e.data] else []
  }

  /** The pieces of plaintext in the data events of one session and direction. */
  function Pieces(es: seq<Event>, ssl: u64, d: Dir): seq<Bytes> {
    if es == [] then []
    else
      var e := es[|es| - 1];
      Pieces(es[..|es| - 1], ssl, d) + if e.DataEvent? && e.ssl == ssl && e.dir == Code(d) then [e.data] else []
  }

  /** What is captured by the probes is what is due. */
  lemma CaptureExact(count: nat, m: Move)
    ensures Captures(count, m.base, m.n, m.user) == Due(count, m)
    ensures Arms(m.n, m.user.mem) <==> m.n >= 5 && StartsRecord(m.user.mem)
  {
  }

  lemma TransferRing(tr: seq<Probe>, k: KernelV, d: Dir, m: Move)
    requires FlowOk(tr, k.flows, m.sk)
    ensures Transfer(k, m.sk, m.base, m.n, d, m.ctx, m.tuple, m.user).ring == k.ring + WireSaid(tr, m, d)
  {
    hide Transfer, Captures, Arms, FlowGet, Due, Captured, Moved, Identified, Armed;
    TransferExact(k, m.sk, m.base, m.n, d, m.ctx, m.tuple, m.user);
    FlowGetKeeps(k, m.sk, m.ctx, m.tuple);
    CaptureExact(|Captured(tr, m.sk, d)|, m);
  }

  lemma EmitRing(k: KernelV, m: Pass, tr: seq<Probe>, p: Probe, buf: u64)
    requires PassOf(tr, p) == Some(m) && buf != 0 && m.n < TWO32 / 2
    requires SessionOk(tr, k.sessions, m.ssl) && FdOk(tr, k.fds, m.ssl)
    ensures EmitPlaintext(k, m.ssl, buf, m.n, m.dir, m.ctx, m.user).ring == k.ring + TextSaid(tr, p)
  {
    hide Passed, Began, Given;
    BeganSnoc(tr, p, m.ssl);
  }

  /** A step submits what there is to say. */
  lemma StepRing(tr: seq<Probe>, p: Probe)
    requires Alternates(tr + [p])
    ensures Step(Trace(tr), p).ring == Trace(tr).ring + Said(tr, p)
  {
    hide Transfer, Trace, Alternates, WireSaid, EmitPlaintext, FlowOk, SessionOk, FdOk, TextSaid, CloseSaid;
    var k := Trace(tr);
    ReturnsOpen(tr, p);
    match p
    case SendMsg(ctx, sk, base, size, t, user) =>
      Accounting(tr, sk);
      TransferRing(tr, k, Out, Move(sk, base, size, ctx, t, user));
    case RecvExit(ctx, rc, ret, t, user) =>
      OpenCalls(tr, ctx.id);
      if ctx.id in k.recvs && ret > 0 && rc.sk != 0 {
        Accounting(tr, rc.sk);
        TransferRing(tr, k.(recvs := k.recvs - {ctx.id}), In, Move(rc.sk, rc.base, ret, ctx, t, user));
      } else {
        SaysNothing(tr, p);
      }
    case SslFree(ctx, ssl, room) => FreeRing(tr, p);
    case SslWrite(ctx, ssl, buf, num, user) =>
      PlainAccounting(tr, ssl);
      SaysText(tr, p);
      if num > 0 && buf != 0 {
        EmitRing(k, Pass(Out, ssl, num, ctx, user), tr, p, buf);
      } else {
        SaysNothing(tr, p);
        NothingEmitted(k, ssl, buf, num, Out, ctx, user);
      }
    case SslReadExit(ctx, c, ret, user) =>
      PlainAccounting(tr, c.ssl);
      OpenCalls(tr, ctx.id);
      SaysText(tr, p);
      var w := k.(sslReads := k.sslReads - {ctx.id});
      if ctx.id in k.sslReads && ret > 0 && c.buf != 0 {
        EmitRing(w, Pass(In, c.ssl, ret, ctx, user), tr, p, c.buf);
      } else {
        SaysNothing(tr, p);
        NothingEmitted(w, c.ssl, c.buf, ret, In, ctx, user);
      }
    case _ => SaysNothing(tr, p);
  }

  lemma NothingEmitted(k: KernelV, ssl: u64, buf: u64, n: i32, d: Dir, ctx: Ctx, user: User)
    ensures buf == 0 && n > 0 ==> EmitPlaintext(k, ssl, buf, n, d, ctx, user) == k
  {
  }

  lemma SaysText(tr: seq<Probe>, p: Probe)
    requires p.SslWrite? || p.SslReadExit?
    ensures Said(tr, p) == TextSaid(tr, p)
  {
    hide TextSaid;
    assert CloseSaid(tr, p) == [];
  }

  lemma SaysNothing(tr: seq<Probe>, p: Probe)
    requires !p.SslFree? && PassOf(tr, p).None? && Moves(tr, p, Out).None? && Moves(tr, p, In).None?
    ensures Said(tr, p) == []
  {
  }

  lemma FreeRing(tr: seq<Probe>, p: Probe)
    requires Alternates(tr) && p.SslFree?
    ensures Step(Trace(tr), p).ring == Trace(tr).ring + Said(tr, p)
  {
    hide Trace, Alternates, Passed, Began;
    PlainAccounting(tr, p.ssl);
    assert TextSaid(tr, p) == [];
  }

  /** The ring has, in order, exactly what there was to say: a wire event for every chunk due, a data
      event for every piece of plaintext that could be carried, a close event for every session that
      ended, each with its socket or session, direction, process, thread, descriptor, totals and
      bytes as the trace has them. */
  lemma {:induction false} RingTold(tr: seq<Probe>)
    requires Alternates(tr)
    ensures Trace(tr).ring == Submitted(tr)
  {
    hide Step, Said, Alternates;
    if tr != [] {
      var init, p := tr[..|tr| - 1], tr[|tr| - 1];
      assert tr == init + [p];
      ReturnsOpen(init, p);
      RingTold(init);
      StepRing(init, p);
    }
  }

  lemma SubmittedSnoc(tr: seq<Probe>, p: Probe)
    ensures Submitted(tr + [p]) == Submitted(tr) + Said(tr, p) && |Said(tr, p)| <= 1
  {
    assert (tr + [p])[..|tr|] == tr;
    SaidOnce(tr, p);
  }

  lemma SaidOnce(tr: seq<Probe>, p: Probe)
    ensures |Said(tr, p)| <= 1
  {
    hide Due, Carried, Captured, Passed, Began;
    assert p.SslFree? ==> TextSaid(tr, p) == [];
  }

  lemma ClosesAppend(es: seq<Event>, fs: seq<Event>)
    requires |fs| <= 1
    ensures ClosesOf(es + fs) == ClosesOf(es) + ClosesOf(fs)
  {
    if fs != [] {
      assert (es + fs)[..|es|] == es && fs[..0] == [];
    } else {
      assert es + fs == es;
    }
  }

  lemma WiresAppend(es: seq<Event>, fs: seq<Event>, sk: u64, d: Dir)
    requires |fs| <= 1
    ensures Wires(es + fs, sk, d) == Wires(es, sk, d) + Wires(fs, sk, d)
  {
    if fs != [] {
      assert (es + fs)[..|es|] == es && fs[..0] == [];
    } else {
      assert es + fs == es;
    }
  }

  lemma PiecesAppend(es: seq<Event>, fs: seq<Event>, ssl: u64, d: Dir)
    requires |fs| <= 1
    ensures Pieces(es + fs, ssl, d) == Pieces(es, ssl, d) + Pieces(fs, ssl, d)
  {
    if fs != [] {
      assert (es + fs)[..|es|] == es && fs[..0] == [];
    } else {
      assert es + fs == es;
    }
  }

  lemma OneEvent(e: Event, ssl: u64, sk: u64, d: Dir)
    ensures ClosesOf([e]) == if e.CloseEvent? then [e] else []
    ensures Pieces([e], ssl, d) == if e.DataEvent? && e.ssl == ssl && e.dir == Code(d) then [e.data] else []
    ensures Wires([e], sk, d) == if e.WireEvent? && e.sock == sk && e.dir == Code(d) then [e.data] else []
    ensures ClosesOf([]) == [] && Pieces([], ssl, d) == [] && Wires([], sk, d) == []
  {
    assert [e][..0] == [];
  }

  /** What each probe has to say is of one kind. */
  lemma SaidKinds(tr: seq<Probe>, p: Probe, ssl: u64, sk: u64, d: Dir)
    ensures ClosesOf(Said(tr, p)) == CloseSaid(tr, p)
    ensures Pieces(Said(tr, p), ssl, d)
            == var m := PassOf(tr, p);
               if m.Some? && m.value.ssl == ssl && m.value.dir == d && Carried(m.value.n, m.value.user).Some?
               then [Carried(m.value.n, m.value.user).value] else []
    ensures Wires(Said(tr, p), sk, d)
            == var m := Moves(tr, p, d);
               if m.Some? && m.value.sk == sk && Due(|Captured(tr, sk, d)|, m.value).Some?
               then [Due(|Captured(tr, sk, d)|, m.value).value] else []
  {
    hide Due, Carried, Captured, Passed, SessionFd, ClosesOf, Pieces, Wires, ProcessOf, ThreadOf;
    SaidOnce(tr, p);
    assert d == Out || d == In;
    OneEvent(if Said(tr, p) == [] then CloseEvent(0, 0, 0, 0, 0) else Said(tr, p)[0], ssl, sk, d);
    assert Said(tr, p) == [] || Said(tr, p) == [Said(tr, p)[0]];
  }

  /** The close events carry, in order, who freed which session, its descriptor and its exact
      totals. */
  lemma {:induction false} ClosesExact(tr: seq<Probe>)
    requires Alternates(tr)
    ensures ClosesOf(Trace(tr).ring) == Freed(tr)
  {
    hide Trace, Alternates, Submitted;
    RingTold(tr);
    ClosesSubmitted(tr);
  }

  lemma {:induction false} ClosesSubmitted(tr: seq<Probe>)
    ensures ClosesOf(Submitted(tr)) == Freed(tr)
  {
    hide Said, CloseSaid;
    if tr != [] {
      var init, p := tr[..|tr| - 1], tr[|tr| - 1];
      ClosesSubmitted(init);
      SaidOnce(init, p);
      SaidKinds(init, p, 0, 0, Out);
      ClosesAppend(Submitted(init), Said(init, p));
    }
  }

  /** ... and the data events of a session and direction carry, in order, what could be seen of each
      buffer that passed. */
  lemma PiecesExact(tr: seq<Probe>, ssl: u64, d: Dir)
    requires Alternates(tr)
    ensures Pieces(Trace(tr).ring, ssl, d) == Texts(tr, ssl, d)
  {
    hide Trace, Alternates, Submitted;
    RingTold(tr);
    PiecesSubmitted(tr, ssl, d);
  }

  lemma {:induction false} PiecesSubmitted(tr: seq<Probe>, ssl: u64, d: Dir)
    ensures Pieces(Submitted(tr), ssl, d) == Texts(tr, ssl, d)
  {
    hide Said, Carried, PassOf;
    if tr != [] {
      var init, p := tr[..|tr| - 1], tr[|tr| - 1];
      PiecesSubmitted(init, ssl, d);
      SaidOnce(init, p);
      SaidKinds(init, p, ssl, 0, d);
      PiecesAppend(Submitted(init), Said(init, p), ssl, d);
    }
  }

  // ---- captured chunks

  /** What is due is the start of the buffer; it is empty only if the size is a multiple of two to
      the 32. */
  lemma DueExact(count: nat, m: Move)
    ensures var c := Due(count, m);
            c.Some? ==>
              && m.n >= 1 && count < 16
              && c.value <= m.user.mem
              && |c.value| == Min(m.n % TWO32, 1023)
              && (c.value == [] <==> m.n % TWO32 == 0)
              && (m.n < TWO32 && count == 0 ==> StartsRecord(c.value))
  {
  }

  /** The start of any record, of each of the four types and of each minor version up to 4, arms a
      direction; of another kind, or short of a header, it does not. */
  lemma RecordArms(kind: byte, minor: byte, payload: Bytes, base: u64)
    requires |payload| < TWO16 && base != 0
    ensures var b := [kind, 3, minor] + (PutBe16(|payload|) + payload);
            Captures(0, base, |b|, User(b, true))
            == if kind in {20, 21, 22, 23} && minor <= 4 then Some(b[..Min(|b|, 1023)]) else None
  {
    hide PutBe16, Captures, StartsRecord;
    var b := [kind, 3, minor] + (PutBe16(|payload|) + payload);
    var m := Move(0, base, |b|, Ctx(0, ""), Tuple(0, 0, false, [0, 0, 0, 0], [0, 0, 0, 0]), User(b, true));
    CaptureExact(0, m);
    RecordStarts(b);
  }

  lemma RecordStarts(b: Bytes)
    requires |b| >= 5 && b[1] == 3
    ensures StartsRecord(b) <==> b[0] in {20, 21, 22, 23} && b[2] <= 4
  {
  }

  predicate SmallSends(tr: seq<Probe>) {
    forall p :: p in tr && p.SendMsg? ==> p.size < TWO32
  }

  ghost predicate Bounded(ds: seq<Bytes>) {
    |ds| <= 16 && forall d :: d in ds ==> |d| <= 1023
  }

  /** In the life of one entry, each direction emits at most sixteen events of at most 1023
      bytes; they are not empty, and the first is the start of a record, if no send is larger than
      32 bits. */
  lemma {:induction false} CaptureBound(tr: seq<Probe>, sk: u64, d: Dir)
    ensures Bounded(Captured(tr, sk, d))
    ensures SmallSends(tr) ==> var c := Captured(tr, sk, d);
                               (forall b :: b in c ==> b != []) && (c != [] ==> StartsRecord(c[0]))
  {
    hide Due, StartsRecord;
    if tr != [] {
      var init, p := tr[..|tr| - 1], tr[|tr| - 1];
      CaptureBound(init, sk, d);
      assert p in tr && forall q :: q in init ==> q in tr;
      var m := Moves(init, p, d);
      if m.Some? {
        DueExact(|Captured(init, sk, d)|, m.value);
      }
    }
  }

  lemma CaptureLimit(count: nat, base: u64, n: u64, user: User)
    ensures Captures(count, base, n, user).Some? ==> count < MAX_WIRE_EVENTS
  {
  }

  /** A send of exactly four gibibytes is captured as an event with nothing in it. */
  lemma EmptyCapture(ctx: Ctx, sk: u64, t: Tuple, mem: Bytes)
    requires StartsRecord(mem)
    ensures var tr := [SendMsg(ctx, sk, 1, 0x1_0000_0000, t, User(mem, true))];
            Captured(tr, sk, Out) == [[]] && Trace(tr).ring == [WireEvent(1, sk, [])]
  {
    var p := SendMsg(ctx, sk, 1, 0x1_0000_0000, t, User(mem, true));
    assert [p][..0] == [];
    RingTold([p]);
  }

  /** The last wire events of a socket are those of its entry, and all of them are if no entry
      of it was ever deleted. */
  ghost predicate WiresOk(tr: seq<Probe>, ring: seq<Event>, sk: u64, d: Dir) {
    var c, w := Captured(tr, sk, d), Wires(ring, sk, d);
    EndsIn(w, c) && (DeleteFlow(sk) !in tr ==> w == c)
  }

  predicate EndsIn(w: seq<Bytes>, c: seq<Bytes>) {
    |c| <= |w| && w[|w| - |c|..] == c
  }

  lemma WiresExact(tr: seq<Probe>, sk: u64, d: Dir)
    requires Alternates(tr)
    ensures WiresOk(tr, Trace(tr).ring, sk, d)
  {
    hide Trace, Alternates, Submitted, WiresOk;
    RingTold(tr);
    WiresSubmitted(tr, sk, d);
  }

  lemma {:induction false} WiresSubmitted(tr: seq<Probe>, sk: u64, d: Dir)
    ensures WiresOk(tr, Submitted(tr), sk, d)
  {
    hide Said, Captured, EndsIn;
    if tr == [] {
      NoWires(sk, d);
    } else {
      var init, p := tr[..|tr| - 1], tr[|tr| - 1];
      assert tr == init + [p];
      WiresSubmitted(init, sk, d);
      SubmittedSnoc(init, p);
      CapturedSnoc(init, p, sk, d);
      WiresAppend(Submitted(init), Said(init, p), sk, d);
      assert p in tr && forall q :: q in init ==> q in tr;
      SuffixAppend(Captured(init, sk, d), Wires(Submitted(init), sk, d), Wires(Said(init, p), sk, d));
    }
  }

  lemma NoWires(sk: u64, d: Dir)
    ensures WiresOk([], [], sk, d)
  {
  }

  lemma SuffixAppend(c: seq<Bytes>, w: seq<Bytes>, x: seq<Bytes>)
    requires EndsIn(w, c)
    ensures EndsIn(w + x, c + x) && EndsIn(w + x, [])
  {
  }

  lemma CapturedSnoc(tr: seq<Probe>, p: Probe, sk: u64, d: Dir)
    ensures Captured(tr + [p], sk, d)
         == if p == DeleteFlow(sk) then [] else Captured(tr, sk, d) + Wires(Said(tr, p), sk, d)
  {
    hide Due, Moves, Said, Wires;
    assert (tr + [p])[..|tr|] == tr;
    SaidKinds(tr, p, 0, sk, d);
    assert Captured(tr, sk, d) + [] == Captured(tr, sk, d);
  }

  lemma NoDeleteMoves(tr: seq<Probe>, p: Probe)
    ensures p.DeleteFlow? || p.SslFree? ==> Moves(tr, p, Out).None? && Moves(tr, p, In).None?
  {
  }

  /** The wire events that were submitted since some point are the chunks captured since, if
      the socket was not captured then and no entry of it was deleted since. */
  lemma WiresSince(was: seq<Probe>, tr: seq<Probe>, sk: u64, d: Dir)
    requires was <= tr && Alternates(tr) && Captured(was, sk, d) == [] && DeleteFlow(sk) !in tr[|was|..]
    ensures Wires(Trace(tr).ring, sk, d) == Wires(Trace(was).ring, sk, d) + Captured(tr, sk, d)
  {
    hide Trace, Alternates, Captured, Submitted, Wires;
    AlternatesBefore(was, tr);
    RingTold(was);
    RingTold(tr);
    SubmittedSince(was, tr, sk, d);
  }

  lemma {:induction false} AlternatesBefore(was: seq<Probe>, tr: seq<Probe>)
    requires was <= tr && Alternates(tr)
    ensures Alternates(was)
    decreases |tr|
  {
    if was != tr {
      assert tr == tr[..|tr| - 1] + [tr[|tr| - 1]];
      AlternatesBefore(was, tr[..|tr| - 1]);
    }
  }

  lemma {:induction false} SubmittedSince(was: seq<Probe>, tr: seq<Probe>, sk: u64, d: Dir)
    requires was <= tr && Captured(was, sk, d) == [] && DeleteFlow(sk) !in tr[|was|..]
    ensures Wires(Submitted(tr), sk, d) == Wires(Submitted(was), sk, d) + Captured(tr, sk, d)
    decreases |tr|
  {
    hide Said, Wires, Captured;
    if tr == was {
      assert Wires(Submitted(was), sk, d) + [] == Wires(Submitted(was), sk, d);
    } else {
      var init, p := tr[..|tr| - 1], tr[|tr| - 1];
      assert tr == init + [p] && was <= init && p in tr[|was|..];
      assert forall q :: q in init[|was|..] ==> q in tr[|was|..] by {
        assert init[|was|..] == tr[|was|..][..|init| - |was|];
      }
      SubmittedSince(was, init, sk, d);
      SubmittedSnoc(init, p);
      CapturedSnoc(init, p, sk, d);
      WiresAppend(Submitted(init), Said(init, p), sk, d);
      AppendAssoc(Wires(Submitted(was), sk, d), Captured(init, sk, d), Wires(Said(init, p), sk, d));
    }
  }

  // ---- what may come out of the ring

  /** Every event fits its structure and names a direction; data is not empty, and captured bytes are
      not if no send is larger than 32 bits. */
  ghost predicate RingOk(tr: seq<Probe>, e: Event) {
    && Emittable(e)
    && (e.WireEvent? ==> e.dir in {1, 2} && (SmallSends(tr) ==> e.data != []))
    && (e.DataEvent? ==> e.dir in {1, 2} && e.data != [])
  }

  lemma RingExact(tr: seq<Probe>, i: nat)
    requires Alternates(tr) && i < |Trace(tr).ring|
    ensures RingOk(tr, Trace(tr).ring[i])
  {
    hide Trace, Alternates, Submitted, RingOk;
    RingTold(tr);
    SubmittedOk(tr, i);
  }

  lemma {:induction false} SubmittedOk(tr: seq<Probe>, i: nat)
    requires i < |Submitted(tr)|
    ensures RingOk(tr, Submitted(tr)[i])
  {
    hide Said, Emittable;
    var init, p := tr[..|tr| - 1], tr[|tr| - 1];
    assert tr == init + [p];
    if i < |Submitted(init)| {
      SubmittedOk(init, i);
      assert forall q :: q in init ==> q in tr;
    } else {
      SaidOnce(init, p);
      SaidOk(init, p);
    }
  }

  lemma SaidOk(tr: seq<Probe>, p: Probe)
    ensures forall e :: e in Said(tr, p) ==> RingOk(tr + [p], e)
  {
    hide Due, Captured, Passed, Began, Given, StartsRecord;
    assert p in tr + [p];
    var o, i := Moves(tr, p, Out), Moves(tr, p, In);
    if o.Some? {
      DueExact(|Captured(tr, o.value.sk, Out)|, o.value);
    } else if i.Some? {
      DueExact(|Captured(tr, i.value.sk, In)|, i.value);
    }
  }
}
