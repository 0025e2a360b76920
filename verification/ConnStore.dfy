/** The connection table as it runs: records that are updated in place, maps that are
    reassigned, loops over maps in whatever order.  Every method is proved to be the operation
    of `StoreSpec` on the abstract value of the store, for some choice of what is left to
    chance; the choice is a ghost result. */
module ConnStore {
  import opened Bytes
  import opened Endpoint
  import opened TlsInfo
  import opened TlsSpec
  import TlsParse
  import opened Reassembly
  import opened StoreSpec
  import StoreRuns
  import StoreLaws

  /** One tracked connection. */
  class Conn {
    const sock: u64
    ghost const id: nat
    var pid: u32
    var comm: string
    var local: Option<AddrPort>
    var remote: Option<AddrPort>
    var direction: byte
    var tx: u64
    var rx: u64
    var ptx: u64
    var prx: u64
    var isTls: bool
    var closed: bool
    var preexisting: bool
    var closedAt: bool
    var info: InfoV
    var plain: Sample
    var plainFinal: bool
    var wireOut: Bytes
    var wireIn: Bytes
    ghost var seen: seq<Chunk>

    ghost function View(): ConnV
      reads this
    {
      ConnV(id, sock, pid, comm, local, remote, direction, tx, rx, ptx, prx, isTls, closed, preexisting, closedAt,
            Wire(wireOut, wireIn, info), plain, plainFinal, seen)
    }

    constructor (sock: u64, ghost id: nat)
      ensures View() == NewConn(id, sock) && this.sock == sock
    {
      this.sock, this.id := sock, id;
      pid, comm, local, remote, direction := 0, "", None, None, 0;
      tx, rx, ptx, prx := 0, 0, 0, 0;
      isTls, closed, preexisting, closedAt := false, false, false, false;
      info, plain, plainFinal, wireOut, wireIn, seen := EMPTY_INFO, NO_SAMPLE, false, [], [], [];
    }

    constructor Copy(c: Conn)
      ensures View() == c.View() && sock == c.sock
    {
      sock, id, seen := c.sock, c.id, c.seen;
      pid, comm, local, remote, direction := c.pid, c.comm, c.local, c.remote, c.direction;
      tx, rx, ptx, prx := c.tx, c.rx, c.ptx, c.prx;
      isTls, closed, preexisting, closedAt := c.isTls, c.closed, c.preexisting, c.closedAt;
      info, plain, plainFinal, wireOut, wireIn := c.info, c.plain, c.plainFinal, c.wireOut, c.wireIn;
    }

    /** What a snapshot entry says about the connection. */
    method Refresh(f: Flow)
      modifies this
      ensures View() == TouchConn(old(View()), f)
    {
      hide IpFrom, View;
      Identify(f);
      SetDirection(f.direction);
      Count(f);
      Classify(f);
    }

    method Identify(f: Flow)
      modifies this`pid, this`comm, this`local, this`remote
      ensures View() == old(View()).(
                          pid := f.pid,
                          comm := f.comm,
                          local := Some(AddrPort(IpFrom(f.saddr, f.isIpv6), f.sport)),
                          remote := Some(AddrPort(IpFrom(f.daddr, f.isIpv6), f.dport)))
    {
      hide IpFrom;
      pid := f.pid;
      comm := f.comm;
      local := Some(AddrPort(IpFrom(f.saddr, f.isIpv6), f.sport));
      remote := Some(AddrPort(IpFrom(f.daddr, f.isIpv6), f.dport));
    }

    method SetDirection(d: byte)
      modifies this`direction
      ensures View() == if d != 0 then old(View()).(direction := d) else old(View())
    {
      if d != 0 {
        direction := d;
      }
    }

    method Count(f: Flow)
      modifies this`tx, this`rx, this`closed
      ensures View() == old(View()).(tx := f.tx, rx := f.rx, closed := f.closed)
    {
      tx, rx, closed := f.tx, f.rx, f.closed;
    }

    method Classify(f: Flow)
      modifies this`isTls, this`preexisting
      ensures View() == var tls := old(View()).isTls || f.isTls;
                        old(View()).(isTls := tls, preexisting := tls && !SawHello(old(View())))
    {
      if f.isTls {
        isTls := true;
      }
      preexisting := isTls && !info.hasClientHello && !info.hasServerHello;
    }

    /** One captured chunk: append to the buffer of its direction, parse all of that buffer. */
    method FoldChunk(x509: X509, dir: byte, data: Bytes)
      modifies this
      ensures View() == FoldWire(x509, old(View()), Chunk(DirOf(dir), data))
    {
      hide ParseInfo, View, Push;
      var buf := Append(dir, data);
      Reparse(x509, buf);
      Note(Chunk(DirOf(dir), data));
      Caught();
    }

    method Append(dir: byte, data: Bytes) returns (buf: Bytes)
      modifies this`wireOut, this`wireIn
      ensures buf == Push(old(View()).wire.Buf(DirOf(dir)), data)
      ensures View() == old(View()).(wire := if DirOf(dir) == In then old(View()).wire.(inBuf := buf)
                                             else old(View()).wire.(outBuf := buf))
    {
      buf := if dir == 2 then wireIn else wireOut;
      if |buf| < MAX_WIRE_BUF {
        buf := buf + data;
      }
      if dir == 2 {
        wireIn := buf;
      } else {
        wireOut := buf;
      }
    }

    method Reparse(x509: X509, buf: Bytes)
      modifies this`info
      ensures View() == old(View()).(wire := old(View()).wire.(info := ParseInfo(x509, buf, old(View()).wire.info)))
    {
      hide ParseInfo;
      info := ParseInto(x509, buf, info);
    }

    ghost method Note(chunk: Chunk)
      modifies this`seen
      ensures View() == old(View()).(seen := old(View()).seen + [chunk])
    {
      seen := seen + [chunk];
    }

    /** A hello was seen: this is TLS, and it did not start before us. */
    method Caught()
      modifies this`isTls, this`preexisting
      ensures View() == if SawHello(old(View())) then old(View()).(isTls := true, preexisting := false) else old(View())
    {
      if info.hasClientHello || info.hasServerHello {
        isTls := true;
        preexisting := false;
      }
    }

    method MarkRetired()
      modifies this`closedAt, this`wireOut, this`wireIn
      ensures View() == RetiredConn(old(View()))
    {
      if !closedAt {
        closedAt := true;
      }
      wireOut, wireIn := [], [];
    }

    method JoinPlain(samples: map<u64, Sample>, ssl: u64)
      modifies this`plain
      ensures View() == if ssl in samples then old(View()).(plain := samples[ssl]) else old(View())
    {
      if ssl in samples {
        plain := samples[ssl];
      }
    }

    /** The totals of a session that ended. */
    method Finish(e: Close, samples: map<u64, Sample>)
      modifies this`ptx, this`prx, this`plain, this`plainFinal
      ensures View() == (if e.ssl in samples then old(View()).(plain := samples[e.ssl]) else old(View())).(
                          ptx := e.ptx, prx := e.prx, plainFinal := true)
    {
      hide View;
      SetPlain(e.ptx, e.prx, true);
      JoinPlain(samples, e.ssl);
    }

    method SetPlain(ptx: u64, prx: u64, final: bool)
      modifies this`ptx, this`prx, this`plainFinal
      ensures View() == old(View()).(ptx := ptx, prx := prx, plainFinal := final)
    {
      this.ptx, this.prx, plainFinal := ptx, prx, final;
    }

    method Zero()
      modifies this`ptx, this`prx
      ensures View() == ZeroConn(old(View()))
    {
      if !plainFinal {
        ptx, prx := 0, 0;
      }
    }

    /** The totals so far of a session that is still open. */
    method Add(st: SslStat, samples: map<u64, Sample>)
      modifies this`ptx, this`prx, this`plain
      ensures View() == (if st.ssl in samples then old(View()).(plain := samples[st.ssl]) else old(View())).(
                          ptx := Add64(old(View()).ptx, st.ptx), prx := Add64(old(View()).prx, st.prx))
    {
      ptx, prx := Add64(ptx, st.ptx), Add64(prx, st.prx);
      JoinPlain(samples, st.ssl);
    }
  }

  /** Parses into a copy of the information, which is a field by value of the record. */
  method ParseInto(x509: X509, buf: Bytes, i: InfoV) returns (j: InfoV)
    ensures j == ParseInfo(x509, buf, i)
  {
    var info := new TlsParse.Info.From(i);
    TlsParse.Parse(x509, buf, info);
    j := info.View();
  }

  ghost function Views(cs: seq<Conn>): (vs: seq<ConnV>)
    reads cs
    ensures |vs| == |cs| && forall i :: 0 <= i < |cs| ==> vs[i] == cs[i].View()
  {
    if cs == [] then [] else Views(cs[..|cs| - 1]) + [cs[|cs| - 1].View()]
  }

  lemma NoFlows(v: StoreV)
    ensures TouchAll(v, []) == v && Seen([]) == {}
  {
  }

  lemma OneFlow(v: StoreV, fs: seq<Flow>, i: nat)
    requires i < |fs|
    ensures TouchAll(v, fs[..i + 1]) == Touch(TouchAll(v, fs[..i]), fs[i])
    ensures Seen(fs[..i + 1]) == Seen(fs[..i]) + {fs[i].sock}
  {
    assert fs[..i + 1][..i] == fs[..i];
    StoreRuns.SeenSnoc(fs[..i], fs[i]);
    assert fs[..i + 1] == fs[..i] + [fs[i]];
  }

  class Store {
    var conns: map<u64, Conn>
    var history: seq<Conn>
    const maxHistory: nat
    const peekBytes: nat
    var pidfd: map<nat, u64>
    var plainBySsl: map<u64, Sample>
    ghost var created: nat
    ghost var retired: seq<ConnV>
    ghost var chunks: map<u64, Chunks>
    const x509: X509
    ghost var ops: seq<Op>

    /** No record is shared, neither between sockets nor with the history. */
    ghost predicate Valid()
      reads this`conns, this`history, conns.Values
    {
      && (forall j, k :: j in conns && k in conns && j != k ==> conns[j] != conns[k])
      && (forall k :: k in conns ==> conns[k] !in history && conns[k].sock == k)
    }

    ghost function ConnViews(): map<u64, ConnV>
      reads this`conns, conns.Values
    {
      map k | k in conns :: conns[k].View()
    }

    ghost function View(): StoreV
      reads this`conns, this`history, this`pidfd, this`plainBySsl, this`created, this`retired, this`chunks,
            conns.Values, history
    {
      StoreV(ConnViews(), History(), maxHistory, peekBytes, pidfd, plainBySsl, created, retired, chunks)
    }

    /** The store is where its operations lead from an empty one. */
    ghost predicate Ran()
      reads this`conns, this`history, this`pidfd, this`plainBySsl, this`created, this`retired, this`chunks, this`ops
      reads conns.Values, history
    {
      CanRun(x509, NewStore(maxHistory, peekBytes), ops) && View() == Run(x509, NewStore(maxHistory, peekBytes), ops)
    }

    constructor (x509: X509, maxHistory: int, peekBytes: int)
      ensures Valid() && View() == NewStore(maxHistory, peekBytes) && conns == map[]
      ensures this.x509 == x509 && ops == [] && Ran()
    {
      this.x509, ops := x509, [];
      this.maxHistory := if maxHistory < 0 then 0 else maxHistory;
      this.peekBytes := if peekBytes < 0 then 0 else peekBytes;
      conns, history, pidfd, plainBySsl := map[], [], map[], map[];
      created, retired, chunks := 0, [], map[];
    }

    /** Notes the operation that led from `v` to here. */
    ghost method Log(v: StoreV, op: Op)
      requires Legal(v, op) && View() == Next(x509, v, op)
      modifies this`ops
      ensures ops == old(ops) + [op]
      ensures CanRun(x509, NewStore(maxHistory, peekBytes), old(ops))
              && v == Run(x509, NewStore(maxHistory, peekBytes), old(ops))
              ==> Ran()
    {
      hide CanRun, Run, Legal, Next, View;
      if CanRun(x509, NewStore(maxHistory, peekBytes), ops) && v == Run(x509, NewStore(maxHistory, peekBytes), ops) {
        StoreRuns.RunMore(x509, NewStore(maxHistory, peekBytes), ops, op);
      }
      ops := ops + [op];
    }

    /** The connection of a socket, created on first sight. */
    method Lookup(sock: u64) returns (c: Conn)
      requires Valid()
      modifies this`conns, this`created
      ensures Valid() && View() == Ensure(old(View()), sock)
      ensures sock in conns && c == conns[sock]
      ensures forall k :: k in conns ==> (k in old(conns) && conns[k] == old(conns)[k]) || fresh(conns[k])
      ensures forall d :: d in old(conns.Values) ==> d.View() == old(d.View())
    {
      hide NewConn, Conn.View;
      if sock !in conns {
        Create(sock);
      }
      c := conns[sock];
    }

    method Create(sock: u64)
      requires Valid() && sock !in conns
      modifies this`conns, this`created
      ensures Valid() && View() == Ensure(old(View()), sock)
      ensures sock in conns && fresh(conns[sock]) && conns == old(conns)[sock := conns[sock]]
      ensures forall d :: d in old(conns.Values) ==> d.View() == old(d.View())
    {
      hide NewConn, Conn.View, History;
      var c := new Conn(sock, created);
      conns := conns[sock := c];
      created := created + 1;
      assert ConnViews() == old(ConnViews())[sock := c.View()];
    }

    method UpdateFlow(f: Flow)
      requires Valid()
      modifies this`conns, this`created, conns.Values
      ensures Valid() && View() == Touch(old(View()), f)
      ensures forall k :: k in conns ==> (k in old(conns) && conns[k] == old(conns)[k]) || fresh(conns[k])
    {
      hide TouchConn, Ensure, NewConn, Conn.View;
      var c := Lookup(f.sock);
      ghost var w := View();
      c.Refresh(f);
      assert ConnViews() == w.conns[f.sock := TouchConn(w.conns[f.sock], f)];
    }

    /** Moves a connection out of the live table and into the history ring. */
    method RetireOne(k: u64)
      requires Valid() && k in conns
      modifies this`conns, this`history, this`retired, conns[k]
      ensures Valid() && View() == StoreSpec.Retire(old(View()), k)
      ensures conns == old(conns) - {k}
    {
      hide Conn.View, RetiredConn, PushHistory;
      Retire(conns[k]);
      conns := conns - {k};
      assert ConnViews() == old(ConnViews()) - {k};
    }

    method Retire(c: Conn)
      requires c !in history
      modifies this`history, this`retired, c
      ensures c.View() == RetiredConn(old(c.View()))
      ensures retired == old(retired) + [c.View()]
      ensures History() == PushHistory(old(History()), c.View(), maxHistory)
      ensures forall d :: d in history ==> d in old(history) || d == c
    {
      hide Conn.View, RetiredConn, PushHistory;
      c.MarkRetired();
      assert History() == old(History());
      retired := retired + [c.View()];
      Keep(c);
    }

    /** The end of the ring, cut back to its capacity. */
    method Keep(c: Conn)
      modifies this`history
      ensures History() == PushHistory(old(History()), c.View(), maxHistory)
      ensures forall d :: d in history ==> d in old(history) || d == c
    {
      hide Conn.View;
      if maxHistory == 0 {
        return;
      }
      history := history + [c];
      if |history| > maxHistory {
        history := history[|history| - maxHistory..];
      }
    }

    ghost function History(): seq<ConnV>
      reads this`history, history
    {
      Views(history)
    }

    /** Reconciles the table with a snapshot of the kernel's flows. */
    method UpdateFlows(flows: seq<Flow>) returns (ghost order: seq<u64>)
      requires Valid()
      modifies this`conns, this`created, this`history, this`retired, this`ops, conns.Values
      ensures Valid() && RetireOrder(old(View()), flows, order)
      ensures View() == StoreSpec.UpdateFlows(old(View()), flows, order)
      ensures ops == old(ops) + [OpFlows(flows, order)] && (old(Ran()) ==> Ran())
    {
      hide TouchAll, RetireAll, Seen, Gone, CanRun, Run, View;
      var seen := TouchEach(flows);
      order := RetireGone(seen);
      Log(old(View()), OpFlows(flows, order));
    }

    method TouchEach(flows: seq<Flow>) returns (seen: set<u64>)
      requires Valid()
      modifies this`conns, this`created, conns.Values
      ensures Valid() && View() == TouchAll(old(View()), flows) && seen == Seen(flows)
      ensures forall k :: k in conns ==> conns[k] in old(conns.Values) || fresh(conns[k])
    {
      hide Touch, TouchAll, Conn.View, Seen, ConnViews, History;
      seen := {};
      var i := 0;
      NoFlows(View());
      while i < |flows|
        invariant i <= |flows|
        invariant Valid() && View() == TouchAll(old(View()), flows[..i]) && seen == Seen(flows[..i])
        invariant forall k :: k in conns ==> conns[k] in old(conns.Values) || fresh(conns[k])
      {
        OneFlow(old(View()), flows, i);
        seen := seen + {flows[i].sock};
        UpdateFlow(flows[i]);
        i := i + 1;
      }
      assert flows[..i] == flows;
    }

    /** Retires, in whatever order they are met, the connections that closed and were not seen. */
    method RetireGone(seen: set<u64>) returns (ghost order: seq<u64>)
      requires Valid()
      modifies this`conns, this`history, this`retired, conns.Values
      ensures Valid() && NoDup(order) && (forall k :: k in order <==> k in Gone(old(View()), seen))
      ensures View() == RetireAll(old(View()), order)
    {
      hide StoreSpec.Retire, Conn.View, ConnViews, History, RetireAll, NoDup;
      ghost var v := View();
      order := [];
      var todo := conns.Keys;
      InTable();
      NoneRetired(v);
      while todo != {}
        invariant Valid() && NoDup(order) && todo <= conns.Keys
        invariant forall k :: k in order ==> k in Gone(v, seen) && k !in todo
        invariant View() == RetireAll(v, order)
        invariant forall k :: k in conns ==> k in old(conns) && conns[k] == old(conns)[k]
        invariant forall k :: k in Gone(v, seen) ==> k in order || k in todo
        decreases todo
      {
        var k :| k in todo;
        todo := todo - {k};
        InTable();
        if k !in seen && conns[k].closed {
          RetireNext(v, order, k);
          order := order + [k];
          RetireOne(k);
        }
      }
    }

    /** What the abstract table says of a record is what the record says. */
    lemma InTable()
      ensures View().conns.Keys == conns.Keys
      ensures forall k :: k in conns ==> View().conns[k].closed == conns[k].closed
    {
    }

    /** Folds captured wire bytes into the matching connection. */
    method ApplyWire(sock: u64, dir: byte, data: Bytes)
      requires Valid()
      modifies this`conns, this`created, this`ops, conns.Values
      ensures Valid() && View() == StoreSpec.ApplyWire(x509, old(View()), sock, dir, data)
      ensures ops == old(ops) + [OpWire(sock, dir, data)] && (old(Ran()) ==> Ran())
    {
      hide StoreSpec.ApplyWire, CanRun, Run, ConnViews, History;
      NothingToApply(x509, View(), sock, dir);
      if |data| > 0 {
        FoldInto(sock, dir, data);
      }
      Log(old(View()), OpWire(sock, dir, data));
    }

    method FoldInto(sock: u64, dir: byte, data: Bytes)
      requires Valid() && data != []
      modifies this`conns, this`created, conns.Values
      ensures Valid() && View() == StoreSpec.ApplyWire(x509, old(View()), sock, dir, data)
    {
      hide FoldWire, Ensure, NewConn, Conn.View, History;
      var c := Lookup(sock);
      ghost var w := View();
      c.FoldChunk(x509, dir, data);
      assert ConnViews() == w.conns[sock := FoldWire(x509, w.conns[sock], Chunk(DirOf(dir), data))];
    }

    method AddTo(was: Sample, dir: byte, data: Bytes) returns (smp: Sample)
      requires data != []
      ensures smp == AddChunk(was, dir, data, peekBytes)
    {
      smp := was;
      if dir == 1 {
        if smp.headOut == [] {
          smp := smp.(headOut := data);
        }
        smp := smp.(tailOut := AppendTail(smp.tailOut, data, peekBytes));
      } else {
        if smp.headIn == [] {
          smp := smp.(headIn := data);
        }
        smp := smp.(tailIn := AppendTail(smp.tailIn, data, peekBytes));
      }
    }

    /** Stashes a plaintext chunk by session; it is joined to a connection later. */
    method ApplyData(ssl: u64, dir: byte, data: Bytes)
      requires Valid()
      modifies this`plainBySsl, this`chunks, this`ops
      ensures Valid() && View() == StoreSpec.ApplyData(old(View()), ssl, dir, data)
      ensures ops == old(ops) + [OpData(ssl, dir, data)] && (old(Ran()) ==> Ran())
    {
      hide StoreSpec.ApplyData, CanRun, Run, ConnViews, History;
      NothingToApply(x509, View(), ssl, dir);
      if |data| > 0 {
        AddSample(ssl, dir, data);
      }
      Log(old(View()), OpData(ssl, dir, data));
    }

    method AddSample(ssl: u64, dir: byte, data: Bytes)
      requires Valid() && data != []
      modifies this`plainBySsl, this`chunks
      ensures Valid() && View() == StoreSpec.ApplyData(old(View()), ssl, dir, data)
    {
      hide AddChunk, LogChunk, Conn.View, ConnViews, History;
      ghost var log := if ssl in plainBySsl && ssl in chunks then chunks[ssl] else Chunks([], []);
      var smp := AddTo(if ssl in plainBySsl then plainBySsl[ssl] else NO_SAMPLE, dir, data);
      plainBySsl := plainBySsl[ssl := smp];
      chunks := chunks[ssl := LogChunk(log, dir, data)];
    }

    // ---- finding the connection of a plaintext source

    /** A connection with this remote endpoint, the first one met. */
    method FindPeer(peer: Option<AddrPort>) returns (r: Option<u64>)
      ensures r.Some? ==> r.value in conns && conns[r.value].remote == peer
      ensures r.None? ==> forall k :: k in conns ==> conns[k].remote != peer
    {
      var todo := conns.Keys;
      while todo != {}
        invariant todo <= conns.Keys
        invariant forall k :: k in conns && k !in todo ==> conns[k].remote != peer
        decreases todo
      {
        var k :| k in todo;
        if conns[k].remote == peer {
          return Some(k);
        }
        todo := todo - {k};
      }
      return None;
    }

    /** The only connection of the process, if there is exactly one.  (It need not be a TLS
        connection: the program does not look.) */
    method FindSole(pid: u32, ghost v: StoreV) returns (r: Option<u64>)
      requires v.conns == ConnViews()
      ensures r.Some? ==> Sole(v, pid, r.value)
      ensures r.None? ==> forall k :: !Sole(v, pid, k)
    {
      r := None;
      var todo := conns.Keys;
      while todo != {}
        invariant todo <= conns.Keys
        invariant r.Some? ==> r.value in conns && conns[r.value].pid == pid
        invariant forall k :: k in conns && k !in todo && conns[k].pid == pid ==> r == Some(k)
        decreases todo
      {
        var k :| k in todo;
        if conns[k].pid == pid {
          if r.Some? && r.value != k {
            assert v.conns[k].pid == pid && v.conns[r.value].pid == pid;
            return None; // ambiguous
          }
          r := Some(k);
        }
        todo := todo - {k};
      }
    }

    /** The descriptor's own route to a connection: the cache, else the peer that /proc reports. */
    method ResolveFd(pid: u32, fd: i32, peer: Option<AddrPort>) returns (r: Option<u64>)
      requires fd >= 0
      modifies this`pidfd
      ensures r.Some? ==> r.value in conns
      ensures Route(old(pidfd), ConnViews(), FdKey(pid, fd), peer, r, pidfd)
    {
      var key := FdKey(pid, fd);
      if key in pidfd {
        if pidfd[key] in conns {
          return Some(pidfd[key]);
        }
        pidfd := pidfd - {key};
      }
      r := Probe(key, peer);
    }

    method Probe(key: nat, peer: Option<AddrPort>) returns (r: Option<u64>)
      modifies this`pidfd
      ensures r.Some? ==> peer.Some? && r.value in conns && conns[r.value].remote == peer
      ensures r.None? && peer.Some? ==> forall k :: k in conns ==> conns[k].remote != peer
      ensures pidfd == if r.Some? then old(pidfd)[key := r.value] else old(pidfd)
    {
      r := None;
      if peer.Some? {
        r := FindPeer(peer);
        if r.Some? {
          pidfd := pidfd[key := r.value];
        }
      }
    }

    /** Maps (pid, fd) to a connection; `peer` is what /proc would say about the descriptor. */
    method Resolve(pid: u32, fd: i32, peer: Option<AddrPort>) returns (r: Option<u64>)
      requires Valid()
      modifies this`pidfd
      ensures Valid() && ResolvesTo(old(View()), pid, fd, peer, r)
      ensures View() == old(View()).(pidfd := Recache(old(View()), pid, fd, peer, r))
      ensures r.Some? ==> r.value in conns
    {
      hide Sole, Conn.View, Route, ResolvesTo, Recache, History;
      ghost var v := View();
      r := None;
      if fd >= 0 {
        r := ResolveFd(pid, fd, peer);
      }
      if r.None? {
        r := FindSole(pid, v);
        SoleLive(v, pid, r);
        RouteMissed(v, pid, fd, peer, r, pidfd);
      } else {
        RouteFound(v, pid, fd, peer, r, pidfd);
      }
    }

    // ---- plaintext totals

    /** A session ended: its totals are final. */
    method ApplyClose(e: Close, peer: Option<AddrPort>) returns (ghost t: Option<u64>)
      requires Valid()
      modifies this`pidfd, this`plainBySsl, this`chunks, this`ops, conns.Values
      ensures Valid() && ResolvesTo(old(View()), e.pid, e.fd, peer, t)
      ensures View() == StoreSpec.ApplyClose(old(View()), e, peer, t)
      ensures ops == old(ops) + [OpClose(e, peer, t)] && (old(Ran()) ==> Ran())
    {
      hide ResolvesTo, Recache, Conn.View, Finalize, CanRun, Run, ConnViews, History;
      ghost var v := View();
      var r := Resolve(e.pid, e.fd, peer);
      t := r;
      if r.Some? {
        FinishAt(r.value, e, v);
      }
      Forget(e.ssl);
      Log(v, OpClose(e, peer, t));
    }

    method FinishAt(k: u64, e: Close, ghost v: StoreV)
      requires Valid() && k in conns && v.samples == plainBySsl
      modifies conns[k]
      ensures Valid() && View() == Put(old(View()), k, Finalize(v, old(View()).conns[k], e))
    {
      hide Conn.View, Finalize;
      conns[k].Finish(e, plainBySsl);
      FinalizeSame(v, old(View()).conns[k], e);
      assert History() == old(History());
      assert ConnViews() == old(ConnViews())[k := Finalize(v, old(View()).conns[k], e)];
    }

    method Forget(ssl: u64)
      modifies this`plainBySsl, this`chunks
      ensures View() == old(View()).(samples := old(View()).samples - {ssl}, chunks := old(View()).chunks - {ssl})
    {
      hide ConnViews, History;
      plainBySsl := plainBySsl - {ssl};
      chunks := chunks - {ssl};
    }

    method ZeroAll()
      requires Valid()
      modifies conns.Values
      ensures Valid() && View() == Zero(old(View()))
    {
      hide Conn.View, ZeroConn, ConnViews, History;
      ghost var v := View();
      var todo := conns.Keys;
      InTable();
      NoneZero(v);
      while todo != {}
        invariant Valid() && todo <= conns.Keys && View() == ZeroBut(v, todo)
        decreases todo
      {
        var k :| k in todo;
        ghost var before := todo;
        todo := todo - {k};
        ZeroNext(v, before, k);
        InTable();
        ZeroAt(k);
      }
    }

    method ZeroAt(k: u64)
      requires Valid() && k in conns
      modifies conns[k]
      ensures Valid() && View() == Put(old(View()), k, ZeroConn(old(View()).conns[k]))
    {
      hide Conn.View, ZeroConn;
      conns[k].Zero();
      assert History() == old(History());
      assert ConnViews() == old(ConnViews())[k := ZeroConn(old(View()).conns[k])];
    }

    method JoinOne(st: SslStat, peer: Option<AddrPort>) returns (ghost t: Option<u64>)
      requires Valid()
      modifies this`pidfd, conns.Values
      ensures Valid() && ResolvesTo(old(View()), st.pid, st.fd, peer, t)
      ensures View() == JoinStat(old(View()), Join(st, peer, t))
    {
      hide ResolvesTo, Recache, Conn.View, AddStat;
      ghost var v := View();
      var r := Resolve(st.pid, st.fd, peer);
      t := r;
      if r.Some? {
        AddAt(r.value, st, v);
      }
    }

    method AddAt(k: u64, st: SslStat, ghost v: StoreV)
      requires Valid() && k in conns && v.samples == plainBySsl
      modifies conns[k]
      ensures Valid() && View() == Put(old(View()), k, AddStat(v, old(View()).conns[k], st))
    {
      hide Conn.View, AddStat;
      conns[k].Add(st, plainBySsl);
      AddStatSame(v, old(View()).conns[k], st);
      assert History() == old(History());
      assert ConnViews() == old(ConnViews())[k := AddStat(v, old(View()).conns[k], st)];
    }

    method JoinStats(stats: seq<SslStat>, peers: seq<Option<AddrPort>>) returns (live: set<u64>, ghost js: seq<Join>)
      requires Valid() && |peers| == |stats|
      modifies this`pidfd, conns.Values
      ensures Valid() && JoinsOf(stats, peers, js) && JoinsLegal(old(View()), js)
      ensures View() == JoinAll(old(View()), js) && live == LiveSsl(js)
    {
      hide ResolvesTo, JoinStat, JoinsLegal, JoinAll, Conn.View, LiveSsl;
      live, js := {}, [];
      var i := 0;
      NoJoins(View());
      while i < |stats|
        invariant i <= |stats| && Valid() && conns == old(conns)
        invariant JoinsOf(stats[..i], peers[..i], js) && JoinsLegal(old(View()), js)
        invariant View() == JoinAll(old(View()), js) && live == LiveSsl(js)
      {
        live := live + {stats[i].ssl};
        ghost var t := JoinOne(stats[i], peers[i]);
        StoreRuns.NextJoin(old(View()), js, Join(stats[i], peers[i], t));
        js := js + [Join(stats[i], peers[i], t)];
        i := i + 1;
      }
      assert stats[..i] == stats && peers[..i] == peers;
    }

    method EvictDead(live: set<u64>)
      modifies this`plainBySsl, this`chunks
      ensures View() == Evict(old(View()), live)
    {
      hide ConnViews, History;
      EvictSamples(live);
      chunks := map k | k in chunks && k in live :: chunks[k];
    }

    method EvictSamples(live: set<u64>)
      modifies this`plainBySsl
      ensures plainBySsl == map k | k in old(plainBySsl) && k in live :: old(plainBySsl)[k]
    {
      var todo := plainBySsl.Keys;
      while todo != {}
        invariant todo <= plainBySsl.Keys
        invariant plainBySsl == map k | k in old(plainBySsl) && (k in live || k in todo) :: old(plainBySsl)[k]
        decreases todo
      {
        var k :| k in todo;
        todo := todo - {k};
        if k !in live {
          plainBySsl := plainBySsl - {k};
        }
      }
    }

    /** Recomputes the plaintext totals of the live connections from a snapshot of the sessions;
        `peers` is what /proc would say about their descriptors. */
    method UpdateSslStats(stats: seq<SslStat>, peers: seq<Option<AddrPort>>) returns (ghost js: seq<Join>)
      requires Valid() && |peers| == |stats|
      modifies this`pidfd, this`plainBySsl, this`chunks, this`ops, conns.Values
      ensures Valid() && JoinsOf(stats, peers, js) && JoinsLegal(Zero(old(View())), js)
      ensures View() == UpdateStats(old(View()), js)
      ensures ops == old(ops) + [OpStats(js)] && (old(Ran()) ==> Ran())
    {
      hide Zero, JoinsLegal, JoinAll, Evict, LiveSsl, Conn.View, CanRun, Run, ConnViews, History;
      ZeroAll();
      var live;
      live, js := JoinStats(stats, peers);
      EvictDead(live);
      Log(old(View()), OpStats(js));
    }

    /** Copies of the retired connections, newest first. */
    method SnapshotHistory() returns (out: seq<Conn>)
      ensures |out| == |history|
      ensures forall i :: 0 <= i < |out| ==> fresh(out[i]) && out[i].View() == History()[|history| - 1 - i]
    {
      hide Conn.View;
      out := [];
      var i := |history|;
      while i > 0
        invariant 0 <= i <= |history| && |out| == |history| - i
        invariant forall j :: 0 <= j < |out| ==> fresh(out[j]) && out[j].View() == history[|history| - 1 - j].View()
      {
        i := i - 1;
        var c := new Conn.Copy(history[i]);
        out := out + [c];
      }
    }
  }

  /** The laws of runs are laws of the store: it keeps the invariant, and whatever it held after
      any of its operations it still has, as it was retired or as it went on. */
  lemma Laws(s: Store)
    requires s.Ran()
    ensures StoreLaws.Inv(s.x509, s.View())
    ensures forall n :: 0 <= n <= |s.ops| ==>
              && CanRun(s.x509, NewStore(s.maxHistory, s.peekBytes), s.ops[..n])
              && StoreRuns.Progress(Run(s.x509, NewStore(s.maxHistory, s.peekBytes), s.ops[..n]), s.View())
  {
    hide CanRun, Run, StoreLaws.Inv, StoreRuns.Progress, Store.View;
    StoreLaws.RunInv(s.x509, s.maxHistory, s.peekBytes, s.ops);
    forall n | 0 <= n <= |s.ops|
      ensures CanRun(s.x509, NewStore(s.maxHistory, s.peekBytes), s.ops[..n])
      ensures StoreRuns.Progress(Run(s.x509, NewStore(s.maxHistory, s.peekBytes), s.ops[..n]), s.View())
    {
      StoreRuns.PastProgress(s.x509, NewStore(s.maxHistory, s.peekBytes), s.ops, n);
    }
  }

  lemma NothingToApply(x509: X509, v: StoreV, k: u64, dir: byte)
    ensures StoreSpec.ApplyWire(x509, v, k, dir, []) == v
    ensures StoreSpec.ApplyData(v, k, dir, []) == v
  {
  }

  lemma NoneRetired(v: StoreV)
    ensures NoDup([]) && RetireAll(v, []) == v
  {
  }

  lemma RetireNext(v: StoreV, order: seq<u64>, k: u64)
    requires NoDup(order) && k !in order && k in v.conns && forall j :: j in order ==> j in v.conns
    ensures RetireAll(v, order).conns.Keys == v.conns.Keys - (set j | j in order)
    ensures forall j :: j in RetireAll(v, order).conns ==> RetireAll(v, order).conns[j] == v.conns[j]
    ensures NoDup(order + [k]) && forall j :: j in order + [k] ==> j in v.conns
    ensures RetireAll(v, order + [k]) == StoreSpec.Retire(RetireAll(v, order), k)
  {
    hide StoreSpec.Retire;
    assert (order + [k])[..|order|] == order;
  }

  /** All but the connections at `todo` start from zero. */
  ghost function ZeroBut(v: StoreV, todo: set<u64>): StoreV {
    v.(conns := map k | k in v.conns :: if k in todo then v.conns[k] else ZeroConn(v.conns[k]))
  }

  lemma NoneZero(v: StoreV)
    ensures ZeroBut(v, v.conns.Keys) == v && ZeroBut(v, {}) == Zero(v)
  {
    hide ZeroConn;
    assert ZeroBut(v, v.conns.Keys).conns == v.conns;
  }

  lemma ZeroNext(v: StoreV, todo: set<u64>, k: u64)
    requires k in todo && k in v.conns
    ensures var w := ZeroBut(v, todo); ZeroBut(v, todo - {k}) == Put(w, k, ZeroConn(w.conns[k]))
  {
    hide ZeroConn;
    var w := ZeroBut(v, todo);
    assert ZeroBut(v, todo - {k}).conns == w.conns[k := ZeroConn(w.conns[k])];
  }

  lemma NoJoins(v: StoreV)
    ensures JoinsLegal(v, []) && JoinAll(v, []) == v && LiveSsl([]) == {}
  {
  }

  lemma FinalizeSame(v: StoreV, c: ConnV, e: Close)
    ensures Finalize(v, c, e)
         == (if e.ssl in v.samples then c.(plain := v.samples[e.ssl])
              else c).(ptx := e.ptx, prx := e.prx, plainFinal := true)
  {
  }

  lemma AddStatSame(v: StoreV, c: ConnV, st: SslStat)
    ensures AddStat(v, c, st)
         == (if st.ssl in v.samples then c.(plain := v.samples[st.ssl])
              else c).(ptx := Add64(c.ptx, st.ptx), prx := Add64(c.prx, st.prx))
  {
  }

  /** What the descriptor's route finds, and the cache it leaves. */
  ghost predicate Route(cache: map<nat, u64>, conns: map<u64, ConnV>, key: nat, peer: Option<AddrPort>, r: Option<u64>,
                        after: map<nat, u64>)
  {
    if key in cache && cache[key] in conns then r == Some(cache[key]) && after == cache
    else if r.Some? then
      peer.Some? && r.value in conns && conns[r.value].remote == peer && after == (cache - {key})[key := r.value]
    else
      (peer.Some? ==> forall k :: k in conns ==> conns[k].remote != peer) && after == cache - {key}
  }

  lemma RouteFound(v: StoreV, pid: u32, fd: i32, peer: Option<AddrPort>, r: Option<u64>, after: map<nat, u64>)
    requires fd >= 0 && r.Some? && Route(v.pidfd, v.conns, FdKey(pid, fd), peer, r, after)
    ensures ResolvesTo(v, pid, fd, peer, r) && after == Recache(v, pid, fd, peer, r)
  {
    hide FdKey;
  }

  lemma RouteMissed(v: StoreV, pid: u32, fd: i32, peer: Option<AddrPort>, r: Option<u64>, after: map<nat, u64>)
    requires if fd >= 0 then Route(v.pidfd, v.conns, FdKey(pid, fd), peer, None, after) else after == v.pidfd
    requires if r.Some? then Sole(v, pid, r.value) else forall k :: !Sole(v, pid, k)
    ensures ResolvesTo(v, pid, fd, peer, r) && after == Recache(v, pid, fd, peer, r)
  {
    hide FdKey, Sole;
  }

  lemma SoleLive(v: StoreV, pid: u32, r: Option<u64>)
    requires r.Some? ==> Sole(v, pid, r.value)
    ensures r.Some? ==> r.value in v.conns
  {
  }
}
