/** Field by field, what each operation of the store changes, and that it changes nothing else. */
module StoreExact {
  import opened Bytes
  import opened Endpoint
  import opened TlsSpec
  import opened Reassembly
  import opened StoreSpec
  import opened StoreRuns

  // ---- a captured chunk

  /** The chunk joins the buffer of its direction if that has room, the whole buffer is read again,
      and a hello makes the connection one whose start was seen. */
  ghost predicate Folded(x509: X509, c: ConnV, d: ConnV, dir: byte, data: Bytes) {
    var buf := if dir == 2 then c.wire.inBuf else c.wire.outBuf;
    var more := if |buf| < 16384 then buf + data else buf;
    var hello := d.wire.info.hasClientHello || d.wire.info.hasServerHello;
    && d == c.(wire := d.wire, seen := d.seen, isTls := d.isTls, preexisting := d.preexisting)
    && d.seen == c.seen + [Chunk(if dir == 2 then In else Out, data)]
    && d.wire.inBuf == (if dir == 2 then more else c.wire.inBuf)
    && d.wire.outBuf == (if dir == 2 then c.wire.outBuf else more)
    && d.wire.info == ParseInfo(x509, more, c.wire.info)
    && d.isTls == (c.isTls || hello) && d.preexisting == (c.preexisting && !hello)
  }

  lemma FoldExact(x509: X509, c: ConnV, dir: byte, data: Bytes)
    ensures Folded(x509, c, FoldWire(x509, c, Chunk(DirOf(dir), data)), dir, data)
  {
    hide ParseInfo;
  }

  ghost predicate FirstFold(x509: X509, d: ConnV, sock: u64, dir: byte, data: Bytes) {
    exists c :: Blank(c) && c.sock == sock && Folded(x509, c, d, dir, data)
  }

  lemma WireExact(x509: X509, v: StoreV, sock: u64, dir: byte, data: Bytes)
    ensures data == [] ==> ApplyWire(x509, v, sock, dir, data) == v
    ensures data != [] ==>
              var w := ApplyWire(x509, v, sock, dir, data);
              && w == v.(conns := w.conns, created := w.created) && sock in w.conns
              && w.conns == v.conns[sock := w.conns[sock]]
              && w.created == v.created + (if sock in v.conns then 0 else 1)
              && (sock in v.conns ==> Folded(x509, v.conns[sock], w.conns[sock], dir, data))
              && (sock !in v.conns ==> FirstFold(x509, w.conns[sock], sock, dir, data))
  {
    hide FoldWire, NewConn, Folded;
    if data != [] {
      NewBlank(v.created, sock);
      FoldExact(x509, if sock in v.conns then v.conns[sock] else NewConn(v.created, sock), dir, data);
    }
  }

  // ---- the cache

  /** The cache after a source (pid, fd) was resolved to `t`: its entry stays while it is good, is
      made when a peer was found, and is dropped otherwise; no other entry is touched. */
  ghost predicate Cacheable(v: StoreV, pid: u32, fd: i32, peer: Option<AddrPort>, t: Option<u64>, after: map<nat,
                            u64>) {
    if fd < 0 then after == v.pidfd
    else
      var key := pid * 0x1_0000_0000 + fd;
      && (forall j :: j != key ==> (j in after <==> j in v.pidfd) && (j in after ==> after[j] == v.pidfd[j]))
      && (if key in v.pidfd && v.pidfd[key] in v.conns then key in after && after[key] == v.pidfd[key]
           && t == Some(after[key])
          else if peer.Some? && exists k :: k in v.conns && v.conns[k].remote == peer then
            key in after && t == Some(after[key]) && t.value in v.conns && v.conns[t.value].remote == peer
          else key !in after)
  }

  lemma RecacheExact(v: StoreV, pid: u32, fd: i32, peer: Option<AddrPort>, t: Option<u64>)
    requires ResolvesTo(v, pid, fd, peer, t)
    ensures Cacheable(v, pid, fd, peer, t, Recache(v, pid, fd, peer, t))
  {
  }

  // ---- a session that ends

  /** A connection with the session's totals for good, and its sample if there is one. */
  function Closed(v: StoreV, c: ConnV, e: Close): ConnV {
    c.(ptx := e.ptx, prx := e.prx, plainFinal := true, plain := if e.ssl in v.samples then v.samples[e.ssl]
        else c.plain)
  }

  lemma CloseExact(v: StoreV, e: Close, peer: Option<AddrPort>, t: Option<u64>)
    requires ResolvesTo(v, e.pid, e.fd, peer, t)
    ensures var w := ApplyClose(v, e, peer, t);
            && w == v.(conns := w.conns, pidfd := w.pidfd, samples := v.samples - {e.ssl}, chunks := v.chunks - {e.ssl})
            && Cacheable(v, e.pid, e.fd, peer, t, w.pidfd)
            && (t.None? ==> w.conns == v.conns)
            && (t.Some? ==> t.value in v.conns && w.conns == v.conns[t.value := Closed(v, v.conns[t.value], e)])
  {
    hide Recache, Cacheable;
    RecacheExact(v, e.pid, e.fd, peer, t);
    if t.Some? {
      TargetLive(v, e.pid, e.fd, peer, t);
    }
  }

  lemma TargetLive(v: StoreV, pid: u32, fd: i32, peer: Option<AddrPort>, t: Option<u64>)
    requires ResolvesTo(v, pid, fd, peer, t)
    ensures t.Some? ==> t.value in v.conns
  {
  }

  /** Joining one statistic moves the cache as resolving it does. */
  lemma JoinCache(v: StoreV, j: Join)
    requires ResolvesTo(v, j.stat.pid, j.stat.fd, j.peer, j.target)
    ensures Cacheable(v, j.stat.pid, j.stat.fd, j.peer, j.target, JoinStat(v, j).pidfd)
  {
    hide Recache, Cacheable, AddStat;
    RecacheExact(v, j.stat.pid, j.stat.fd, j.peer, j.target);
    TargetLive(v, j.stat.pid, j.stat.fd, j.peer, j.target);
  }
}
