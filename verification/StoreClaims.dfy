/** Which connection a plaintext source can be resolved to, told from the table before the
    call: where the program keeps what its comments say about that, and where it does not. */
module StoreClaims {
  import opened Bytes
  import opened Endpoint
  import opened TlsSpec
  import opened StoreSpec
  import opened StoreRuns
  import opened StoreTotals

  // ---- the only TLS connection of a process

  ghost predicate SoleTls(v: StoreV, pid: u32, k: u64) {
    && k in v.conns && v.conns[k].pid == pid && v.conns[k].isTls
    && forall j :: j in v.conns && v.conns[j].pid == pid && v.conns[j].isTls ==> j == k
  }

  ghost predicate Plain(v: StoreV, pid: u32, k: u64) {
    k in v.conns && v.conns[k].pid == pid && !v.conns[k].isTls
  }

  /** When neither the cache nor the peer decides, the program is documented to take the only
      TLS connection of the process.  It does so exactly if every plain connection of the
      process has company, and company among which no TLS connection is the only one. */
  lemma DocumentedFallbackIff(v: StoreV, pid: u32, fd: i32, peer: Option<AddrPort>, t: Option<u64>)
    requires ResolvesTo(v, pid, fd, peer, t) && !Cached(v, pid, fd) && !HasPeer(v, fd, peer)
    ensures (forall k: u64 :: t == Some(k) <==> SoleTls(v, pid, k))
       <==> (forall j: u64 :: Plain(v, pid, j) ==> !Sole(v, pid, j) && forall k: u64 :: !SoleTls(v, pid, k))
  {
    if forall j: u64 :: !Plain(v, pid, j) {
      forall k: u64
        ensures t == Some(k) <==> SoleTls(v, pid, k)
      {
        NonePlain(v, pid, k);
        FallbackIsSole(v, pid, fd, peer, t, k);
      }
    } else {
      var j: u64 :| Plain(v, pid, j);
      forall k: u64
        ensures t == Some(k) <==> Sole(v, pid, k)
        ensures Sole(v, pid, k) ==> k == j
      {
        FallbackIsSole(v, pid, fd, peer, t, k);
      }
    }
  }

  lemma NonePlain(v: StoreV, pid: u32, k: u64)
    requires forall j: u64 :: !Plain(v, pid, j)
    ensures Sole(v, pid, k) <==> SoleTls(v, pid, k)
  {
    assert forall j :: j in v.conns && v.conns[j].pid == pid ==> !Plain(v, pid, j);
  }

  lemma FallbackIsSole(v: StoreV, pid: u32, fd: i32, peer: Option<AddrPort>, t: Option<u64>, k: u64)
    requires ResolvesTo(v, pid, fd, peer, t) && !Cached(v, pid, fd) && !HasPeer(v, fd, peer)
    ensures t == Some(k) <==> Sole(v, pid, k)
  {
  }

  // ---- a run of one plain connection

  function OneFlow(f: Flow): Op { OpFlows([f], []) }

  function Alone(h: int, p: int, f: Flow): StoreV {
    NewStore(h, p).(conns := map[f.sock := TouchConn(NewConn(0, f.sock), f)], created := 1)
  }

  lemma AloneRun(x509: X509, h: int, p: int, f: Flow)
    ensures CanRun(x509, NewStore(h, p), [OneFlow(f)])
    ensures Run(x509, NewStore(h, p), [OneFlow(f)]) == Alone(h, p, f)
  {
    hide TouchConn, NewConn, CanRun, Run;
    FirstSnapshot(x509, h, p, [f]);
    assert [f][..0] == [];
    assert TouchAll(NewStore(h, p), [f]) == Alone(h, p, f);
  }

  lemma AloneSole(h: int, p: int, f: Flow, fd: i32)
    requires fd < 0
    ensures ResolvesTo(Alone(h, p, f), f.pid, fd, None, Some(f.sock))
    ensures ResolvesTo(Zero(Alone(h, p, f)), f.pid, fd, None, Some(f.sock))
  {
    hide IpFrom;
  }

  /** In every run that has seen just one flow, a plain one, a session of its process is
      resolved to it, and its bytes are shown there, although the process has no TLS
      connection. */
  lemma FallbackToPlain(x509: X509, h: int, p: int, f: Flow, st: SslStat)
    requires !f.isTls && st.pid == f.pid && st.fd < 0
    ensures var ops := [OneFlow(f)] + [OpStats([Join(st, None, Some(f.sock))])];
            && CanRun(x509, NewStore(h, p), ops)
            && var w := Run(x509, NewStore(h, p), ops);
               && Plain(w, f.pid, f.sock) && (forall k :: !SoleTls(w, f.pid, k))
               && w.conns[f.sock].ptx == st.ptx
  {
    hide TouchConn, NewConn, UpdateStats, Zero, ResolvesTo;
    var v, js := Alone(h, p, f), [Join(st, None, Some(f.sock))];
    AloneRun(x509, h, p, f);
    AloneSole(h, p, f, st.fd);
    AloneTouched(f);
    OneJoin(v, js[0]);
    RunMore(x509, NewStore(h, p), [OneFlow(f)], OpStats(js));
  }

  /** A poll of one session. */
  lemma OneJoin(v: StoreV, j: Join)
    requires ResolvesTo(Zero(v), j.stat.pid, j.stat.fd, j.peer, j.target) && j.target.Some?
    ensures JoinsLegal(Zero(v), [j])
    ensures var w, k := UpdateStats(v, [j]), j.target.value;
            && w.conns.Keys == v.conns.Keys && k in v.conns
            && w.conns[k].ptx == Add64(if v.conns[k].plainFinal then v.conns[k].ptx else 0, j.stat.ptx)
            && w.conns[k].pid == v.conns[k].pid && w.conns[k].isTls == v.conns[k].isTls
  {
    hide ResolvesTo, LastSample;
    assert [j][..0] == [];
    assert JoinAll(Zero(v), []) == Zero(v);
    PlaintextJoin(v, [j]);
    JoinStatExact(Zero(v), j);
  }

  /** A connection alone in the store, settled, and one session still open in its process: the
      next poll adds that session's bytes to the settled total. */
  lemma FinalDisturbed(x509: X509, h: int, p: int, f: Flow, e: Close, st: SslStat)
    requires e.pid == f.pid && e.fd < 0 && st.pid == f.pid && st.fd < 0 && st.ptx > 0
    ensures var ops := [OneFlow(f)] + [OpClose(e, None, Some(f.sock))];
            var js := [Join(st, None, Some(f.sock))];
            && CanRun(x509, NewStore(h, p), ops)
            && var v := Run(x509, NewStore(h, p), ops);
               && f.sock in v.conns && v.conns[f.sock].plainFinal && v.conns[f.sock].ptx == e.ptx
               && JoinsLegal(Zero(v), js)
               && UpdateStats(v, js).conns[f.sock].ptx != e.ptx
  {
    hide TouchConn, UpdateStats;
    AloneRun(x509, h, p, f);
    AloneSole(h, p, f, e.fd);
    RunMore(x509, NewStore(h, p), [OneFlow(f)], OpClose(e, None, Some(f.sock)));
    var v := ApplyClose(Alone(h, p, f), e, None, Some(f.sock));
    AloneTouched(f);
    OneJoin(v, Join(st, None, Some(f.sock)));
  }

  lemma AloneTouched(f: Flow)
    ensures var c := TouchConn(NewConn(0, f.sock), f); c.pid == f.pid && c.isTls == f.isTls && !c.plainFinal
  {
  }

  // ---- the connection of a descriptor

  ghost predicate OnePeer(v: StoreV, peer: Option<AddrPort>) {
    forall j, k :: j in v.conns && k in v.conns && v.conns[j].remote == peer && v.conns[k].remote == peer ==> j == k
  }

  /** A source has one connection, in whatever order the table is walked, exactly if the cache has
      it, or no live connection has the peer of its descriptor, or only one has. */
  lemma OneTargetIff(v: StoreV, pid: u32, fd: i32, peer: Option<AddrPort>)
    ensures (forall t, u :: ResolvesTo(v, pid, fd, peer, t) && ResolvesTo(v, pid, fd, peer, u) ==> t == u)
       <==> Cached(v, pid, fd) || !HasPeer(v, fd, peer) || OnePeer(v, peer)
  {
    hide FdKey;
    if HasPeer(v, fd, peer) && !Cached(v, pid, fd) {
      if j, k :| j in v.conns && k in v.conns && v.conns[j].remote == peer && v.conns[k].remote == peer && j != k {
        assert ResolvesTo(v, pid, fd, peer, Some(j)) && ResolvesTo(v, pid, fd, peer, Some(k));
      }
    } else if !Cached(v, pid, fd) {
      forall t, u | ResolvesTo(v, pid, fd, peer, t) && ResolvesTo(v, pid, fd, peer, u)
        ensures t == u
      {
        if t.Some? {
          FallbackIsSole(v, pid, fd, peer, u, t.value);
        } else if u.Some? {
          FallbackIsSole(v, pid, fd, peer, t, u.value);
        }
      }
    }
  }

  /** The first snapshot retires nothing. */
  lemma FirstSnapshot(x509: X509, h: int, p: int, fs: seq<Flow>)
    ensures CanRun(x509, NewStore(h, p), [OpFlows(fs, [])])
    ensures Run(x509, NewStore(h, p), [OpFlows(fs, [])]) == TouchAll(NewStore(h, p), fs)
  {
    hide TouchAll, Seen;
    var v, ops := NewStore(h, p), [OpFlows(fs, [])];
    assert ops[..0] == [];
    TouchAllFrame(v, fs);
    assert Gone(TouchAll(v, fs), Seen(fs)) == {};
    assert RetireAll(TouchAll(v, fs), []) == TouchAll(v, fs);
    assert CanRun(x509, v, []) && Run(x509, v, []) == v;
    assert Legal(v, OpFlows(fs, []));
  }

  function RemoteOf(f: Flow): AddrPort { AddrPort(IpFrom(f.daddr, f.isIpv6), f.dport) }

  /** A run that sees two connections to one server: a descriptor of either can be resolved to
      both. */
  lemma TwoToOnePeer(x509: X509, h: int, p: int, f: Flow, g: Flow, pid: u32, fd: i32)
    requires f.sock != g.sock && RemoteOf(f) == RemoteOf(g) && fd >= 0
    ensures var ops := [OpFlows([f, g], [])];
            && CanRun(x509, NewStore(h, p), ops)
            && var v := Run(x509, NewStore(h, p), ops);
               && ResolvesTo(v, pid, fd, Some(RemoteOf(f)), Some(f.sock))
               && ResolvesTo(v, pid, fd, Some(RemoteOf(f)), Some(g.sock))
  {
    hide TouchAll, IpFrom;
    var v := NewStore(h, p);
    FirstSnapshot(x509, h, p, [f, g]);
    TouchAllExact(v, [f, g], 0);
    TouchAllExact(v, [f, g], 1);
    TouchAllFrame(v, [f, g]);
    var w := TouchAll(v, [f, g]);
    assert w.conns[f.sock].remote == Some(RemoteOf(f)) && w.conns[g.sock].remote == Some(RemoteOf(f));
  }

  // ---- what can be resolved to a connection

  /** The source (pid, fd) can be resolved to the connection at `k`: through the cache if that
      has a live connection, else by its peer if any has it, else as the only one of its process. */
  ghost predicate Claims(v: StoreV, pid: u32, fd: i32, peer: Option<AddrPort>, k: u64) {
    if Cached(v, pid, fd) then v.pidfd[FdKey(pid, fd)] == k
    else if HasPeer(v, fd, peer) then k in v.conns && v.conns[k].remote == peer
    else Sole(v, pid, k)
  }

  lemma TargetClaims(v: StoreV, pid: u32, fd: i32, peer: Option<AddrPort>, k: u64)
    ensures ResolvesTo(v, pid, fd, peer, Some(k)) <==> Claims(v, pid, fd, peer, k)
  {
  }

  lemma SomeTarget(v: StoreV, pid: u32, fd: i32, peer: Option<AddrPort>) returns (t: Option<u64>)
    ensures ResolvesTo(v, pid, fd, peer, t)
  {
    if Cached(v, pid, fd) {
      t := Some(v.pidfd[FdKey(pid, fd)]);
    } else if HasPeer(v, fd, peer) {
      var k :| k in v.conns && v.conns[k].remote == peer;
      t := Some(k);
    } else if k :| Sole(v, pid, k) {
      t := Some(k);
    } else {
      t := None;
    }
  }

  /** The same connections, of the same processes and with the same peers. */
  ghost predicate SameTable(v: StoreV, w: StoreV) {
    && w.conns.Keys == v.conns.Keys
    && forall k :: k in v.conns ==> w.conns[k].pid == v.conns[k].pid && w.conns[k].remote == v.conns[k].remote
  }

  lemma SameSole(v: StoreV, w: StoreV, pid: u32, fd: i32, peer: Option<AddrPort>)
    requires SameTable(v, w)
    ensures HasPeer(v, fd, peer) <==> HasPeer(w, fd, peer)
    ensures forall k :: Sole(v, pid, k) <==> Sole(w, pid, k)
  {
    if HasPeer(v, fd, peer) {
      var k :| k in v.conns && v.conns[k].remote == peer;
      assert k in w.conns && w.conns[k].remote == peer;
    }
  }

  /** The descriptor of a join was put into the cache for its peer. */
  ghost predicate Caches(v: StoreV, j: Join, key: nat) {
    && j.stat.fd >= 0 && FdKey(j.stat.pid, j.stat.fd) == key
    && HasPeer(v, j.stat.fd, j.peer) && !Cached(v, j.stat.pid, j.stat.fd)
  }

  /** What the joins leave of the cache: its live entries, and those they put there. */
  ghost predicate CacheFrom(v: StoreV, js: seq<Join>, cache: map<nat, u64>) {
    && (forall key :: key in v.pidfd && v.pidfd[key] in v.conns ==> key in cache && cache[key] == v.pidfd[key])
    && (forall key :: key in cache ==>
          (key in v.pidfd && cache[key] == v.pidfd[key]) || exists i :: 0 <= i < |js| && Caches(v, js[i], key))
  }

  lemma {:induction false} CacheAfter(v: StoreV, js: seq<Join>)
    requires JoinsLegal(v, js)
    ensures SameTable(v, JoinAll(v, js)) && CacheFrom(v, js, JoinAll(v, js).pidfd)
  {
    hide JoinStat, ResolvesTo, Caches, Cached, HasPeer;
    if js != [] {
      var init, last := js[..|js| - 1], js[|js| - 1];
      CacheAfter(v, init);
      CacheStep(v, init, last, JoinAll(v, init));
      assert js == init + [last];
    }
  }

  lemma CacheStep(v: StoreV, js: seq<Join>, j: Join, w: StoreV)
    requires SameTable(v, w) && CacheFrom(v, js, w.pidfd)
    requires ResolvesTo(w, j.stat.pid, j.stat.fd, j.peer, j.target)
    ensures SameTable(v, JoinStat(w, j)) && CacheFrom(v, js + [j], JoinStat(w, j).pidfd)
  {
    hide Caches, FdKey, CacheFrom, AddStat, HasPeer, Sole, SameTable;
    JoinSameTable(v, w, j);
    CacheSame(v, js, j, w.pidfd);
    if j.stat.fd >= 0 && !Cached(w, j.stat.pid, j.stat.fd) {
      var key := FdKey(j.stat.pid, j.stat.fd);
      CacheDrop(v, w, js, j, key);
      if HasPeer(w, j.stat.fd, j.peer) && j.target.Some? {
        CachesNow(v, w, j, js);
        CachePut(v, js, j, w.pidfd - {key}, key, j.target.value);
      }
    }
  }

  lemma JoinSameTable(v: StoreV, w: StoreV, j: Join)
    requires SameTable(v, w) && ResolvesTo(w, j.stat.pid, j.stat.fd, j.peer, j.target)
    ensures SameTable(v, JoinStat(w, j))
  {
    hide ResolvesTo, JoinStat;
    JoinStatExact(w, j);
  }

  lemma CacheSame(v: StoreV, js: seq<Join>, j: Join, cache: map<nat, u64>)
    requires CacheFrom(v, js, cache)
    ensures CacheFrom(v, js + [j], cache)
  {
    hide Caches;
    assert forall i :: 0 <= i < |js| ==> (js + [j])[i] == js[i];
  }

  lemma CacheDrop(v: StoreV, w: StoreV, js: seq<Join>, j: Join, key: nat)
    requires SameTable(v, w) && CacheFrom(v, js, w.pidfd) && CacheFrom(v, js + [j], w.pidfd)
    requires j.stat.fd >= 0 && !Cached(w, j.stat.pid, j.stat.fd) && key == FdKey(j.stat.pid, j.stat.fd)
    ensures CacheFrom(v, js + [j], w.pidfd - {key}) && (key in v.pidfd ==> v.pidfd[key] !in v.conns)
  {
    hide Caches, FdKey;
  }

  lemma CachePut(v: StoreV, js: seq<Join>, j: Join, cache: map<nat, u64>, key: nat, t: u64)
    requires CacheFrom(v, js + [j], cache) && Caches(v, j, key) && (key in v.pidfd ==> v.pidfd[key] !in v.conns)
    ensures CacheFrom(v, js + [j], cache[key := t])
  {
    hide Caches;
    assert (js + [j])[|js|] == j;
  }

  lemma CachesNow(v: StoreV, w: StoreV, j: Join, js: seq<Join>)
    requires SameTable(v, w) && CacheFrom(v, js, w.pidfd)
    requires j.stat.fd >= 0 && HasPeer(w, j.stat.fd, j.peer) && !Cached(w, j.stat.pid, j.stat.fd)
    ensures Caches(v, j, FdKey(j.stat.pid, j.stat.fd))
  {
    SameSole(v, w, j.stat.pid, j.stat.fd, j.peer);
  }

  /** The two sides of a descriptor agree: /proc has one answer for one descriptor. */
  ghost predicate Consistent(stats: seq<SslStat>, peers: seq<Option<AddrPort>>)
    requires |peers| == |stats|
  {
    forall i, j :: 0 <= i < j < |stats| && stats[i].pid == stats[j].pid && stats[i].fd == stats[j].fd ==>
        peers[i] == peers[j]
  }

  ghost predicate NoneClaims(v: StoreV, stats: seq<SslStat>, peers: seq<Option<AddrPort>>, k: u64)
    requires |peers| == |stats|
  {
    forall i :: 0 <= i < |stats| ==> !Claims(v, stats[i].pid, stats[i].fd, peers[i], k)
  }

  /** What can be resolved to `k` in the middle of a poll could be at its start. */
  lemma ClaimsEarlier(v: StoreV, js: seq<Join>, w: StoreV, pid: u32, fd: i32, peer: Option<AddrPort>, k: u64)
    requires SameTable(v, w) && CacheFrom(v, js, w.pidfd) && k in v.conns && Claims(w, pid, fd, peer, k)
    requires forall key :: key in w.pidfd && w.pidfd[key] == k ==> key in v.pidfd && v.pidfd[key] == k
    ensures Claims(v, pid, fd, peer, k)
  {
    hide Caches, FdKey, Sole;
    SameSole(v, w, pid, fd, peer);
  }

  /** If nothing in a poll can be resolved to a connection, as the table is before the poll,
      nothing is. */
  lemma {:induction false} NoneTargets(v: StoreV, js: seq<Join>, k: u64)
    requires JoinsLegal(v, js) && k in v.conns
    requires forall j :: j in js ==> !Claims(v, j.stat.pid, j.stat.fd, j.peer, k)
    ensures forall j :: j in js ==> j.target != Some(k)
    ensures var w := JoinAll(v, js);
            forall key :: key in w.pidfd && w.pidfd[key] == k ==> key in v.pidfd && v.pidfd[key] == k
  {
    hide Claims, ResolvesTo, SameTable, CacheFrom;
    if js != [] {
      var init, last := js[..|js| - 1], js[|js| - 1];
      assert js == init + [last] && last in js && forall j :: j in init ==> j in js;
      NoneTargets(v, init, k);
      CacheAfter(v, init);
      var w := JoinAll(v, init);
      if last.target == Some(k) {
        TargetClaims(w, last.stat.pid, last.stat.fd, last.peer, k);
        ClaimsEarlier(v, init, w, last.stat.pid, last.stat.fd, last.peer, k);
      }
      CacheTo(w, last, k);
    }
  }

  lemma CacheTo(w: StoreV, j: Join, k: u64)
    requires ResolvesTo(w, j.stat.pid, j.stat.fd, j.peer, j.target) && j.target != Some(k)
    ensures forall key :: key in JoinStat(w, j).pidfd && JoinStat(w, j).pidfd[key] == k ==>
            key in w.pidfd && w.pidfd[key] == k
  {
    hide AddStat, FdKey;
  }

  lemma ClaimsZero(v: StoreV, pid: u32, fd: i32, peer: Option<AddrPort>, k: u64)
    ensures Claims(Zero(v), pid, fd, peer, k) <==> Claims(v, pid, fd, peer, k)
  {
    hide FdKey, Sole, HasPeer;
    SameSole(v, Zero(v), pid, fd, peer);
  }

  /** A settled total that nothing in the poll claims is left alone by the poll. */
  lemma UnclaimedKept(v: StoreV, js: seq<Join>, k: u64)
    requires JoinsLegal(Zero(v), js) && k in v.conns && v.conns[k].plainFinal
    requires forall j :: j in js ==> !Claims(v, j.stat.pid, j.stat.fd, j.peer, k)
    ensures SameTotals(UpdateStats(v, js), v, k)
  {
    hide Claims, UpdateStats, JoinsLegal, SumTx, SumRx, LastSample, ZeroConn;
    forall j | j in js
      ensures !Claims(Zero(v), j.stat.pid, j.stat.fd, j.peer, k)
    {
      ClaimsZero(v, j.stat.pid, j.stat.fd, j.peer, k);
    }
    NoneTargets(Zero(v), js, k);
    NoSum(js, k);
    PlaintextJoin(v, js);
  }

  ghost predicate SameTotals(w: StoreV, v: StoreV, k: u64)
    requires k in v.conns
  {
    k in w.conns && w.conns[k].ptx == v.conns[k].ptx && w.conns[k].prx == v.conns[k].prx
  }

  // ---- a poll that resolves something to a connection

  lemma ClaimsNow(v: StoreV, js: seq<Join>, st: SslStat, peer: Option<AddrPort>, k: u64)
    requires JoinsLegal(v, js) && k in v.conns && Claims(v, st.pid, st.fd, peer, k)
    requires forall j :: j in js ==> !Claims(v, j.stat.pid, j.stat.fd, j.peer, k)
    requires forall j :: j in js && j.stat.pid == st.pid && j.stat.fd == st.fd ==> j.peer == peer
    ensures Claims(JoinAll(v, js), st.pid, st.fd, peer, k)
  {
    hide JoinAll, JoinsLegal, Sole, HasPeer, Caches;
    var w := JoinAll(v, js);
    CacheAfter(v, js);
    SameSole(v, w, st.pid, st.fd, peer);
    if st.fd >= 0 && !Cached(v, st.pid, st.fd) {
      forall i | 0 <= i < |js|
        ensures !Caches(v, js[i], FdKey(st.pid, st.fd))
      {
        NotCaches(v, js[i], st, peer, k);
      }
    }
  }

  lemma NotCaches(v: StoreV, j: Join, st: SslStat, peer: Option<AddrPort>, k: u64)
    requires st.fd >= 0 && Claims(v, st.pid, st.fd, peer, k) && !Claims(v, j.stat.pid, j.stat.fd, j.peer, k)
    requires j.stat.pid == st.pid && j.stat.fd == st.fd ==> j.peer == peer
    ensures !Caches(v, j, FdKey(st.pid, st.fd))
  {
  }

  /** Any beginning of a poll can be completed. */
  lemma Complete(v: StoreV, stats: seq<SslStat>, peers: seq<Option<AddrPort>>, js: seq<Join>) returns (all: seq<Join>)
    requires |peers| == |stats| && |js| <= |stats| && JoinsLegal(v, js)
    requires JoinsOf(stats[..|js|], peers[..|js|], js)
    ensures JoinsLegal(v, all) && JoinsOf(stats, peers, all) && js <= all
    decreases |stats| - |js|
  {
    hide JoinAll, JoinsLegal, ResolvesTo;
    var n := |js|;
    if n == |stats| {
      assert stats[..n] == stats && peers[..n] == peers;
      return js;
    }
    var t := SomeTarget(JoinAll(v, js), stats[n].pid, stats[n].fd, peers[n]);
    NextJoin(v, js, Join(stats[n], peers[n], t));
    all := Complete(v, stats, peers, js + [Join(stats[n], peers[n], t)]);
  }

  /** If something can be resolved to a connection, there is a poll in which it is. */
  lemma Taken(v: StoreV, stats: seq<SslStat>, peers: seq<Option<AddrPort>>, k: u64, i: nat) returns (js: seq<Join>)
    requires |peers| == |stats| && Consistent(stats, peers) && k in v.conns && i < |stats|
    requires Claims(v, stats[i].pid, stats[i].fd, peers[i], k) && NoneClaims(v, stats[..i], peers[..i], k)
    ensures JoinsLegal(v, js) && JoinsOf(stats, peers, js) && js[i].target == Some(k)
  {
    hide JoinAll, JoinsLegal, ResolvesTo, Claims;
    NoJoinsYet(v);
    var first := Complete(v, stats[..i], peers[..i], []);
    forall j | j in first
      ensures !Claims(v, j.stat.pid, j.stat.fd, j.peer, k)
      ensures j.stat.pid == stats[i].pid && j.stat.fd == stats[i].fd ==> j.peer == peers[i]
    {
      var m :| 0 <= m < |first| && first[m] == j;
      assert stats[..i][m] == stats[m] && peers[..i][m] == peers[m];
    }
    ClaimsNow(v, first, stats[i], peers[i], k);
    TargetClaims(JoinAll(v, first), stats[i].pid, stats[i].fd, peers[i], k);
    var j := Join(stats[i], peers[i], Some(k));
    NextJoin(v, first, j);
    js := Complete(v, stats, peers, first + [j]);
    assert (first + [j])[i] == j;
  }

  lemma NoJoinsYet(v: StoreV)
    ensures JoinsLegal(v, [])
  {
  }

  // ---- when settled totals are safe

  /** The same sessions, whatever their counts. */
  ghost predicate SameSessions(a: seq<SslStat>, b: seq<SslStat>) {
    |a| == |b| && forall i :: 0 <= i < |a| ==> b[i] == a[i].(ptx := b[i].ptx, prx := b[i].prx)
  }

  /** No poll of these sessions, whatever they have counted and in whatever order the table is
      walked, changes the totals of the connection at `k`. */
  ghost predicate LeftAlone(v: StoreV, stats: seq<SslStat>, peers: seq<Option<AddrPort>>, k: u64)
    requires |peers| == |stats| && k in v.conns
  {
    forall st, js :: SameSessions(stats, st) && JoinsOf(st, peers, js) && JoinsLegal(Zero(v), js)
                     ==> SameTotals(UpdateStats(v, js), v, k)
  }

  /** Only the session at `i` has counted anything. */
  function CountOne(stats: seq<SslStat>, i: nat): (st: seq<SslStat>)
    ensures |st| == |stats|
    ensures forall m :: 0 <= m < |st| ==> st[m] == stats[m].(ptx := if m == i then 1 else 0, prx := 0)
  {
    seq(|stats|, m requires 0 <= m < |stats| => stats[m].(ptx := if m == i then 1 else 0, prx := 0))
  }

  lemma {:induction false} SumOfOne(js: seq<Join>, n: nat, i: nat, k: u64)
    requires n <= |js| && forall m :: 0 <= m < |js| ==> js[m].stat.ptx == if m == i then 1 else 0
    requires i < |js| && js[i].target == Some(k)
    ensures SumTx(js[..n], k) == if i < n then 1 else 0
  {
    if n > 0 {
      assert js[..n][..n - 1] == js[..n - 1];
      SumOfOne(js, n - 1, i, k);
    }
  }

  lemma LeastClaim(v: StoreV, stats: seq<SslStat>, peers: seq<Option<AddrPort>>, k: u64) returns (i: nat)
    requires |peers| == |stats| && !NoneClaims(v, stats, peers, k)
    ensures i < |stats| && Claims(v, stats[i].pid, stats[i].fd, peers[i], k) && NoneClaims(v, stats[..i], peers[..i], k)
  {
    hide Claims;
    i := 0;
    while !Claims(v, stats[i].pid, stats[i].fd, peers[i], k)
      invariant i < |stats| && NoneClaims(v, stats[..i], peers[..i], k)
      decreases |stats| - i
    {
      i := i + 1;
      assert i < |stats|;
    }
  }

  /** A settled total is safe from a poll exactly if none of the sessions polled can, by the
      cache, its peer or its process, be resolved to the connection as the table is before. */
  lemma LeftAloneIff(v: StoreV, stats: seq<SslStat>, peers: seq<Option<AddrPort>>, k: u64)
    requires |peers| == |stats| && Consistent(stats, peers) && k in v.conns && v.conns[k].plainFinal
    ensures LeftAlone(v, stats, peers, k) <==> NoneClaims(v, stats, peers, k)
  {
    hide Claims, JoinsLegal, UpdateStats, SumTx, SumRx, SameTotals;
    if NoneClaims(v, stats, peers, k) {
      forall st: seq<SslStat>, js: seq<Join> | SameSessions(stats, st) && JoinsOf(st, peers, js)
          && JoinsLegal(Zero(v), js)
        ensures SameTotals(UpdateStats(v, js), v, k)
      {
        forall j | j in js
          ensures !Claims(v, j.stat.pid, j.stat.fd, j.peer, k)
        {
          var m :| 0 <= m < |js| && js[m] == j;
          assert st[m] == stats[m].(ptx := st[m].ptx, prx := st[m].prx);
        }
        UnclaimedKept(v, js, k);
      }
    } else {
      Disturbed(v, stats, peers, k);
    }
  }

  lemma Disturbed(v: StoreV, stats: seq<SslStat>, peers: seq<Option<AddrPort>>, k: u64)
    requires |peers| == |stats| && Consistent(stats, peers) && k in v.conns && v.conns[k].plainFinal
    requires !NoneClaims(v, stats, peers, k)
    ensures !LeftAlone(v, stats, peers, k)
  {
    hide Claims, JoinsLegal, UpdateStats, SameTotals;
    var i := LeastClaim(v, stats, peers, k);
    var st := CountOne(stats, i);
    forall m | 0 <= m <= i
      ensures Claims(Zero(v), st[m].pid, st[m].fd, peers[m], k) <==> Claims(v, stats[m].pid, stats[m].fd, peers[m], k)
    {
      ClaimsZero(v, stats[m].pid, stats[m].fd, peers[m], k);
    }
    assert forall m :: 0 <= m < i ==> !Claims(v, stats[..i][m].pid, stats[..i][m].fd, peers[..i][m], k);
    var js := Taken(Zero(v), st, peers, k, i);
    OneMore(v, js, i, k);
    assert SameSessions(stats, st);
  }

  lemma OneMore(v: StoreV, js: seq<Join>, i: nat, k: u64)
    requires JoinsLegal(Zero(v), js) && k in v.conns && v.conns[k].plainFinal
    requires i < |js| && js[i].target == Some(k)
    requires forall m :: 0 <= m < |js| ==> js[m].stat.ptx == if m == i then 1 else 0
    ensures !SameTotals(UpdateStats(v, js), v, k)
  {
    hide JoinsLegal, UpdateStats, SumTx, SumRx, LastSample;
    SumOfOne(js, |js|, i, k);
    assert js[..|js|] == js;
    PlaintextJoin(v, js);
  }

  // ---- operations that leave settled totals alone

  /** Nothing this operation resolves can be resolved to the connection `id`. */
  ghost predicate Unclaimed(v: StoreV, op: Op, id: nat) {
    match op
    case OpClose(e, peer, _) => forall k :: k in v.conns && v.conns[k].id == id ==> !Claims(v, e.pid, e.fd, peer, k)
    case OpStats(js) =>
      forall j: Join, k: u64 :: j in js && k in v.conns && v.conns[k].id == id ==>
          !Claims(v, j.stat.pid, j.stat.fd, j.peer, k)
    case _ => true
  }

  lemma UnclaimedAvoids(v: StoreV, op: Op, id: nat)
    requires Legal(v, op) && Unclaimed(v, op, id)
    ensures Avoids(v, op, id)
  {
    hide Claims, ResolvesTo, JoinsLegal;
    match op
    case OpClose(e, peer, t) =>
      if t.Some? {
        TargetClaims(v, e.pid, e.fd, peer, t.value);
      }
    case OpStats(js) =>
      forall k | k in v.conns && v.conns[k].id == id
        ensures forall j :: j in js ==> j.target != Some(k)
      {
        forall j | j in js
          ensures !Claims(Zero(v), j.stat.pid, j.stat.fd, j.peer, k)
        {
          ClaimsZero(v, j.stat.pid, j.stat.fd, j.peer, k);
        }
        NoneTargets(Zero(v), js, k);
      }
    case _ =>
  }
}
