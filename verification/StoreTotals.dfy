/** Where the plaintext bytes go: the join of one poll, and totals that a closing session
    settles for good. */
module StoreTotals {
  import opened Bytes
  import opened Endpoint
  import opened TlsSpec
  import opened Reassembly
  import opened StoreSpec

  // ---- one poll

  /** The bytes of the statistics resolved to the connection at `k`. */
  function SumTx(js: seq<Join>, k: u64): nat {
    if js == [] then 0
    else SumTx(js[..|js| - 1], k) + if js[|js| - 1].target == Some(k) then js[|js| - 1].stat.ptx else 0
  }

  function SumRx(js: seq<Join>, k: u64): nat {
    if js == [] then 0
    else SumRx(js[..|js| - 1], k) + if js[|js| - 1].target == Some(k) then js[|js| - 1].stat.prx else 0
  }

  /** The sample of the last session resolved to `k` that has one. */
  function LastSample(samples: map<u64, Sample>, js: seq<Join>, k: u64, none: Sample): Sample {
    if js == [] then none
    else
      var j := js[|js| - 1];
      if j.target == Some(k) && j.stat.ssl in samples then samples[j.stat.ssl]
      else LastSample(samples, js[..|js| - 1], k, none)
  }

  function JoinedConn(samples: map<u64, Sample>, c: ConnV, js: seq<Join>, k: u64): ConnV {
    c.(ptx := (c.ptx + SumTx(js, k)) % TWO64,
       prx := (c.prx + SumRx(js, k)) % TWO64,
       plain := LastSample(samples, js, k, c.plain))
  }

  lemma AddMod(a: nat, b: nat, c: nat)
    ensures ((a + b) % TWO64 + c) % TWO64 == (a + b + c) % TWO64
  {
  }

  lemma JoinOne(samples: map<u64, Sample>, c: ConnV, js: seq<Join>, j: Join, k: u64, v: StoreV)
    requires v.samples == samples
    ensures JoinedConn(samples, c, js + [j], k)
         == if j.target == Some(k) then AddStat(v, JoinedConn(samples, c, js, k), j.stat)
              else JoinedConn(samples, c, js, k)
  {
    hide SumTx, SumRx, LastSample;
    SumSnoc(samples, js, j, k, c.plain);
    AddMod(c.ptx, SumTx(js, k), j.stat.ptx);
    AddMod(c.prx, SumRx(js, k), j.stat.prx);
  }

  lemma SumSnoc(samples: map<u64, Sample>, js: seq<Join>, j: Join, k: u64, none: Sample)
    ensures SumTx(js + [j], k) == SumTx(js, k) + if j.target == Some(k) then j.stat.ptx else 0
    ensures SumRx(js + [j], k) == SumRx(js, k) + if j.target == Some(k) then j.stat.prx else 0
    ensures LastSample(samples, js + [j], k, none)
         == if j.target == Some(k) && j.stat.ssl in samples then samples[j.stat.ssl]
              else LastSample(samples, js, k, none)
  {
    assert (js + [j])[..|js|] == js;
  }

  lemma JoinStatExact(v: StoreV, j: Join)
    requires ResolvesTo(v, j.stat.pid, j.stat.fd, j.peer, j.target)
    ensures j.target.Some? ==> j.target.value in v.conns
    ensures var w := JoinStat(v, j);
            && w.conns.Keys == v.conns.Keys
            && w == v.(conns := w.conns, pidfd := w.pidfd)
            && forall k :: k in v.conns ==>
                 w.conns[k] == if j.target == Some(k) then AddStat(v, v.conns[k], j.stat) else v.conns[k]
  {
    hide AddStat, Recache;
  }

  lemma {:induction false} JoinAllExact(v: StoreV, js: seq<Join>)
    requires JoinsLegal(v, js)
    ensures var w := JoinAll(v, js);
            && w.conns.Keys == v.conns.Keys
            && w == v.(conns := w.conns, pidfd := w.pidfd)
            && forall k :: k in v.conns ==> w.conns[k] == JoinedConn(v.samples, v.conns[k], js, k)
    ensures forall j :: j in js && j.target.Some? ==> j.target.value in v.conns
  {
    hide JoinedConn, AddStat, JoinStat, ResolvesTo;
    if js == [] {
      forall k | k in v.conns
        ensures JoinedConn(v.samples, v.conns[k], [], k) == v.conns[k]
      {
        JoinNone(v.samples, v.conns[k], k);
      }
    } else {
      var init, last := js[..|js| - 1], js[|js| - 1];
      JoinAllExact(v, init);
      assert js == init + [last];
      JoinStatExact(JoinAll(v, init), last);
      forall k | k in v.conns
        ensures JoinAll(v, js).conns[k] == JoinedConn(v.samples, v.conns[k], js, k)
      {
        JoinOne(v.samples, v.conns[k], init, last, k, JoinAll(v, init));
      }
    }
  }

  lemma JoinNone(samples: map<u64, Sample>, c: ConnV, k: u64)
    ensures JoinedConn(samples, c, [], k) == c
  {
  }

  lemma JoinedZero(samples: map<u64, Sample>, c: ConnV, js: seq<Join>, k: u64)
    ensures JoinedConn(samples, ZeroConn(c), js, k)
         == c.(ptx := ((if c.plainFinal then c.ptx else 0) + SumTx(js, k)) % TWO64,
               prx := ((if c.plainFinal then c.prx else 0) + SumRx(js, k)) % TWO64,
               plain := LastSample(samples, js, k, c.plain))
  {
    hide SumTx, SumRx, LastSample;
  }

  /** After a poll, a connection that is not final has exactly the bytes of the statistics
      resolved to it, a final one has them on top of its own, and nothing else of it changes
      but the sample; the samples kept are those of the sessions in the snapshot. */
  lemma PlaintextJoin(v: StoreV, js: seq<Join>)
    requires JoinsLegal(Zero(v), js)
    ensures var w := UpdateStats(v, js);
            && w.conns.Keys == v.conns.Keys
            && (forall k :: k in v.conns ==>
                  w.conns[k] == v.conns[k].(
                    ptx := ((if v.conns[k].plainFinal then v.conns[k].ptx else 0) + SumTx(js, k)) % TWO64,
                    prx := ((if v.conns[k].plainFinal then v.conns[k].prx else 0) + SumRx(js, k)) % TWO64,
                    plain := LastSample(v.samples, js, k, v.conns[k].plain)))
            && w.samples.Keys == v.samples.Keys * LiveSsl(js)
            && (forall ssl :: ssl in w.samples ==> w.samples[ssl] == v.samples[ssl])
            && w == v.(conns := w.conns, pidfd := w.pidfd, samples := w.samples, chunks := w.chunks)
  {
    hide SumTx, SumRx, LastSample, JoinedConn, JoinAll, JoinsLegal, ZeroConn;
    JoinAllExact(Zero(v), js);
    forall k | k in v.conns
      ensures JoinedConn(v.samples, ZeroConn(v.conns[k]), js, k)
           == v.conns[k].(
                ptx := ((if v.conns[k].plainFinal then v.conns[k].ptx else 0) + SumTx(js, k)) % TWO64,
                prx := ((if v.conns[k].plainFinal then v.conns[k].prx else 0) + SumRx(js, k)) % TWO64,
                plain := LastSample(v.samples, js, k, v.conns[k].plain))
    {
      JoinedZero(v.samples, v.conns[k], js, k);
    }
  }

  // ---- nothing is lost or counted twice

  function BytesOf(st: SslStat, d: Dir): u64 { if d == Out then st.ptx else st.prx }

  function PlainOf(c: ConnV, d: Dir): u64 { if d == Out then c.ptx else c.prx }

  function SumOf(js: seq<Join>, k: u64, d: Dir): nat { if d == Out then SumTx(js, k) else SumRx(js, k) }

  function SumResolved(js: seq<Join>, d: Dir): nat {
    if js == [] then 0
    else SumResolved(js[..|js| - 1], d) + if js[|js| - 1].target.Some? then BytesOf(js[|js| - 1].stat, d) else 0
  }

  /** What a poll starts from. */
  function Base(c: ConnV, d: Dir): u64 { if c.plainFinal then PlainOf(c, d) else 0 }

  /** The totals of the connections at `ks`. */
  function Total(conns: map<u64, ConnV>, ks: seq<u64>, d: Dir): nat
    requires forall k :: k in ks ==> k in conns
  {
    if ks == [] then 0 else PlainOf(conns[ks[0]], d) + Total(conns, ks[1..], d)
  }

  function FinalTotal(conns: map<u64, ConnV>, ks: seq<u64>, d: Dir): nat
    requires forall k :: k in ks ==> k in conns
  {
    if ks == [] then 0 else Base(conns[ks[0]], d) + FinalTotal(conns, ks[1..], d)
  }

  function SumOver(js: seq<Join>, ks: seq<u64>, d: Dir): nat {
    if ks == [] then 0 else SumOf(js, ks[0], d) + SumOver(js, ks[1..], d)
  }

  lemma SumOfSnoc(js: seq<Join>, j: Join, k: u64, d: Dir)
    ensures SumOf(js + [j], k, d) == SumOf(js, k, d) + if j.target == Some(k) then BytesOf(j.stat, d) else 0
    ensures SumOf([], k, d) == 0
  {
    assert (js + [j])[..|js|] == js;
  }

  lemma {:induction false} SumOverSnoc(js: seq<Join>, j: Join, ks: seq<u64>, d: Dir)
    requires NoDup(ks)
    ensures SumOver(js + [j], ks, d)
         == SumOver(js, ks, d) + if j.target.Some? && j.target.value in ks then BytesOf(j.stat, d) else 0
  {
    hide SumOf;
    if ks != [] {
      SumOfSnoc(js, j, ks[0], d);
      assert forall i :: 0 <= i < |ks| - 1 ==> ks[1..][i] == ks[i + 1];
      SumOverSnoc(js, j, ks[1..], d);
      assert ks[0] !in ks[1..];
      assert j.target.Some? ==> (j.target.value in ks <==> j.target.value == ks[0] || j.target.value in ks[1..]);
    }
  }

  lemma {:induction false} SumOverNil(ks: seq<u64>, d: Dir)
    ensures SumOver([], ks, d) == 0
  {
    if ks != [] {
      SumOverNil(ks[1..], d);
    }
  }

  /** Each statistic is counted at one connection. */
  lemma {:induction false} SumOverAll(js: seq<Join>, ks: seq<u64>, d: Dir)
    requires NoDup(ks) && forall j :: j in js && j.target.Some? ==> j.target.value in ks
    ensures SumOver(js, ks, d) == SumResolved(js, d)
  {
    hide SumOver, NoDup;
    if js == [] {
      SumOverNil(ks, d);
    } else {
      var init, last := js[..|js| - 1], js[|js| - 1];
      assert js == init + [last] && last in js && forall j :: j in init ==> j in js;
      SumOverAll(init, ks, d);
      SumOverSnoc(init, last, ks, d);
    }
  }

  lemma {:induction false} TotalMod(v: StoreV, js: seq<Join>, ks: seq<u64>, d: Dir)
    requires JoinsLegal(Zero(v), js) && forall k :: k in ks ==> k in v.conns
    ensures Total(UpdateStats(v, js).conns, ks, d) % TWO64 == (FinalTotal(v.conns, ks, d) + SumOver(js, ks, d)) % TWO64
  {
    hide UpdateStats, JoinsLegal, SumOf, PlainOf;
    if ks != [] {
      var k, rest := ks[0], ks[1..];
      TotalMod(v, js, rest, d);
      PlainAfter(v, js, k, d);
      ModSum(Base(v.conns[k], d) + SumOf(js, k, d), Total(UpdateStats(v, js).conns, rest, d),
             FinalTotal(v.conns, rest, d) + SumOver(js, rest, d));
    }
  }

  lemma PlainAfter(v: StoreV, js: seq<Join>, k: u64, d: Dir)
    requires JoinsLegal(Zero(v), js) && k in v.conns
    ensures PlainOf(UpdateStats(v, js).conns[k], d) == (Base(v.conns[k], d) + SumOf(js, k, d)) % TWO64
  {
    hide UpdateStats, JoinsLegal, SumTx, SumRx, LastSample;
    PlaintextJoin(v, js);
  }

  lemma ModSum(a: nat, b: nat, c: nat)
    requires b % TWO64 == c % TWO64
    ensures (a % TWO64 + b) % TWO64 == (a + c) % TWO64
  {
  }

  /** The grand total after a poll is what was settled before plus everything resolved. */
  lemma GrandTotal(v: StoreV, js: seq<Join>, ks: seq<u64>, d: Dir)
    requires JoinsLegal(Zero(v), js) && NoDup(ks) && (forall k :: k in ks <==> k in v.conns)
    ensures Total(UpdateStats(v, js).conns, ks, d) % TWO64 == (FinalTotal(v.conns, ks, d) + SumResolved(js, d)) % TWO64
  {
    hide UpdateStats, Total, FinalTotal, SumOver, SumResolved, NoDup;
    JoinAllExact(Zero(v), js);
    SumOverAll(js, ks, d);
    TotalMod(v, js, ks, d);
  }

  // ---- totals that are settled

  /** The connection `id`, live or retired, has its plaintext totals settled at these. */
  ghost predicate Settled(v: StoreV, id: nat, ptx: u64, prx: u64) {
    || (exists k :: k in v.conns && IsSettled(v.conns[k], id, ptx, prx))
    || (exists i :: 0 <= i < |v.retired| && IsSettled(v.retired[i], id, ptx, prx))
  }

  predicate IsSettled(c: ConnV, id: nat, ptx: u64, prx: u64) {
    c.id == id && c.plainFinal && c.ptx == ptx && c.prx == prx
  }

  /** No session is resolved to the connection `id` by this operation. */
  ghost predicate Avoids(v: StoreV, op: Op, id: nat) {
    match op
    case OpClose(_, _, t) => t.Some? && t.value in v.conns ==> v.conns[t.value].id != id
    case OpStats(js) =>
      forall j :: j in js && j.target.Some? && j.target.value in v.conns ==>
        v.conns[j.target.value].id != id
    case _ => true
  }

  lemma CloseSettles(v: StoreV, e: Close, peer: Option<AddrPort>, k: u64)
    requires ResolvesTo(v, e.pid, e.fd, peer, Some(k)) && k in v.conns
    ensures var w := ApplyClose(v, e, peer, Some(k));
            && Settled(w, v.conns[k].id, e.ptx, e.prx)
            && e.ssl !in w.samples
            && (e.ssl in v.samples ==> w.conns[k].plain == v.samples[e.ssl])
  {
    hide Recache;
    var w := ApplyClose(v, e, peer, Some(k));
    assert k in w.conns && IsSettled(w.conns[k], v.conns[k].id, e.ptx, e.prx);
  }

  lemma {:induction false} NoSum(js: seq<Join>, k: u64)
    requires forall j :: j in js ==> j.target != Some(k)
    ensures SumTx(js, k) == 0 && SumRx(js, k) == 0
  {
    if js != [] {
      assert js[|js| - 1] in js;
      NoSum(js[..|js| - 1], k);
    }
  }

  /** A rewrite that leaves a settled record settled. */
  lemma SettledByRewrite(v: StoreV, w: StoreV, id: nat, ptx: u64, prx: u64)
    requires Settled(v, id, ptx, prx) && v.retired <= w.retired
    requires forall k :: k in v.conns && IsSettled(v.conns[k], id, ptx, prx) ==>
               (k in w.conns && IsSettled(w.conns[k], id, ptx, prx))
               || (exists i :: 0 <= i < |w.retired| && IsSettled(w.retired[i], id, ptx, prx))
    ensures Settled(w, id, ptx, prx)
  {
    if i :| 0 <= i < |v.retired| && IsSettled(v.retired[i], id, ptx, prx) {
      assert w.retired[i] == v.retired[i];
    } else {
      var k :| k in v.conns && IsSettled(v.conns[k], id, ptx, prx);
    }
  }

  lemma TouchSettled(v: StoreV, f: Flow, id: nat, ptx: u64, prx: u64)
    requires Settled(v, id, ptx, prx)
    ensures Settled(Touch(v, f), id, ptx, prx)
  {
    SettledByRewrite(v, Touch(v, f), id, ptx, prx);
  }

  lemma {:induction false} TouchAllSettled(v: StoreV, fs: seq<Flow>, id: nat, ptx: u64, prx: u64)
    requires Settled(v, id, ptx, prx)
    ensures Settled(TouchAll(v, fs), id, ptx, prx)
  {
    hide Touch, Settled;
    if fs != [] {
      TouchAllSettled(v, fs[..|fs| - 1], id, ptx, prx);
      TouchSettled(TouchAll(v, fs[..|fs| - 1]), fs[|fs| - 1], id, ptx, prx);
    }
  }

  lemma RetireSettled(v: StoreV, k: u64, id: nat, ptx: u64, prx: u64)
    requires Settled(v, id, ptx, prx) && k in v.conns
    ensures Settled(Retire(v, k), id, ptx, prx)
  {
    var w := Retire(v, k);
    if IsSettled(v.conns[k], id, ptx, prx) {
      assert IsSettled(w.retired[|v.retired|], id, ptx, prx);
    }
    SettledByRewrite(v, w, id, ptx, prx);
  }

  lemma {:induction false} RetireAllSettled(v: StoreV, ks: seq<u64>, id: nat, ptx: u64, prx: u64)
    requires Settled(v, id, ptx, prx) && NoDup(ks) && forall k :: k in ks ==> k in v.conns
    ensures Settled(RetireAll(v, ks), id, ptx, prx)
  {
    hide Retire, Settled;
    if ks != [] {
      var init, last := ks[..|ks| - 1], ks[|ks| - 1];
      assert last !in (set k | k in init);
      RetireAllSettled(v, init, id, ptx, prx);
      RetireSettled(RetireAll(v, init), last, id, ptx, prx);
    }
  }

  lemma StatsSettled(v: StoreV, js: seq<Join>, id: nat, ptx: u64, prx: u64)
    requires Settled(v, id, ptx, prx) && JoinsLegal(Zero(v), js) && Avoids(v, OpStats(js), id)
    ensures Settled(UpdateStats(v, js), id, ptx, prx)
  {
    hide UpdateStats, JoinsLegal, SumTx, SumRx, LastSample;
    PlaintextJoin(v, js);
    forall k | k in v.conns && IsSettled(v.conns[k], id, ptx, prx)
      ensures IsSettled(UpdateStats(v, js).conns[k], id, ptx, prx)
    {
      NoSum(js, k);
    }
    SettledByRewrite(v, UpdateStats(v, js), id, ptx, prx);
  }

  /** Settled totals survive every operation that resolves no other session to the connection,
      through its retirement. */
  lemma SettledKept(x509: X509, v: StoreV, op: Op, id: nat, ptx: u64, prx: u64)
    requires Settled(v, id, ptx, prx) && Legal(v, op) && Avoids(v, op, id)
    ensures Settled(Next(x509, v, op), id, ptx, prx)
  {
    match op
    case OpFlows(fs, order) =>
      hide Settled, TouchAll, RetireAll;
      TouchAllSettled(v, fs, id, ptx, prx);
      RetireAllSettled(TouchAll(v, fs), order, id, ptx, prx);
    case OpWire(sock, dir, data) =>
      hide Settled, ApplyWire;
      WireSettled(x509, v, sock, dir, data, id, ptx, prx);
    case OpData(ssl, dir, data) => SettledByRewrite(v, ApplyData(v, ssl, dir, data), id, ptx, prx);
    case OpClose(e, peer, t) =>
      hide Recache;
      SettledByRewrite(v, ApplyClose(v, e, peer, t), id, ptx, prx);
    case OpStats(js) =>
      hide Settled, UpdateStats, JoinsLegal;
      StatsSettled(v, js, id, ptx, prx);
  }

  lemma WireSettled(x509: X509, v: StoreV, sock: u64, dir: byte, data: Bytes, id: nat, ptx: u64, prx: u64)
    requires Settled(v, id, ptx, prx)
    ensures Settled(ApplyWire(x509, v, sock, dir, data), id, ptx, prx)
  {
    hide WireStep;
    SettledByRewrite(v, ApplyWire(x509, v, sock, dir, data), id, ptx, prx);
  }
}
