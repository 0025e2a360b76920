/** The connection table as a state machine: one function a store operation.

    What the program leaves to chance (the order in which a map is walked, which of several
    matching connections is found first, what /proc answers) is a parameter of the operation,
    with a predicate saying which choices are possible. */
module StoreSpec {
  import opened Bytes
  import opened Endpoint
  import opened TlsInfo
  import opened TlsSpec
  import opened Reassembly

  // ---- state

  /** One tracked connection.  Two fields are not in the program's record: `id`, the identity
      of the object, counts the connections ever created; `seen` logs the captured chunks. */
  datatype ConnV = ConnV(
    id: nat,
    sock: u64,
    pid: u32,
    comm: string,
    local: Option<AddrPort>,
    remote: Option<AddrPort>,
    direction: byte,
    tx: u64,
    rx: u64,
    ptx: u64,
    prx: u64,
    isTls: bool,
    closed: bool,
    preexisting: bool,
    closedAt: bool,
    wire: Wire,
    plain: Sample,
    plainFinal: bool,
    seen: seq<Chunk>)

  /** Plaintext of one session, per direction: the first chunk and a rolling tail. */
  datatype Sample = Sample(headOut: Bytes, tailOut: Bytes, headIn: Bytes, tailIn: Bytes)

  const NO_SAMPLE := Sample([], [], [], [])

  /** All the chunks a sample was made from. */
  datatype Chunks = Chunks(outs: seq<Bytes>, ins: seq<Bytes>)

  /** The store, with three logs that the program does not keep: how many connections were
      created, all that were ever retired, and the chunks behind each sample. */
  datatype StoreV = StoreV(
    conns: map<u64, ConnV>,
    history: seq<ConnV>,
    maxHistory: nat,
    peekBytes: nat,
    pidfd: map<nat, u64>,
    samples: map<u64, Sample>,
    created: nat,
    retired: seq<ConnV>,
    chunks: map<u64, Chunks>)

  function NewStore(maxHistory: int, peekBytes: int): StoreV {
    StoreV(map[], [], if maxHistory < 0 then 0 else maxHistory, if peekBytes < 0 then 0 else peekBytes,
           map[], map[], 0, [], map[])
  }

  function NewConn(id: nat, sock: u64): ConnV {
    ConnV(id, sock, 0, "", None, None, 0, 0, 0, 0, 0, false, false, false, false, Start(EMPTY_INFO), NO_SAMPLE, false,
        [])
  }

  predicate SawHello(c: ConnV) { c.wire.info.hasClientHello || c.wire.info.hasServerHello }

  /** The connection of a socket, created on first sight. */
  function Ensure(v: StoreV, sock: u64): StoreV {
    if sock in v.conns then v
    else v.(conns := v.conns[sock := NewConn(v.created, sock)], created := v.created + 1)
  }

  function Put(v: StoreV, sock: u64, c: ConnV): StoreV {
    v.(conns := v.conns[sock := c])
  }

  // ---- flow snapshots

  datatype Flow = Flow(
    sock: u64, pid: u32, saddr: Words, daddr: Words, sport: u16, dport: u16, isIpv6: bool,
    direction: byte, isTls: bool, closed: bool, comm: string, tx: u64, rx: u64)

  function TouchConn(c: ConnV, f: Flow): ConnV {
    var tls := c.isTls || f.isTls;
    c.(pid := f.pid,
       comm := f.comm,
       local := Some(AddrPort(IpFrom(f.saddr, f.isIpv6), f.sport)),
       remote := Some(AddrPort(IpFrom(f.daddr, f.isIpv6), f.dport)),
       direction := if f.direction != 0 then f.direction else c.direction,
       isTls := tls,
       tx := f.tx,
       rx := f.rx,
       closed := f.closed,
       preexisting := tls && !SawHello(c))
  }

  function Touch(v: StoreV, f: Flow): StoreV {
    var w := Ensure(v, f.sock);
    Put(w, f.sock, TouchConn(w.conns[f.sock], f))
  }

  function TouchAll(v: StoreV, fs: seq<Flow>): StoreV {
    if fs == [] then v else Touch(TouchAll(v, fs[..|fs| - 1]), fs[|fs| - 1])
  }

  function Seen(fs: seq<Flow>): set<u64> { set f | f in fs :: f.sock }

  /** The connections that closed and are gone from the kernel's table. */
  function Gone(v: StoreV, seen: set<u64>): set<u64> {
    set k | k in v.conns && k !in seen && v.conns[k].closed
  }

  function RetiredConn(c: ConnV): ConnV {
    c.(closedAt := true, wire := c.wire.(outBuf := [], inBuf := []))
  }

  /** Append to the ring and cut it back to its capacity. */
  function PushHistory(h: seq<ConnV>, c: ConnV, cap: nat): seq<ConnV> {
    if cap == 0 then h
    else if |h| + 1 > cap then (h + [c])[|h| + 1 - cap..]
    else h + [c]
  }

  function Retire(v: StoreV, k: u64): StoreV
    requires k in v.conns
  {
    var c := RetiredConn(v.conns[k]);
    v.(conns := v.conns - {k}, history := PushHistory(v.history, c, v.maxHistory), retired := v.retired + [c])
  }

  predicate NoDup(ks: seq<u64>) {
    forall i, j :: 0 <= i < j < |ks| ==> ks[i] != ks[j]
  }

  function RetireAll(v: StoreV, ks: seq<u64>): StoreV
    requires NoDup(ks) && forall k :: k in ks ==> k in v.conns
    ensures RetireAll(v, ks).conns == v.conns - (set k | k in ks)
  {
    if ks == [] then v
    else
      var init, last := ks[..|ks| - 1], ks[|ks| - 1];
      assert last !in init;
      assert (set k | k in ks) == (set k | k in init) + {last};
      Retire(RetireAll(v, init), last)
  }

  /** `order` is an order in which the gone connections may be met. */
  ghost predicate RetireOrder(v: StoreV, fs: seq<Flow>, order: seq<u64>) {
    NoDup(order) && forall k :: k in order <==> k in Gone(TouchAll(v, fs), Seen(fs))
  }

  function UpdateFlows(v: StoreV, fs: seq<Flow>, order: seq<u64>): StoreV
    requires RetireOrder(v, fs, order)
  {
    RetireAll(TouchAll(v, fs), order)
  }

  // ---- captured wire bytes

  function DirOf(dir: byte): Dir { if dir == 2 then In else Out }

  function FoldWire(x509: X509, c: ConnV, chunk: Chunk): ConnV {
    var d := c.(wire := WireStep(x509, c.wire, chunk), seen := c.seen + [chunk]);
    if SawHello(d) then d.(isTls := true, preexisting := false) else d
  }

  function ApplyWire(x509: X509, v: StoreV, sock: u64, dir: byte, data: Bytes): StoreV {
    if data == [] then v
    else
      var w := Ensure(v, sock);
      Put(w, sock, FoldWire(x509, w.conns[sock], Chunk(DirOf(dir), data)))
  }

  // ---- plaintext samples

  /** Keeps at most the last `max` bytes. */
  function AppendTail(buf: Bytes, data: Bytes, max: nat): Bytes {
    LastN(buf + data, max)
  }

  function AddChunk(s: Sample, dir: byte, data: Bytes, max: nat): Sample {
    if dir == 1 then
      s.(headOut := if s.headOut == [] then data else s.headOut, tailOut := AppendTail(s.tailOut, data, max))
    else
      s.(headIn := if s.headIn == [] then data else s.headIn, tailIn := AppendTail(s.tailIn, data, max))
  }

  function LogChunk(c: Chunks, dir: byte, data: Bytes): Chunks {
    if dir == 1 then c.(outs := c.outs + [data]) else c.(ins := c.ins + [data])
  }

  function ApplyData(v: StoreV, ssl: u64, dir: byte, data: Bytes): StoreV {
    if data == [] then v
    else
      var s := if ssl in v.samples then v.samples[ssl] else NO_SAMPLE;
      var c := if ssl in v.samples && ssl in v.chunks then v.chunks[ssl] else Chunks([], []);
      v.(samples := v.samples[ssl := AddChunk(s, dir, data, v.peekBytes)],
          chunks := v.chunks[ssl := LogChunk(c, dir, data)])
  }

  // ---- finding the connection of a plaintext source

  function FdKey(pid: u32, fd: i32): nat
    requires fd >= 0
  {
    pid * TWO32 + fd
  }

  predicate Cached(v: StoreV, pid: u32, fd: i32) {
    fd >= 0 && FdKey(pid, fd) in v.pidfd && v.pidfd[FdKey(pid, fd)] in v.conns
  }

  ghost predicate HasPeer(v: StoreV, fd: i32, peer: Option<AddrPort>) {
    fd >= 0 && peer.Some? && exists k :: k in v.conns && v.conns[k].remote == peer
  }

  ghost predicate Sole(v: StoreV, pid: u32, k: u64) {
    k in v.conns && v.conns[k].pid == pid && forall j :: j in v.conns && v.conns[j].pid == pid ==> j == k
  }

  /** `t` is a connection the source (pid, fd) may be resolved to, when /proc says that the
      other end of the descriptor is `peer`. */
  ghost predicate ResolvesTo(v: StoreV, pid: u32, fd: i32, peer: Option<AddrPort>, t: Option<u64>) {
    if Cached(v, pid, fd) then t == Some(v.pidfd[FdKey(pid, fd)])
    else if HasPeer(v, fd, peer) then t.Some? && t.value in v.conns && v.conns[t.value].remote == peer
    else if t.Some? then Sole(v, pid, t.value)
    else forall k :: !Sole(v, pid, k)
  }

  /** The cache after resolving to `t`. */
  ghost function Recache(v: StoreV, pid: u32, fd: i32, peer: Option<AddrPort>, t: Option<u64>): map<nat, u64> {
    if fd < 0 || Cached(v, pid, fd) then v.pidfd
    else if HasPeer(v, fd, peer) && t.Some? then (v.pidfd - {FdKey(pid, fd)})[FdKey(pid, fd) := t.value]
    else v.pidfd - {FdKey(pid, fd)}
  }

  // ---- sessions that end

  datatype Close = Close(pid: u32, fd: i32, ssl: u64, ptx: u64, prx: u64)

  function JoinSample(v: StoreV, c: ConnV, ssl: u64): ConnV {
    if ssl in v.samples then c.(plain := v.samples[ssl]) else c
  }

  function Finalize(v: StoreV, c: ConnV, e: Close): ConnV {
    JoinSample(v, c, e.ssl).(ptx := e.ptx, prx := e.prx, plainFinal := true)
  }

  ghost function ApplyClose(v: StoreV, e: Close, peer: Option<AddrPort>, t: Option<u64>): StoreV
    requires ResolvesTo(v, e.pid, e.fd, peer, t)
  {
    var w := v.(pidfd := Recache(v, e.pid, e.fd, peer, t), samples := v.samples - {e.ssl},
        chunks := v.chunks - {e.ssl});
    if t.Some? then Put(w, t.value, Finalize(v, v.conns[t.value], e)) else w
  }

  // ---- plaintext totals

  datatype SslStat = SslStat(ssl: u64, ptx: u64, prx: u64, pid: u32, fd: i32)

  /** One statistic, what /proc says about its descriptor, and what it is resolved to. */
  datatype Join = Join(stat: SslStat, peer: Option<AddrPort>, target: Option<u64>)

  function ZeroConn(c: ConnV): ConnV {
    if c.plainFinal then c else c.(ptx := 0, prx := 0)
  }

  function Zero(v: StoreV): StoreV {
    v.(conns := map k | k in v.conns :: ZeroConn(v.conns[k]))
  }

  function AddStat(v: StoreV, c: ConnV, st: SslStat): ConnV {
    JoinSample(v, c, st.ssl).(ptx := Add64(c.ptx, st.ptx), prx := Add64(c.prx, st.prx))
  }

  ghost function JoinStat(v: StoreV, j: Join): StoreV
    requires ResolvesTo(v, j.stat.pid, j.stat.fd, j.peer, j.target)
  {
    var w := v.(pidfd := Recache(v, j.stat.pid, j.stat.fd, j.peer, j.target));
    if j.target.Some? then Put(w, j.target.value, AddStat(v, v.conns[j.target.value], j.stat)) else w
  }

  /** Every statistic is resolved to a connection it may be resolved to at its turn. */
  ghost predicate JoinsLegal(v: StoreV, js: seq<Join>)
    decreases |js|, 0
  {
    js == [] ||
    (JoinsLegal(v, js[..|js| - 1]) &&
     var j := js[|js| - 1];
     ResolvesTo(JoinAll(v, js[..|js| - 1]), j.stat.pid, j.stat.fd, j.peer, j.target))
  }

  ghost function JoinAll(v: StoreV, js: seq<Join>): (w: StoreV)
    requires JoinsLegal(v, js)
    ensures w.conns.Keys == v.conns.Keys
    decreases |js|, 1
  {
    if js == [] then v else JoinStat(JoinAll(v, js[..|js| - 1]), js[|js| - 1])
  }

  /** The joins are those of these statistics. */
  ghost predicate JoinsOf(stats: seq<SslStat>, peers: seq<Option<AddrPort>>, js: seq<Join>)
    requires |peers| == |stats|
  {
    |js| == |stats| && forall i :: 0 <= i < |js| ==> js[i].stat == stats[i] && js[i].peer == peers[i]
  }

  function LiveSsl(js: seq<Join>): set<u64> { set j | j in js :: j.stat.ssl }

  /** Drops the samples of sessions that are not in the snapshot. */
  function Evict(v: StoreV, live: set<u64>): StoreV {
    v.(samples := map k | k in v.samples && k in live :: v.samples[k],
       chunks := map k | k in v.chunks && k in live :: v.chunks[k])
  }

  ghost function UpdateStats(v: StoreV, js: seq<Join>): (w: StoreV)
    requires JoinsLegal(Zero(v), js)
    ensures w.conns.Keys == v.conns.Keys
  {
    Evict(JoinAll(Zero(v), js), LiveSsl(js))
  }

  // ---- runs

  datatype Op =
    | OpFlows(flows: seq<Flow>, order: seq<u64>)
    | OpWire(sock: u64, dir: byte, data: Bytes)
    | OpData(ssl: u64, dir: byte, data: Bytes)
    | OpClose(close: Close, peer: Option<AddrPort>, target: Option<u64>)
    | OpStats(joins: seq<Join>)

  ghost predicate Legal(v: StoreV, op: Op) {
    match op
    case OpFlows(fs, order) => RetireOrder(v, fs, order)
    case OpWire(_, _, _) => true
    case OpData(_, _, _) => true
    case OpClose(e, peer, t) => ResolvesTo(v, e.pid, e.fd, peer, t)
    case OpStats(js) => JoinsLegal(Zero(v), js)
  }

  ghost function Next(x509: X509, v: StoreV, op: Op): StoreV
    requires Legal(v, op)
  {
    match op
    case OpFlows(fs, order) => UpdateFlows(v, fs, order)
    case OpWire(sock, dir, data) => ApplyWire(x509, v, sock, dir, data)
    case OpData(ssl, dir, data) => ApplyData(v, ssl, dir, data)
    case OpClose(e, peer, t) => ApplyClose(v, e, peer, t)
    case OpStats(js) => UpdateStats(v, js)
  }

  /** The operations can be done one after the other. */
  ghost predicate CanRun(x509: X509, v: StoreV, ops: seq<Op>)
    decreases |ops|, 0
  {
    ops == [] || (CanRun(x509, v, ops[..|ops| - 1]) && Legal(Run(x509, v, ops[..|ops| - 1]), ops[|ops| - 1]))
  }

  ghost function Run(x509: X509, v: StoreV, ops: seq<Op>): StoreV
    requires CanRun(x509, v, ops)
    decreases |ops|, 1
  {
    if ops == [] then v else Next(x509, Run(x509, v, ops[..|ops| - 1]), ops[|ops| - 1])
  }
}
