/** The kernel side as a state machine: one atomic step a probe, threads in any interleaving. */
module KernelSpec {
  import opened Bytes
  import opened Endpoint
  import opened EventCodec
  import opened Reassembly

  const MAX_WIRE_EVENTS := 16
  const DIR_OUT: byte := 1
  const DIR_IN: byte := 2

  // Connection states of the Linux TCP implementation.
  const TCP_ESTABLISHED := 1
  const TCP_SYN_RECV := 3
  const TCP_CLOSE := 7
  const TCP_CLOSE_WAIT := 8

  function DirCode(d: Dir): byte { if d == Out then DIR_OUT else DIR_IN }

  // ---- state

  datatype Entry = Entry(
    tx: u64, rx: u64, pid: u32, saddr: Words, daddr: Words, sport: u16, dport: u16, isIpv6: bool,
    direction: byte, isTls: bool, closed: bool, wireOut: byte, wireIn: byte, comm: string)

  const ZERO_ENTRY := Entry(0, 0, 0, [0, 0, 0, 0], [0, 0, 0, 0], 0, 0, false, 0, false, false, 0, 0, "")

  /** Plaintext counters of one session. */
  datatype Session = Session(ptx: u64, prx: u64, pid: u32, fd: i32)

  /** The arguments of a call, kept from its entry to its return. */
  datatype RecvCall = RecvCall(sk: u64, base: u64)
  datatype ReadCall = ReadCall(ssl: u64, buf: u64)

  /** The maps, and every event ever submitted; the reader of the ring has its own position. */
  datatype KernelV = KernelV(
    flows: map<u64, Entry>,
    sessions: map<u64, Session>,
    fds: map<u64, i32>,
    recvs: map<u64, RecvCall>,
    sslReads: map<u64, ReadCall>,
    ring: seq<Event>)

  const BOOT := KernelV(map[], map[], map[], map[], map[], [])

  // ---- what a probe finds around it

  /** The thread a probe runs on: `id` is its process in the upper half and itself in the lower. */
  datatype Ctx = Ctx(id: u64, comm: string)

  function PidOf(id: u64): u32 { id / TWO32 }

  function TidOf(id: u64): u32 { id % TWO32 }

  /** The addresses in a socket structure. */
  datatype Tuple = Tuple(sport: u16, dport: u16, isIpv6: bool, saddr: Words, daddr: Words)

  /** User memory at a buffer: reading is possible as far as `mem` goes.  `room` is whether
      the ring has room for one more event. */
  datatype User = User(mem: Bytes, room: bool)

  datatype Probe =
    | SendMsg(ctx: Ctx, sk: u64, base: u64, size: u64, tuple: Tuple, user: User)
    | RecvEnter(ctx: Ctx, recv: RecvCall)
    // The call that returns; a return probe does not see its arguments.
    | RecvExit(ctx: Ctx, recv: RecvCall, ret: i32, tuple: Tuple, user: User)
    | SetState(sk: u64, tcp: bool, oldState: nat, newState: nat)
    | SslFree(ctx: Ctx, ssl: u64, room: bool)
    | SslSetFd(ssl: u64, fd: i32)
    | SslWrite(ctx: Ctx, ssl: u64, buf: u64, num: i32, user: User)
    | SslReadEnter(ctx: Ctx, read: ReadCall)
    | SslReadExit(ctx: Ctx, read: ReadCall, ret: i32, user: User)
    // Not a probe: the poller removes an entry.
    | DeleteFlow(sk: u64)

  // ---- socket probes

  function ReadTuple(e: Entry, t: Tuple): Entry {
    e.(sport := t.sport, dport := t.dport, isIpv6 := t.isIpv6,
       saddr := if t.isIpv6 then t.saddr else e.saddr[0 := t.saddr[0]],
       daddr := if t.isIpv6 then t.daddr else e.daddr[0 := t.daddr[0]])
  }

  /** The entry of a socket, created if need be, and identified if nobody has been yet. */
  function FlowGet(k: KernelV, sk: u64, ctx: Ctx, t: Tuple): Entry {
    var e := if sk in k.flows then k.flows[sk] else ZERO_ENTRY;
    if e.pid == 0 then ReadTuple(e.(pid := PidOf(ctx.id), comm := ctx.comm), t) else e
  }

  predicate LooksLikeTls(hdr: Bytes)
    requires |hdr| >= 3
  {
    20 <= hdr[0] <= 23 && hdr[1] == 3 && hdr[2] <= 4
  }

  /** How much of `n` bytes an event carries: the size is cut to 32 bits first. */
  function Cap(n: u64): nat { Min(n % TWO32, WIRE_CAP - 1) }

  function Count(e: Entry, d: Dir): byte { if d == Out then e.wireOut else e.wireIn }

  /** The bytes that are captured of a transfer, `armed` transfers into its direction. */
  function Captures(count: nat, base: u64, n: u64, user: User): Option<Bytes> {
    if base == 0 || n < 1 || count >= MAX_WIRE_EVENTS then None
    else if count == 0 && !Arms(n, user.mem) then None
    else if !user.room || Cap(n) > |user.mem| then None
    else Some(user.mem[..Cap(n)])
  }

  /** A first chunk must look like the start of a record. */
  predicate Arms(n: u64, mem: Bytes) {
    n >= 5 && |mem| >= 5 && LooksLikeTls(mem)
  }

  /** A direction is marked as TLS as soon as it looks like it, captured or not. */
  function MarkTls(e: Entry, base: u64, n: u64, d: Dir, user: User): Entry {
    if base != 0 && Count(e, d) == 0 && Arms(n, user.mem) then e.(isTls := true) else e
  }

  function Bump(e: Entry, d: Dir): Entry
    requires Count(e, d) < MAX_WIRE_EVENTS
  {
    if d == Out then e.(wireOut := e.wireOut + 1) else e.(wireIn := e.wireIn + 1)
  }

  function CaptureWire(k: KernelV, sk: u64, base: u64, n: u64, d: Dir, user: User): KernelV
    requires sk in k.flows
  {
    var e := MarkTls(k.flows[sk], base, n, d, user);
    match Captures(Count(e, d), base, n, user)
    case None => k.(flows := k.flows[sk := e])
    case Some(data) => k.(flows := k.flows[sk := Bump(e, d)], ring := k.ring + [WireEvent(DirCode(d), sk, data)])
  }

  /** Both directions: find the entry, count the bytes, capture. */
  function Transfer(k: KernelV, sk: u64, base: u64, n: u64, d: Dir, ctx: Ctx, t: Tuple, user: User): KernelV {
    var e := FlowGet(k, sk, ctx, t);
    var f := if d == Out then e.(tx := Add64(e.tx, n)) else e.(rx := Add64(e.rx, n));
    CaptureWire(k.(flows := k.flows[sk := f]), sk, base, n, d, user)
  }

  function OnRecvExit(k: KernelV, ctx: Ctx, ret: i32, t: Tuple, user: User): KernelV {
    if ctx.id !in k.recvs then k
    else
      var rc, w := k.recvs[ctx.id], k.(recvs := k.recvs - {ctx.id});
      if ret <= 0 || rc.sk == 0 then w else Transfer(w, rc.sk, rc.base, ret, In, ctx, t, user)
  }

  /** The entry of a socket after a change of its state. */
  function NewState(e: Option<Entry>, oldState: nat, newState: nat): Option<Entry> {
    if newState == TCP_ESTABLISHED then
      var f := if e.Some? then e.value else ZERO_ENTRY;
      Some(f.(direction := if oldState == TCP_SYN_RECV then DIR_IN else DIR_OUT))
    else if (newState == TCP_CLOSE || newState == TCP_CLOSE_WAIT) && e.Some? then Some(e.value.(closed := true))
    else e
  }

  function Find(flows: map<u64, Entry>, sk: u64): Option<Entry> {
    if sk in flows then Some(flows[sk]) else None
  }

  function OnSetState(k: KernelV, sk: u64, tcp: bool, oldState: nat, newState: nat): KernelV {
    var e := NewState(Find(k.flows, sk), oldState, newState);
    if tcp && e.Some? then k.(flows := k.flows[sk := e.value]) else k
  }

  // ---- session probes

  function SessionGet(k: KernelV, ssl: u64, ctx: Ctx): Session {
    if ssl in k.sessions then k.sessions[ssl]
    else Session(0, 0, PidOf(ctx.id), if ssl in k.fds then k.fds[ssl] else -1)
  }

  function DataOf(ctx: Ctx, fd: i32, ssl: u64, n: u64, d: Dir, user: User): seq<Event> {
    if user.room && Cap(n) <= |user.mem|
    then [DataEvent(DirCode(d), PidOf(ctx.id), TidOf(ctx.id), fd, ssl, user.mem[..Cap(n)])]
    else []
  }

  function EmitPlaintext(k: KernelV, ssl: u64, buf: u64, n: u64, d: Dir, ctx: Ctx, user: User): KernelV {
    if buf == 0 || n == 0 then k
    else
      var s := SessionGet(k, ssl, ctx);
      k.(sessions := k.sessions[ssl := if d == Out then s.(ptx := Add64(s.ptx, n)) else s.(prx := Add64(s.prx, n))],
         ring := k.ring + DataOf(ctx, s.fd, ssl, n, d, user))
  }

  function OnSslFree(k: KernelV, ctx: Ctx, ssl: u64, room: bool): KernelV {
    k.(sessions := k.sessions - {ssl}, fds := k.fds - {ssl},
       ring := if ssl in k.sessions && room then k.ring + [CloseOf(ctx, ssl, k.sessions[ssl])] else k.ring)
  }

  function CloseOf(ctx: Ctx, ssl: u64, s: Session): Event {
    CloseEvent(PidOf(ctx.id), s.fd, ssl, s.ptx, s.prx)
  }

  function OnSslWrite(k: KernelV, ctx: Ctx, ssl: u64, buf: u64, num: i32, user: User): KernelV {
    if num > 0 then EmitPlaintext(k, ssl, buf, num, Out, ctx, user) else k
  }

  function OnSslReadExit(k: KernelV, ctx: Ctx, ret: i32, user: User): KernelV {
    if ctx.id !in k.sslReads then k
    else
      var c, w := k.sslReads[ctx.id], k.(sslReads := k.sslReads - {ctx.id});
      if ret > 0 then EmitPlaintext(w, c.ssl, c.buf, ret, In, ctx, user) else w
  }

  // ---- runs

  function Step(k: KernelV, p: Probe): KernelV {
    match p
    case SendMsg(ctx, sk, base, size, t, user) => Transfer(k, sk, base, size, Out, ctx, t, user)
    case RecvEnter(ctx, rc) => k.(recvs := k.recvs[ctx.id := rc])
    case RecvExit(ctx, _, ret, t, user) => OnRecvExit(k, ctx, ret, t, user)
    case SetState(sk, tcp, o, n) => OnSetState(k, sk, tcp, o, n)
    case SslFree(ctx, ssl, room) => OnSslFree(k, ctx, ssl, room)
    case SslSetFd(ssl, fd) => k.(fds := k.fds[ssl := fd])
    case SslWrite(ctx, ssl, buf, num, user) => OnSslWrite(k, ctx, ssl, buf, num, user)
    case SslReadEnter(ctx, c) => k.(sslReads := k.sslReads[ctx.id := c])
    case SslReadExit(ctx, _, ret, user) => OnSslReadExit(k, ctx, ret, user)
    case DeleteFlow(sk) => k.(flows := k.flows - {sk})
  }

  function Trace(tr: seq<Probe>): KernelV {
    if tr == [] then BOOT else Step(Trace(tr[..|tr| - 1]), tr[|tr| - 1])
  }
}
