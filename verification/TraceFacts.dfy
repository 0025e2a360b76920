/** What really happened, told from the trace of probes alone: with the numbers of TCP, of the
    record header and of the shared header file, and with nothing that the probes compute. */
module TraceFacts {
  import opened Bytes
  import opened EventCodec
  import opened Reassembly
  import opened KernelSpec

  function ProcessOf(id: u64): u32 { id / 0x1_0000_0000 }

  function ThreadOf(id: u64): u32 { id % 0x1_0000_0000 }

  function Code(d: Dir): byte { if d == Out then 1 else 2 }

  // ---- calls and returns

  /** The call that is open on a thread: the latest one seen to enter and not to return. */
  function OpenRecv(tr: seq<Probe>, id: u64): Option<RecvCall> {
    if tr == [] then None
    else
      match tr[|tr| - 1]
      case RecvEnter(ctx, rc) => if ctx.id == id then Some(rc) else OpenRecv(tr[..|tr| - 1], id)
      case RecvExit(ctx, _, _, _, _) => if ctx.id == id then None else OpenRecv(tr[..|tr| - 1], id)
      case _ => OpenRecv(tr[..|tr| - 1], id)
  }

  function OpenRead(tr: seq<Probe>, id: u64): Option<ReadCall> {
    if tr == [] then None
    else
      match tr[|tr| - 1]
      case SslReadEnter(ctx, c) => if ctx.id == id then Some(c) else OpenRead(tr[..|tr| - 1], id)
      case SslReadExit(ctx, _, _, _) => if ctx.id == id then None else OpenRead(tr[..|tr| - 1], id)
      case _ => OpenRead(tr[..|tr| - 1], id)
  }

  /** Each thread alternates call and return: what returns is the call open on the thread,
      unless that call began before the trace did. */
  predicate Alternates(tr: seq<Probe>) {
    tr == [] ||
    (Alternates(tr[..|tr| - 1]) &&
     match tr[|tr| - 1]
     case RecvExit(ctx, rc, _, _, _) => OpenRecv(tr[..|tr| - 1], ctx.id) in {None, Some(rc)}
     case SslReadExit(ctx, c, _, _) => OpenRead(tr[..|tr| - 1], ctx.id) in {None, Some(c)}
     case _ => true)
  }

  // ---- bytes on the wire

  /** Bytes on the wire: on which socket, from or to which buffer, how many, by whom, and what
      can be seen of the socket and of the buffer then. */
  datatype Move = Move(sk: u64, base: u64, n: u64, ctx: Ctx, tuple: Tuple, user: User)

  /** The bytes that `p`, after `tr`, moves in a direction: every send, and every return of a
      receive that was seen to begin. */
  function Moves(tr: seq<Probe>, p: Probe, d: Dir): Option<Move> {
    match p
    case SendMsg(ctx, sk, base, size, t, user) => if d == Out then Some(Move(sk, base, size, ctx, t, user)) else None
    case RecvExit(ctx, rc, ret, t, user) =>
      if d == In && OpenRecv(tr, ctx.id).Some? && rc.sk != 0 && ret > 0
      then Some(Move(rc.sk, rc.base, ret, ctx, t, user))
      else None
    case _ => None
  }

  /** What `p` moves on a socket, in whatever direction. */
  function MoveOn(tr: seq<Probe>, p: Probe, sk: u64): Option<Move> {
    var o, i := Moves(tr, p, Out), Moves(tr, p, In);
    if o.Some? && o.value.sk == sk then o
    else if i.Some? && i.value.sk == sk then i
    else None
  }

  /** All bytes moved on a socket since its entry was last deleted. */
  function Moved(tr: seq<Probe>, sk: u64, d: Dir): nat {
    if tr == [] then 0
    else
      var init, p := tr[..|tr| - 1], tr[|tr| - 1];
      var m := Moves(init, p, d);
      if p == DeleteFlow(sk) then 0
      else Moved(init, sk, d) + if m.Some? && m.value.sk == sk then m.value.n else 0
  }

  /** All bytes moved on a socket in the whole trace. */
  function MovedEver(tr: seq<Probe>, sk: u64, d: Dir): nat {
    if tr == [] then 0
    else
      var m := Moves(tr[..|tr| - 1], tr[|tr| - 1], d);
      MovedEver(tr[..|tr| - 1], sk, d) + if m.Some? && m.value.sk == sk then m.value.n else 0
  }

  /** The start of a record: one of four types, major version 3, minor version at most 4. */
  predicate StartsRecord(b: Bytes) {
    |b| >= 5 && b[0] in {20, 21, 22, 23} && b[1] == 3 && b[2] in {0, 1, 2, 3, 4}
  }

  /** What an event carries of `n` bytes at a buffer: at most 1023 of the size cut to 32 bits, if
      the ring has room and the buffer can be read so far. */
  function Carried(n: u64, user: User): Option<Bytes> {
    var m := Min(n % 0x1_0000_0000, 1023);
    if user.room && m <= |user.mem| then Some(user.mem[..m]) else None
  }

  /** What is captured of a move, `count` chunks into its direction. */
  function Due(count: nat, m: Move): Option<Bytes> {
    if m.base == 0 || m.n == 0 || count >= 16 then None
    else if count == 0 && (m.n < 5 || !StartsRecord(m.user.mem)) then None
    else Carried(m.n, m.user)
  }

  /** The chunks captured on a socket since its entry was last deleted. */
  function Captured(tr: seq<Probe>, sk: u64, d: Dir): seq<Bytes> {
    if tr == [] then []
    else
      var init, p := tr[..|tr| - 1], tr[|tr| - 1];
      var m := Moves(init, p, d);
      var before := Captured(init, sk, d);
      if p == DeleteFlow(sk) then []
      else if m.None? || m.value.sk != sk then before
      else
        match Due(|before|, m.value)
        case None => before
        case Some(data) => before + [data]
  }

  predicate ArmedBy(tr: seq<Probe>, p: Probe, sk: u64, d: Dir) {
    var m := Moves(tr, p, d);
    && m.Some? && m.value.sk == sk && m.value.base != 0 && Captured(tr, sk, d) == []
    && m.value.n >= 5 && StartsRecord(m.value.user.mem)
  }

  /** A record was seen to start on the socket since its entry was last deleted. */
  predicate Armed(tr: seq<Probe>, sk: u64) {
    tr != [] &&
    var init, p := tr[..|tr| - 1], tr[|tr| - 1];
    p != DeleteFlow(sk) && (Armed(init, sk) || ArmedBy(init, p, sk, Out) || ArmedBy(init, p, sk, In))
  }

  // ---- who it was

  /** The move that says whose socket it is and what its two ends are: the first since its entry was
      last deleted that a process other than the idle one, 0, made, and the latest until then. */
  function Identified(tr: seq<Probe>, sk: u64): Option<Move> {
    if tr == [] then None
    else
      var init, p := tr[..|tr| - 1], tr[|tr| - 1];
      var before, now := Identified(init, sk), MoveOn(init, p, sk);
      if p == DeleteFlow(sk) then None
      else if before.Some? && ProcessOf(before.value.ctx.id) != 0 then before
      else if now.Some? then now
      else before
  }

  // ---- the life of a socket

  predicate Establishes(p: Probe, sk: u64) { p.SetState? && p.sk == sk && p.tcp && p.newState == 1 }

  predicate Closes(p: Probe, sk: u64) { p.SetState? && p.sk == sk && p.tcp && (p.newState == 7 || p.newState == 8) }

  /** A socket is tracked once it is established or moves bytes, until its entry is deleted. */
  predicate Tracked(tr: seq<Probe>, sk: u64) {
    tr != [] &&
    var init, p := tr[..|tr| - 1], tr[|tr| - 1];
    p != DeleteFlow(sk) && (Establishes(p, sk) || MoveOn(init, p, sk).Some? || Tracked(init, sk))
  }

  /** It is closed once it was seen to close while tracked, until its entry is deleted. */
  predicate ClosedSince(tr: seq<Probe>, sk: u64) {
    tr != [] &&
    var init, p := tr[..|tr| - 1], tr[|tr| - 1];
    p != DeleteFlow(sk) && (ClosedSince(init, sk) || (Closes(p, sk) && Tracked(init, sk)))
  }

  /** Which side opened it, as of the last time it was established while tracked: 2 if it came out
      of SYN_RECV, 1 otherwise, and 0 if that was not seen. */
  function Opened(tr: seq<Probe>, sk: u64): byte {
    if tr == [] then 0
    else
      var init, p := tr[..|tr| - 1], tr[|tr| - 1];
      if p == DeleteFlow(sk) then 0
      else if Establishes(p, sk) then (if p.oldState == 3 then 2 else 1)
      else Opened(init, sk)
  }

  // ---- plaintext

  /** Plaintext that passes a session: in which direction, how much, by whom, and what of it can be
      seen. */
  datatype Pass = Pass(dir: Dir, ssl: u64, n: nat, ctx: Ctx, user: User)

  /** What `p`, after `tr`, passes: every write, and every return of a read that was seen to begin. */
  function PassOf(tr: seq<Probe>, p: Probe): Option<Pass> {
    match p
    case SslWrite(ctx, ssl, buf, num, user) =>
      if buf != 0 && num > 0 then Some(Pass(Out, ssl, num, ctx, user)) else None
    case SslReadExit(ctx, c, ret, user) =>
      if OpenRead(tr, ctx.id).Some? && c.buf != 0 && ret > 0 then Some(Pass(In, c.ssl, ret, ctx, user)) else None
    case _ => None
  }

  /** All plaintext bytes of a session since it was last freed. */
  function Passed(tr: seq<Probe>, ssl: u64, d: Dir): nat {
    if tr == [] then 0
    else
      var init, p := tr[..|tr| - 1], tr[|tr| - 1];
      var m := PassOf(init, p);
      if p.SslFree? && p.ssl == ssl then 0
      else Passed(init, ssl, d) + if m.Some? && m.value.ssl == ssl && m.value.dir == d then m.value.n else 0
  }

  /** The descriptor a session was last given since it was last freed; -1 if none. */
  function Given(tr: seq<Probe>, ssl: u64): i32 {
    if tr == [] then -1
    else
      match tr[|tr| - 1]
      case SslSetFd(s, fd) => if s == ssl then fd else Given(tr[..|tr| - 1], ssl)
      case SslFree(_, s, _) => if s == ssl then -1 else Given(tr[..|tr| - 1], ssl)
      case _ => Given(tr[..|tr| - 1], ssl)
  }

  /** Where a session comes from: its process and its descriptor. */
  datatype Origin = Origin(pid: u32, fd: i32)

  /** The process that first passed anything in the session since it was last freed, and the
      descriptor the session had been given by then: a later one comes too late. */
  function Began(tr: seq<Probe>, ssl: u64): Option<Origin> {
    if tr == [] then None
    else
      var init, p := tr[..|tr| - 1], tr[|tr| - 1];
      var m := PassOf(init, p);
      if p.SslFree? && p.ssl == ssl then None
      else if Began(init, ssl).Some? then Began(init, ssl)
      else if m.Some? && m.value.ssl == ssl then Some(Origin(ProcessOf(m.value.ctx.id), Given(init, ssl)))
      else None
  }

  function SessionFd(tr: seq<Probe>, ssl: u64): i32 {
    if Began(tr, ssl).Some? then Began(tr, ssl).value.fd else -1
  }

  // ---- what goes into the ring

  function WireSaid(tr: seq<Probe>, m: Move, d: Dir): seq<Event> {
    var data := Due(|Captured(tr, m.sk, d)|, m);
    if data.Some? then [WireEvent(Code(d), m.sk, data.value)] else []
  }

  function TextSaid(tr: seq<Probe>, p: Probe): seq<Event> {
    var m := PassOf(tr, p);
    if m.None? || Carried(m.value.n, m.value.user).None? then []
    else
      var id := m.value.ctx.id;
      [DataEvent(Code(m.value.dir), ProcessOf(id), ThreadOf(id), SessionFd(tr + [p], m.value.ssl), m.value.ssl,
                 Carried(m.value.n, m.value.user).value)]
  }

  /** The end of a session that passed anything, if the ring has room: by whom it was freed, its
      descriptor and its totals. */
  function CloseSaid(tr: seq<Probe>, p: Probe): seq<Event> {
    if p.SslFree? && p.room && Passed(tr, p.ssl, Out) + Passed(tr, p.ssl, In) > 0
    then [CloseEvent(ProcessOf(p.ctx.id), SessionFd(tr, p.ssl), p.ssl,
                     Passed(tr, p.ssl, Out) % 0x1_0000_0000_0000_0000,
                     Passed(tr, p.ssl, In) % 0x1_0000_0000_0000_0000)]
    else []
  }

  /** What `p`, after `tr`, has to say. */
  function Said(tr: seq<Probe>, p: Probe): seq<Event> {
    var o, i := Moves(tr, p, Out), Moves(tr, p, In);
    if o.Some? then WireSaid(tr, o.value, Out)
    else if i.Some? then WireSaid(tr, i.value, In)
    else TextSaid(tr, p) + CloseSaid(tr, p)
  }

  /** All that was said, in order. */
  function Submitted(tr: seq<Probe>): seq<Event> {
    if tr == [] then [] else Submitted(tr[..|tr| - 1]) + Said(tr[..|tr| - 1], tr[|tr| - 1])
  }

  /** The ends of sessions, in order. */
  function Freed(tr: seq<Probe>): seq<Event> {
    if tr == [] then [] else Freed(tr[..|tr| - 1]) + CloseSaid(tr[..|tr| - 1], tr[|tr| - 1])
  }

  /** The plaintext of one session and direction that was seen, piece by piece, over the whole
      trace. */
  function Texts(tr: seq<Probe>, ssl: u64, d: Dir): seq<Bytes> {
    if tr == [] then []
    else
      var m := PassOf(tr[..|tr| - 1], tr[|tr| - 1]);
      Texts(tr[..|tr| - 1], ssl, d)
      + if m.Some? && m.value.ssl == ssl && m.value.dir == d && Carried(m.value.n, m.value.user).Some?
        then [Carried(m.value.n, m.value.user).value] else []
  }
}
