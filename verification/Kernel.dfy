/** The probes as they run: each looks up and rewrites entries of the shared maps in place and
    may submit one event.  Every probe is proved to be the step of `KernelSpec`. */
module Kernel {
  import opened Bytes
  import opened EventCodec
  import opened Reassembly
  import opened KernelSpec
  import opened TraceFacts
  import KernelLaws

  /** Cut to 32 bits, clamp, mask; keeping the low ten bits is the remainder by 1024. */
  method Clamp(n: u64) returns (cap: nat)
    ensures cap == Min(n % 0x1_0000_0000, 1023)
  {
    cap := n % TWO32;
    if cap > WIRE_CAP - 1 {
      cap := WIRE_CAP - 1;
    }
    cap := cap % WIRE_CAP;
  }

  class Maps {
    var flows: map<u64, Entry>
    var sessions: map<u64, Session>
    var fds: map<u64, i32>
    var recvs: map<u64, RecvCall>
    var sslReads: map<u64, ReadCall>
    var ring: seq<Event>
    ghost var trace: seq<Probe>

    ghost function View(): KernelV
      reads this`flows, this`sessions, this`fds, this`recvs, this`sslReads, this`ring
    {
      KernelV(flows, sessions, fds, recvs, sslReads, ring)
    }

    /** The maps are where the probes that fired lead from empty ones. */
    ghost predicate Traced()
      reads this
    {
      View() == Trace(trace)
    }

    constructor ()
      ensures View() == BOOT && trace == [] && Traced()
    {
      trace := [];
      flows, sessions, fds, recvs, sslReads, ring := map[], map[], map[], map[], map[], [];
    }

    /** Notes the probe that led from `k` to here. */
    ghost method Log(k: KernelV, p: Probe)
      requires View() == Step(k, p)
      modifies this`trace
      ensures trace == old(trace) + [p] && (k == Trace(old(trace)) ==> Traced())
    {
      hide Step;
      KernelLaws.TraceMore(trace, p);
      trace := trace + [p];
    }

    // ---- sockets

    method FlowGet(sk: u64, ctx: Ctx, t: Tuple)
      modifies this`flows
      ensures flows == old(flows)[sk := KernelSpec.FlowGet(old(View()), sk, ctx, t)]
    {
      if sk !in flows {
        flows := flows[sk := ZERO_ENTRY];
      }
      if flows[sk].pid == 0 {
        var e := flows[sk].(pid := PidOf(ctx.id), comm := ctx.comm);
        flows := flows[sk := ReadTuple(e, t)];
      }
    }

    /** Captures the start of a buffer, if its direction is armed and not used up. */
    method CaptureWire(sk: u64, base: u64, n: u64, d: Dir, user: User)
      requires sk in flows
      modifies this`flows, this`ring
      ensures View() == KernelSpec.CaptureWire(old(View()), sk, base, n, d, user)
    {
      hide LooksLikeTls;
      var count := Count(flows[sk], d);
      if base == 0 || n < 1 || count >= MAX_WIRE_EVENTS {
        return;
      }
      if count == 0 {
        if n < 5 || |user.mem| < 5 || !LooksLikeTls(user.mem) {
          return;
        }
        flows := flows[sk := flows[sk].(isTls := true)];
      }
      Emit(sk, n, d, user);
    }

    method Emit(sk: u64, n: u64, d: Dir, user: User)
      requires sk in flows && Count(flows[sk], d) < MAX_WIRE_EVENTS
      modifies this`flows, this`ring
      ensures var fits := user.room && Cap(n) <= |user.mem|;
              && flows == (if fits then old(flows)[sk := Bump(old(flows)[sk], d)] else old(flows))
              && ring == if fits then old(ring) + [WireEvent(DirCode(d), sk, user.mem[..Cap(n)])] else old(ring)
    {
      if !user.room {
        return;
      }
      var cap := Clamp(n);
      if cap > |user.mem| {
        return;
      }
      flows := flows[sk := Bump(flows[sk], d)];
      ring := ring + [WireEvent(DirCode(d), sk, user.mem[..cap])];
    }

    method TcpSendmsg(ctx: Ctx, sk: u64, base: u64, size: u64, t: Tuple, user: User)
      modifies this`flows, this`ring, this`trace
      ensures View() == Step(old(View()), SendMsg(ctx, sk, base, size, t, user))
      ensures trace == old(trace) + [SendMsg(ctx, sk, base, size, t, user)] && (old(Traced()) ==> Traced())
    {
      hide KernelSpec.CaptureWire, KernelSpec.FlowGet;
      FlowGet(sk, ctx, t);
      var e := flows[sk];
      flows := flows[sk := e.(tx := Add64(e.tx, size))];
      assert flows == old(flows)[sk := e.(tx := Add64(e.tx, size))];
      CaptureWire(sk, base, size, Out, user);
      Log(old(View()), SendMsg(ctx, sk, base, size, t, user));
    }

    method TcpRecvmsg(ctx: Ctx, sk: u64, base: u64)
      modifies this`recvs, this`trace
      ensures View() == Step(old(View()), RecvEnter(ctx, RecvCall(sk, base)))
      ensures trace == old(trace) + [RecvEnter(ctx, RecvCall(sk, base))] && (old(Traced()) ==> Traced())
    {
      recvs := recvs[ctx.id := RecvCall(sk, base)];
      Log(old(View()), RecvEnter(ctx, RecvCall(sk, base)));
    }

    /** The return probe finds the socket and the buffer by the thread alone. */
    method TcpRecvmsgReturn(ctx: Ctx, ret: i32, t: Tuple, user: User, ghost call: RecvCall)
      modifies this`recvs, this`flows, this`ring, this`trace
      ensures View() == OnRecvExit(old(View()), ctx, ret, t, user)
      ensures trace == old(trace) + [RecvExit(ctx, call, ret, t, user)] && (old(Traced()) ==> Traced())
    {
      hide KernelSpec.CaptureWire, KernelSpec.FlowGet;
      if ctx.id in recvs {
        var rc := recvs[ctx.id];
        recvs := recvs - {ctx.id};
        if ret > 0 && rc.sk != 0 {
          FlowGet(rc.sk, ctx, t);
          var e := flows[rc.sk];
          flows := flows[rc.sk := e.(rx := Add64(e.rx, ret))];
          assert flows == old(flows)[rc.sk := e.(rx := Add64(e.rx, ret))];
          CaptureWire(rc.sk, rc.base, ret, In, user);
        }
      }
      Log(old(View()), RecvExit(ctx, call, ret, t, user));
    }

    method InetSockSetState(sk: u64, tcp: bool, oldState: nat, newState: nat)
      modifies this`flows, this`trace
      ensures View() == Step(old(View()), SetState(sk, tcp, oldState, newState))
      ensures trace == old(trace) + [SetState(sk, tcp, oldState, newState)] && (old(Traced()) ==> Traced())
    {
      if tcp {
        ChangeState(sk, oldState, newState);
      }
      Log(old(View()), SetState(sk, tcp, oldState, newState));
    }

    method ChangeState(sk: u64, oldState: nat, newState: nat)
      modifies this`flows
      ensures View() == OnSetState(old(View()), sk, true, oldState, newState)
    {
      if newState == TCP_ESTABLISHED {
        if sk !in flows {
          flows := flows[sk := ZERO_ENTRY];
        }
        flows := flows[sk := flows[sk].(direction := if oldState == TCP_SYN_RECV then DIR_IN else DIR_OUT)];
      } else if newState == TCP_CLOSE || newState == TCP_CLOSE_WAIT {
        if sk in flows {
          flows := flows[sk := flows[sk].(closed := true)];
        }
      }
    }

    /** The poller removes an entry. */
    method Delete(sk: u64)
      modifies this`flows, this`trace
      ensures View() == Step(old(View()), DeleteFlow(sk))
      ensures trace == old(trace) + [DeleteFlow(sk)] && (old(Traced()) ==> Traced())
    {
      flows := flows - {sk};
      Log(old(View()), DeleteFlow(sk));
    }

    // ---- sessions

    method SslStatGet(ssl: u64, ctx: Ctx)
      modifies this`sessions
      ensures sessions == old(sessions)[ssl := SessionGet(old(View()), ssl, ctx)]
    {
      if ssl in sessions {
        return;
      }
      var zero := Session(0, 0, PidOf(ctx.id), -1);
      if ssl in fds {
        zero := zero.(fd := fds[ssl]);
      }
      sessions := sessions[ssl := zero];
    }

    method EmitPlaintext(ssl: u64, buf: u64, n: u64, d: Dir, ctx: Ctx, user: User)
      modifies this`sessions, this`ring
      ensures View() == KernelSpec.EmitPlaintext(old(View()), ssl, buf, n, d, ctx, user)
    {
      hide SessionGet;
      if buf == 0 || n == 0 {
        return;
      }
      SslStatGet(ssl, ctx);
      var s := sessions[ssl];
      if d == Out {
        sessions := sessions[ssl := s.(ptx := Add64(s.ptx, n))];
      } else {
        sessions := sessions[ssl := s.(prx := Add64(s.prx, n))];
      }
      EmitData(ssl, n, d, ctx, s.fd, user);
    }

    method EmitData(ssl: u64, n: u64, d: Dir, ctx: Ctx, fd: i32, user: User)
      modifies this`ring
      ensures ring == old(ring) + DataOf(ctx, fd, ssl, n, d, user)
    {
      if !user.room {
        return;
      }
      var cap := Clamp(n);
      if cap > |user.mem| {
        return;
      }
      ring := ring + [DataEvent(DirCode(d), PidOf(ctx.id), TidOf(ctx.id), fd, ssl, user.mem[..cap])];
    }

    method SslFreeEnter(ctx: Ctx, ssl: u64, room: bool)
      modifies this`sessions, this`fds, this`ring, this`trace
      ensures View() == Step(old(View()), SslFree(ctx, ssl, room))
      ensures trace == old(trace) + [SslFree(ctx, ssl, room)] && (old(Traced()) ==> Traced())
    {
      if ssl in sessions {
        if room {
          var s := sessions[ssl];
          ring := ring + [CloseEvent(PidOf(ctx.id), s.fd, ssl, s.ptx, s.prx)];
        }
        sessions := sessions - {ssl};
      }
      fds := fds - {ssl};
      Log(old(View()), SslFree(ctx, ssl, room));
    }

    method SslSetFdEnter(ssl: u64, fd: i32)
      modifies this`fds, this`trace
      ensures View() == Step(old(View()), SslSetFd(ssl, fd))
      ensures trace == old(trace) + [SslSetFd(ssl, fd)] && (old(Traced()) ==> Traced())
    {
      fds := fds[ssl := fd];
      Log(old(View()), SslSetFd(ssl, fd));
    }

    method SslWriteEnter(ctx: Ctx, ssl: u64, buf: u64, num: i32, user: User)
      modifies this`sessions, this`ring, this`trace
      ensures View() == Step(old(View()), SslWrite(ctx, ssl, buf, num, user))
      ensures trace == old(trace) + [SslWrite(ctx, ssl, buf, num, user)] && (old(Traced()) ==> Traced())
    {
      hide KernelSpec.EmitPlaintext;
      if num > 0 {
        EmitPlaintext(ssl, buf, num, Out, ctx, user);
      }
      Log(old(View()), SslWrite(ctx, ssl, buf, num, user));
    }

    method SslRead(ctx: Ctx, ssl: u64, buf: u64)
      modifies this`sslReads, this`trace
      ensures View() == Step(old(View()), SslReadEnter(ctx, ReadCall(ssl, buf)))
      ensures trace == old(trace) + [SslReadEnter(ctx, ReadCall(ssl, buf))] && (old(Traced()) ==> Traced())
    {
      sslReads := sslReads[ctx.id := ReadCall(ssl, buf)];
      Log(old(View()), SslReadEnter(ctx, ReadCall(ssl, buf)));
    }

    method SslReadReturn(ctx: Ctx, ret: i32, user: User, ghost call: ReadCall)
      modifies this`sslReads, this`sessions, this`ring, this`trace
      ensures View() == OnSslReadExit(old(View()), ctx, ret, user)
      ensures trace == old(trace) + [SslReadExit(ctx, call, ret, user)] && (old(Traced()) ==> Traced())
    {
      hide KernelSpec.EmitPlaintext;
      if ctx.id in sslReads {
        var c := sslReads[ctx.id];
        sslReads := sslReads - {ctx.id};
        if ret > 0 {
          EmitPlaintext(c.ssl, c.buf, ret, In, ctx, user);
        }
      }
      Log(old(View()), SslReadExit(ctx, call, ret, user));
    }
  }

  /** The laws of traces are laws of the maps: whatever the maps count, and the
      ring says, is what their probes saw. */
  lemma Laws(m: Maps, sk: u64, ssl: u64)
    requires m.Traced() && Alternates(m.trace)
    ensures KernelLaws.FlowOk(m.trace, m.flows, sk) && KernelLaws.LifeOk(m.trace, m.flows, sk)
    ensures KernelLaws.SessionOk(m.trace, m.sessions, ssl) && KernelLaws.FdOk(m.trace, m.fds, ssl)
    ensures m.ring == Submitted(m.trace)
  {
    hide Trace, Alternates, KernelLaws.FlowOk, KernelLaws.LifeOk, KernelLaws.SessionOk, KernelLaws.FdOk, Submitted;
    KernelLaws.Accounting(m.trace, sk);
    KernelLaws.Lives(m.trace, sk);
    KernelLaws.PlainAccounting(m.trace, ssl);
    KernelLaws.RingTold(m.trace);
  }
}
