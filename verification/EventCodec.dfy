/** Ring buffer records: the packed little-endian layouts the kernel side writes, and the
    decoding the reader does on whatever bytes it is handed. */
module EventCodec {
  import opened Bytes

  const EVENT_WIRE := 1
  const EVENT_DATA := 2
  const EVENT_CLOSE := 3
  const WIRE_CAP := 1024
  const DATA_CAP := 1024

  datatype Event =
    | WireEvent(dir: byte, sock: u64, data: Bytes)
    | DataEvent(dir: byte, pid: u32, tid: u32, fd: i32, ssl: u64, data: Bytes)
    | CloseEvent(pid: u32, fd: i32, ssl: u64, ptx: u64, prx: u64)

  /** Reinterpreting 32 bits as a signed number. */
  function Signed(v: u32): i32 { if v < 0x8000_0000 then v else v - TWO32 }

  function Payload(b: Bytes, off: nat, n: nat): Bytes {
    if off + n <= |b| then b[off..off + n] else []
  }

  /** What a record says; nothing for a record that is too short or of another type. */
  function Decode(b: Bytes): Option<Event> {
    if |b| < 1 then None
    else if b[0] == EVENT_WIRE then
      if |b| < 12 then None else Some(WireEvent(b[1], Le64(b, 4), Payload(b, 12, Le16(b, 2))))
    else if b[0] == EVENT_DATA then
      if |b| < 24 then None
      else Some(DataEvent(b[1], Le32(b, 4), Le32(b, 8), Signed(Le32(b, 12)), Le64(b, 16), Payload(b, 24, Le16(b, 2))))
    else if b[0] == EVENT_CLOSE then
      if |b| < 36 then None
      else Some(CloseEvent(Le32(b, 4), Signed(Le32(b, 8)), Le64(b, 12), Le64(b, 20), Le64(b, 28)))
    else None
  }

  // ---- what the kernel side writes

  function PutSigned(v: i32): (r: Bytes)
    ensures |r| == 4 && Signed(Le32(r, 0)) == v
  {
    PutLe32(if v < 0 then v + TWO32 else v)
  }

  // The numbers of the shared header file: event types 1, 2 and 3, and arrays of 1024 bytes.

  /** What fits the structures: a payload is shorter than the array it is padded to. */
  predicate Emittable(e: Event) {
    match e
    case WireEvent(_, _, data) => |data| < 1024
    case DataEvent(_, _, _, _, _, data) => |data| < 1024
    case CloseEvent(_, _, _, _, _) => true
  }

  /** The packed structures of the shared header file; `pad` is whatever the rest of the data
      array, or the padding of a close event, happens to hold. */
  function Encode(e: Event, pad: Bytes): Bytes
    requires Emittable(e)
  {
    match e
    case WireEvent(dir, sock, data) =>
      [1, dir] + (PutLe16(|data|) + (PutLe64(sock) + (data + pad)))
    case DataEvent(dir, pid, tid, fd, ssl, data) =>
      [2, dir] + (PutLe16(|data|)
      + (PutLe32(pid) + (PutLe32(tid) + (PutSigned(fd) + (PutLe64(ssl) + (data + pad))))))
    case CloseEvent(pid, fd, ssl, ptx, prx) =>
      [3] + (Take3(pad)
      + (PutLe32(pid) + (PutSigned(fd) + (PutLe64(ssl) + (PutLe64(ptx) + PutLe64(prx))))))
  }

  function Take3(pad: Bytes): (r: Bytes)
    ensures |r| == 3
  {
    if |pad| >= 3 then pad[..3] else [0, 0, 0]
  }

  /** A field at its offset. */
  lemma Field(b: Bytes, off: nat, p: Bytes, q: Bytes)
    requires off <= |b| && b[off..] == p + q
    ensures off + |p| <= |b| && b[off + |p|..] == q && b[off..off + |p|] == p
    ensures |p| == 2 ==> Le16(b, off) == Le16(p, 0)
    ensures |p| == 4 ==> Le32(b, off) == Le32(p, 0)
    ensures |p| == 8 ==> Le64(b, off) == Le64(p, 0)
  {
    assert forall i :: 0 <= i < |p| ==> b[off + i] == b[off..][i] == p[i];
  }

  lemma WireRoundTrip(dir: byte, sock: u64, data: Bytes, pad: Bytes)
    requires |data| < 1024
    ensures Decode(Encode(WireEvent(dir, sock, data), pad)) == Some(WireEvent(dir, sock, data))
  {
    hide PutLe16, PutLe64, Le16, Le64, Le32;
    var b := Encode(WireEvent(dir, sock, data), pad);
    assert b[0..] == b;
    Field(b, 0, [1, dir], PutLe16(|data|) + (PutLe64(sock) + (data + pad)));
    Field(b, 2, PutLe16(|data|), PutLe64(sock) + (data + pad));
    Field(b, 4, PutLe64(sock), data + pad);
    Field(b, 12, data, pad);
  }

  lemma DataRoundTrip(dir: byte, pid: u32, tid: u32, fd: i32, ssl: u64, data: Bytes, pad: Bytes)
    requires |data| < 1024
    ensures var e := DataEvent(dir, pid, tid, fd, ssl, data); Decode(Encode(e, pad)) == Some(e)
  {
    hide PutLe16, PutLe32, PutLe64, PutSigned, Le16, Le64, Le32, Signed;
    var b := Encode(DataEvent(dir, pid, tid, fd, ssl, data), pad);
    assert b[0..] == b;
    var r5 := PutLe64(ssl) + (data + pad);
    Field(b, 0, [2, dir], PutLe16(|data|) + (PutLe32(pid) + (PutLe32(tid) + (PutSigned(fd) + r5))));
    Field(b, 2, PutLe16(|data|), PutLe32(pid) + (PutLe32(tid) + (PutSigned(fd) + r5)));
    Field(b, 4, PutLe32(pid), PutLe32(tid) + (PutSigned(fd) + r5));
    Field(b, 8, PutLe32(tid), PutSigned(fd) + r5);
    Field(b, 12, PutSigned(fd), r5);
    Field(b, 16, PutLe64(ssl), data + pad);
    Field(b, 24, data, pad);
  }

  lemma CloseRoundTrip(pid: u32, fd: i32, ssl: u64, ptx: u64, prx: u64, pad: Bytes)
    ensures var e := CloseEvent(pid, fd, ssl, ptx, prx); Decode(Encode(e, pad)) == Some(e)
  {
    hide PutLe32, PutLe64, PutSigned, Le64, Le32, Signed, Take3;
    var b := Encode(CloseEvent(pid, fd, ssl, ptx, prx), pad);
    assert b[0..] == b;
    var r4 := PutLe64(ssl) + (PutLe64(ptx) + PutLe64(prx));
    Field(b, 0, [3], Take3(pad) + (PutLe32(pid) + (PutSigned(fd) + r4)));
    Field(b, 1, Take3(pad), PutLe32(pid) + (PutSigned(fd) + r4));
    Field(b, 4, PutLe32(pid), PutSigned(fd) + r4);
    Field(b, 8, PutSigned(fd), r4);
    Field(b, 12, PutLe64(ssl), PutLe64(ptx) + PutLe64(prx));
    Field(b, 20, PutLe64(ptx), PutLe64(prx));
    assert PutLe64(prx) == PutLe64(prx) + [];
    Field(b, 28, PutLe64(prx), []);
  }

  /** Decoding gives back every event, whatever the padding holds. */
  lemma RoundTrip(e: Event, pad: Bytes)
    requires Emittable(e)
    ensures Decode(Encode(e, pad)) == Some(e)
  {
    match e
    case WireEvent(dir, sock, data) => WireRoundTrip(dir, sock, data, pad);
    case DataEvent(dir, pid, tid, fd, ssl, data) => DataRoundTrip(dir, pid, tid, fd, ssl, data, pad);
    case CloseEvent(pid, fd, ssl, ptx, prx) => CloseRoundTrip(pid, fd, ssl, ptx, prx, pad);
  }

  /** Which records are understood: those of the three types that are long enough for their fixed
      fields.  A payload that is announced and not there is dropped, the rest of the event is not. */
  lemma DecodeIff(b: Bytes)
    ensures Decode(b).Some? <==>
            |b| > 0 && ((b[0] == 1 && |b| >= 12) || (b[0] == 2 && |b| >= 24) || (b[0] == 3 && |b| >= 36))
    ensures Decode(b).Some? && b[0] == 1 ==>
              Decode(b).value.WireEvent?
                  && Decode(b).value.data == if 12 + Le16(b, 2) <= |b| then b[12..12 + Le16(b, 2)] else []
    ensures Decode(b).Some? && b[0] == 2 ==>
              Decode(b).value.DataEvent?
                  && Decode(b).value.data == if 24 + Le16(b, 2) <= |b| then b[24..24 + Le16(b, 2)] else []
    ensures Decode(b).Some? && b[0] == 3 ==> Decode(b).value.CloseEvent?
  {
    hide Le16, Le32, Le64, Signed;
  }
}
