/** The two sides of the socket join: the endpoint the kernel reports as words in the flow
    snapshot, and the same endpoint printed in hexadecimal in /proc/net/tcp and tcp6. */
module Endpoint {
  import opened Bytes

  datatype Addr = V4(bytes: Bytes) | V6(bytes: Bytes)

  datatype AddrPort = AddrPort(addr: Addr, port: u16)

  /** Words as a host that is little-endian holds them, in network byte order in memory. */
  type Words = ws: seq<u32> | |ws| == 4 witness [0, 0, 0, 0]

  function IpFrom(a: Words, v6: bool): Addr {
    if v6 then V6(PutLe32(a[0]) + PutLe32(a[1]) + PutLe32(a[2]) + PutLe32(a[3])) else V4(PutLe32(a[0]))
  }

  // ---- hexadecimal

  function HexDigit(c: char): Option<nat> {
    if '0' <= c <= '9' then Some((c - '0') as nat)
    else if 'A' <= c <= 'F' then Some((c - 'A') as nat + 10)
    else if 'a' <= c <= 'f' then Some((c - 'a') as nat + 10)
    else None
  }

  /** The number a string of hexadecimal digits denotes. */
  function HexNat(s: string): Option<nat> {
    if s == "" then Some(0)
    else
      var high, low := HexNat(s[..|s| - 1]), HexDigit(s[|s| - 1]);
      if high.None? || low.None? then None else Some(16 * high.value + low.value)
  }

  /** `strconv.ParseUint(s, 16, bits)`, with `limit` two to the power of `bits`. */
  function ParseUint(s: string, limit: nat): (r: Option<nat>)
    ensures r.Some? ==> r.value < limit
  {
    var v := HexNat(s);
    if s == "" || v.None? || v.value >= limit then None else v
  }

  function Digit(d: nat): char
    requires d < 16
  {
    if d < 10 then '0' + d as char else 'A' + (d - 10) as char
  }

  /** `%0nX`, for a value that fits. */
  function Hex(v: nat, n: nat): (s: string)
    ensures |s| == n
  {
    if n == 0 then "" else Hex(v / 16, n - 1) + [Digit(v % 16)]
  }

  function Pow16(n: nat): nat { if n == 0 then 1 else 16 * Pow16(n - 1) }

  lemma {:induction false} HexRead(v: nat, n: nat)
    requires v < Pow16(n)
    ensures HexNat(Hex(v, n)) == Some(v)
    ensures ':' !in Hex(v, n)
  {
    if n > 0 {
      HexRead(v / 16, n - 1);
      var s := Hex(v, n);
      assert s[..|s| - 1] == Hex(v / 16, n - 1);
      assert HexDigit(Digit(v % 16)) == Some(v % 16);
    }
  }

  // ---- the printed endpoint

  /** How the kernel prints an endpoint: %08X for each word, then %04X for the port. */
  function Render(a: Words, v6: bool, port: u16): string {
    (if v6 then Hex(a[0], 8) + (Hex(a[1], 8) + (Hex(a[2], 8) + Hex(a[3], 8))) else Hex(a[0], 8)) + (":" + Hex(port, 4))
  }

  function IndexOf(s: string, c: char): Option<nat> {
    if s == "" then None
    else if s[0] == c then Some(0)
    else
      var r := IndexOf(s[1..], c);
      if r.None? then None else Some(r.value + 1)
  }

  /** What the token says, if it is an endpoint. */
  function HexAddr(tok: string): Option<AddrPort> {
    var i := IndexOf(tok, ':');
    if i.None? || i.value >= |tok| then None
    else
      var port := ParseUint(tok[i.value + 1..], TWO16);
      if port.None? then None
      else
        var ip := HexIp(tok[..i.value]);
        if ip.None? then None else Some(AddrPort(ip.value, port.value))
  }

  function HexIp(s: string): Option<Addr> {
    if |s| == 8 then
      var v := ParseUint(s, TWO32);
      if v.None? then None else Some(V4(PutLe32(v.value)))
    else if |s| == 32 then
      var bs := HexWords(s, 0);
      if bs.None? then None else Some(V6(bs.value))
    else None
  }

  /** The bytes of the words from the `w`th on. */
  function HexWords(s: string, w: nat): (r: Option<Bytes>)
    requires |s| == 32 && w <= 4
    decreases 4 - w
  {
    if w == 4 then Some([])
    else
      var v, rest := ParseUint(s[w * 8..w * 8 + 8], TWO32), HexWords(s, w + 1);
      if v.None? || rest.None? then None else Some(PutLe32(v.value) + rest.value)
  }

  /** Looks for the first colon. */
  method IndexByte(s: string, c: char) returns (i: int)
    ensures i < 0 <==> IndexOf(s, c).None?
    ensures i >= 0 ==> i < |s| && IndexOf(s, c) == Some(i)
  {
    i := 0;
    while i < |s|
      invariant i <= |s|
      invariant IndexOf(s, c) == var r := IndexOf(s[i..], c); if r.None? then None else Some(i + r.value)
    {
      if s[i] == c {
        return;
      }
      assert s[i..][1..] == s[i + 1..];
      i := i + 1;
    }
    return -1;
  }

  method ParseHexAddr(tok: string) returns (r: Option<AddrPort>)
    ensures r == HexAddr(tok)
  {
    var i := IndexByte(tok, ':');
    if i < 0 {
      return None;
    }
    var addrHex, portHex := tok[..i], tok[i + 1..];
    var port := ParseUint(portHex, TWO16);
    if port.None? {
      return None;
    }
    if |addrHex| == 8 {
      var v := ParseUint(addrHex, TWO32);
      if v.None? {
        return None;
      }
      return Some(AddrPort(V4(PutLe32(v.value)), port.value));
    } else if |addrHex| == 32 {
      var ip := ParseV6(addrHex);
      if ip.None? {
        return None;
      }
      return Some(AddrPort(V6(ip.value), port.value));
    }
    return None;
  }

  /** Fills the sixteen bytes word by word. */
  method ParseV6(addrHex: string) returns (r: Option<Bytes>)
    requires |addrHex| == 32
    ensures r == HexWords(addrHex, 0)
  {
    hide HexWords, PutLe32, ParseUint;
    var b := new byte[16];
    var w := 0;
    HexWordsAt(addrHex, 0, []);
    assert b[..4 * w] == [];
    while w < 4
      invariant w <= 4
      invariant HexWords(addrHex, 0) == Prepend(b[..4 * w], HexWords(addrHex, w))
    {
      HexWordsAt(addrHex, w, b[..4 * w]);
      var v := ParseUint(addrHex[w * 8..w * 8 + 8], TWO32);
      if v.None? {
        return None;
      }
      PutWord(b, w * 4, v.value);
      w := w + 1;
    }
    HexWordsAt(addrHex, 4, b[..16]);
    assert b[..16] == b[..];
    return Some(b[..]);
  }

  function Prepend(done: Bytes, rest: Option<Bytes>): Option<Bytes> {
    if rest.None? then None else Some(done + rest.value)
  }

  lemma HexWordsAt(s: string, w: nat, done: Bytes)
    requires |s| == 32 && w <= 4
    ensures w == 4 ==> HexWords(s, w) == Some([]) && Prepend(done, HexWords(s, w)) == Some(done)
    ensures Prepend([], HexWords(s, w)) == HexWords(s, w)
    ensures w < 4 ==> var v := ParseUint(s[w * 8..w * 8 + 8], TWO32);
            Prepend(done, HexWords(s, w))
            == if v.None? then None else Prepend(done + PutLe32(v.value), HexWords(s, w + 1))
  {
    if HexWords(s, w).Some? {
      assert [] + HexWords(s, w).value == HexWords(s, w).value;
    }
    if w == 4 {
      assert done + [] == done;
    } else {
      var v, rest := ParseUint(s[w * 8..w * 8 + 8], TWO32), HexWords(s, w + 1);
      if v.Some? && rest.Some? {
        AppendAssoc(done, PutLe32(v.value), rest.value);
      }
    }
  }

  lemma WordBytes(v: u32)
    ensures PutLe32(v) == [v % 0x100, v / 0x100 % 0x100, v / 0x1_0000 % 0x100, v / 0x100_0000 % 0x100]
  {
    hide PutLe32;
    var r := PutLe32(v);
    var high: int := Be16(r[3], r[2]);
    var upper: int := high * 0x100 + r[1];
    assert v == upper * 0x100 + r[0];
    QuotRem(upper, r[0]);
    QuotRem(high, r[1]);
    QuotRem(r[3], r[2]);
    assert v / 0x1_0000 == upper / 0x100 && v / 0x100_0000 == high / 0x100;
    assert r == [r[0], r[1], r[2], r[3]];
  }

  lemma QuotRem(q: nat, r: byte)
    ensures (q * 0x100 + r) / 0x100 == q && (q * 0x100 + r) % 0x100 == r
  {
  }

  /** The four bytes of a word, lowest first. */
  method PutWord(b: array<byte>, at: nat, v: u32)
    requires at + 4 <= b.Length
    modifies b
    ensures b[..at + 4] == old(b[..at]) + PutLe32(v)
  {
    hide PutLe32;
    WordBytes(v);
    b[at] := v % 0x100;
    b[at + 1] := v / 0x100 % 0x100;
    b[at + 2] := v / 0x1_0000 % 0x100;
    b[at + 3] := v / 0x100_0000 % 0x100;
  }

  // ---- agreement

  lemma IndexOfFirst(a: string, b: string, c: char)
    requires c !in a
    ensures IndexOf(a + ([c] + b), c) == Some(|a|)
  {
    if a != "" {
      assert (a + ([c] + b))[1..] == a[1..] + ([c] + b);
      IndexOfFirst(a[1..], b, c);
    } else {
      assert a + ([c] + b) == [c] + b;
    }
  }

  lemma HexIpRead(a: Words, v6: bool)
    ensures var s := if v6 then Hex(a[0], 8) + (Hex(a[1], 8) + (Hex(a[2], 8) + Hex(a[3], 8))) else Hex(a[0], 8);
            HexIp(s) == Some(IpFrom(a, v6)) && ':' !in s
  {
    hide Hex, PutLe32, HexNat;
    assert Pow16(8) == TWO32;
    HexRead(a[0], 8);
    if v6 {
      HexRead(a[1], 8);
      HexRead(a[2], 8);
      HexRead(a[3], 8);
      var s := Hex(a[0], 8) + (Hex(a[1], 8) + (Hex(a[2], 8) + Hex(a[3], 8)));
      assert s[0..8] == Hex(a[0], 8) && s[8..16] == Hex(a[1], 8) && s[16..24] == Hex(a[2], 8)
             && s[24..32] == Hex(a[3], 8);
      assert HexWords(s, 3) == Some(PutLe32(a[3]) + []);
      assert HexWords(s, 2) == Some(PutLe32(a[2]) + (PutLe32(a[3]) + []));
      assert HexWords(s, 1) == Some(PutLe32(a[1]) + (PutLe32(a[2]) + (PutLe32(a[3]) + [])));
      assert HexWords(s, 0) == Some(PutLe32(a[0]) + (PutLe32(a[1]) + (PutLe32(a[2]) + (PutLe32(a[3]) + []))));
      assert PutLe32(a[0]) + (PutLe32(a[1]) + (PutLe32(a[2]) + (PutLe32(a[3]) + [])))
             == PutLe32(a[0]) + PutLe32(a[1]) + PutLe32(a[2]) + PutLe32(a[3]);
    }
  }

  /** Reading what the kernel prints gives the address built from the same words. */
  lemma RenderRead(a: Words, v6: bool, port: u16)
    ensures HexAddr(Render(a, v6, port)) == Some(AddrPort(IpFrom(a, v6), port))
  {
    hide Hex, HexIp, IpFrom, HexNat;
    var ip := if v6 then Hex(a[0], 8) + (Hex(a[1], 8) + (Hex(a[2], 8) + Hex(a[3], 8))) else Hex(a[0], 8);
    HexIpRead(a, v6);
    assert Pow16(4) == TWO16;
    HexRead(port, 4);
    IndexOfFirst(ip, Hex(port, 4), ':');
    var tok := Render(a, v6, port);
    assert tok[..|ip|] == ip && tok[|ip| + 1..] == Hex(port, 4);
  }

  /** Endpoints as the flow snapshot gives them are the same. */
  predicate SameEndpoint(a: Words, v6: bool, port: u16, b: Words, bV6: bool, bPort: u16) {
    v6 == bV6 && port == bPort && (if v6 then a == b else a[0] == b[0])
  }

  lemma IpFromInjective(a: Words, v6: bool, b: Words, bV6: bool)
    ensures IpFrom(a, v6) == IpFrom(b, bV6) <==> v6 == bV6 && (if v6 then a == b else a[0] == b[0])
  {
    hide PutLe32, Le32;
    assert a[0] == Le32(PutLe32(a[0]), 0) && b[0] == Le32(PutLe32(b[0]), 0);
    if v6 && bV6 {
      var s, t := IpFrom(a, true).bytes, IpFrom(b, true).bytes;
      forall k | 0 <= k < 4
        ensures s[4 * k..4 * k + 4] == PutLe32(a[k]) && t[4 * k..4 * k + 4] == PutLe32(b[k])
      {
      }
      if s == t {
        forall k | 0 <= k < 4
          ensures a[k] == b[k]
        {
          assert a[k] == Le32(PutLe32(a[k]), 0) && b[k] == Le32(PutLe32(b[k]), 0);
        }
      }
    }
  }

  /** The join compares equal exactly for the same endpoint. */
  lemma EndpointAgreement(a: Words, v6: bool, port: u16, b: Words, bV6: bool, bPort: u16)
    ensures HexAddr(Render(a, v6, port)) == Some(AddrPort(IpFrom(b, bV6), bPort))
            <==> SameEndpoint(a, v6, port, b, bV6, bPort)
  {
    hide Render, HexAddr, IpFrom;
    RenderRead(a, v6, port);
    IpFromInjective(a, v6, b, bV6);
  }

  // ---- which tokens are endpoints

  predicate IsHex(c: char) { '0' <= c <= '9' || 'A' <= c <= 'F' || 'a' <= c <= 'f' }

  predicate AllHex(s: string) {
    forall c :: c in s ==> IsHex(c)
  }

  /** Digits of either case, and nothing else, have a value, and the same one in both cases. */
  lemma HexDigits(c: char)
    ensures HexDigit(c).Some? <==> IsHex(c)
    ensures HexDigit(c).Some? ==> HexDigit(c).value < 16
    ensures 'a' <= c <= 'f' ==> HexDigit(c) == HexDigit((c as int - 32) as char)
  {
  }

  lemma {:induction false} HexNatIff(s: string)
    ensures HexNat(s).Some? <==> AllHex(s)
    ensures HexNat(s).Some? ==> HexNat(s).value < Pow16(|s|)
  {
    hide HexDigit;
    if s != "" {
      var init, c := s[..|s| - 1], s[|s| - 1];
      HexNatIff(init);
      HexDigits(c);
      assert s == init + [c] && c in s && forall x :: x in init ==> x in s;
    }
  }

  /** Eight or 32 digits, the first colon, and a port of sixteen bits. */
  ghost predicate IsEndpoint(tok: string, i: nat) {
    && i < |tok| && tok[i] == ':' && ':' !in tok[..i]
    && (i == 8 || i == 32) && AllHex(tok[..i])
    && tok[i + 1..] != "" && AllHex(tok[i + 1..])
    && HexNat(tok[i + 1..]).Some? && HexNat(tok[i + 1..]).value < 0x1_0000
  }

  lemma {:induction false} FirstColon(s: string, c: char)
    ensures IndexOf(s, c).Some?
            ==> IndexOf(s, c).value < |s| && s[IndexOf(s, c).value] == c && c !in s[..IndexOf(s, c).value]
    ensures IndexOf(s, c).None? ==> c !in s
  {
    if s != "" && s[0] != c {
      FirstColon(s[1..], c);
      var r := IndexOf(s[1..], c);
      if r.Some? {
        assert s[..r.value + 1] == [s[0]] + s[1..][..r.value];
      } else {
        assert s == [s[0]] + s[1..];
      }
    }
  }

  lemma HexIpIff(s: string)
    ensures HexIp(s).Some? <==> (|s| == 8 || |s| == 32) && AllHex(s)
  {
    hide HexNat, PutLe32;
    assert Pow16(8) == TWO32;
    if |s| == 8 {
      HexNatIff(s);
    } else if |s| == 32 {
      HexNatIff(s[0..8]);
      HexNatIff(s[8..16]);
      HexNatIff(s[16..24]);
      HexNatIff(s[24..32]);
      assert HexWords(s, 4).Some?;
      assert s == s[0..8] + s[8..16] + s[16..24] + s[24..32];
    }
  }

  /** A token is an endpoint, or is refused, exactly as this says. */
  lemma HexAddrIff(tok: string)
    ensures HexAddr(tok).Some? <==> exists i :: IsEndpoint(tok, i)
  {
    hide HexIp, HexNat, IndexOf, AllHex;
    FirstColon(tok, ':');
    if IndexOf(tok, ':').Some? {
      var i := IndexOf(tok, ':').value;
      HexIpIff(tok[..i]);
      HexNatIff(tok[i + 1..]);
      assert IsEndpoint(tok, i) <==> HexAddr(tok).Some?;
      assert forall j: nat :: IsEndpoint(tok, j) ==> j == i;
    }
  }

  /** An address has the words in their order, and the bytes of each from the lowest up. */
  lemma AddressWords(a: Words, k: nat)
    requires k < 4
    ensures var b := IpFrom(a, true).bytes; |b| == 16 && b[4 * k..4 * k + 4] == PutLe32(a[k])
    ensures IpFrom(a, false).bytes == PutLe32(a[0])
    ensures IpFrom(a, true).V6? && IpFrom(a, false).V4?
  {
    hide PutLe32;
  }

  /** 127.0.0.1, port 8080, as the kernel of a little-endian machine prints it. */
  lemma Loopback()
    ensures HexAddr("0100007F:1F90") == Some(AddrPort(V4([127, 0, 0, 1]), 8080))
  {
    hide HexAddr, Le32, Hex;
    PrintedLoopback();
    var a: Words := [0x0100007f, 0, 0, 0];
    RenderRead(a, false, 8080);
    assert Render(a, false, 8080) == "0100007F:1F90";
    WordBytes(0x0100007f);
  }

  lemma PrintedLoopback()
    ensures Hex(0x0100007f, 8) == "0100007F" && Hex(8080, 4) == "1F90"
  {
    hide Hex;
    HexMore(0, 1);
    HexMore(0x01, 2);
    HexMore(0x010, 3);
    HexMore(0x0100, 4);
    HexMore(0x01000, 5);
    HexMore(0x010000, 6);
    HexMore(0x0100007, 7);
    HexMore(0x0100007f, 8);
    HexMore(0x1, 1);
    HexMore(0x1f, 2);
    HexMore(0x1f9, 3);
    HexMore(8080, 4);
  }

  lemma HexMore(v: nat, n: nat)
    requires n > 0
    ensures Hex(v, n) == Hex(v / 16, n - 1) + [Digit(v % 16)] && Hex(v, 0) == ""
  {
  }
}
