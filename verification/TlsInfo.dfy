/** What one connection's handshake has told us, and the updates a parse makes to it.

    A parse never computes with what is already known, except that a ClientHello fills the
    negotiated version only when none is known.  Its whole effect is therefore a value, a
    `Delta`, and running parses one after the other is composing deltas. */
module TlsInfo {
  import opened Bytes

  type Name = Bytes

  datatype CertFields = CertFields(subject: string, issuer: string, sans: seq<string>, sigAlg: string)

  const NO_CERT := CertFields("", "", [], "")

  datatype InfoV = InfoV(
    hasClientHello: bool,
    hasServerHello: bool,
    hasCert: bool,
    sni: Name,
    alpn: seq<Name>,
    clientVersion: u16,
    negVersion: u16,
    cipherSuite: u16,
    group: u16,
    offeredSigs: seq<u16>,
    cert: CertFields)

  const EMPTY_INFO := InfoV(false, false, false, [], [], 0, 0, 0, 0, [], NO_CERT)

  /** The two ways of writing the negotiated version: only over an unknown one, or always. */
  datatype NegWrite = IfZero(v: u16) | Always(v: u16)

  datatype Delta = Delta(
    clientHello: bool,
    serverHello: bool,
    sni: Option<Name>,
    alpn: Option<seq<Name>>,
    clientVersion: Option<u16>,
    neg: NegWrite,
    cipher: Option<u16>,
    group: Option<u16>,
    sigs: Option<seq<u16>>,
    cert: Option<CertFields>)

  const NOP := Delta(false, false, None, None, None, IfZero(0), None, None, None, None)

  function Pick<T>(write: Option<T>, was: T): T {
    if write.Some? then write.value else was
  }

  function ActNeg(w: NegWrite, v: u16): u16 {
    if w.Always? || v == 0 then w.v else v
  }

  /** The information known after the update `d`. */
  function Act(d: Delta, i: InfoV): InfoV {
    InfoV(
      i.hasClientHello || d.clientHello,
      i.hasServerHello || d.serverHello,
      i.hasCert || d.cert.Some?,
      Pick(d.sni, i.sni),
      Pick(d.alpn, i.alpn),
      Pick(d.clientVersion, i.clientVersion),
      ActNeg(d.neg, i.negVersion),
      Pick(d.cipher, i.cipherSuite),
      Pick(d.group, i.group),
      Pick(d.sigs, i.offeredSigs),
      Pick(d.cert, i.cert))
  }

  function Later<T>(a: Option<T>, b: Option<T>): Option<T> {
    if b.Some? then b else a
  }

  function ThenNeg(a: NegWrite, b: NegWrite): NegWrite {
    if b.Always? then b
    else if a.Always? then Always(ActNeg(b, a.v))
    else IfZero(ActNeg(b, a.v))
  }

  /** `a` and then `b` as one update. */
  function Then(a: Delta, b: Delta): Delta {
    Delta(
      a.clientHello || b.clientHello,
      a.serverHello || b.serverHello,
      Later(a.sni, b.sni),
      Later(a.alpn, b.alpn),
      Later(a.clientVersion, b.clientVersion),
      ThenNeg(a.neg, b.neg),
      Later(a.cipher, b.cipher),
      Later(a.group, b.group),
      Later(a.sigs, b.sigs),
      Later(a.cert, b.cert))
  }

  lemma ActThen(a: Delta, b: Delta, i: InfoV)
    ensures Act(Then(a, b), i) == Act(b, Act(a, i))
  {
  }

  lemma ThenNop(a: Delta)
    ensures Then(a, NOP) == a && Then(NOP, a) == a
  {
  }

  lemma ThenAssoc(a: Delta, b: Delta, c: Delta)
    ensures Then(Then(a, b), c) == Then(a, Then(b, c))
  {
  }

  ghost predicate NegCovered(a: NegWrite, b: NegWrite) {
    b.Always? || (a.IfZero? && (a.v == 0 || a.v == b.v))
  }

  /** Whatever `a` writes, `b` writes too: `b` wins over `a` when it comes after it. */
  ghost predicate Covered(a: Delta, b: Delta) {
    && (a.clientHello ==> b.clientHello)
    && (a.serverHello ==> b.serverHello)
    && (a.sni.Some? ==> b.sni.Some?)
    && (a.alpn.Some? ==> b.alpn.Some?)
    && (a.clientVersion.Some? ==> b.clientVersion.Some?)
    && NegCovered(a.neg, b.neg)
    && (a.cipher.Some? ==> b.cipher.Some?)
    && (a.group.Some? ==> b.group.Some?)
    && (a.sigs.Some? ==> b.sigs.Some?)
    && (a.cert.Some? ==> b.cert.Some?)
  }

  /** A state that differs from everything `a` writes and that `b` does not write over. */
  ghost function Distinguisher(a: Delta, b: Delta): InfoV {
    InfoV(
      false, false, false,
      if a.sni.Some? then a.sni.value + [0] else [],
      if a.alpn.Some? then a.alpn.value + [[]] else [],
      if a.clientVersion == Some(0) then 1 else 0,
      if a.neg.IfZero? then 0 else if 1 !in {a.neg.v, b.neg.v} then 1 else if 2 !in {a.neg.v, b.neg.v} then 2 else 3,
      if a.cipher == Some(0) then 1 else 0,
      if a.group == Some(0) then 1 else 0,
      if a.sigs.Some? then a.sigs.value + [0] else [],
      if a.cert == Some(NO_CERT) then NO_CERT.(subject := "x") else NO_CERT)
  }

  /** Covering is exactly absorption: `b` erases every trace of `a` in every starting state
      if and only if it covers it. */
  lemma CoveredIffAbsorbed(a: Delta, b: Delta)
    ensures Covered(a, b) <==> forall i :: Act(b, Act(a, i)) == Act(b, i)
  {
    if !Covered(a, b) {
      var i := Distinguisher(a, b);
      assert a.sni.Some? ==> i.sni != a.sni.value;
      assert a.alpn.Some? ==> |i.alpn| != |a.alpn.value|;
      assert a.sigs.Some? ==> |i.offeredSigs| != |a.sigs.value|;
      assert Act(b, Act(a, i)) != Act(b, i);
    }
  }

  lemma NegCoveredThen(p: NegWrite, a: NegWrite, b: NegWrite, c: NegWrite)
    requires NegCovered(a, b)
    ensures NegCovered(ThenNeg(p, a), ThenNeg(p, b)) && NegCovered(a, ThenNeg(b, c))
  {
  }

  /** Covering survives a common earlier update ... */
  lemma CoveredAfter(p: Delta, a: Delta, b: Delta)
    requires Covered(a, b)
    ensures Covered(Then(p, a), Then(p, b))
  {
    NegCoveredThen(p.neg, a.neg, b.neg, b.neg);
  }

  /** ... and any later one. */
  lemma CoveredBefore(a: Delta, b: Delta, c: Delta)
    requires Covered(a, b)
    ensures Covered(a, Then(b, c))
  {
    NegCoveredThen(a.neg, a.neg, b.neg, c.neg);
  }
}
