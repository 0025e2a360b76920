/** Numbers that the standards assign, as a sender writes them.  What is said here of bytes on the
    wire is said with these; the parser has its own. */
module TlsNumbers {
  import opened Bytes

  // Section 5.1 of RFC 8446.
  const RECORD_HANDSHAKE: byte := 22

  // Section 4 of RFC 8446, and section 7.4.2 of RFC 5246.
  const MESSAGE_CLIENT_HELLO: u16 := 1
  const MESSAGE_SERVER_HELLO: u16 := 2
  const MESSAGE_CERTIFICATE: u16 := 11

  // Section 4.2 of RFC 8446, section 3 of RFC 6066 and section 3.1 of RFC 7301.
  const TYPE_SERVER_NAME: u16 := 0
  const TYPE_SIGNATURE_ALGORITHMS: u16 := 13
  const TYPE_ALPN: u16 := 16
  const TYPE_SUPPORTED_VERSIONS: u16 := 43
  const TYPE_KEY_SHARE: u16 := 51

  const VERSION_TLS13: u16 := 0x0304

  /** The suites that exist only in TLS 1.3 (appendix B.4 of RFC 8446). */
  const SUITES_TLS13: set<u16> := {0x1301, 0x1302, 0x1303, 0x1304, 0x1305}

  /** The version that a selected one and a suite amount to. */
  function Negotiated(version: u16, suite: u16): u16 {
    if version < VERSION_TLS13 && suite in SUITES_TLS13 then VERSION_TLS13 else version
  }
}
