# tlstat, verified

tlstat watches the TLS connections of a machine. Probes in the kernel count bytes per socket and
per OpenSSL session and copy the start of each direction of a connection into a ring buffer; a
user-space program reassembles those copies, parses the TLS handshake out of them, polls the
kernel's counters, and keeps one table of connections and a capped history. This project models
those three parts and the way they are put together, and proves what the table can be trusted
for.

The modules, from the bottom up:

- `Bytes`: fixed-width numbers, byte strings, a few facts about sequences.
- `TlsInfo`, `TlsSpec`: what is known of a handshake, and what a buffer *writes* to it, as a
  monoid of effects. `TlsParse` is the parser as it runs (a cursor and an information record that
  are updated in place), proved to apply exactly the effect of its buffer.
- `TlsPrefix`, `TlsTruncation`, `TlsNumbers`, `TlsWire`, `TlsHello`, `TlsExact`, `TlsCuts`: parsing
  a prefix and then the whole; what a cut capture shows; a serializer that writes the numbers of
  RFC 8446, RFC 6066, RFC 7301 and RFC 5246 (`TlsNumbers` has them, apart from the parser's own), round
  trips, and what each layer gives at every cut.
- `Reassembly`: chunks of two directions arriving in any order. `HelloOrder` is the handshakes for
  which the order matters.
- `Endpoint`, `EventCodec`: the two encodings both sides must agree on.
- `StoreSpec`: the connection table as a state machine. What the program leaves to chance (map
  order, what /proc says) is a parameter of each operation. Logs that the program does not keep
  say which object a connection is, which chunks it saw, what was retired, and which chunks a
  sample was made from.
  `ConnStore` is the table as it runs: objects updated in place, maps that are reassigned, loops
  over maps in any order; it carries the log of its operations, so that the laws of runs are laws
  of the object. `StoreLaws`, `StoreRuns` and `StoreTotals` are what runs keep, `StoreExact` is what
  each operation changes, field by field, and `StoreTold` what a store shows, told from the operations
  alone. `StoreClaims` says from the table before a call what a session can be resolved to. `TailBuffer` is the rolling
  tail with its shift inside one array.
- `KernelSpec`: one step a probe, threads in any interleaving. `TraceFacts` is what really happened,
  told from the trace of probes alone, in numbers of its own. `Kernel` is the probes as they run, with
  their trace. `KernelLaws` compares the maps and the ring with the trace.
- `System`, `Capture`, `Plaintext`: probes, the ring, the reader and the poller together; captured
  handshakes and plaintext from the probe to the table. `Reuse` is the runs in which two lives of a
  socket feed one connection.

Results that are not what one might expect:

- Parsing is *absorbing*: whatever a prefix of a buffer told the parser, the whole buffer tells it
  again and overwrites (`TlsPrefix.Absorption`), so re-parsing the growing buffer is harmless.
- For any two streams, the order in which the directions arrive matters exactly if, field by field,
  what they say disagrees (`Reassembly.FieldConfluence`). For a client and a server without client
  certificates that leaves two cases (`Reassembly.Confluence`): the server settles on version zero,
  or both sides name protocols and not the same. The second is a client that offers several
  protocols beside a ServerHello that names one, as in TLS 1.2; TLS 1.3 moves that answer out of
  the ServerHello (`HelloOrder.HelloOrderIff`; bytes in `HelloOrder.OfferedTwoChosenOne` and
  `HelloOrder.SettledOnZero`).
- The comments (internal/model/model.go:43-45 and 262-263) say that a poll leaves settled totals
  alone. It does exactly when no session polled can be resolved to the connection by the cache, by
  its peer or by its process, which can be told from the table before the poll
  (`StoreClaims.LeftAloneIff`); a second session of the same process is enough to change them
  (`StoreClaims.FinalDisturbed`).
- The comment on `resolve` (internal/model/model.go:313-315) and design-doc.md:140 speak of the
  sole *TLS* connection of a process; the code does not look at that flag. It does what they say
  exactly when no plain connection of the process is its only one, and, if the process has a plain
  connection at all, it has no single TLS one (`StoreClaims.DocumentedFallbackIff`); a run in which it
  does not is `StoreClaims.FallbackToPlain`.
- `resolve` says it uses the descriptor's route when that is unique (internal/model/model.go:314),
  but takes the first connection with the right peer. The result is one and the same in every map
  order exactly if the cache has it or at most one live connection has that peer
  (`StoreClaims.OneTargetIff`; a run with two is `StoreClaims.TwoToOnePeer`).
- A closed entry is deleted by a poll, and CLOSE_WAIT counts as closed. A socket that sends after
  that, because it was only half closed or because the kernel reused its pointer, gets a new entry
  whose counts start from zero, while its connection and buffers go on. The bytes shown are those of
  the whole life exactly if no entry that had moved any was deleted (`System.PolledWholeLife`); they
  can fall (`Reuse.HalfCloseFalls`). A chunk can then be refused (`Reuse.SecondLifeRefused`), which
  happens exactly if the buffer was full before the last one (`Reassembly.AcceptedAll`).
- A poll of the sessions between the end of a session and the handling of its end drops the session's
  sample (`Plaintext.SampleKeptIff`), so that the connection keeps what an earlier poll gave it; without
  one it shows all that was seen of the session (`Plaintext.WhatIsSettled`).
- SSL_set_fd after the first byte of a session comes too late: the session keeps the descriptor it had
  then (`KernelLaws.PlainAccounting`).
- A size that is a multiple of four gibibytes would be captured as an empty event
  (`KernelLaws.EmptyCapture`). This is a fact about the clamp; system calls move less than that.

## Model

| member | source | states |
|---|---|---|
| TlsParse.Parse | internal/tlsparse/parse.go:48-55 | The information after the call is `ParseInfo`, one effect of the buffer applied to the information before, for every byte string; no read is out of bounds |
| TlsParse.CollectHandshake | internal/tlsparse/parse.go:59-80 | The loop over records yields the payload stream of the specification, truncated last record included |
| TlsParse.ParseHandshakeStream | internal/tlsparse/parse.go:82-102 | The loop over messages applies the effects of all messages in order, each clipped to what is there |
| TlsParse.ParseClientHello | internal/tlsparse/parse.go:104-131 | Early returns leave exactly the fields written so far; the version is only written over zero |
| TlsParse.ParseServerHello | internal/tlsparse/parse.go:133-162 | Likewise, with the TLS 1.3 upgrade after the extensions |
| TlsParse.ParseExtensions | internal/tlsparse/parse.go:168-186 | The cursor loop applies the effect of the extension block, and of a last extension that is cut short |
| TlsParse.HandleExtension | internal/tlsparse/parse.go:188-211 | One extension has exactly the effect of its type and side; what that is for each type of the standards is `TlsExact.ExtAtEveryCut` |
| TlsParse.ParseSni | internal/tlsparse/parse.go:213-233 | The first host name of the list, or nothing if an entry before it is cut |
| TlsParse.ParseAlpn | internal/tlsparse/parse.go:235-252 | The names that are complete, in order |
| TlsParse.ParseU16List | internal/tlsparse/parse.go:254-267 | The numbers that are complete, in order |
| TlsParse.ParseCertificate | internal/tlsparse/parse.go:273-303 | The first certificate of the chain, if complete and if it parses, and no change otherwise |
| TlsParse.Reader.U16 | internal/tlsparse/parse.go:320-327 | The cursor moves by two exactly if two bytes are left, and stays otherwise |
| TlsParse.Reader.Take | internal/tlsparse/parse.go:338-345 | The cursor moves over the bytes exactly if they are all left, and stays otherwise |
| TlsParse.Reader.Skip | internal/tlsparse/parse.go:347-354 | A skip beyond the end moves the cursor to the end and says so |
| TlsInfo.CoveredIffAbsorbed | internal/tlsparse/parse.go:104-162 | One effect erases every trace of an earlier one, from every starting state, if and only if it writes every field the earlier one writes (with the guarded version write counted as such) |
| TlsPrefix.CollectPrefix | internal/tlsparse/parse.go:59-80 | A prefix of the buffer gives a prefix of the handshake stream |
| TlsPrefix.BufferCovered | internal/tlsparse/parse.go:48-55 | A buffer writes everything that any prefix of it writes |
| TlsPrefix.Absorption | internal/model/model.go:174-183 | Parsing a prefix and then the whole equals parsing the whole, from any starting information |
| TlsTruncation.TruncationSound | internal/tlsparse/parse.go:156-185 | From any truncation of a capture with one hello whose handled extension types are distinct: name, suite, group and client version are absent or right, the lists are prefixes of the full ones |
| TlsCuts.VersionAtEveryCut | internal/tlsparse/parse.go:156-161 | From every cut of a capture whose one hello is a TLS 1.3 ServerHello, the version shown by a parse is 0x0304 as soon as the compression byte is there, the legacy version as soon as that is there, and none before |
| TlsWire.CollectFrames | internal/tlsparse/parse.go:59-80 | The stream of any framed records, followed by less than a header or by another record type, is exactly the concatenation of their payloads, empty records included |
| TlsWire.MessagesSent | internal/tlsparse/parse.go:82-102 | Serialized messages are read back exactly |
| TlsWire.WalkSent | internal/tlsparse/parse.go:174-185 | Serialized extensions are read back exactly |
| TlsWire.SniSent | internal/tlsparse/parse.go:213-233 | A serialized server name list (section 3 of RFC 6066) gives its first host name |
| TlsWire.AlpnSent | internal/tlsparse/parse.go:235-252 | A serialized protocol list (section 3.1 of RFC 7301) is read back exactly |
| TlsHello.ClientRoundTrip | internal/tlsparse/parse.go:48-286 | A ClientHello with distinct extension types, among other handshake messages, cut into records anywhere: the information is exactly its version, name, protocols and signature schemes, and nothing else |
| TlsHello.ServerRoundTrip | internal/tlsparse/parse.go:48-286 | The same for a ServerHello: suite, group, protocols and the resolved version |
| TlsCuts.CertificateAtEveryCut | internal/tlsparse/parse.go:273-303 | From every cut of a capture with one chain among other messages, in any framing, a parse shows the first certificate of the chain exactly as soon as it is complete, and nothing before: the subject's common name or else its first organization, the issuer, the DNS names, and the signature algorithm less a dash at its end |
| TlsCuts.EmptyChain | internal/tlsparse/parse.go:273-303 | A chain shorter than one length, or with an empty first certificate, says nothing, whatever follows it |
| TlsExact.ExtAtEveryCut | internal/tlsparse/parse.go:188-267 | Each type of extension, by its number, on either side, whole, cut anywhere or followed by anything: exactly which field is written with what, and that no other type writes anything |
| TlsExact.ClientHelloAtEveryCut | internal/tlsparse/parse.go:104-131 | A ClientHello cut after any number of bytes writes its version as soon as that is there and its extensions as far as they are, and nothing else |
| TlsExact.ServerHelloAtEveryCut | internal/tlsparse/parse.go:133-162 | A ServerHello cut after any number of bytes: version, suite, then the extensions as far as they are and the version that they and the five suites of TLS 1.3 amount to |
| TlsExact.BufferAtEveryCut | internal/tlsparse/parse.go:59-102 | Any beginning of a framed capture says what its whole messages say, and its last one as far as it goes |
| TlsExact.MessageTypes | internal/tlsparse/parse.go:88-100 | Messages 1, 2 and 11 are read as ClientHello, ServerHello and Certificate, and no others say anything |
| TlsHello.ExtensionOrder | internal/tlsparse/parse.go:168-211 | Two extension lists with the same handled extensions, distinct in type, have the same effect, whatever their order and whatever unhandled types are between |
| TlsHello.ClientExtensionOrderOnTheWire | internal/tlsparse/parse.go:168-211 | The same for whole captures of a ClientHello, in any framing |
| TlsHello.ServerExtensionOrderOnTheWire | internal/tlsparse/parse.go:168-211 | The same for whole captures of a ServerHello |
| Reassembly.AcceptedAll | internal/model/model.go:180-182 | Non-empty chunks are all accepted if and only if the buffer had room before the last one |
| Reassembly.ChunkingIndependence | internal/model/model.go:174-183 | However one direction is cut into chunks, the information is that of one parse of all the bytes let in |
| Reassembly.WholeStream | internal/model/model.go:174-183 | ... which is one parse of the whole stream when there was room before the last chunk |
| Reassembly.FieldConfluence | internal/model/model.go:176-187 | For any two streams, however cut and whatever they hold: all interleavings end in the same information if and only if each field is written by one direction only or by both alike, with the guarded write of the version counted as the suggestion it is |
| Reassembly.Confluence | internal/model/model.go:176-183 | With no ServerHello or Certificate from the client and no ClientHello from the server, all interleavings of the two directions end in the same information if and only if the server does not settle on version zero against the client's and the two name no different protocols |
| HelloOrder.HelloOrderIff | internal/tlsparse/parse.go:200-201 | For a handshake of one ClientHello and one ServerHello, in any framing and any chunks: the order of the directions does not matter if and only if the two do not carry different protocol lists and the server does not settle on version zero against the client's |
| HelloOrder.OfferedTwoChosenOne | internal/tlsparse/parse.go:200-201 | Bytes that offer "h2" and "http/1.1" and that name "h2", for which the order matters |
| HelloOrder.SettledOnZero | internal/tlsparse/parse.go:112-114 | Bytes that agree on the protocol and settle on version zero, for which the order matters |
| Reassembly.SettledFields | internal/tlsparse/parse.go:112-114 | In every case all fields but the version and the protocols agree, and the version does unless the server's is zero |
| Reassembly.JoinedRun | internal/model/model.go:176-187 | After every interleaving of any two streams, each field that one direction wrote is what that one says, and each that both wrote is what one of them says |
| Endpoint.ParseHexAddr | internal/model/proc.go:59-92 | The branches and the word loop compute the endpoint a token denotes, or fail exactly where the token is malformed |
| Endpoint.HexAddrIff | internal/model/proc.go:59-92 | A token is an endpoint if and only if it is eight or 32 hexadecimal digits of either case, a colon, and a hexadecimal port below 65536 |
| Endpoint.AddressWords | internal/model/model.go:347-358 | The address of a snapshot has the words in their order, all four or the first, and the bytes of each from the lowest up (`Endpoint.WordBytes`) |
| Endpoint.Loopback | internal/model/proc.go:59-92 | "0100007F:1F90" is port 8080 of 127.0.0.1 |
| Endpoint.RenderRead | internal/model/proc.go:59-92 | The kernel's hexadecimal rendering of any words and port reads back as the address built from the words |
| Endpoint.IpFromInjective | internal/model/model.go:347-358 | Two addresses are equal exactly if family and significant words are |
| Endpoint.EndpointAgreement | internal/model/proc.go:59-92 | The two sides of the socket join compare equal if and only if they are the same endpoint |
| EventCodec.RoundTrip | internal/loader/loader.go:156-209 | Every event that fits its packed structure decodes to itself, whatever the padding holds |
| EventCodec.DataRoundTrip | bpf/tlstat.h:78-87 | Data events: likewise, with a payload shorter than its array |
| EventCodec.DecodeIff | internal/loader/loader.go:156-209 | Which records are understood: those of types 1, 2 and 3 with at least 12, 24 and 36 bytes; a payload that is announced and not there is dropped and the event is not |
| ConnStore.Store.constructor | internal/model/model.go:89-103 | A new store is the empty table; negative capacities count as zero |
| ConnStore.Store.UpdateFlows | internal/model/model.go:106-145 | The two loops are the specified reconciliation, for the order in which the gone connections happened to be met; field by field it is `StoreRuns.TouchAllExact` and `StoreRuns.UpdateFlowsExact` |
| ConnStore.Store.Retire | internal/model/model.go:148-160 | A connection gets its close time, loses its buffers, and is pushed on the capped ring |
| ConnStore.Store.ApplyWire | internal/model/model.go:163-188 | The chunk is folded into the connection of its socket, created if need be; an empty chunk changes nothing; field by field it is `StoreExact.WireExact` |
| ConnStore.Store.ApplyData | internal/model/model.go:193-217 | The chunk is added to the sample of its session; an empty chunk changes nothing; what the samples are after any run is `StoreTold.SampleTold` |
| ConnStore.Store.Resolve | internal/model/model.go:316-345 | The cached connection if it is live, else one with the reported peer, else the only one of the process, else none; and the cache afterwards |
| ConnStore.Store.ApplyClose | internal/model/model.go:223-240 | Totals and sample of the resolved connection are final, the sample is dropped in any case |
| ConnStore.Store.UpdateSslStats | internal/model/model.go:259-289 | Zeroing, joining and eviction are the specified ones, each statistic resolved as it may be at its turn |
| ConnStore.Store.SnapshotHistory | internal/model/model.go:303-311 | Copies of the history, newest first |
| ConnStore.Laws | internal/model/model.go:64-80 | The object's log of operations is a run that leads to its state: it keeps the invariant of runs, and since each of its operations retired connections stayed and live ones kept identity, flags and chunks |
| TailBuffer.Tail.Append | internal/model/model.go:243-252 | The in-place tail holds the last bytes of the old contents followed by the new ones |
| TailBuffer.Tail.Shift | internal/model/model.go:248-250 | The overlapping move to the front keeps exactly the last bytes |
| StoreLaws.AddChunkRepresents | internal/model/model.go:206-216 | A sample's head stays the first chunk and its tail the last bytes of all chunks |
| StoreLaws.RunInv | internal/model/model.go:64-80 | In every reachable store: created connections are the live and the retired ones, none twice; the history is the end of the log of retirements, cap zero included, all with a close time and without buffers; a seen hello implies TLS, and a connection is older than the program exactly if it is TLS and no hello was seen; buffers and information are those of the chunks seen; samples represent their chunks, and there is none of nothing |
| StoreLaws.RetireInv | internal/model/model.go:139-160 | Retiring a closed connection keeps all of that |
| StoreLaws.WireInv | internal/model/model.go:163-188 | Folding a chunk keeps all of that |
| StoreLaws.UpdateStatsInv | internal/model/model.go:259-289 | A poll of the sessions keeps all of that |
| StoreRuns.TouchAllExact | internal/model/model.go:111-136 | After a snapshot the connection of every listed socket, new or not, has the entry's process, name, both ends, counters and closed mark, its direction and TLS mark if it has them, and is older than the program exactly if it is TLS and no hello was seen; all else is as it was, or blank for a new one |
| StoreRuns.UpdateFlowsExact | internal/model/model.go:106-145 | Exactly the connections that closed and are not listed leave, and they are what is added to the log of retirements |
| StoreRuns.RunProgress | internal/model/model.go:106-289 | Over any run retired connections never change; live ones keep identity, flags and chunks, and are retired with them |
| StoreExact.WireExact | internal/model/model.go:163-188 | A non-empty chunk joins the buffer of its direction if that has room, the whole buffer is read again, a hello makes the connection TLS and one whose start was seen, and nothing else changes, of this connection or another |
| StoreExact.RecacheExact | internal/model/model.go:316-345 | Resolving keeps a good cache entry, makes one when a peer was found, drops it otherwise, and touches no other |
| StoreExact.CloseExact | internal/model/model.go:223-240 | The end of a session changes its connection's totals, final mark and sample, drops the session's sample, moves the cache as resolving does, and changes nothing else |
| StoreTold.SampleTold | internal/model/model.go:193-217 | After any run, told from its operations: there is a sample of a session exactly if data was handed in since it was last closed or missing from a snapshot; per direction its head is the first of that data and its tail the last bytes of all of it, as many as the store was asked to keep |
| StoreTold.HistoryTold | internal/model/model.go:148-160 | After any run, the history is the end of the log of retirements, as long as the store was asked to keep |
| StoreTold.SaidRun | internal/model/model.go:106-188 | After any run, told from its operations: a connection is marked as TLS only by a hello or a listing, and has a direction, a closed mark, a name, ends and counts only as some listing of its socket had them |
| StoreTotals.PlaintextJoin | internal/model/model.go:259-289 | After a poll, a connection that is not final has exactly the bytes of the statistics resolved to it, a final one has them on top of its own, nothing else of it but the sample changes, and the samples kept are those in the snapshot |
| StoreTotals.GrandTotal | internal/model/model.go:262-282 | In each direction, the total over all connections is what was final before plus everything resolved, modulo two to the 64 |
| StoreClaims.DocumentedFallbackIff | internal/model/model.go:313-344 | When neither cache nor peer decides, the program picks the sole TLS connection of the process, as documented, if and only if every plain connection of the process has company and company without a sole TLS connection |
| StoreClaims.FallbackToPlain | internal/model/model.go:313-344 | A run of one plain flow and one poll, in which the bytes of a session are shown on the plain connection |
| StoreClaims.OneTargetIff | internal/model/model.go:313-344 | A source has the same connection in every map order if and only if the cache has it, or no live connection has the peer of its descriptor, or only one has |
| StoreClaims.TwoToOnePeer | internal/model/model.go:325-330 | A run that sees two connections to one peer, either of which a descriptor can be resolved to |
| StoreClaims.NoneTargets | internal/model/model.go:316-345 | If no session of a poll can be resolved to a connection as the table is before the poll, none is in any poll, although the cache changes on the way |
| StoreClaims.LeftAloneIff | internal/model/model.go:262-277 | No poll of given sessions, whatever they have counted and in whatever order maps are walked, changes the settled totals of a connection, if and only if none of them can be resolved to it by the cache, its peer or its process before the poll |
| StoreClaims.FinalDisturbed | internal/model/model.go:264-277 | A run in which a poll changes a settled total |
| StoreTotals.SettledKept | internal/model/model.go:223-282 | Settled totals survive every operation that resolves no other session to the connection, through its retirement |
| StoreClaims.UnclaimedAvoids | internal/model/model.go:223-282 | An operation none of whose sessions can be resolved to a connection before it resolves none to it |
| Kernel.Maps.FlowGet | bpf/tlstat.bpf.c:119-136 | An entry is created once, and identified by the first process that is not zero; what it then names is `KernelLaws.Accounting` |
| Kernel.Clamp | bpf/tlstat.bpf.c:170-173 | Cutting to 32 bits, clamping and masking is the minimum of the 32-bit size and 1023 |
| Kernel.Maps.CaptureWire | bpf/tlstat.bpf.c:143-181 | The early returns, the arming test and the emission are the specified capture; what that is, in numbers, is `KernelLaws.CaptureExact` |
| Kernel.Maps.TcpSendmsg | bpf/tlstat.bpf.c:186-196 | The probe is the send step |
| Kernel.Maps.TcpRecvmsgReturn | bpf/tlstat.bpf.c:210-229 | The return probe is the receive step, knowing its thread only |
| Kernel.Maps.InetSockSetState | bpf/tlstat.bpf.c:234-260 | The tracepoint is the state step |
| Kernel.Maps.EmitPlaintext | bpf/tlstat.bpf.c:279-314 | Counting and emission of plaintext, the descriptor taken when the session is first seen; what comes of it is `KernelLaws.PlainAccounting` and `KernelLaws.RingTold` |
| Kernel.Maps.SslFreeEnter | bpf/tlstat.bpf.c:321-340 | The final totals are emitted if there is room, and the session is dropped in any case |
| Kernel.Maps.SslReadReturn | bpf/tlstat.bpf.c:374-386 | The return probe is the read step, knowing its thread only |
| Kernel.Laws | bpf/tlstat.bpf.c:25-65 | The maps' trace leads to their state, so whatever interleaving of alternating threads fired the probes, entries, sessions and descriptors are what the trace says happened, and the ring is all of what there was to say |
| KernelLaws.OpenCalls | bpf/tlstat.bpf.c:199-218 | The scratch maps hold exactly the calls that are open, for every thread and in every trace |
| KernelLaws.Accounting | bpf/tlstat.bpf.c:186-229 | However threads that alternate call and return interleave: an entry has exactly the bytes moved on its own socket since it was created (modulo two to the 64), in each direction, as many captured chunks as its counters say, its TLS mark exactly if a record was seen to start, and the process, name, ports, family and addresses given with the move that identified it; without an entry nothing was moved |
| KernelLaws.PlainAccounting | bpf/tlstat.bpf.c:279-386 | The same for the plaintext of every session, null buffers and non-positive results not counted; it has the process that began it and the descriptor it had been given by then, and the table of descriptors has the one given last since it was freed |
| KernelLaws.Lives | bpf/tlstat.bpf.c:234-260 | A socket has an entry exactly from being established or moving bytes until deletion; it is marked closed exactly if it was seen to enter CLOSE or CLOSE_WAIT in between, with the side that opened it last |
| KernelLaws.WholeLifeIff | bpf/tlstat.bpf.c:119-136 | What an entry counts is all its socket ever moved if and only if no entry of it that had moved bytes was deleted |
| KernelLaws.RingTold | bpf/tlstat.bpf.c:143-340 | The ring has, in order, exactly what there was to say: a wire event for each chunk due, a data event for each piece of plaintext that could be carried, a close event for each session that ended, each with the direction, process, thread, descriptor, totals and bytes that the trace gives |
| KernelLaws.PiecesExact | bpf/tlstat.bpf.c:279-314 | The data events of a session and direction have, in order, the first bytes, as many as the smaller of the size and 1023, of each buffer that passed, could be read, and found room |
| KernelLaws.ClosesExact | bpf/tlstat.bpf.c:321-340 | The close events in the ring are, in order, those of the sessions freed: by which process, with the session's descriptor and its exact totals |
| KernelLaws.CaptureExact | bpf/tlstat.bpf.c:170-174 | What is captured of a transfer, in numbers: nothing of a null buffer, of no bytes, or after sixteen chunks; a first chunk only of at least five bytes that start a record (types 20 to 23, major 3, minor up to 4); and then the first bytes, the smaller of the 32-bit size and 1023, if the ring has room and the buffer can be read |
| KernelLaws.RecordArms | bpf/tlstat.bpf.c:88-100 | The start of any framed record arms a direction, for each of the four types and each minor version up to 4, and a start of another kind does not |
| KernelLaws.DueExact | bpf/tlstat.bpf.c:170-174 | A captured chunk is the start of the buffer and at most 1023 bytes; it is empty exactly if the size is a multiple of two to the 32; a first one starts a record |
| KernelLaws.CaptureBound | bpf/tlstat.bpf.c:143-181 | In the life of one entry each direction has at most sixteen chunks of at most 1023 bytes, none empty and the first starting like a record if no send exceeds 32 bits |
| KernelLaws.EmptyCapture | bpf/tlstat.bpf.c:170-178 | A send of exactly four gibibytes is submitted as an event with nothing in it |
| KernelLaws.WiresExact | bpf/tlstat.bpf.c:164-180 | The wire events of a socket and direction in the ring end in the chunks captured for its entry, and are all of them if no entry of it was deleted |
| KernelLaws.WiresSince | bpf/tlstat.bpf.c:164-180 | The wire events of a socket submitted since some point are the chunks captured in its life since then |
| KernelLaws.RingExact | bpf/tlstat.h:57-87 | Every event in the ring fits its structure and names a direction; data is never empty |
| System.ReceivedAsSent | internal/loader/loader.go:156-209 | In every reachable state the reader decodes the next event as it was submitted |
| System.RunOk | main.go:93-128 | Every run of probes, events and polls keeps the trace alternating and the store's invariant |
| System.DeletesExact | main.go:118-122 | The poller's deletions remove exactly the entries it lists as closed and nothing else |
| System.Finalization | internal/model/model.go:223-240 | Once the end of a session is handled and resolved to a connection, the event is the one the trace has for that end, the connection's totals are exactly what the probes counted for that session from its creation to its end, and stay so in every further run in which no other session is resolved to it, through polls and retirement |
| System.FinalizationUnclaimed | internal/model/model.go:223-240 | The same for every further run in which, at each step, no session handled or polled can be resolved to the connection as the table is then |
| System.PolledFlows | internal/model/model.go:111-136 | After a poll, the table shows of every tracked socket, as the trace has it: the bytes moved, the process, name and both ends given with the move that identified it, whether it was seen to close while tracked, and which side opened it; it is TLS exactly if it was or a record was seen to start, and older than the program exactly if it is TLS and no hello was seen; what was captured stays |
| System.PolledPeer | internal/model/proc.go:59-92 | After a poll, what /proc prints of a far end is the remote end of an identified socket's connection if and only if it is the address and port the socket had, and so a descriptor of the socket finds a peer in the table |
| System.PolledWholeLife | internal/model/model.go:131-132 | After a poll, the bytes shown are all the socket ever moved, if they fit the counter, if and only if no entry of it that had moved bytes was deleted |
| System.PolledSessions | internal/model/model.go:259-282 | After a poll, the plaintext totals of a connection that is not final are the true plaintext bytes of the live sessions resolved to it; each is resolved by the process that began it and the descriptor it had then |
| System.UntouchedStaysOut | bpf/tlstat.bpf.c:119-136 | Only a probe on the socket makes an entry for it |
| System.UntouchedRing | bpf/tlstat.bpf.c:143-181 | Only a probe on the socket captures from it |
| System.ClosedFlowLeaves | main.go:116-123 | A closed flow is deleted by the next poll, and its connection is retired by the one after if no probe touches the socket in between |
| Capture.NeverRefused | internal/model/model.go:180-182 | Sixteen chunks of 1023 bytes never fill a reassembly buffer |
| Capture.LifetimeFits | bpf/tlstat.bpf.c:143-181 | The chunks of one entry's life end up whole in initially empty buffers, in any interleaving, with at most 16368 bytes |
| Capture.InitialFresh | internal/model/model.go:89-103 | In an empty system every socket is at a fresh start |
| Capture.AcrossLayers | internal/model/model.go:163-188 | From a fresh start of a socket, at any time, until its entry is deleted: its connection holds, per direction, the whole of the chunks handled so far, which are the first of those captured; nothing is refused, reordered or taken from another socket |
| Capture.WhatIsShown | internal/model/model.go:163-188 | In such a life, once the socket's events are handled, what the table shows joins what the captured bytes of the two directions say, and is one parse of all of one and then of all of the other if they agree |
| Capture.WhatIsRetired | internal/model/model.go:139-160 | When the entry is closed and deleted, the socket not touched after that, and its events handled by the poll that retires the connection, the new record in the log of retirements shows the same of what was captured in that life |
| Capture.FreshWhenGone | internal/model/model.go:139-145 | A socket whose connection is retired, which is not tracked and whose events are handled, is a fresh start again |
| Plaintext.StoreRun | main.go:93-128 | Every run of the system is a run of the store, so that what holds of all runs of the store holds in the system |
| Plaintext.InitialUnbegun | internal/model/model.go:89-103 | In an empty system every session can begin |
| Plaintext.WhatIsSampled | internal/model/model.go:193-217 | From the time a session can begin until it is freed, whatever the interleaving of probes, events and polls: per direction, the pieces of plaintext handled are the first of those that passed and could be seen, and all of them once the ring is read; there is a sample exactly if there is one, with the first piece as its head and the last bytes of all of them as its tail |
| Plaintext.WhatIsSettled | internal/model/model.go:223-240 | A session begins, passes plaintext and is freed, with no poll of the sessions from then until its end is handled: its connection has, marked as final, the exact totals, the first piece and the last bytes of all that was seen; the sample is gone, and no other connection changes |
| Plaintext.SampleKeptIff | internal/model/model.go:283-289 | A poll of the sessions keeps a sample if and only if the kernel still has the session |
| Reuse.SecondLifeRefused | internal/model/model.go:180-182 | A run from the empty system in which a socket sends sixteen chunks, is closed or half closed, polled once, and sends two more: the connection has seen eighteen chunks and holds the 17391 bytes of the first seventeen |
| Reuse.HalfCloseFalls | bpf/tlstat.bpf.c:254-258 | A run in which a half-closed socket goes on sending and the bytes shown on its connection fall from 2046 to 1023, having moved 3069 |

## Left out

- Capture.WhatIsRetired: sends are below four gibibytes, and a life of a socket begins afresh. When a socket goes on after its entry was deleted and before its connection is retired, two lives feed one connection, as `Reuse.SecondLifeRefused` shows; `Capture.LifetimeFits` is what holds per entry.
- Plaintext.WhatIsSettled: a poll of the sessions between the end of a session and its handling drops the sample (`Plaintext.SampleKeptIff`); what the connection then shows is what the last poll before gave it, and is not stated. A session that is freed when the ring is full has no end to handle.
- System.Finalization: handling an event and resolving it is one step, and so is each snapshot together with what is done with it; a snapshot taken before a close event is handled and applied after it can add to a final total.
- KernelLaws.Accounting: probes are atomic steps; counters that two processors update at the same instant are not modelled.
- Kernel.Clamp: the mask by 1023 is written as the remainder by 1024.
- Maps that are full: the hash maps and the scratch maps always have room. A full ring is modelled.
- User memory is given with each probe as the bytes that can be read at the buffer, stable within the probe; the kernel structures behind a socket are given as a tuple, and `iter_base` as an address.
- eBPF loading and attachment, the ring and map system calls, and the generated bindings.
- /proc: what it says about a descriptor is a parameter of the operation, possibly nothing; `scanNetTCP` reads files and is not modelled, only the parsing of an endpoint is.
- X.509 is a function from bytes to optional fields; all results hold for every such function.
- Times: only whether a connection has a close time; first and last activity are left out.
- Mutexes: each store method is one atomic step.
- Slices: plaintext samples and tails are values in the store, so that a connection's copy is not changed by a later in-place shift of the array the program shares with it; `TailBuffer` models the shift alone. A sample is a value that is replaced in its map.
- The handshake information of a connection is copied into the parser and back; the program parses into it in place.
- Shifts and ors of disjoint bit ranges are written as sums.
- `Snapshot` (a copy of the live table in any order), `HasEndpoint`, the name tables, the user interface, the dump and the search for libssl: they show the table or look names up, and keep nothing.
- Errors of the map iterators: a poll that fails is a poll that does not happen.
