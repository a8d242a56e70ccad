# Verification of the network agent

A Dafny model of the agent that keeps an outbound TLS connection to a server and proxies
connections from it to allowed destinations, with proofs of what every run of it keeps. The
server, the network, the disk and the scheduler are free: theorems about runs hold for every
interleaving, every server input and every failure.

| file | what it models |
|---|---|
| `Bytes.dfy`, `Framing.dfy` | the wire format: frames with a 16-bit length, the incremental decoder, the payloads |
| `FrameBuffers.dfy` | the same on real buffers: filling frames, walking a buffer, the read buffer that compacts in place |
| `Outcomes.dfy`, `ReadLoop.dfy` | the read loop over reads of any size, acting on the certificate files |
| `Disk.dfy`, `Renewal.dfy` | crash-atomic replacement of the certificate, its checks, and whole runs with crashes |
| `Supervisor.dfy` | the reconnect automaton |
| `AgentRuns.dfy` | the agent's connections one after the other on the same files, through failures, crashes and restarts |
| `CertPool.dfy` | the strict CA bundle reader and its counting argument |
| `AccessList.dfy` | the access list and the text the setup wizard writes |
| `Tunnel.dfy` | one connection as a step system: reader, writer, keepalive ticker and one goroutine per request over a queue of 256, a map and a done flag |
| `TunnelQueue.dfy`, `TunnelSessions.dfy`, `TunnelEmits.dfy`, `TunnelRouting.dfy`, `TunnelSockets.dfy`, `TunnelEndings.dfy`, `TunnelReader.dfy`, `TunnelCounts.dfy` | invariants, each preserved by every step |
| `TunnelRuns.dfy` | they hold in every reachable state |
| `TunnelFidelity.dfy`, `TunnelLanguage.dfy`, `TunnelTheorems.dfy`, `TunnelEnds.dfy`, `TunnelReturns.dfy`, `TunnelTraces.dfy` | the theorems over all reachable states and over the steps that lead to them |
| `TunnelWitness.dfy` | runs that show what the tunnel does not promise |
| `TunnelInterference.dfy`, `TunnelHistory.dfy` | what one goroutine can rely on while the others run; the reader's history as the read loop tells it |
| `ServerConn.dfy` | the shared object updated in place and the source's goroutines on it, interleaved with any steps of the others; whatever they do is a run of the step system |

A session is one well-formed CREATE_REQUEST; its tag is its position in order of arrival, so
two requests with the same id are two sessions. Every blocking point of the source (channel
operation, lock section, dial, read, write) is one atomic step. In `ServerConn` a goroutine is
the source's code: between two blocking points it lets the others take any steps they like, and
it is followed for a number of such moments; `Valid` says that the steps taken by all lead from
the start to where the object is, so every theorem about reachable states is one about it.

Parts of Go's libraries are parameters: `net.ParseIP`, `net.ParseCIDR`, containment and address
equality (`AccessList.Net`); PEM decoding and X.509 parsing (`CertPool.Pem`), the key pair check
and chain verification (`Renewal.Crypto`; path validation is section 6.1 of RFC 5280, extended
key usage section 4.2.1.12). Of PEM decoding (sections 3 and 5 of RFC 7468) one thing is
required, and only for the CA bundle: the rest is a proper suffix, and what was consumed ends
at a newline or at the end of the data.

Where the code and its comments differ the model follows the code:

- `internal/tunnel/server_conn.go:73` says all destination connections are closed so their
  loops unblock; `SocketLeftOpen` gives a run in which one stays open, and `OpenAfterFinish`
  says exactly which ones are when ids are not reused, `OpenExactly` in any case: a session
  whose map entry another one with its id has overwritten is not closed by Run. Every goroutine can still end, and then none is
  (`ShutdownCompletes`, `NoneOpenWhenOver`).
- `internal/tunnel/server_conn.go:61-62` says Run blocks until the connection is closed;
  `RunCanHang` gives runs in which the reader waits in a send of its own for ever after.
  `RunReturnsExactly` says when Run can still return: always while the writer is there, and
  with the writer gone exactly if the queue has room for the refusals the reader must send
  before its loop can end. `BlockedGetsOnExactly` is about the next move only.
- `internal/protocol/framing.go:34-39` speaks of incomplete frames; a declared length below 3
  takes the same branch and no later input gets past it (`StalledForever`), and nothing else
  stops the decoder for good (`ProgressIffNotStalled`).
- `internal/protocol/framing.go:24-31` encodes any payload; the frame decodes back exactly when
  the payload is at most 65532 bytes (`RoundTrip`). DATA frames always fit (`DataFramesFit`);
  the text of a dial error is not bounded by the source, so wire theorems that name other
  packets assume `TextsFit`, and `WireDecodesExactly` needs no assumption.
- The packets for an id are a word of the session language exactly if at most one session with
  that id has spoken (`LanguageOfId`), or, of everything queued, been answered
  (`LanguageOfReusedId`); `ReusedIdBreaksLanguage` gives a run in which two are.
- `internal/tunnel/dest_conn.go:35-36` queues the response before the session is in the map, so
  DATA sent on receiving it can be lost (`EarlyDataLost`); a session has been handed
  everything exactly if no DATA for its id was handled before (`NothingMissedExactly`).

## Model

| member | source | states |
|---|---|---|
| Framing.Canonical | internal/protocol/framing.go:35-48 | for every buffer, re-encoding the decoded packets and appending the remainder gives the buffer back, and the remainder holds no packet |
| Framing.DecodeFrames | internal/protocol/framing.go:24-48 | fitting frames in front of any tail decode to their packets, followed by what the tail decodes to |
| Framing.RoundTrip | internal/protocol/framing.go:24-48 | frames followed by an undecodable tail decode to exactly the packets and the tail if and only if every payload is at most 65532 bytes |
| Framing.OversizedPayloadStalls | internal/protocol/framing.go:25-27 | the frame of a payload of 65533 bytes declares length 0 and yields no packet |
| Framing.DecodeSplit | internal/protocol/framing.go:33-48 | decoding in two reads with the remainder kept in between equals decoding the whole stream |
| Framing.DecodePrefix | internal/protocol/framing.go:33-48 | any prefix of a stream of fitting frames decodes to a prefix of their packets |
| Framing.BacklogBound | internal/tunnel/server_conn.go:97-100 | at most 65534 bytes are kept between reads unless the decoder has stalled |
| Framing.BacklogBoundAttained | internal/protocol/framing.go:36-40 | the bound is reached by a 65535-byte frame lacking one byte |
| Framing.StalledForever | internal/protocol/framing.go:38-40 | after a declared length below 3 no later input ever yields a packet |
| Framing.ProgressIffNotStalled | internal/protocol/framing.go:36-40 | some further input yields another packet if and only if the decoder has not stalled |
| Framing.CreateResponseInverts | internal/protocol/framing.go:54-60 | the encoded frame decodes and parses back to its arguments exactly when the reason is at most 65529 bytes |
| Framing.DataInverts | internal/protocol/framing.go:70-75 | the same for DATA and 65530 bytes |
| Framing.DestroyInverts | internal/protocol/framing.go:63-67 | a DESTROY frame decodes and parses back to its id |
| Framing.RenewResponseInverts | internal/protocol/framing.go:90-95 | the same for RENEW_RESPONSE and a body of 65531 bytes |
| Framing.ParsersExact | internal/protocol/framing.go:119-167 | each parser accepts exactly an id, a status or a command's bytes in front and anything behind, and returns them |
| Framing.RubyVectors | internal/protocol/vectors_test.go:26-64 | the frames of the commands without a text, and of DESTROY and CREATE_RESPONSE, are byte for byte those of the Ruby implementation |
| Framing.RubyTextVectors | internal/protocol/vectors_test.go:66-104 | so are the refusal, DATA, REJECT and CREATE_REQUEST frames, for any text of the same length |
| Framing.RenewVectors | internal/protocol/framing.go:78-95 | the renewal frames carry command 8 and the identifier, command 9 and the status |
| Framing.ParseCreateRequestExact | internal/protocol/framing.go:101-116 | parsing succeeds with id, host and port exactly on id, a slash-free host, a slash and the port |
| FrameBuffers.EncodePacket | internal/protocol/framing.go:24-31 | the fresh buffer filled by index is the frame |
| FrameBuffers.EncodeCreateResponse | internal/protocol/framing.go:54-60 | the buffers filled by index make the CREATE_RESPONSE frame |
| FrameBuffers.EncodeData | internal/protocol/framing.go:70-75 | the buffers filled by index make the DATA frame |
| FrameBuffers.EncodeDestroy | internal/protocol/framing.go:63-67 | the buffers filled by index make the DESTROY frame |
| FrameBuffers.EncodeRenewResponse | internal/protocol/framing.go:90-95 | the buffers filled by index make the RENEW_RESPONSE frame |
| FrameBuffers.ParseCreateRequestScan | internal/protocol/framing.go:101-116 | the scan by index finds the first slash, if there is one |
| FrameBuffers.DecodePackets | internal/protocol/framing.go:35-48 | the loop returns the decoded packets with payloads in fresh buffers and the remainder in place |
| FrameBuffers.ReadBuffer.Append | internal/tunnel/server_conn.go:98 | appending keeps the contents and adds the chunk, in place or in a larger array |
| FrameBuffers.ReadBuffer.Compact | internal/tunnel/server_conn.go:100 | sliding the remainder over the front of the same array preserves it although the ranges overlap |
| ReadLoop.Receive | internal/tunnel/server_conn.go:97-100 | append, decode and compaction return the stream's next packets, keep the remainder, and never alter packets already returned, by this call or an earlier one: none shares its array with the buffer |
| ReadLoop.HandlePacket | internal/tunnel/server_conn.go:120-189 | the verdict of each command, its effect on the files, and with no failing file operation the verdict the certificate on disk decides |
| ReadLoop.HandleAll | internal/tunnel/server_conn.go:101-105 | one read's packets are handled in order up to and including the first with a verdict; the files go through the run of the answers among them, every crash point on its way |
| ReadLoop.Loop | internal/tunnel/server_conn.go:91-116 | on any script of reads the packets handled and the result are those of one decoding of the whole stream, the files went through the run of the answers handled, every crash point on its way, and with no failing file operation every verdict is decided by the certificate on disk at the start |
| ReadLoop.SplitIndependent | internal/tunnel/server_conn.go:91-116 | two ways of cutting a stream into reads give the same packets, verdicts and result, if the stream offers no certificate or renewal is not enabled |
| ReadLoop.SplitIndependentOnDisk | internal/tunnel/server_conn.go:91-116 | and if it offers certificates: from the same certificate and key, with no failing file operation, the result and the installed file are the same |
| ReadLoop.OutcomeMeaning | internal/tunnel/server_conn.go:101-115 | the packet-by-packet definition of the loop's outcome and the statement about the whole stream are the same |
| ReadLoop.ResultExactly | internal/tunnel/server_conn.go:170-183 | the result read off the packets: the payload of the REJECT handled last, EOF for a RECONNECT handled last, a renewal only for an offered certificate handled last, otherwise the read's error with every packet handled |
| ReadLoop.RenewedMeansInstalled | internal/tunnel/server_conn.go:179-180 | the loop returns the renewed signal exactly when one certificate was installed in it, exactly when the DER on disk changed; otherwise the file is byte for byte the same |
| ReadLoop.LoopIsSafe | internal/config/tls.go:86-104 | wherever the process dies in the loop, and at its end, a pair that loaded still loads, with the same key, subject and serial |
| Disk.FileSystem.Write | internal/certrenew/certrenew.go:186-190 | a write may stop after any piece, and is not on stable storage before a sync; agent.crt is never involved |
| Disk.FileSystem.Rename | internal/certrenew/certrenew.go:210-214 | one atomic step or an error that changes nothing; a power loss after it leaves the whole contents only if they were synced |
| Disk.RenameWithRetry | internal/certrenew/certrenew.go:210-221 | it fails exactly after five failed renames, and then nothing has changed |
| Disk.WriteAtomic | internal/certrenew/certrenew.go:179-206 | in every state the disk passes through, and after a power loss in any of them, agent.crt holds exactly the old or exactly the whole new bytes; success means new, any error old; without a failing operation it succeeds; a failure removes the temp file it wrote unless the removal fails too |
| Renewal.Apply | internal/certrenew/certrenew.go:80-89 | nothing is written unless every check passes |
| Renewal.InstallConditions | internal/certrenew/certrenew.go:94-157 | a candidate may be installed exactly when there are roots and both paths and its first PEM block is a certificate that pairs with the key, keeps subject and serial, chains to the roots and differs from the installed one |
| Renewal.OfferedExactly | internal/tunnel/renew.go:76-92 | a certificate is offered exactly by the status 0 followed by it |
| Renewal.InstallRenewedCertificate | internal/tunnel/renew.go:94-130 | the renewed signal is given only after a complete installation; otherwise the file is unchanged |
| Renewal.HandleRenewResponse | internal/tunnel/renew.go:64-92 | handling an answer is a step of the run, and so is dying at any point of it; with no failing file operation a certificate is installed exactly when it may be |
| Renewal.StepKeeps | internal/certrenew/certrenew.go:111-132 | one step keeps a loading key pair loading, the identity and the key |
| Renewal.IdentityMeaning | internal/certrenew/certrenew.go:160-174 | the identity and DER the theorems speak of are subject, serial and DER of the certificate in the file's first PEM block |
| Renewal.CertificateSafety | internal/config/tls.go:86-104 | over whole runs with failures and crashes at any file operation the pair on disk still loads at every handshake, the key is never written and the identity never changes |
| Renewal.TracedIsSafe | internal/certrenew/certrenew.go:179-206 | the same at every state the disk was logged in while the code ran |
| Renewal.InstalledIsTrusted | internal/certrenew/certrenew.go:142-147 | in any run the installed file is the original or holds a certificate that chains to the roots and pairs with the key |
| Renewal.NoCertificateNoChange | internal/certrenew/certrenew.go:160-174 | a file whose first PEM block is not a certificate is never replaced |
| Renewal.RenewedIffChanged | internal/certrenew/certrenew.go:149-156 | the renewed signal is given exactly when the installed DER changed; otherwise the file is byte for byte the same |
| Renewal.Convergence | internal/certrenew/certrenew.go:149-154 | against a server that only ever offers one certificate by its DER, however encoded and whatever else it answers, a run of any length holds at most one renewal, and after it that certificate is installed |
| Renewal.ConvergenceSameAnswer | internal/tunnel/renew.go:109-115 | with one and the same answer every time the file is in the end what it carries |
| Supervisor.RunAgent | internal/tunnel/agent.go:46-100 | the retry counter is the length of the trailing run of connect failures and below 4; the loop stops at the first attempt that ended with a REJECT, with its reason, or whose access list did not load, or that is the fourth connect failure in a row, and at nothing else |
| Supervisor.StopsMeaning | internal/tunnel/agent.go:49-99 | the exit says exactly which of the three the last attempt was, and no attempt before it was one |
| Supervisor.FourthIsTrailing | internal/tunnel/agent.go:61-64 | four trailing failures are four consecutive failed attempts |
| AgentRuns.RunConnection | internal/tunnel/agent.go:52-72 | one connection of the agent is the read loop on the files as they are, and its result is the attempt's |
| AgentRuns.LivesRun | internal/tunnel/agent.go:49-99 | the connections one after the other, crashes and restarts included, are one run of the files |
| AgentRuns.SafeAtEveryLife | internal/config/tls.go:86-104 | at the start of every connection a pair that loaded at the beginning still loads, with the same key, subject and serial |
| AgentRuns.ReconnectsAreRenewals | internal/tunnel/agent.go:81-88 | the attempts that end with the renewed signal are exactly the certificates installed to the end |
| AgentRuns.AtMostOneRenewalReconnect | internal/tunnel/agent.go:81-88 | against servers that only ever offer one certificate all connections together contain at most one reconnect caused by renewal, and after it that certificate is on disk |
| CertPool.NewCertPool | internal/config/tls.go:25-69 | the loop and its final counts compute the pool or the refusal |
| CertPool.AcceptedExactly | internal/config/tls.go:25-69 | a bundle is accepted, with that pool, exactly when it is blanks and certificate chunks with one BEGIN marker each, in order: nothing was skipped |
| CertPool.RefusedHow | internal/config/tls.go:40-67 | a refused bundle is certificate chunks and then something that is none for the reason the refusal names, or only blanks, or all certificates but not as many as markers |
| CertPool.RefusedExactly | internal/config/tls.go:40-67 | and a bundle with such a reason is refused with it |
| CertPool.MarkersOfMade | internal/config/tls.go:35 | markers are counted chunk by chunk; none straddles a chunk's end and none lies between chunks |
| CertPool.Pigeonhole | internal/config/tls.go:65-67 | at least one marker in every chunk and as many markers as chunks leave one in each |
| CertPool.ReadsMade | internal/config/tls.go:37-60 | an input made of such chunks is read as exactly their certificates |
| CertPool.CountIsPositions | internal/config/tls.go:35 | counting without overlap counts every position at which a marker starts |
| AccessList.Entries | internal/acl/accesslist.go:101-116 | the listing is the first field of every line that is not blank or a comment, in order |
| AccessList.FieldExactly | internal/acl/accesslist.go:44-50 | what a line contributes is f exactly if the line is white space, f, and the end or white space and a remark, where f is not empty, holds no white space and does not start a comment |
| AccessList.ListedExactly | internal/acl/accesslist.go:101-116 | a field is listed exactly if it is such a field of some line |
| AccessList.Parse | internal/acl/accesslist.go:42-57 | the entries are exactly the valid fields of what is listed, in order |
| AccessList.Allows | internal/acl/accesslist.go:78-98 | an address is allowed exactly when it parses and some entry covers it |
| AccessList.AllowedByText | internal/acl/accesslist.go:42-98 | the text of a list allows an address exactly if the address parses and the first field of some line names it: a network that contains it if the field has a slash, an equal address otherwise |
| AccessList.UnionOfLists | internal/acl/accesslist.go:42-57 | the list of one text, a newline and another text allows an address exactly when one of the two lists does |
| AccessList.JoinOfLines | internal/acl/accesslist.go:44 | joining the lines gives the text back and no line holds a newline |
| AccessList.LinesOfJoin | internal/acl/accesslist.go:44 | lines without newlines, joined and split again, come back unchanged |
| AccessList.TrimMeaning | internal/acl/accesslist.go:45 | trimming removes exactly the outer white space |
| AccessList.GenerateAccessList | internal/setup/wizard.go:124-155 | the file is the fixed lines and then the answers up to the first blank one; no file if the input ends before it |
| AccessList.AnsweredAreAnswers | internal/setup/wizard.go:158-168 | what is stored is trimmed, not empty and one line |
| AccessList.AnsweredExactly | internal/setup/wizard.go:129-135 | what is stored is exactly every answer before the first blank one, trimmed |
| AccessList.WizardListed | internal/setup/wizard.go:143-154 | listing the wizard's file gives 127.0.0.1, ::1 and the user's hosts if and only if every host is free of white space and does not start with # |
| ServerConn.Conn.constructor | internal/tunnel/server_conn.go:50-58 | a connection starts in the initial state |
| ServerConn.Conn.Run | internal/tunnel/server_conn.go:63-83 | on what successive reads of the server give and whatever the others do in between, Run is a run of the step system; when it returns, the map is emptied, the result is the sequential read loop's on the bytes those reads gave, the renewed signal is given exactly when the DER on disk changed, and at every point a pair that loaded still loads; if it has not returned the reads are used up or it has waited as often as allowed |
| ServerConn.Conn.SendRenewRequest | internal/tunnel/renew.go:36-55 | the select with a default leads to the read loop |
| ServerConn.Conn.ReadServerLoop | internal/tunnel/server_conn.go:91-116 | it reads and handles until a verdict or a read error returns, else the reads are used up or it waits in its own send |
| ServerConn.Conn.HandlePacket | internal/tunnel/server_conn.go:120-189 | one packet is handled, on the files and on the connection, and its verdict is recorded |
| ServerConn.Conn.DispatchCommand | internal/tunnel/server_conn.go:120-189 | the dispatch of one packet takes the reader's handling step |
| ServerConn.Conn.SendRefusal | internal/tunnel/server_conn.go:130-140 | the reader's own send goes out, or it has waited throughout with the queue full |
| ServerConn.Conn.SendToDest | internal/tunnel/dest_conn.go:77-86 | the write loop ends with the data used up or a failed write, and the reader goes on |
| ServerConn.Conn.EmptyDests | internal/tunnel/server_conn.go:74-79 | the lock section closes the sockets in the map and empties it |
| ServerConn.Conn.DialAndRegister | internal/tunnel/server_conn.go:192-202 | the goroutine's code is a run of its steps among any others; it has returned exactly if the session is over, and then, while done is open, it has said its whole word; what it read is what the reads gave |
| ServerConn.Conn.DialDest | internal/tunnel/dest_conn.go:23-42 | a destination is returned exactly if the dial succeeded and the success was sent; the failure sent is the dial's; otherwise done was closed or the goroutine is still blocked |
| ServerConn.Conn.Select | internal/tunnel/dest_conn.go:35-40 | the packet is sent, or done is closed and it is given up, or it has waited throughout with the queue full and done open |
| ServerConn.Conn.DestReadLoop | internal/tunnel/dest_conn.go:46-74 | what is read is what successive reads give, up to the first that fails; reading, forwarding and the deferred end are a run of the session's steps; it has returned exactly if the session is over |
| ServerConn.Conn.Deferred | internal/tunnel/dest_conn.go:47-55 | DESTROY or done, then the removal from the map, ends the session |
| ServerConn.Conn.WriteLoop | internal/tunnel/server_conn.go:213-228 | the writer only adds to the wire and ends by a failed write or done |
| ServerConn.Conn.WriterTurn | internal/tunnel/server_conn.go:215-226 | it moves unless nothing is queued and done is open |
| ServerConn.Conn.WriteFrame | internal/tunnel/server_conn.go:217-223 | the write loop puts the whole frame on the wire, or part of it and ends |
| ServerConn.Conn.KeepaliveLoop | internal/tunnel/server_conn.go:231-246 | the ticker ends when done is closed, else it has waited as often as allowed |
| ServerConn.Conn.TickerTurn | internal/tunnel/server_conn.go:235-244 | it moves unless a keepalive waits for room and done is open |
| TunnelQueue.QueueKept | internal/tunnel/server_conn.go:52 | every step keeps the queue the untaken part of the history, at most 256 long |
| TunnelQueue.WireKept | internal/tunnel/server_conn.go:213-228 | every step keeps the wire the frames taken, up to what the writer still holds |
| TunnelSessions.SessionsKept | internal/tunnel/dest_conn.go:46-74 | every step keeps each session's life cycle and its bytes: read equals forwarded plus the chunk in hand |
| TunnelSessions.BlockedKept | internal/tunnel/server_conn.go:130-134 | a request waits for the reader's send exactly when the reader is blocked on it |
| TunnelSessions.AllowedIsAddress | internal/tunnel/dest_conn.go:89-94 | a host the access list allows parses as an address |
| TunnelEmits.EmitsKept | internal/tunnel/dest_conn.go:23-55 | every step keeps each session's part of the queue's history what its own history tells |
| TunnelEmits.EmittedFollows | internal/tunnel/dest_conn.go:23-55 | such a history is a word of the session language |
| TunnelRouting.DestsKept | internal/tunnel/server_conn.go:197-208 | every step keeps every map entry naming a registered session with that id |
| TunnelRouting.InboxKept | internal/tunnel/server_conn.go:157-168 | every step keeps what a session was handed a run of the DATA packets for its id |
| TunnelRouting.DeliveryKept | internal/tunnel/dest_conn.go:77-86 | every step keeps the bytes at a socket those handed to it, up to the reader's hand |
| TunnelRouting.PlacedKept | internal/tunnel/server_conn.go:192-209 | every step keeps, with ids not reused, a registered session the one its id maps to |
| TunnelSockets.SocketsKept | internal/tunnel/dest_conn.go:34-41 | every step keeps the socket open of a session not yet registered, and of one registered after Run emptied the map until its read loop ends |
| TunnelSockets.EndKept | internal/tunnel/server_conn.go:68-71 | every step keeps done closed exactly once the read loop is over and Run has gone on |
| TunnelEndings.EndingsKept | internal/tunnel/dest_conn.go:50-69 | every step keeps that a chunk or a DESTROY is given up only with done closed, and that a socket closed on a DESTROY had one handled for its id |
| TunnelReader.ReaderKept | internal/tunnel/server_conn.go:91-116 | every step keeps handled plus pending packets the decoding of all bytes received, and the error pending the last read's |
| TunnelReader.FirstKept | internal/tunnel/server_conn.go:63-68 | every step keeps the renewal request first and alone |
| TunnelCounts.CountKept | internal/tunnel/server_conn.go:122-142 | every step keeps the counts of requests and responses |
| TunnelRuns.ReachableInv | internal/tunnel/server_conn.go:63-83 | every invariant holds in every reachable state |
| TunnelFidelity.EndToEnd | internal/tunnel/dest_conn.go:57-73 | with ids not reused, decoding the wire and joining the DATA payloads for an id gives a prefix of the bytes read from that destination |
| TunnelFidelity.AtMostOneChunkLost | internal/tunnel/dest_conn.go:59-69 | at most one chunk of at most 32768 bytes is ever read and not queued |
| TunnelFidelity.CompleteWhenDrained | internal/tunnel/server_conn.go:213-228 | with the queue drained, nothing in hand and nothing dropped the server has every byte read |
| TunnelFidelity.DataFramesFit | internal/tunnel/dest_conn.go:57-65 | no DATA frame overflows the length field, in any run |
| TunnelFidelity.WireDecodes | internal/tunnel/server_conn.go:213-228 | decoding the wire gives a prefix of the packets queued, in queue order |
| TunnelFidelity.WireDecodesExactly | internal/protocol/framing.go:24-48 | between packets the wire decodes to what was taken if and only if no payload was too long |
| TunnelLanguage.SessionLanguage | internal/tunnel/dest_conn.go:23-55 | at every length of the queue's history a session has emitted a prefix of a failure, or of success, DATA packets and one DESTROY |
| TunnelLanguage.WordsExactly | internal/tunnel/dest_conn.go:23-55 | the automaton accepts exactly nothing, one failure, or the success, DATA packets and at most a DESTROY at the end |
| TunnelLanguage.WholeWord | internal/tunnel/dest_conn.go:46-74 | while done is open a session whose goroutine is over has said its whole word, DESTROY included, and has dropped no chunk |
| TunnelLanguage.WireLanguage | internal/tunnel/dest_conn.go:23-55 | the packets for an id decoded from the wire are accepted if and only if at most one session with the id has spoken among them; so always with ids not reused |
| TunnelLanguage.LanguageOfId | internal/tunnel/dest_conn.go:23-55 | at every length of the queue's history the packets for an id are a word of the language if and only if at most one session with the id has spoken by then |
| TunnelLanguage.LanguageOfReusedId | internal/tunnel/server_conn.go:122-142 | of everything queued, if and only if at most one session with the id has been answered |
| TunnelFidelity.RenewRequestFirstAndOnce | internal/tunnel/renew.go:46-54 | with renewal the first packet ever queued is the request with the agent's identifier, and no other is; the fallback branch is unreachable; no condition on texts |
| TunnelFidelity.WireOpensWithRenewRequest | internal/tunnel/renew.go:46-54 | with renewal the wire opens with that request and holds no other |
| TunnelTheorems.Conservation | internal/tunnel/server_conn.go:122-142 | the well-formed requests handled are the sessions, in order, and equal the responses queued plus the reader's blocked send plus those undecided plus those abandoned, none before done |
| TunnelLanguage.AnsweredAtMostOnce | internal/tunnel/dest_conn.go:28-39 | a session has one response in the queue's history exactly when it counts as answered, and never two |
| TunnelTheorems.AccessGate | internal/tunnel/server_conn.go:130-142 | every dial, open socket and delivered byte is for a host that parses and that some entry of the loaded list names, as an equal address or a network containing it; a request is refused exactly if there is no such entry; every refusal is the list's |
| TunnelTheorems.InboundRouting | internal/tunnel/server_conn.go:157-168 | payloads handed to a session are a contiguous run of the DATA packets handled for its id |
| TunnelTheorems.InboundFidelity | internal/tunnel/dest_conn.go:77-86 | unless a write failed, the bytes at a socket are a prefix of what the server's stream carries for the id from the registration on |
| TunnelTheorems.EntryStays | internal/tunnel/server_conn.go:192-209 | with ids not reused a session's entry stays until the session removes it or Run empties the map, and it misses no DATA meanwhile |
| TunnelTheorems.NothingMissedExactly | internal/tunnel/server_conn.go:157-168 | with ids not reused a registered session has been handed all DATA handled for its id if and only if none was handled before its registration |
| TunnelTheorems.StartStays | internal/tunnel/server_conn.go:192-202 | what was handled before the registration stays missed in every continuation |
| TunnelTheorems.DestroyStopsReading | internal/tunnel/server_conn.go:144-155 | after a DESTROY from the server for an id in the map nothing more is read from that destination, in any continuation |
| TunnelTheorems.ReaderOutcome | internal/tunnel/server_conn.go:68-82 | in every interleaving the read loop's result is an outcome of the sequential loop on the bytes received and the error the last read gave |
| TunnelTheorems.ReaderResult | internal/tunnel/server_conn.go:170-183 | in every interleaving Run's result is the payload of the REJECT handled last, EOF for a RECONNECT handled last, a renewal only for an offered certificate handled last, otherwise the last read's error with every packet handled |
| TunnelHistory.ToldByHandle | internal/tunnel/server_conn.go:101-105 | handling a packet adds it and its verdict to the history, which tells the sequential loop's outcome once the reader has returned |
| TunnelHistory.ToldByReader | internal/tunnel/server_conn.go:107-115 | the reader's other steps handle nothing, and end the loop only with the last read's error, all packets handled |
| TunnelInterference.StepUntouched | internal/tunnel/server_conn.go:24-36 | what the reader, the writer, the ticker and each session's goroutine can rely on is left alone by every step of the others |
| TunnelTheorems.ReaderInOrder | internal/tunnel/server_conn.go:101-105 | while it runs the reader has handled a first part of the packets received, none of them a REJECT or RECONNECT |
| TunnelTheorems.BacklogInRuns | internal/tunnel/server_conn.go:97-100 | in every run at most 65534 bytes are kept between reads unless the decoder has stalled for good |
| TunnelEnds.QueueBoundAfterWriterExit | internal/tunnel/server_conn.go:213-246 | after the writer's return the wire never changes and at most as many packets as there is room for, 256 at most, are queued |
| TunnelEnds.BlockedForever | internal/tunnel/server_conn.go:132 | with the writer gone and the queue full a reader blocked in its own send stays there |
| TunnelEnds.BlockedGetsOnExactly | internal/tunnel/server_conn.go:132 | a reader blocked in its own send makes its next move in some continuation if and only if the queue has room or the writer has not returned |
| TunnelReturns.RunReturnsExactly | internal/tunnel/server_conn.go:63-83 | Run returns in some continuation if and only if its loop is over, the writer has not returned, or the queue has room for the refusals ahead of the reader, the one it is sending included |
| TunnelReturns.StuckForever | internal/tunnel/server_conn.go:130-140 | without that room every continuation leaves it so |
| TunnelReturns.LoopEnds | internal/tunnel/server_conn.go:91-116 | with it there is a continuation in which the read loop returns |
| TunnelEnds.ShutdownUnblocks | internal/tunnel/dest_conn.go:28-39 | once done is closed a goroutine that is not over has a step nearer its end that needs no room and queues nothing, a failed dial or read being the environment's |
| TunnelEnds.ShutdownCompletes | internal/tunnel/server_conn.go:70-83 | from any reachable state with done closed there is a continuation, queueing and writing nothing, after which Run has finished, every session's goroutine is over, and the ticker and the writer have stopped |
| TunnelEnds.OpenAfterFinish | internal/tunnel/server_conn.go:73-79 | with ids not reused a socket is open after Run if and only if its session is before its registration, or registered after the map was emptied and is in its read loop |
| TunnelEnds.OpenExactly | internal/tunnel/server_conn.go:144-155 | ids reused or not, a socket is open if and only if its session is before its registration, or in its read loop and neither a DESTROY from the server nor Run's shutdown closed it |
| TunnelSockets.SweptExactly | internal/tunnel/server_conn.go:73-79 | Run's shutdown closes exactly the sockets of the sessions the map names at that moment |
| TunnelEnds.NoneOpenWhenOver | internal/tunnel/dest_conn.go:47-55 | the socket of a session whose goroutine is over is closed |
| TunnelTraces.EndsOnFailedRead | internal/tunnel/dest_conn.go:57-73 | in any run a session's goroutine leaves its read loop only after a read that failed or with done closed, and after such a read it reads no more |
| TunnelTraces.AnswerTellsDial | internal/tunnel/dest_conn.go:23-42 | the failure answered is the text of the failed dial, and a success follows a successful dial |
| TunnelTraces.WriterEndsOnFailure | internal/tunnel/server_conn.go:213-228 | in any run the writer ends only after a failed write or with done closed |
| TunnelTraces.TickerEndsOnDone | internal/tunnel/server_conn.go:231-246 | the ticker ends only with done closed |
| TunnelTraces.KeepalivePerTick | internal/tunnel/server_conn.go:235-240 | every tick queues one keepalive, but for the one in hand and one given up at the end, and nothing else queues any |
| TunnelTraces.FailedWriteGoesOn | internal/tunnel/dest_conn.go:80-83 | a failed write ends the sending of that payload |
| TunnelWitness.RunCanHang | internal/tunnel/server_conn.go:132 | for every configuration and refused request there is a run after which the reader never returns |
| TunnelWitness.SocketLeftOpen | internal/tunnel/server_conn.go:192-201 | there is a run that returns and leaves a destination socket open |
| TunnelWitness.EarlyDataLost | internal/tunnel/dest_conn.go:35-36 | there is a run in which the server has the success on the wire, DATA for the id is handled afterwards, and the session registers and never gets it |
| TunnelWitness.ReusedIdBreaksLanguage | internal/tunnel/server_conn.go:142 | there is a run in which two requests with one id are both answered and the packets for the id are not a word of the language |

## Left out

- TLS handshake, sockets, timers and real time: reads, writes, dials and ticks are free steps; nothing is said about timing or fairness.
- The TLS server checks of internal/config/tls.go beyond the CA bundle and the key pair: thin use of library checks.
- Setup over HTTP, updates, installation, service control, command line and logging: no part in the tunnel.
- Other writers of `~/.deploy`: one agent process is taken to be the only writer of agent.crt.
- Address parsing, CIDR containment, base64, X.509 and chain verification: parameters.
- The decoding of UTF-8: the access list is a sequence of characters, and a host from the wire becomes one character per byte.
- File modes, and the durability of the directory entry after a rename: the three files' contents are modelled.
- The wording of the comment lines in the wizard's file: a parameter.
- AccessList.GenerateAccessList: the answers are what successive prompts return; each prompt makes a new scanner, so with piped input the lines one reads ahead are lost to the next, which is not modelled.
- TunnelReturns.RunReturnsExactly: whether a RENEW_RESPONSE that offers a certificate ends the loop is free in the step system; the files decide it in ServerConn and ReadLoop.
- TunnelFidelity.EndToEnd: assumes failure texts of at most 65529 bytes and an identifier of at most 65532, because a longer one overflows its frame and then no later byte decodes as queued.
- TunnelFidelity.WireDecodes: the same assumption on texts; WireDecodesExactly states the condition without it.
- TunnelFidelity.WireOpensWithRenewRequest: the same assumption on texts.
- TunnelLanguage.WireLanguage: the same assumption on texts.
- Supervisor.RunAgent: the endless loop is followed along a finite script of attempts of any length.
- ReadLoop.Loop: the loop is followed along a finite script of reads of any length; the effect of packets on destinations is in the step system.
- ServerConn.Conn.DialAndRegister: a goroutine's local state is a field of its session value, so aliasing between a destConn and the map is by session tag; it is followed for a finite number of scheduling moments.
- ServerConn.Conn.Run: followed for a finite number of scheduling moments, because it can wait for ever.
