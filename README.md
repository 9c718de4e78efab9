# Braidpool node: QUIC session and job-declarator supervisor

This project models two pieces of decision logic of the braidpool node in Dafny and proves
properties of them.

- **The per-connection session** `QuicBiDirectionalStream` (module `Quic`, `quic.dfy`). A session
  owns a receive stream and a send stream. The connecting side first writes a handshake message
  (`start_from_connect`); the accepting side goes straight to the read loop (`start_from_accept`).
  The read loop (`start_read_loop`) reads a frame and hands it to `message_received`. That call
  decodes the frame and asks the protocol for a response. If there is a response, it serialises it
  and writes it. The loop ends only with an error.
  - The receive stream is a script of read results (`Frame(bytes)` or `ReadErr`). An exhausted
    script reads as an error.
  - The send stream is a script of write outcomes. An exhausted script fails every write.
  - Every read and every write is appended to a trace, so the order of the I/O can be stated.
  - The protocol collaborator is the datatype `Protocol.Codec` of function values: `from_bytes`,
    `response_for_received`, `as_bytes` and `HandshakeMessage::start`. Its message type is opaque.
    Everything proved holds for every codec.
  - The class methods are proved against pure functions of the scripts (`Receive`, `Loop`,
    `Connect`), and the lemmas state the properties of those functions.
- **The job-declarator server entry point** `jd_server` (module `Jds`, `jds.dfy`).
  - Configuration: the contents of the file (or the failure to read it) and the TOML parser are
    parameters.
  - Startup: the RPC URL is built as url, colon, decimal port. The mempool refresher is spawned
    only when the URL contains "http"; the job declarator is always spawned.
  - Supervision: the supervisor loop consumes a script of `select!` resolutions (a status, an
    interrupt, or a closed channel) and applies the four-way status policy.

`common.dfy` holds `Option`, the byte type and `Gather` (a flat-map, with `GatherSingle` and
`GatherAppend`), which the session lemmas use to project the trace onto reads, frames and writes.
`protocol.dfy` holds the protocol interface.

The model follows the code where the code fails hard instead of recovering:
- A frame that does not decode makes `from_bytes(..).unwrap()` panic. It is not a graceful decode
  error, so the model ends the session with `Panicked(FromBytes)`. The two `unwrap`s of the
  handshake give `Panicked(HandshakeStart)` and `Panicked(HandshakeAsBytes)`.
- A failed read ends the loop with "error receiving stream"; how a cleanly finished stream reads
  is not modelled (see Left out, ReadToEnd). "peer closed connection" is what every
  `message_received` failure becomes.
- A closed status channel makes `unwrap` panic (`StatusChannelClosed`). It is not ignored.

## Model

| member | source | states |
|---|---|---|
| Quic.ReceiveTable | node/src/quic.rs:76-97 | `message_received` writes at most once, and only the serialised response. A decode failure panics. A dispatcher `Err` gives "Error constructing response" with no write. `Ok(None)` gives `Ok` with no write. A response that does not serialise gives "Error serializing" with no write. A failed write gives "Send failed". A successful write gives `Ok`. Each case holds in both directions, and each rejection carries the source's own error text. |
| Quic.Loop | node/src/quic.rs:50-74 | The read loop's first action is a read, and it never ends with `Ok`. It ends only with "error receiving stream", "peer closed connection" or a decode panic, so line 73 is unreachable. |
| Quic.LoopCausal | node/src/quic.rs:53-69 | Every write in the loop's trace directly follows the read of a frame, and carries that frame's serialised response. So each read causes at most one write, and no write comes before the first read. |
| Quic.LoopWritesResponses | node/src/quic.rs:64-69 | The frames written are exactly the serialised responses to the frames read, in read order. |
| Quic.LoopExitCause | node/src/quic.rs:64-70 | The last action alone decides how the loop ends. A failed read gives "error receiving stream". A failed write, a dispatcher error or an unserialisable response all give the same "peer closed connection". An undecodable frame gives a panic. Each case holds in both directions. |
| Quic.LoopExitText | node/src/quic.rs:64-71 | The loop returns an error exactly when it does not panic. The text is "error receiving stream" exactly when the last action is a failed read, and "peer closed connection" exactly when `message_received` failed. |
| Quic.LoopConsumesInOrder | node/src/quic.rs:53-71 | The loop reads the receive stream from the front and in order. What is left of the stream is exactly what it did not read. |
| Quic.LoopStopsAtFailedRead | node/src/quic.rs:64-70 | The loop reads again only after a frame: every result read except the last is a frame. |
| Quic.Connect | node/src/quic.rs:33-42 | The handshake is built and serialised, or the session panics with nothing written. Its bytes are the first action. A failed handshake write returns that error without any read. A successful one is followed by exactly the read loop. The result is never `Ok`. |
| Quic.QuicBiDirectionalStream.constructor | node/src/quic.rs:23-31 | A new session owns the two streams and has performed no I/O. |
| Quic.QuicBiDirectionalStream.ReadToEnd | node/src/quic.rs:54 | One read takes the next result from the receive stream and records it in the trace. |
| Quic.QuicBiDirectionalStream.WriteFrame | node/src/quic.rs:84 | One write hands the bytes to the send stream, records them in the trace, and reports the stream's outcome. |
| Quic.QuicBiDirectionalStream.MessageReceived | node/src/quic.rs:76-97 | The session's `message_received` returns the result of `Receive`. Its trace grows by exactly `Receive`'s writes, and the receive stream is untouched. |
| Quic.QuicBiDirectionalStream.StartReadLoop | node/src/quic.rs:50-74 | The session's read loop returns `Loop`'s exit. Its trace grows by `Loop`'s trace, and both streams are left as `Loop` says. |
| Quic.QuicBiDirectionalStream.StartFromAccept | node/src/quic.rs:44-48 | `start_from_accept` behaves exactly as the read loop, so nothing is written before the first read. |
| Quic.QuicBiDirectionalStream.StartFromConnect | node/src/quic.rs:33-42 | `start_from_connect` behaves as `Connect`: handshake write first, then the read loop. |
| Jds.Classify | node/src/sv2/jds.rs:69-87 | The status policy: a status breaks the loop exactly when it is a `TemplateProviderShutdown`. `DownstreamShutdown`, `Healthy` and `DownstreamInstanceDropped` continue. |
| Jds.Supervisor | node/src/sv2/jds.rs:50-88 | Every handled status except the last kept the loop running. The loop ends on an upstream shutdown exactly when the last status handled is a `TemplateProviderShutdown`. |
| Jds.Supervise | node/src/sv2/jds.rs:50-88 | The supervisor loop over the event script computes `Supervisor`. |
| Jds.SupervisorStopsAtFirst | node/src/sv2/jds.rs:50-88 | The loop stops at the first event that ends it: an interrupt, a failed interrupt listener (exit 1), a closed channel, or a `TemplateProviderShutdown`. It handles exactly the statuses before that event. |
| Jds.SupervisorKeepsWaiting | node/src/sv2/jds.rs:69-87 | If no event ends the loop, it handles every status and is still waiting. |
| Jds.ShutdownEndsLoop | node/src/sv2/jds.rs:77-79 | A `TemplateProviderShutdown` after any number of continuing statuses ends the loop, and no later status is processed. |
| Jds.InterruptEndsLoop | node/src/sv2/jds.rs:53-65 | An interrupt ends the loop without consuming another status. If listening for it failed, the process exits with status 1. |
| Jds.KeepRunningIrrelevant | node/src/sv2/jds.rs:69-87 | Any number of `Healthy`, `DownstreamShutdown` or `DownstreamInstanceDropped` statuses in front of a script do not change how the loop ends. |
| Jds.Decimal | node/src/sv2/jds.rs:21 | The port's `to_string` is a non-empty string of decimal digits, with no leading zero. |
| Jds.DecimalRoundTrip | node/src/sv2/jds.rs:21 | Reading the decimal rendering back gives the port. |
| Jds.RpcUrl | node/src/sv2/jds.rs:21 | The RPC URL is `core_rpc_url`, then ":", then exactly the decimal rendering of `core_rpc_port`: digits with no leading zero that read back as the port. |
| Jds.Contains | node/src/sv2/jds.rs:30 | `contains` holds exactly when the pattern occurs at some position. |
| Jds.RefresherDecidedByUrl | node/src/sv2/jds.rs:21-38 | The "http" test on the RPC URL holds exactly when `core_rpc_url` contains "http". The appended port cannot make it true. |
| Jds.JdServer | node/src/sv2/jds.rs:3-89 | The configuration is read from `./config/jd-server-config.toml`. A failed read or parse returns before anything is spawned or supervised. Otherwise the mempool is built from the RPC URL and the credentials. The refresher is spawned first, and only for an http URL. The job declarator is spawned next, and then the supervisor loop runs. |

## Left out

- TLS and QUIC endpoint configuration (`SkipServerVerification`, `configure_client`, `configure_server`): library calls with no decision logic.
- `node/src/main.rs` (argument parsing, logging, endpoint bind, accept and connect, task spawning) is not part of this model. The concurrent accept loop is not modelled.
- The protocol module (`Message::from_bytes`, `response_for_received`, `as_bytes`, `HandshakeMessage::start`) is not part of this model. It is a parameter of every definition.
- Quic.QuicBiDirectionalStream.ReadToEnd: the 64-byte limit and the end-of-stream semantics of `read_to_end` are not modelled. A read is a frame or an error.
- Quic.QuicBiDirectionalStream.WriteFrame: `write` and `write_all` are modelled alike. A successful `write` is not claimed to deliver the whole response, since partial writes are not modelled.
- Jds.JdServer: `JobDeclarator::start`, `JDsMempool::update_mempool`, the 10-second refresh interval, the mutex around the mempool and the status channel's implementation are foreign. They appear only as the spawned task names and the event script.
- Jds.Supervise: the `select!` race is resolved by the event script. An exhausted script means the loop is still waiting.
- The width of `core_rpc_port` is not shown in the source. It is modelled as an unbounded natural number.
- Log lines and `println!` output, including the log level of each status, are not modelled.
