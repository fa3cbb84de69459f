# serport `tty.c` in Dafny

serport connects a serial device to standard input and standard output so
that a terminal front end such as ttyd can talk to it. Its core is `tty.c`,
which does four things. This project models each of them and proves
properties of the model.

- **Line configuration** (`serial_configure`). A whitelist of four baud
  rates selects a speed constant. A fixed raw attribute record is then built
  for the serial line. `LineConfig.SerialConfigure` is a pure function to a
  `Result`. `Termios` holds the attribute record, with the Linux values of
  `CS8`, `CREAD`, `CLOCAL`, `B2400`…`B19200`, `NCCS`, `VTIME` and `VMIN`.
- **Device session** (`serial_connect`, `serial_disconnect`). The globals
  `serialfd`, `connected` and `serialio_old` become the fields of the class
  `SerialSession.Session`. Every call to the operating system is appended to
  a log, `Os.Process.calls`. The outcome of each call is an input parameter.
  `atexit` appends to `Os.Process.atexit`. `SerialSession.ConnectSteps` is
  the pure specification that `Session.Connect` is proved against.
- **Raw mode of the standard streams** (`stdin_configure`, `stdin_restore`,
  `stdout_configure`, `stdout_restore`). The stdin and stdout pairs differ
  only in the descriptor and the globals they use. One class,
  `RawMode.Endpoint`, therefore models both. The library's `cfmakeraw` is
  passed in as a function parameter and left uninterpreted.
- **Relay loops** (`serial_input_thread`, `stdin_input_loop`). These two
  loops are the same algorithm, so one method, `Relay.RelayLoop`, models
  both, parameterised by a `Direction`. It keeps the batch in an array of
  `BUFSIZ` bytes. A scripted sequence of poll/read outcomes and a scripted
  sequence of write outcomes stand in for the environment.
  - The read loop is `Relay.GatherBatch`, specified by the function
    `Relay.Fill`.
  - The write loop is `Relay.FlushBatch`, specified by `Relay.Drain`.
  - The whole loop is specified by `Relay.Run`.

The source's partial-write behaviour is reproduced as written. Every
`write` in the flush loop offers the buffer from index 0 (tty.c:227,
tty.c:385). After a partial write, the head of the batch is therefore
offered again and its tail is never sent. `Relay.PartialWriteResendsHead`
and `Relay.PartialWriteLosesTail` state this. `Relay.RelayDeliversInOrder`
proves in-order delivery only when every write is complete.

Three behaviours of the code are easy to miss; the model follows the code:
- Only an `flock` failure with `EWOULDBLOCK` is fatal. Any other lock
  failure falls through to the flush and the connection.
- A fatal read-side event ends only the serial reader's thread. The stdin
  reader ends the whole process with `EXIT_FAILURE`.
- `serial_disconnect` always re-applies the saved attributes. Only the
  unlock and the close happen at most once.

## Model

| member | source | states |
|---|---|---|
| Termios.BlockingTiming | tty.c:95-96 | the record gets `VTIME = 0` and `VMIN = 1`; every other control character and every other field is unchanged |
| LineConfig.SpeedFor | tty.c:51-69 | a speed is returned exactly for 2400, 4800, 9600 and 19200, and the speed returned names the requested rate (checked against the reference table `RateOf`) |
| LineConfig.SpeedForInjective | tty.c:51-64 | distinct supported rates map to distinct speed constants |
| LineConfig.SerialConfigure | tty.c:45-98 | an unsupported rate is exactly the `InvalidBaudrate` failure; a failed `cfsetispeed` gives `InputSpeedFailed` before `cfsetospeed` is looked at; success happens exactly when the rate is supported and neither call failed; the record then has equal input and output speeds naming the rate, `c_cflag == CLOCAL\|CREAD\|CS8`, zero iflag, oflag, lflag and line discipline, `VTIME = 0`, `VMIN = 1` and all other control characters zero |
| SerialSession.ConnectSteps | tty.c:112-163 | the calls issued are always a prefix of open, isatty, tcgetattr, flock, tcflush, tcsetattr; each fatal error happens exactly when its check is the first to fail, and it is the last call made; the connection succeeds exactly when open, the tty check, the save, the lock and the apply all pass, in that order; the status returned is the one `tcsetattr` gave |
| SerialSession.OtherLockFailuresFallThrough | tty.c:139-144 | a lock failure with an `errno` other than `EWOULDBLOCK` still connects, after the lock call was issued |
| SerialSession.Session.constructor | tty.c:39-41 | the globals start with descriptor 0, not connected and an all-zero saved record |
| SerialSession.Session.Connect | tty.c:112-163 | the result and the calls appended are those of `ConnectSteps`; `serialfd` is what `open` returned; the saved record is updated once the save has passed; `connected` becomes true only on success, and the cleanup handler is then registered |
| SerialSession.DisconnectCalls | tty.c:100-110 | disconnect first re-applies the saved attributes, which are then the last ones requested for the descriptor; if it was connected, exactly three calls are issued, the restore, then the unlock, then the close; otherwise the restore is the only call |
| SerialSession.Session.Disconnect | tty.c:100-110 | appends exactly the calls of `DisconnectCalls` for the current state, clears `connected`, and leaves the descriptor and the saved record unchanged |
| SerialSession.DisconnectReleasesOnce | tty.c:100-110 | any number of consecutive disconnects unlock and close the device exactly once if it was connected, and never otherwise |
| SerialSession.RepeatedDisconnectRestores | tty.c:100-110 | after any number of consecutive disconnects, the last attributes requested for the descriptor are the saved ones |
| RawMode.RawAttrs | tty.c:267-274 | the raw record is `cfmakeraw` of the saved record with `VTIME = 0` and `VMIN = 1`, and is otherwise identical to it |
| RawMode.Endpoint.constructor | tty.c:41 | the saved and new records of an endpoint start all zero |
| RawMode.Endpoint.Configure | tty.c:255-286 | (also stdout_configure, tty.c:293-324) a failed save is fatal after only `tcgetattr` and changes nothing; otherwise the saved record is what was read and the applied one is `RawAttrs` of it; the raw record is then the last one requested for the endpoint's descriptor, and no other descriptor's last request changes; success happens exactly when both calls succeed; the restore handler is registered exactly on success |
| RawMode.Endpoint.Restore | tty.c:250-253 | (also stdout_restore, tty.c:288-291) the endpoint's descriptor ends with exactly the saved attributes; every other descriptor keeps what it had |
| RawMode.RestoreIdempotent | tty.c:250-253 | restoring twice leaves every descriptor as one restore does |
| RawMode.RestoresCommute | tty.c:250-291 | the stdin and stdout restores give the same result in either order |
| RawMode.ConfigureBothThenExit | tty.c:250-324 | (with the call order of serport.c:114-117) stdout is configured only when stdin's configure succeeded; a restore handler is registered exactly for each stream whose configure succeeded; at exit, each such stream ends with exactly the attributes read from it before the change; a stream whose apply failed is left with the raw record requested, and a stream never configured or whose save failed keeps what it had |
| Relay.Fill | tty.c:191-223 | the batch holds at most `BUFSIZ` bytes and grows by at most one byte per event consumed; it stops with `BufferFull` exactly when the batch is full; a timeout or fatal stop consumed at least one event |
| Relay.FillStopsAt | tty.c:195-221 | every consumed event before the last one was a byte or an `EINTR` read; a timeout stop ends at a timeout; a fatal stop ends at the poll error, end of input or read error that names its cause |
| Relay.FillReadsInOrder | tty.c:208-222 | the batch is exactly the bytes of the consumed events, in arrival order |
| Relay.FillUntilTimeout | tty.c:197-206 | fewer than `BUFSIZ` bytes followed by a timeout give a batch of exactly those bytes, which ends at the timeout |
| Relay.GatherBatch | tty.c:191-223 | the read loop leaves `buffer[0..byte_count)` equal to the batch `Fill` specifies, and stops where and why `Fill` does |
| Relay.Drain | tty.c:225-234 | chunks are only ever added; one write is consumed per chunk added, plus one for an abandoning error; the flush stops for lack of writes only with bytes left, and abandons only at a failed write; an empty batch issues no write |
| Relay.DrainChunksArePrefixes | tty.c:225-234 | because every write offers the buffer from index 0, the chunks taken before are unchanged and each chunk added is a non-empty prefix of the batch, no longer than what remained to be written |
| Relay.DrainSendsCount | tty.c:225-234 | a completed flush hands the destination exactly `byte_count` bytes in total |
| Relay.CompleteFirstWrite | tty.c:225-234 | when the first write takes everything, the batch goes out as one chunk and the flush ends |
| Relay.PartialWriteResendsHead | tty.c:227 | after a partial first write of `room` bytes, the destination's byte at position `room` of the batch is the batch's first byte |
| Relay.PartialWriteLosesTail | tty.c:225-234 | two bytes flushed by two one-byte writes reach the destination as the first byte twice; the second byte is never sent |
| Relay.FlushBatch | tty.c:225-234 | the write loop produces the chunks, the writes consumed and the stop reason that `Drain` specifies |
| Relay.Run | tty.c:189-235 | the loop never goes back in the event script; a terminated loop ends the thread in the serial direction and the process with `EXIT_FAILURE` in the stdin direction |
| Relay.RunOnlyAppends | tty.c:189-235 | the loop only adds chunks to what was already sent, each of 1 to `BUFSIZ` bytes |
| Relay.RelayDeliversInOrder | tty.c:189-235 | when every write is complete, the destination receives exactly the source's bytes, in order, up to the batch in which the loop ended |
| Relay.RelayEndsOnlyAtFatalEvent | tty.c:197-221 | the loop terminates only at a poll error, end of input or non-`EINTR` read error in its last batch; every earlier event of that batch let accumulation go on |
| Relay.TimeoutFlushesPartialBatch | tty.c:197-234 | a partial batch followed by a timeout is written at that timeout, as one chunk when the destination takes it all |
| Relay.OkReplyIsOneWrite | tty.c:189-235 | "OK\r\n" arriving within one timeout window goes to standard output in a single write |
| Relay.RelayLoop | tty.c:165-237 | (also stdin_input_loop, tty.c:326-394) the method over a `BUFSIZ`-byte array produces exactly the chunks, end and flushed position that `Run` specifies |

## Left out

- Thread creation and the mutex "ready" handshake (`serial_input_thread_create`, `pthread_mutex_*`) are not modelled. They concern concurrency, and the two relay directions are modelled as independent sequential runs.
- The operating-system semantics of `open`, `isatty`, `tcgetattr`, `tcsetattr`, `flock`, `tcflush`, `poll`, `read` and `write` are not modelled. Their outcomes are inputs, and the calls of the device session and raw-mode operations are recorded in a log, `Os.Process.calls`. The relay loops record no calls: they consume scripted outcomes and return the chunks written.
- The outcome of `tcflush` is ignored by the source and is not an input.
- `cfmakeraw` is a parameter of type `Attrs -> Attrs` with no properties assumed.
- glibc also encodes the speed in the `CBAUD` bits of `c_cflag`. The model keeps the speed only in the `ispeed`/`ospeed` fields, so `c_cflag` holds exactly `CLOCAL|CREAD|CS8`.
- The exit of the process or thread is not modelled as such. A fatal result or `Terminated` outcome stands for the exit, and the `atexit` list records registrations. Running the handlers is modelled only for the two raw-mode restore handlers, last registered first, in `RawMode.ConfigureBothThenExit`; the `serial_disconnect` handler is not run there.
- `Os.LastApplied` is the attribute record last requested with `tcsetattr` for a descriptor. Whether the request took effect is not modelled: a `tcsetattr` that failed, or one on a descriptor already closed (a repeated `serial_disconnect`), still counts as the last request.
- `serport.c` (option parsing, usage text, `main`) and `serport.h` (declarations) are not part of this model.
- The `fprintf` diagnostics are not modelled.
- The poll timeout of 2 ms is not modelled. A poll outcome in the script is either a timeout or readiness.
- `BUFSIZ` is fixed at glibc's 8192. Only the fact that it is a positive capacity is used.
- Relay.Run: the C loops never return. The model also stops, with `ScriptEnded`, when the event script or the write script runs out.
- Relay.RelayLoop: requires that no write returns 0. With such a write the C flush loop never ends.
- Relay.RelayDeliversInOrder: proved only when every write is complete. With partial writes the source does not deliver the batch, as `PartialWriteLosesTail` shows.
- Relay.Accepted: a write is assumed to take at most what it is offered. A kernel never returns more than the count requested.
