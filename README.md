# dy_utility networking core in Dafny

This project models the networking core of the dy_utility C++ library and proves properties of the model. It covers three parts:

- **`buffer`**, the growable receive and send byte window.
- **`socket_session`**, the per-connection engine: bounded send queue, receive-and-parse loop, send chain, deadline watchdogs, heartbeat and single-fire teardown.
- **`socket_client`**, the outbound connector that walks the resolved endpoints and schedules reconnections.

How the source is mapped:

- **Asio operations.** Each asynchronous asio operation the source issues becomes a pending flag. Its completion handler becomes a method that the environment calls with the result: bytes received, bytes sent, an error, a timer firing at time `now`, or a connect outcome.
- **Clock and callbacks.** The clock is the `now` parameter. The receive callback and the disconnect callback are logs.
- **Files.**
  - `bytes.dfy`: byte values, `Option`, and concatenation `Flatten`.
  - `error_codes.dfy`: the `error_code` values of `comm_err.h`.
  - `buffer.dfy`: module `Buffers`, class `Buffer` over an `array<byte>`.
  - `framing.dfy`: module `Framing`. It holds the parser's verdicts, the framing assumption, and the function `Drain`, which specifies the receive loop. It also has lemmas for fixed-length framing.
  - `session.dfy`: module `Sessions`, class `Session`.
  - `client.dfy`: module `Clients`, class `Client`. A client's footprint is itself and its session's; the session's handlers run on the session alone, and may grow its receive buffer, after which the ghost method `Clients.Client.Resync` re-establishes the client's invariant without changing anything else.

The session invariant `Session.Valid` has these parts:

- At most one of a write and a wait on `non_empty_send_queue_` is outstanding.
- A bounded queue never exceeds its capacity.
- `disconnected_` is set exactly when the disconnect callback has fired once since the last `start()`.
- A ghost ledger balances: the bytes on the wire, then the bytes still owed (the in-flight buffer, then the queue), then the bytes dropped by teardown, are exactly the admitted payloads in admission order. This makes FIFO order hold.
- Nothing is dropped while the transport is open.
- An outstanding read writes where `writable_buff()` pointed when it was issued. That position is at or after the window's end, and is the window's end while the transport is open: only `handle_stop`'s `clear()` moves the window under an outstanding read.

A read that completes successfully after `handle_stop` (the transport's close racing with a completed read) is modelled as the source runs it. The bytes land at the old tail, while `push_cache` extends the cleared window at the head. The parser and the receive callback then see the window's first bytes after the disconnect callback has fired. When the read was issued at least as far from the head as it has bytes, as after a failed write on a window of that length, that window is wholly stale: it is the container's first bytes as they were before teardown, not the bytes read (`Buffers.StaleHead`, `Sessions.Session.LateRead`). A read issued nearer the head overlaps that window, and its tail holds part of what was read.

A connect that completes successfully after `connect()`, `disconnect()` or `close()` closed the client's socket, or after an earlier success moved it out, hands the session a closed transport (`Clients.Client.Adopt`). `start()` then finds it stopped: nothing is read, the login data is refused, and since no handler ever reaches `handle_stop`, the disconnect callback never fires and no reconnect is scheduled for it.

## Model

| member | source | states |
|---|---|---|
| Buffers.ShrinkCapacity | include/utility/net/buffer.h:114-118 | the capacity shrink() resizes to holds the window, is at least initial_size, is whole allocation units, and is the least such |
| Buffers.WritableLayout | include/utility/net/buffer.h:79-94 | a tail with room is left alone; a full tail is compacted to offset 0 only when offset >= per_alloc_size, else the capacity grows by exactly per_alloc_size with the offset kept; afterwards at least one byte is writable |
| Buffers.Buffer.WritableSize | include/utility/net/buffer.h:96-99 | writable_size(): the bytes of the container after the window's end, so offset + size + writable_size() is the capacity |
| Buffers.Buffer.Data | include/utility/net/buffer.h:47-55 | data()/size(): the window has exactly size bytes |
| Buffers.Buffer.Empty | include/utility/net/buffer.h:57-60 | empty() holds exactly when the window is empty |
| Buffers.Buffer.constructor | include/utility/net/buffer.h:27-32 | capacity initial_size (32768), offset 0, size 0 |
| Buffers.Buffer.FromBytes | include/utility/net/buffer.h:34-40 | capacity max(initial_size, length), offset 0, size length, window equal to the first length input bytes |
| Buffers.Buffer.PushCache | include/utility/net/buffer.h:62-65 | under the caller's guarantee offset+size+n <= capacity: offset kept, size grows by n, the n bytes after the window join it |
| Buffers.Overwrite | include/utility/net/session.h:274-274 | the container after a read writes its bytes from a position: the same length, the bytes at that position, the old contents elsewhere (with Buffers.OverwriteAt) |
| Buffers.StaleHead | include/utility/net/session.h:250-278 | a read of k bytes issued at a position of at least k that completes after clear() gives the window the container's old first k bytes, not the bytes read |
| Buffers.Buffer.WriteAt | include/utility/net/session.h:274-274 | the transport's read writes exactly the bytes at the given position and leaves the rest of the container alone |
| Buffers.Buffer.ReadInto | include/utility/net/session.h:274-278 | a read into the memory writable_buff() returned, then push_cache(k): the window grows by the k container bytes after its end, which are exactly the bytes read when the read position is still the window's end |
| Buffers.Buffer.PopCache | include/utility/net/buffer.h:67-71 | with n <= size: offset advances by n, size drops by n, the window loses exactly its first n bytes |
| Buffers.Buffer.Clear | include/utility/net/buffer.h:73-77 | offset and size become 0, the container (so the capacity) is kept |
| Buffers.Buffer.MoveToHead | include/utility/net/buffer.h:101-107 | the memmove in place: offset becomes 0, size and window contents are unchanged, and the container bytes after the moved window are left as they were |
| Buffers.Buffer.Resize | include/utility/net/buffer.h:110-118 | std::string::resize(n): the first n old bytes are kept, new bytes are zero, the window is kept |
| Buffers.Buffer.Expand | include/utility/net/buffer.h:110-113 | capacity grows by exactly per_alloc_size, window unchanged |
| Buffers.Buffer.Shrink | include/utility/net/buffer.h:114-118 | compacts to offset 0 and sets the capacity to ShrinkCapacity(size), window unchanged |
| Buffers.Buffer.WritableBuff | include/utility/net/buffer.h:79-99 | capacity and offset follow WritableLayout, the window is preserved, writable_size() > 0 afterwards, and the returned position is the tail |
| Framing.Drain | include/utility/net/session.h:278-310 | the parse loop over a window ends on the first verdict that is not good, which is the parser's verdict about the remainder, and the remainder is no longer than the window |
| Framing.DrainSplits | include/utility/net/session.h:278-310 | the frames the loop dispatches, followed by the remainder it leaves, are exactly the window's bytes, in order |
| Framing.Feed | include/utility/net/session.h:271-318 | successive reads: the frames dispatched followed by the bytes kept are all the bytes that arrived while every read ends in less, and a prefix of them once a read ends otherwise |
| Framing.FixedLengthHonoursContract | include/utility/net/session.h:34-35 | a parser of fixed-length frames satisfies the framing assumption when the length is positive |
| Framing.Leftover | include/utility/net/session.h:296-301 | with fixed-length framing less than one frame stays buffered |
| Framing.FixedLengthDrain | include/utility/net/session.h:278-310 | with fixed-length framing one read dispatches every whole frame of the window, in order, and keeps the shorter tail with verdict less |
| Framing.FixedLengthFeed | include/utility/net/session.h:271-318 | with fixed-length framing the chunking of the byte stream into reads does not change the frames dispatched nor the bytes left buffered |
| Framing.TwentyFiveBytesInThreeReads | include/utility/net/session.h:271-318 | 10-byte frames arriving as 25 bytes in three reads of any sizes give exactly two frames, the first 20 bytes, and 5 bytes stay buffered |
| Sessions.Expired | include/utility/net/session.h:395-395 | expiry() <= now(): a timer set to time_point::max() is never due, one with an expiry is due from that time on (also session.h:417) |
| Sessions.ExtendDue | include/utility/net/session.h:264-267 | Extend, which models expires_after(seconds(t)) guarded by t > 0: a zero timeout leaves the deadline alone, one below 2^63 puts it t seconds ahead and not yet due, a larger one wraps to a negative duration and is due at once (also session.h:350-353) |
| Sessions.Seconds | include/utility/net/session.h:264-267 | asio::chrono::seconds of a size_t: values below 2^63 are kept, larger ones read as negative durations (the value minus 2^64) |
| Sessions.SecondsOfSize | include/utility/net/session.h:133-140 | an int setting stored as size_t and turned back into a duration is the int again, negative ones included |
| Sessions.NegativeTimeoutExpires | include/utility/net/session.h:388-409 | a negative timeout puts the deadline at or before now whenever it is extended, so the next check_deadline closes the transport |
| Sessions.ToSize | include/utility/net/session.h:133-140 | storing an int into a size_t member: non-negative values are kept, negative ones wrap modulo 2^64 |
| Sessions.AccountedAdmit | include/utility/net/session.h:187-191 | appending a payload at the back of the queue keeps the ledger balanced (FIFO) |
| Sessions.AccountedDrop | include/utility/net/session.h:251-253 | swapping out the queue and dropping the in-flight buffer moves every owed byte to the dropped bytes, keeping the ledger balanced |
| Sessions.AccountedWrite | include/utility/net/session.h:370-376 | a completed write moves exactly the sent prefix of the in-flight buffer to the wire, keeping the ledger balanced |
| Sessions.SendVerdict | include/utility/net/session.h:175-198 | async_send's result: normal_error exactly for null, empty or over-4M data; session_stopped exactly for valid data on a stopped session; queue_full exactly when a bounded queue is at capacity; ok otherwise; ok never takes the queue past its capacity |
| Sessions.NextSend | include/utility/net/session.h:320-360 | handle_send's branch: nothing when stopped; else continue a non-empty in-flight buffer; else pop the queue front; else wait, with a heartbeat exactly when the interval is positive and the heartbeat data non-empty |
| Sessions.ResumeSend | include/utility/net/session.h:320-360 | handle_send never drops, duplicates or reorders an owed byte; changes nothing when stopped; never has a write and a wait outstanding together; starts a write whenever bytes are owed on an open session |
| Sessions.AfterWrite | include/utility/net/session.h:367-378 | a write completion of n bytes removes exactly the n-byte prefix of the in-flight buffer and leaves the queue alone |
| Sessions.Teardown | include/utility/net/session.h:228-255 | handle_stop fires the disconnect callback only if disconnected_ was false, then sets it; the socket is closed and both watchdogs cancelled |
| Sessions.TeardownIdempotent | include/utility/net/session.h:228-255 | a second handle_stop, whatever its reason, changes nothing more: the callback fires at most once per start() |
| Sessions.CoherentResume | include/utility/net/session.h:320-360 | handle_send preserves the session invariant |
| Sessions.DispatchFrames | include/utility/net/session.h:278-295 | the parse/dispatch loop on the receive buffer delivers exactly Drain's frames, in order, leaves exactly Drain's remainder in the window, and ends with Drain's verdict |
| Sessions.Session.constructor | include/utility/net/session.h:109-126 | a session over the transport as it is handed over, open or already closed: empty queue, empty initial_size receive buffer, all timers at time_point::max(), no callback fired |
| Sessions.Session.Stopped | include/utility/net/session.h:170-173 | stopped() is the closed transport: until it holds, no admitted byte has been dropped; and no operation reopens a stopped session, since every Session method ensures StaysStopped |
| Sessions.Session.Landing | include/utility/net/session.h:274-278 | the window the parser sees when the outstanding read completes: the old window plus k container bytes after it, which on an open session are exactly the k bytes read |
| Sessions.Session.SetSessionId | include/utility/net/session.h:75-78 | only the id changes |
| Sessions.Session.SetOptions | include/utility/net/session.h:133-140 | the four settings are stored (the ints as size_t) and nothing else changes |
| Sessions.Session.Stop | include/utility/net/session.h:159-168 | only closes an open transport, so it is idempotent; it neither tears down nor fires the callback |
| Sessions.Session.AsyncSend | include/utility/net/session.h:175-198 | returns SendVerdict; on ok a copy of the first length bytes joins the back of the queue and the ledger and the non-empty signal is raised, otherwise nothing changes |
| Sessions.Session.HandleStop | include/utility/net/session.h:228-255 | the callback fires at most once (Teardown), the socket is closed, the receive buffer cleared, the queue emptied, the in-flight buffer dropped and the wait and heartbeat cancelled, keeping the invariant; only the session and its buffer's offset and size change, so the container keeps its bytes |
| Sessions.Session.HandleRecv | include/utility/net/session.h:257-269 | nothing when stopped; else the receive deadline is extended when recv_timeout > 0, room is made at the tail (writable_buff) and a read is outstanding |
| Sessions.Session.Start | include/utility/net/session.h:142-157 | disconnected_ is reset, the receive chain and send chain are started, each watchdog is armed when its timeout is positive, and the invariant holds |
| Sessions.Session.OnReceive | include/utility/net/session.h:271-318 | a failed read tears down with the transport's code and leaves the container's bytes; a successful read has Commit's effect, with the window Landing gives |
| Sessions.Session.Commit | include/utility/net/session.h:275-311 | a read of k bytes is written where the read was issued and committed; exactly Drain's frames of the resulting window (Landing) are dispatched in order; on less exactly the remainder stays at offset 0 and, on an open session, a new read is outstanding; on bad or indeterminate the session tears down with packet_error and dispatches nothing more |
| Sessions.Session.ParseWindow | include/utility/net/session.h:280-310 | the parse loop on the committed window, then compact and read again on less, or stop with packet_error |
| Sessions.Session.ReceiveEach | include/utility/net/session.h:271-318 | successive successful reads make the session dispatch exactly Feed's frames and keep exactly Feed's bytes while every read ends in less; otherwise the session is torn down with packet_error and no read is outstanding |
| Sessions.Session.HandleSend | include/utility/net/session.h:320-360 | the send side becomes ResumeSend of the old one, nothing else changes, and the invariant holds |
| Sessions.Session.OnSent | include/utility/net/session.h:367-385 | a failed write tears down with the transport's code, clearing the receive window to offset 0 in the same container, whose bytes are kept; a write of n bytes moves exactly those bytes to the wire and runs handle_send, leaving the receive buffer alone |
| Sessions.Session.LateRead | include/utility/net/session.h:228-318 | a write failure tears the session down under an outstanding read; when that read then lands at least its own length from the head, the receive callback gets the frames of the container's pre-teardown first bytes, and the disconnect callback is called once, for the write |
| Sessions.Session.OnQueueWake | include/utility/net/session.h:338-339 | the wait on non_empty_send_queue_ completes only after an admission signalled it; handle_send then runs again and, on an open session, takes the admitted front of the queue and writes it |
| Sessions.Session.CheckDeadline | include/utility/net/session.h:388-409 | nothing when stopped; closes the transport only when the expiry is at or before now, otherwise waits again; never tears down or fires the callback |
| Sessions.Session.OnHeartbeat | include/utility/net/session.h:411-422 | nothing when stopped; once the heartbeat deadline has passed the heartbeat data goes through async_send's admission rules |
| Clients.NextSsid | include/utility/net/client.h:46 | ++unique_ssid_ on a 32-bit int: one more, wrapping from INT_MAX to INT_MIN |
| Clients.SessionIdsIncrease | include/utility/net/client.h:167 | read as size_t, each new session's id is larger than the previous counter value, and exactly one more except at INT_MAX, for every counter value but -1 |
| Clients.SessionIdsRestart | include/utility/net/client.h:167 | from -1, the largest size_t, the next id is 0 |
| Clients.NextCandidate | include/utility/net/client.h:175 | after a failure the iterator moves to the next endpoint exactly when one remains |
| Clients.OpenSession | include/utility/net/client.h:164-170 | the new session is valid, gets the given id, the client's parser, queue capacity 8192 and stored settings, and is in the state start() leaves on the transport as handed over: no disconnect reported, each watchdog armed exactly when its timeout is positive, an empty initial buffer. On an open transport the first read is outstanding with the receive deadline extended, the send chain waits with the heartbeat armed when configured, and the login data is admitted as its first payload when its length is acceptable. On a closed one the session is stopped, nothing is read, sent or queued, and no teardown, and so no disconnect callback, ever follows |
| Clients.Client.constructor | include/utility/net/client.h:42-58 | defaults: heartbeat 10, send and receive timeouts 30, auto_reconnect false, counter 0, no session |
| Clients.Client.SetCallback | include/utility/net/client.h:71-77 | only the framing parser changes |
| Clients.Client.SetOptions | include/utility/net/client.h:79-90 | exactly the six settings are overwritten |
| Clients.Client.Disconnect | include/utility/net/client.h:119-132 | a running session is stopped (only its transport closes; its settings, queues and receive window are kept), the socket is closed, auto_reconnect_ and all else are unchanged |
| Clients.Client.Close | include/utility/net/client.h:134-140 | auto_reconnect_ is cleared, then as Disconnect |
| Clients.Client.Connect | include/utility/net/client.h:92-117 | stops a running session (only its transport closes) and closes the socket first; with no endpoint nothing is attempted, dialled or scheduled, otherwise one attempt starts and the first endpoint is dialled |
| Clients.Client.AsyncSend | include/utility/net/client.h:142-153 | session_not_exist without a session; otherwise the session's async_send verdict, and on ok the payload joins its queue and ledger and raises the non-empty signal; the session's id, settings, transport and receive side are unchanged |
| Clients.Client.HandleConnect | include/utility/net/client.h:156-196 | success: the attempt ends and the socket moves, open or already closed by connect(), disconnect() or an earlier success, into a session with id previous counter + 1, in the state start() leaves on it (as OpenSession); failure with endpoints left: the next endpoint at once and no retry; failure of the last: exactly one retry scheduled after 5 s, whatever auto_reconnect_ is |
| Clients.Client.Adopt | include/utility/net/client.h:162-172 | the success branch: the attempt ends, the counter steps, and the client holds a fresh session with that id and the stored settings over the socket as it was, open or closed, in the state start() leaves on it (as OpenSession); the client's socket is moved out; nothing is dialled or scheduled |
| Clients.Client.FailRemaining | include/utility/net/client.h:174-190 | when every remaining endpoint of an attempt fails, each is dialled once, in list order, with no delay between, the attempt ends and exactly one 5 s retry is scheduled; the session and counter are untouched |
| Clients.Client.OnDisconnect | include/utility/net/client.h:198-209 | (id, reason, message) is forwarded to the caller's callback, then one 2 s retry is scheduled exactly when auto_reconnect_ is set |
| Clients.Client.OnRetryTimer | include/utility/net/client.h:186-189 | a retry timer firing is counted and runs connect() unconditionally, with exactly Connect's effect |

## Left out

- Sockets, resolvers, timers and the clock are inputs and events. Address resolution is the endpoint list passed to `Connect`. An exception from the resolver, and the `try`/`catch` around `handle_connect`, are not modelled.
- Mutexes, atomics and `shared_from_this` lifetimes are not modelled. Every handler runs to completion, one after another.
- Logging calls are no-ops and are not modelled.
- The session id passed to the receive callback is not logged with each frame: it never changes while frames are dispatched, so it is the session's `id`. The `if (func_receive_callback_)` test is not modelled; the callback is always present.
- `local_endpoint`, `remote_endpoint`, `set_endpoint`, the acceptor and the destructors are not modelled.
- Timer handler runs caused by a cancellation are not separate events. The wait on `non_empty_send_queue_` is woken by `async_send` (`Sessions.Session.OnQueueWake` requires the signal); once `handle_stop` has cancelled it, its handler sees a stopped session and does nothing. A `check_deadline` whose timer was pushed back by `expires_after` finds it unexpired and waits again, which is the same pending flag.
- Each of the three watchdog and heartbeat waits is a single flag. A second `async_wait` on a timer that already has one pending is not counted as a second handler.
- Queued and in-flight buffers are modelled by their window bytes. Their capacity layout is not modelled.
- The framing parser is a function of the window bytes, not of the `buffer` object. The session does not check the parser's `good` length.
  - `Sessions.Session.OnReceive`: its requirement that a `good` length lies in `1..size` (`Framing.FramingContract`) is an assumption, not a check the source makes.
  - The narrowing of the frame length to `int` at include/utility/net/session.h:285 is not modelled.
- `Sessions.Session.OnReceive`: the receive callback and disconnect callback are logs. Code a callback runs, for example a reconnect from within the disconnect callback, is not part of this model.
- A session's disconnect callback and the client's `on_disconnect` are linked by the environment. It calls `Clients.Client.OnDisconnect` with the session's new `Sessions.Disconnect` entry.
- `Clients.Client.OnRetryTimer`: a retry scheduled before `close()` still runs `connect()`. The source does not cancel it, so the model claims no cancellation.
- `Clients.SessionIdsIncrease`: as `size_t`, ids strictly increase until the counter steps from -1 to 0 (`Clients.SessionIdsRestart`); the first repeated id is handed out at connection 2^32 + 1.
- `Clients.Client.constructor` takes the framing parser that `set_callback` installs. Calling the parser before `set_callback` (an empty `std::function`) is not modelled.
- `Sessions.Session.Start` sets `disconnected_` and both watchdog flags after starting the two chains. Neither chain reads them, so the resulting state matches the source's order.
- The send watchdog's deadline is extended only when a queue front is taken, as in the source. Continuing a partly sent buffer does not extend it.
- `Sessions.Session.ReceiveEach` requires room in the receive buffer for all the chunks at once. The source makes room read by read; that case is `Sessions.Session.OnReceive`, one read at a time.
- `Clients.Client.HandleConnect` replaces the session on success without stopping the previous one; what happens to an old session that is still running is not modelled.
