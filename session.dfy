/** The per-connection engine `socket_session` of include/utility/net/session.h.

    The transport is the `open` flag; every asynchronous operation the session issues is a
    "pending" flag, and its completion is a method the environment calls with the result
    (bytes received, bytes sent, an error, a timer firing at time `now`). The receive and
    disconnect callbacks are logs. The session's members are kept in four records, one per
    concern (options, transport and callback state, receive side, send side), plus a ghost
    ledger of the bytes admitted, written and dropped, so that FIFO order and "nothing is
    lost while open" are part of the object invariant. */
module Sessions {
  import opened Bytes
  import opened ErrorCodes
  import opened Buffers
  import opened Framing

  /** A timer's expiry; `Never` is time_point::max(). */
  datatype Deadline = Never | At(time: int)

  /** `expiry() <= now`. */
  function Expired(d: Deadline, now: int): (r: bool)
    // time_point::max() is never reached
    ensures d == Never ==> !r
    // a timer with an expiry is due from that time on
    ensures d.At? ==> (r <==> d.time <= now)
  {
    d.At? && d.time <= now
  }

  const INT64_LIMIT: nat := 0x8000_0000_0000_0000

  /** asio::chrono::seconds(t) of a `size_t` t: the count of a chrono duration is a signed
      64-bit integer, so a value of 2^63 or more is a negative number of seconds. */
  function Seconds(t: nat): (r: int)
    ensures -(INT64_LIMIT as int) <= r < INT64_LIMIT
    ensures t < INT64_LIMIT ==> r == t
    ensures INT64_LIMIT <= t < SIZE_MODULUS ==> r == t - SIZE_MODULUS
  {
    var u := t % SIZE_MODULUS;
    if u < INT64_LIMIT then u else u - SIZE_MODULUS
  }

  /** expires_after(seconds(timeout)) when the unsigned `timeout` is positive; otherwise the
      timer is left alone. */
  function Extend(d: Deadline, timeout: nat, now: int): Deadline
  {
    if timeout > 0 then At(now + Seconds(timeout)) else d
  }

  /** What an extension means for the timer: a zero timeout leaves it alone; one below
      2^63 seconds puts its expiry that far ahead, not yet reached; a larger one is a
      negative count of seconds, so the expiry is already reached. */
  lemma ExtendDue(d: Deadline, timeout: nat, now: int)
    ensures timeout == 0 ==> Extend(d, timeout, now) == d
    ensures 0 < timeout < INT64_LIMIT ==>
              Extend(d, timeout, now) == At(now + timeout) && !Expired(Extend(d, timeout, now), now)
    ensures INT64_LIMIT <= timeout < SIZE_MODULUS ==> Expired(Extend(d, timeout, now), now)
  {
  }

  /** One call of the disconnect callback: session id, reason code, message. */
  datatype Disconnect = Disconnect(session: nat, reason: int, message: string)

  /** Completion of an async_receive. */
  datatype ReadResult = Received(bytes: seq<byte>) | ReadFailed(code: int, message: string)

  /** Completion of an async_send. */
  datatype WriteResult = Sent(count: nat) | WriteFailed(code: int, message: string)

  /** The two deadline timers check_deadline is bound to. */
  datatype Watchdog = ReceiveWatch | SendWatch

  /** A C++ `int`. */
  newtype int32 = x: int | -0x8000_0000 <= x < 0x8000_0000

  const SIZE_MODULUS: nat := 0x1_0000_0000_0000_0000

  /** The conversion of an `int` to the 64-bit `size_t`: negative values wrap around. */
  function ToSize(x: int32): (r: nat)
    ensures r < SIZE_MODULUS
    ensures x >= 0 ==> r == x as int
    ensures x < 0 ==> r == x as int + SIZE_MODULUS
  {
    (x as int) % SIZE_MODULUS
  }

  /** An `int` setting stored as `size_t` and read back as a duration is the `int` again. */
  lemma SecondsOfSize(x: int32)
    ensures Seconds(ToSize(x)) == x as int
  {
  }

  /** So a negative timeout, once set, puts the deadline in the past at every extension: the
      next check_deadline closes the transport. */
  lemma {:induction false} NegativeTimeoutExpires(d: Deadline, x: int32, now: int)
    requires x < 0
    ensures Expired(Extend(d, ToSize(x), now), now)
  {
    SecondsOfSize(x);
  }

  /** set_options' four settings, as stored. */
  datatype Options = Options(sendTimeout: nat, recvTimeout: nat, heartbeatInterval: nat, heartbeatData: seq<byte>)

  /** The transport's is_open(), disconnected_, the disconnect callback's calls (and how
      many there were at the last start()), and the two pending deadline watchdogs. */
  datatype Lifecycle = Lifecycle(open: bool, disconnected: bool, disconnects: seq<Disconnect>,
                                 startMark: nat, recvWatch: bool, sendWatch: bool)

  /** The outstanding read, the receive deadline, the frames handed to the receive
      callback, and the position in the receive buffer's container that writable_buff()
      returned when the outstanding read was issued, where the read writes. The receive
      buffer itself is the session's `recv` object. */
  datatype Receiving = Receiving(reading: bool, deadline: Deadline, delivered: seq<Frame>, readAt: nat)

  /** An outstanding read writes at or after the window's end, inside the container, and
      at the window's end itself while the transport is open: only handle_stop's clear
      moves the window under an outstanding read. */
  predicate ReadPlaced(rx: Receiving, open: bool, tail: nat, capacity: nat)
  {
    rx.reading ==> tail <= rx.readAt < capacity && (open ==> rx.readAt == tail)
  }

  /** The queue, the in-flight buffer's unsent bytes, the outstanding write or wait on
      non_empty_send_queue_, whether that timer's expiry has been moved to time_point::min()
      (async_send's signal) since handle_send last set it to max(), the send deadline and
      the heartbeat timer. */
  datatype SendSide = SendSide(queue: seq<seq<byte>>, inflight: Option<seq<byte>>, writing: bool,
                               waiting: bool, signalled: bool, deadline: Deadline,
                               heartbeatDeadline: Deadline, heartbeatArmed: bool)

  /** Bytes the transport took, payloads admitted, and bytes dropped by teardown. */
  datatype Ledger = Ledger(wire: seq<byte>, accepted: seq<seq<byte>>, lost: seq<byte>)

  /** The bytes a send side still owes the transport, in the order they will be written. */
  function Unsent(s: SendSide): seq<byte>
  {
    (if s.inflight.Some? then s.inflight.value else []) + Flatten(s.queue)
  }

  /** Everything admitted is on the wire, still owed, or dropped, in that order. */
  predicate Accounted(b: Ledger, s: SendSide)
  {
    b.wire + Unsent(s) + b.lost == Flatten(b.accepted)
  }

  /** Admitting `c` at the back of the queue keeps the ledger balanced. */
  lemma {:induction false} AccountedAdmit(b: Ledger, s: SendSide, c: seq<byte>)
    requires Accounted(b, s) && b.lost == []
    ensures Accounted(b.(accepted := b.accepted + [c]), s.(queue := s.queue + [c]))
  {
    var head := if s.inflight.Some? then s.inflight.value else [];
    FlattenSnoc(s.queue, c);
    FlattenSnoc(b.accepted, c);
    calc {
      b.wire + Unsent(s.(queue := s.queue + [c])) + [];
      b.wire + (head + (Flatten(s.queue) + c));
      (b.wire + (head + Flatten(s.queue))) + c;
      (b.wire + Unsent(s) + b.lost) + c;
      Flatten(b.accepted + [c]);
    }
  }

  /** Teardown moves everything still owed to the dropped bytes, ahead of earlier drops. */
  lemma {:induction false} AccountedDrop(b: Ledger, s: SendSide)
    requires Accounted(b, s)
    ensures Accounted(b.(lost := Unsent(s) + b.lost), s.(queue := [], inflight := None))
  {
  }

  /** A completed write moves its bytes from the in-flight buffer to the wire. */
  lemma {:induction false} AccountedWrite(b: Ledger, s: SendSide, count: nat)
    requires s.inflight.Some? ==> count <= |s.inflight.value|
    requires Accounted(b, s)
    ensures Accounted(b.(wire := b.wire + Written(s, count)), AfterWrite(s, count))
  {
  }

  /** async_send's result code for a payload that is null (`isNull`) or `length` bytes long,
      on a session whose transport is `open`, with `queued` buffers in a queue of `capacity`
      (0 = unbounded). */
  function SendVerdict(isNull: bool, length: nat, open: bool, capacity: nat, queued: nat): (r: int)
    ensures r == NORMAL_ERROR <==> isNull || length == 0 || length > MAX_PACK_SIZE
    ensures r == SESSION_STOPPED <==> !isNull && 0 < length <= MAX_PACK_SIZE && !open
    ensures r == QUEUE_FULL <==>
              !isNull && 0 < length <= MAX_PACK_SIZE && open && capacity != 0 && queued >= capacity
    ensures r == OK <==>
              !isNull && 0 < length <= MAX_PACK_SIZE && open && (capacity == 0 || queued < capacity)
    // admission never takes a bounded queue past its capacity
    ensures r == OK && capacity != 0 ==> queued + 1 <= capacity
  {
    if isNull || length == 0 || length > MAX_PACK_SIZE then NORMAL_ERROR
    else if !open then SESSION_STOPPED
    else if capacity == 0 || queued < capacity then OK
    else QUEUE_FULL
  }

  /** The branch handle_send takes. */
  datatype SendAction = Idle | Continue | PopFront | Wait(heartbeat: bool)

  /** handle_send's choice: nothing once stopped; else finish a partly sent buffer; else
      take the queue front; else wait for data, with a heartbeat only when one is configured. */
  function NextSend(open: bool, s: SendSide, o: Options): (a: SendAction)
    ensures a == Idle <==> !open
    ensures a == Continue <==> open && s.inflight.Some? && s.inflight.value != []
    ensures a == PopFront <==> open && (s.inflight.None? || s.inflight.value == []) && s.queue != []
    ensures a.Wait? <==> open && (s.inflight.None? || s.inflight.value == []) && s.queue == []
    ensures a.Wait? ==> (a.heartbeat <==> o.heartbeatInterval > 0 && o.heartbeatData != [])
  {
    if !open then Idle
    else if s.inflight.Some? && s.inflight.value != [] then Continue
    else if s.queue == [] then Wait(o.heartbeatInterval > 0 && o.heartbeatData != [])
    else PopFront
  }

  /** The send side after handle_send at time `now`. */
  function ResumeSend(s: SendSide, open: bool, o: Options, now: int): (t: SendSide)
    // handle_send never drops, duplicates or reorders a byte it owes
    ensures Unsent(t) == Unsent(s)
    // nothing is started once stopped, and at most one of a write and a wait otherwise
    ensures !open ==> t == s
    ensures !s.writing && !s.waiting ==> !(t.writing && t.waiting)
    // a write is started whenever there is something to write
    ensures open && Unsent(s) != [] && !s.writing ==> t.writing
  {
    match NextSend(open, s, o)
    case Idle => s
    case Continue => s.(writing := true)
    case PopFront =>
      assert Flatten(s.queue) == s.queue[0] + Flatten(s.queue[1..]);
      s.(queue := s.queue[1..], inflight := Some(s.queue[0]), writing := true,
         deadline := Extend(s.deadline, o.sendTimeout, now))
    case Wait(heartbeat) =>
      assert Flatten(s.queue) == [];
      s.(waiting := true, signalled := false,
         heartbeatDeadline := if heartbeat then At(now + Seconds(o.heartbeatInterval)) else s.heartbeatDeadline,
         heartbeatArmed := heartbeat || s.heartbeatArmed)
  }

  /** The bytes a completed write of `count` bytes put on the wire. */
  function Written(s: SendSide, count: nat): seq<byte>
    requires s.inflight.Some? ==> count <= |s.inflight.value|
  {
    if s.inflight.Some? then s.inflight.value[..count] else []
  }

  /** The send side once a write of `count` bytes completes: they leave the in-flight buffer. */
  function AfterWrite(s: SendSide, count: nat): (t: SendSide)
    requires s.inflight.Some? ==> count <= |s.inflight.value|
    ensures !t.writing && t.queue == s.queue
    ensures Written(s, count) + Unsent(t) == Unsent(s)
  {
    if s.inflight.Some? then
      assert s.inflight.value == s.inflight.value[..count] + s.inflight.value[count..];
      s.(writing := false, inflight := Some(s.inflight.value[count..]))
    else s.(writing := false)
  }

  /** handle_stop on the transport and callback state: the disconnect callback fires with
      `note` unless it already has since start(); the transport closes; the watchdogs are
      cancelled. */
  function Teardown(l: Lifecycle, note: Disconnect): (t: Lifecycle)
    ensures !t.open && t.disconnected && !t.recvWatch && !t.sendWatch && t.startMark == l.startMark
    ensures t.disconnects == l.disconnects + (if l.disconnected then [] else [note])
  {
    Lifecycle(false, true, if l.disconnected then l.disconnects else l.disconnects + [note],
              l.startMark, false, false)
  }

  /** A second teardown, whatever its reason, changes nothing: the disconnect callback is
      called at most once per start(), by whichever chain observes the closed transport first. */
  lemma TeardownIdempotent(l: Lifecycle, first: Disconnect, second: Disconnect)
    ensures Teardown(Teardown(l, first), second) == Teardown(l, first)
  {
  }

  /** The disconnect callback has fired once since start() exactly when disconnected_ is set. */
  predicate NotifiedOnce(l: Lifecycle)
  {
    l.startMark <= |l.disconnects| && |l.disconnects| - l.startMark == (if l.disconnected then 1 else 0)
  }

  /** The session invariant on its values: at most one of a write and a wait is
      outstanding; a wait starts only once the in-flight buffer is done and, once async_send
      has signalled it, has a queue front to take; the disconnect callback has fired at most
      once since start(); a bounded queue never exceeds its capacity; and the ledger
      balances with nothing dropped while the transport is open. */
  ghost predicate Coherent(capacity: nat, l: Lifecycle, s: SendSide, b: Ledger)
  {
    && !(s.writing && s.waiting)
    && (s.waiting ==> s.inflight.None? || s.inflight.value == [])
    && (s.waiting && s.signalled ==> s.queue != [])
    && NotifiedOnce(l)
    && (capacity > 0 ==> |s.queue| <= capacity)
    && Accounted(b, s)
    && (l.open ==> b.lost == [])
  }

  /** handle_send keeps the session invariant. */
  lemma {:induction false} CoherentResume(capacity: nat, l: Lifecycle, s: SendSide, b: Ledger, o: Options, now: int)
    requires Coherent(capacity, l, s, b) && !s.writing && !s.waiting
    ensures Coherent(capacity, l, ResumeSend(s, l.open, o, now), b)
  {
  }

  /** One `good` step of the loop: the frame at the head of `w` joins the frames already
      dispatched, and the loop goes on over the rest of `w`, towards the same outcome. */
  lemma {:induction false} DrainGood(parse: seq<byte> -> Parsed, frames: seq<Frame>, w: seq<byte>, whole: Drained)
    requires FramingContract(parse) && parse(w).verdict == Good
    requires var d := Drain(parse, w); Drained(frames + d.frames, d.rest, d.verdict) == whole
    ensures 0 < parse(w).len <= |w|
    ensures var d := Drain(parse, w[parse(w).len..]);
            Drained(frames + [Frame(parse(w).kind, w[..parse(w).len])] + d.frames, d.rest, d.verdict) == whole
  {
    assert Fits(parse(w), w);
    var f := Frame(parse(w).kind, w[..parse(w).len]);
    var d := Drain(parse, w[parse(w).len..]);
    assert frames + [f] + d.frames == frames + ([f] + d.frames);
  }

  /** The parse/dispatch loop of handle_async_recv on the receive buffer: while the parser
      reports `good`, the frame's bytes go to the receive callback and are consumed. */
  method DispatchFrames(parse: seq<byte> -> Parsed, buf: Buffer) returns (frames: seq<Frame>, verdict: Verdict)
    requires buf.Valid() && FramingContract(parse)
    modifies buf
    ensures buf.Valid() && buf.container == old(buf.container)
    ensures Drained(frames, buf.Data(), verdict) == Drain(parse, old(buf.Data()))
  {
    ghost var whole := Drain(parse, buf.Data());
    frames := [];
    var p := parse(buf.Data());
    while p.verdict == Good
      invariant buf.Valid() && buf.container == old(buf.container)
      invariant p == parse(buf.Data())
      invariant var d := Drain(parse, buf.Data()); Drained(frames + d.frames, d.rest, d.verdict) == whole
      decreases buf.size
    {
      DrainGood(parse, frames, buf.Data(), whole);
      frames := frames + [Frame(p.kind, buf.Data()[..p.len])];
      buf.PopCache(p.len);
      p := parse(buf.Data());
    }
    verdict := p.verdict;
  }

  class Session {
    var id: nat
    const parse: seq<byte> -> Parsed
    const capacity: nat
    var options: Options
    var life: Lifecycle
    var recv: Buffer
    var rx: Receiving
    var tx: SendSide
    ghost var books: Ledger
    ghost var Repr: set<object>

    ghost predicate Valid()
      reads this, Repr
    {
      && recv in Repr && Repr == {this, recv, recv.container}
      && recv.Valid()
      && Coherent(capacity, life, tx, books)
      && ReadPlaced(rx, life.open, recv.offset + recv.size, recv.Capacity())
    }

    /** stopped(): the transport is closed. Until then nothing admitted has been dropped;
        and no operation reopens it (every method ensures StaysStopped). */
    function Stopped(): (r: bool)
      reads this, Repr
      requires Valid()
      ensures !r ==> books.lost == []
    {
      !life.open
    }

    /** A session that was stopped is still stopped. */
    twostate predicate StaysStopped()
      reads this
    {
      !old(life.open) ==> !life.open
    }

    /** The window the parser sees when the outstanding read completes with `bytes`: the
        read wrote them from `rx.readAt`, and push_cache then extends the window, wherever
        it is now, by |bytes| container bytes. */
    ghost function Landing(bytes: seq<byte>): (w: seq<byte>)
      reads this, Repr
      requires Valid() && rx.reading && rx.readAt + |bytes| <= recv.Capacity()
      ensures |w| == recv.size + |bytes|
      // on a running session the read lands at the window's end
      ensures life.open ==> w == recv.Data() + bytes
    {
      var tail := recv.offset + recv.size;
      recv.Data() + Overwrite(recv.container[..], rx.readAt, bytes)[tail..tail + |bytes|]
    }

    /** A session over a connected or accepted transport, which is moved in as it is: it
        may already have been closed (`open` false), and the session is then stopped from
        the start. The options are left unassigned, as the source leaves them until
        set_options. */
    constructor (parse: seq<byte> -> Parsed, capacity: nat, open: bool)
      ensures Valid() && fresh(Repr)
      ensures this.parse == parse && this.capacity == capacity && id == 0
      ensures life == Lifecycle(open, false, [], 0, false, false)
      ensures recv.Data() == [] && recv.offset == 0 && recv.Capacity() == INITIAL_SIZE
      ensures rx == Receiving(false, Never, [], 0)
      ensures tx == SendSide([], None, false, false, false, Never, Never, false)
      ensures books == Ledger([], [], [])
    {
      id := 0;
      this.parse := parse;
      this.capacity := capacity;
      life := Lifecycle(open, false, [], 0, false, false);
      var b := new Buffer();
      recv := b;
      rx := Receiving(false, Never, [], 0);
      tx := SendSide([], None, false, false, false, Never, Never, false);
      books := Ledger([], [], []);
      new;
      Repr := {this, b, b.container};
    }

    /** set_session_id. */
    method SetSessionId(id: nat)
      requires Valid()
      modifies this
      ensures Valid() && Repr == old(Repr)
      ensures StaysStopped()
      ensures this.id == id && options == old(options) && life == old(life)
      ensures recv == old(recv) && rx == old(rx) && tx == old(tx) && books == old(books)
    {
      this.id := id;
    }

    /** set_options: the three `int` settings are stored as `size_t`. */
    method SetOptions(sendTimeout: int32, recvTimeout: int32, heartbeatInterval: int32, heartbeatData: seq<byte>)
      requires Valid()
      modifies this
      ensures Valid() && Repr == old(Repr)
      ensures StaysStopped()
      ensures options == Options(ToSize(sendTimeout), ToSize(recvTimeout), ToSize(heartbeatInterval), heartbeatData)
      ensures id == old(id) && life == old(life)
      ensures recv == old(recv) && rx == old(rx) && tx == old(tx) && books == old(books)
    {
      options := Options(ToSize(sendTimeout), ToSize(recvTimeout), ToSize(heartbeatInterval), heartbeatData);
    }

    /** Only the transport has been closed since the pre-state. */
    twostate predicate ClosedOnly()
      reads this
    {
      && life == old(life).(open := false)
      && id == old(id) && options == old(options)
      && recv == old(recv) && rx == old(rx) && tx == old(tx) && books == old(books)
    }

    /** stop(): close the transport if it is open; the chains observe it and tear down. */
    method Stop()
      requires Valid()
      modifies this
      ensures Valid() && Repr == old(Repr) && ClosedOnly()
      ensures StaysStopped()
    {
      if life.open {
        life := life.(open := false);
      }
    }

    /** async_send(data, length): admit a copy of the first `length` bytes at the back of
        the queue, or refuse with the code SendVerdict gives; a null pointer is `None`. */
    method AsyncSend(data: Option<seq<byte>>, length: nat) returns (r: int)
      requires Valid() && (data.Some? ==> length <= |data.value|)
      modifies this
      ensures Valid() && Repr == old(Repr)
      ensures StaysStopped()
      ensures r == SendVerdict(data.None?, length, life.open, capacity, |old(tx.queue)|)
      // an admission also moves non_empty_send_queue_'s expiry, waking a waiting send chain
      ensures tx == if r == OK then old(tx).(queue := old(tx.queue) + [data.value[..length]], signalled := true)
                    else old(tx)
      ensures books == if r == OK then old(books).(accepted := old(books.accepted) + [data.value[..length]])
                       else old(books)
      ensures id == old(id) && options == old(options) && life == old(life)
      ensures recv == old(recv) && rx == old(rx)
    {
      if data.None? || length == 0 || length > MAX_PACK_SIZE {
        return NORMAL_ERROR;
      }
      if !life.open {
        return SESSION_STOPPED;
      }
      if capacity == 0 || |tx.queue| < capacity {
        var copy := data.value[..length];
        AccountedAdmit(books, tx, copy);
        tx := tx.(queue := tx.queue + [copy], signalled := true);
        books := books.(accepted := books.accepted + [copy]);
        return OK;
      } else {
        return QUEUE_FULL;
      }
    }

    /** handle_stop(code, message). */
    method HandleStop(code: int, message: string)
      requires Valid()
      modifies this, recv
      ensures Valid() && Repr == old(Repr)
      ensures StaysStopped()
      ensures life == Teardown(old(life), Disconnect(id, code, message))
      ensures recv == old(recv) && recv.container == old(recv.container)
      ensures recv.offset == 0 && recv.Data() == []
      ensures tx == old(tx).(queue := [], inflight := None, waiting := false, heartbeatArmed := false)
      ensures books == old(books).(lost := Unsent(old(tx)) + old(books.lost))
      ensures id == old(id) && options == old(options) && rx == old(rx)
    {
      // the disconnect callback fires unless it already has since start(); the transport
      // is closed and the watchdogs cancelled
      var closed := Teardown(life, Disconnect(id, code, message));
      recv.Clear();
      // the queue and the in-flight buffer are released, and the heartbeat cancelled
      AccountedDrop(books, tx);
      ghost var dropped := books.(lost := Unsent(tx) + books.lost);
      var released := tx.(queue := [], inflight := None, waiting := false, heartbeatArmed := false);
      life, tx, books := closed, released, dropped;
    }

    /** handle_recv at time `now`, with the read handle_async_recv issues. */
    method HandleRecv(now: int)
      requires Valid() && !rx.reading
      modifies Repr
      ensures Valid() && fresh(Repr - old(Repr))
      ensures StaysStopped()
      ensures recv == old(recv) && recv.Data() == old(recv.Data())
      ensures if old(life.open) then
                && rx == old(rx).(reading := true, deadline := Extend(old(rx.deadline), options.recvTimeout, now),
                                  readAt := recv.offset + recv.size)
                && (recv.Capacity(), recv.offset)
                   == WritableLayout(old(recv.Capacity()), old(recv.offset), old(recv.size))
              else
                rx == old(rx) && recv.container == old(recv.container) && recv.offset == old(recv.offset)
      ensures id == old(id) && options == old(options) && life == old(life)
      ensures tx == old(tx) && books == old(books)
    {
      if !life.open {
        return;
      }
      rx := rx.(deadline := Extend(rx.deadline, options.recvTimeout, now));
      var tail := recv.WritableBuff();
      Repr := {this, recv, recv.container};
      rx := rx.(reading := true, readAt := tail);
    }

    /** start(): reset the disconnect flag, start the receive chain, arm the receive
        watchdog, start the send chain, arm the send watchdog. */
    method Start(now: int)
      requires Valid() && !rx.reading && !tx.writing && !tx.waiting
      modifies Repr
      ensures Valid() && fresh(Repr - old(Repr))
      ensures StaysStopped()
      ensures life == old(life).(disconnected := false, startMark := |old(life.disconnects)|,
                                 recvWatch := old(life.recvWatch) || options.recvTimeout > 0,
                                 sendWatch := old(life.sendWatch) || options.sendTimeout > 0)
      ensures recv == old(recv) && recv.Data() == old(recv.Data())
      ensures if life.open then
                && rx == old(rx).(reading := true, deadline := Extend(old(rx.deadline), options.recvTimeout, now),
                                  readAt := recv.offset + recv.size)
                && (recv.Capacity(), recv.offset)
                   == WritableLayout(old(recv.Capacity()), old(recv.offset), old(recv.size))
              else rx == old(rx) && recv.offset == old(recv.offset) && recv.container == old(recv.container)
      ensures tx == ResumeSend(old(tx), life.open, options, now)
      ensures id == old(id) && options == old(options) && books == old(books)
    {
      HandleRecv(now);
      HandleSend(now);
      // none of the calls above reads these flags, so they are set in one step
      life := life.(disconnected := false, startMark := |life.disconnects|,
                    recvWatch := life.recvWatch || options.recvTimeout > 0,
                    sendWatch := life.sendWatch || options.sendTimeout > 0);
    }

    /** The completion of the read issued by handle_async_recv, at time `now`: a failed
        read stops the session with the transport's code; a successful one is Commit. The
        transport never reads more than the room writable_buff() gave. */
    method OnReceive(res: ReadResult, now: int)
      requires Valid() && rx.reading && FramingContract(parse)
      requires res.Received? ==> rx.readAt + |res.bytes| <= recv.Capacity()
      modifies Repr
      ensures Valid() && fresh(Repr - old(Repr)) && recv == old(recv)
      ensures StaysStopped()
      ensures id == old(id) && options == old(options)
      ensures res.ReadFailed? ==>
                && life == Teardown(old(life), Disconnect(id, res.code, res.message))
                && rx == old(rx).(reading := false) && recv.Data() == [] && recv.container == old(recv.container)
                && recv.container[..] == old(recv.container[..])
                && tx == old(tx).(queue := [], inflight := None, waiting := false, heartbeatArmed := false)
                && books == old(books).(lost := Unsent(old(tx)) + old(books.lost))
      ensures res.Received? ==>
                var d := Drain(parse, old(Landing(res.bytes)));
                && rx.delivered == old(rx.delivered) + d.frames
                && if d.verdict == Less then
                     && recv.Data() == d.rest
                     && (if life.open then
                           && rx.reading && rx.deadline == Extend(old(rx.deadline), options.recvTimeout, now)
                           && (recv.Capacity(), recv.offset)
                              == WritableLayout(old(recv.Capacity()), 0, |d.rest|)
                         else !rx.reading && rx.deadline == old(rx.deadline) && recv.offset == 0)
                     && life == old(life) && tx == old(tx) && books == old(books)
                   else
                     && life == Teardown(old(life), Disconnect(id, PACKET_ERROR, "parse failed"))
                     && !rx.reading && rx.deadline == old(rx.deadline) && recv.Data() == []
                     && recv.container == old(recv.container)
                     && tx == old(tx).(queue := [], inflight := None, waiting := false, heartbeatArmed := false)
                     && books == old(books).(lost := Unsent(old(tx)) + old(books.lost))
    {
      if res.ReadFailed? {
        rx := rx.(reading := false);
        HandleStop(res.code, res.message);
        return;
      }
      Commit(res.bytes, now);
    }

    /** A successful read of `bytes` at time `now`: they were written where the read was
        issued and push_cache commits them (the window the parser then sees is Landing);
        then every `good` frame is dispatched and consumed in order; `less` compacts and
        reads again; `bad` or `indeterminate` stops the session with packet_error. */
    method Commit(bytes: seq<byte>, now: int)
      requires Valid() && rx.reading && FramingContract(parse)
      requires rx.readAt + |bytes| <= recv.Capacity()
      modifies Repr
      ensures Valid() && fresh(Repr - old(Repr)) && recv == old(recv)
      ensures StaysStopped()
      ensures id == old(id) && options == old(options)
      ensures var d := Drain(parse, old(Landing(bytes)));
              && rx.delivered == old(rx.delivered) + d.frames
              && if d.verdict == Less then
                   && recv.Data() == d.rest
                   && (if life.open then
                         && rx.reading && rx.deadline == Extend(old(rx.deadline), options.recvTimeout, now)
                         && (recv.Capacity(), recv.offset)
                            == WritableLayout(old(recv.Capacity()), 0, |d.rest|)
                       else !rx.reading && rx.deadline == old(rx.deadline) && recv.offset == 0)
                   && life == old(life) && tx == old(tx) && books == old(books)
                 else
                   && life == Teardown(old(life), Disconnect(id, PACKET_ERROR, "parse failed"))
                   && !rx.reading && rx.deadline == old(rx.deadline) && recv.Data() == []
                   && recv.container == old(recv.container)
                   && tx == old(tx).(queue := [], inflight := None, waiting := false, heartbeatArmed := false)
                   && books == old(books).(lost := Unsent(old(tx)) + old(books.lost))
    {
      ghost var landed := Landing(bytes);
      recv.ReadInto(rx.readAt, bytes);
      assert recv.Data() == landed;
      rx := rx.(reading := false);
      ParseWindow(now);
    }

    /** The completion's work after push_cache, at time `now`: every `good` frame of the
        window is dispatched and consumed in order; `less` compacts and reads again; `bad`
        or `indeterminate` stops the session with packet_error. */
    method ParseWindow(now: int)
      requires Valid() && !rx.reading && FramingContract(parse)
      modifies Repr
      ensures Valid() && fresh(Repr - old(Repr)) && recv == old(recv)
      ensures StaysStopped()
      ensures id == old(id) && options == old(options)
      ensures var d := Drain(parse, old(recv.Data()));
              && rx.delivered == old(rx.delivered) + d.frames
              && if d.verdict == Less then
                   && recv.Data() == d.rest
                   && (if life.open then
                         && rx.reading && rx.deadline == Extend(old(rx.deadline), options.recvTimeout, now)
                         && (recv.Capacity(), recv.offset)
                            == WritableLayout(old(recv.Capacity()), 0, |d.rest|)
                       else !rx.reading && rx.deadline == old(rx.deadline) && recv.offset == 0)
                   && life == old(life) && tx == old(tx) && books == old(books)
                 else
                   && life == Teardown(old(life), Disconnect(id, PACKET_ERROR, "parse failed"))
                   && !rx.reading && rx.deadline == old(rx.deadline) && recv.Data() == []
                   && recv.container == old(recv.container)
                   && tx == old(tx).(queue := [], inflight := None, waiting := false, heartbeatArmed := false)
                   && books == old(books).(lost := Unsent(old(tx)) + old(books.lost))
    {
      var got, verdict := DispatchFrames(parse, recv);
      rx := rx.(delivered := rx.delivered + got);
      if verdict == Less {
        recv.MoveToHead();
        HandleRecv(now);
      } else {
        HandleStop(PACKET_ERROR, "parse failed");
      }
    }

    /** Successive successful reads of `chunks` at time `now`, each completing the read the
        previous one issued, with nothing else happening in between, on a receive buffer
        with room for all of them: the session dispatches exactly the frames, and keeps
        exactly the bytes, that Feed describes. After a `bad` or `indeterminate` verdict
        the session is torn down, no read is outstanding and the later chunks are never read. */
    method ReceiveEach(chunks: seq<seq<byte>>, now: int)
      requires Valid() && rx.reading && life.open && FramingContract(parse)
      requires recv.offset + recv.size + |Flatten(chunks)| <= recv.Capacity()
      modifies Repr
      ensures Valid() && fresh(Repr - old(Repr)) && recv == old(recv)
      ensures StaysStopped()
      ensures id == old(id) && options == old(options)
      ensures var f := Feed(parse, old(recv.Data()), chunks);
              && rx.delivered == old(rx.delivered) + f.frames
              && if f.verdict == Less then
                   && rx.reading && recv.Data() == f.rest
                   && life == old(life) && tx == old(tx) && books == old(books)
                 else
                   && !rx.reading && recv.Data() == []
                   && life == Teardown(old(life), Disconnect(id, PACKET_ERROR, "parse failed"))
                   && tx == old(tx).(queue := [], inflight := None, waiting := false, heartbeatArmed := false)
                   && books == old(books).(lost := Unsent(old(tx)) + old(books.lost))
      decreases |chunks|
    {
      if chunks == [] {
        return;
      }
      ghost var d := Drain(parse, recv.Data() + chunks[0]);
      FeedStep(parse, recv.Data(), chunks);
      OnReceive(Received(chunks[0]), now);
      if rx.reading {
        ghost var e := Feed(parse, d.rest, chunks[1..]);
        ReceiveEach(chunks[1..], now);
        Associative(old(rx.delivered), d.frames, e.frames);
      }
    }

    /** handle_send at time `now`. */
    method HandleSend(now: int)
      requires Valid() && !tx.writing && !tx.waiting
      modifies this
      ensures Valid() && Repr == old(Repr)
      ensures StaysStopped()
      ensures tx == ResumeSend(old(tx), life.open, options, now)
      ensures id == old(id) && options == old(options) && life == old(life)
      ensures recv == old(recv) && rx == old(rx) && books == old(books)
      ensures recv.Data() == old(recv.Data())
    {
      CoherentResume(capacity, life, tx, books, options, now);
      if !life.open {
        return;
      }
      var t := tx;
      if t.inflight.Some? && t.inflight.value != [] {
        // a partly sent buffer is finished first
        t := t.(writing := true);
      } else if t.queue == [] {
        // nothing to send: wait on non_empty_send_queue_, with a heartbeat if configured
        t := t.(waiting := true, signalled := false);
        if options.heartbeatInterval > 0 && options.heartbeatData != [] {
          t := t.(heartbeatDeadline := At(now + Seconds(options.heartbeatInterval)), heartbeatArmed := true);
        }
      } else {
        // the queue front becomes the in-flight buffer
        t := t.(deadline := Extend(t.deadline, options.sendTimeout, now));
        t := t.(inflight := Some(t.queue[0]), queue := t.queue[1..], writing := true);
      }
      tx := t;
      assert tx == ResumeSend(old(tx), life.open, options, now);
    }

    /** The completion of the write issued by handle_async_send, at time `now`: on success
        the bytes sent leave the in-flight buffer and the send chain continues; on failure
        the session stops with the transport's code. */
    method OnSent(res: WriteResult, now: int)
      requires Valid() && tx.writing
      requires res.Sent? && tx.inflight.Some? ==> res.count <= |tx.inflight.value|
      modifies this, recv
      ensures Valid() && Repr == old(Repr) && recv == old(recv)
      ensures StaysStopped()
      ensures id == old(id) && options == old(options) && rx == old(rx)
      ensures res.WriteFailed? ==>
                && life == Teardown(old(life), Disconnect(id, res.code, res.message))
                && recv.Data() == [] && recv.offset == 0 && recv.container == old(recv.container)
                && tx == old(tx).(queue := [], inflight := None, writing := false,
                                  waiting := false, heartbeatArmed := false)
                && books == old(books).(lost := Unsent(old(tx)) + old(books.lost))
      ensures res.Sent? ==>
                && tx == ResumeSend(AfterWrite(old(tx), res.count), life.open, options, now)
                && books == old(books).(wire := old(books.wire) + Written(old(tx), res.count))
                && life == old(life) && recv.Data() == old(recv.Data())
                && recv.offset == old(recv.offset) && recv.container == old(recv.container)
    {
      if res.WriteFailed? {
        tx := tx.(writing := false);
        HandleStop(res.code, res.message);
        return;
      }
      AccountedWrite(books, tx, res.count);
      books := books.(wire := books.wire + Written(tx, res.count));
      tx := AfterWrite(tx, res.count);
      HandleSend(now);
    }

    /** A failed write tears the session down while a read is outstanding, and the read
        then completes with `bytes`. clear() moved the window to the head but left the
        container's bytes, and the read wrote where it was issued, at the old window's end:
        when that is at least |bytes| from the head, the parser is handed the container's
        first |bytes| bytes as they were before teardown, not the bytes that were read. */
    method LateRead(code: int, message: string, bytes: seq<byte>, now: int)
      requires Valid() && life.open && rx.reading && tx.writing && FramingContract(parse)
      requires |bytes| <= rx.readAt && rx.readAt + |bytes| <= recv.Capacity()
      modifies Repr
      ensures Valid() && !life.open && !rx.reading
      ensures rx.delivered == old(rx.delivered) + Drain(parse, old(recv.container[..|bytes|])).frames
      // the failed write's teardown is the only one: a parse failure of the stale bytes
      // finds the disconnect callback already called
      ensures life == Teardown(old(life), Disconnect(id, code, message))
    {
      ghost var before := recv.container[..];
      OnSent(WriteFailed(code, message), now);
      ghost var landed := Landing(bytes);
      StaleHead(recv.container[..], rx.readAt, bytes);
      assert landed == before[..|bytes|];
      OnReceive(Received(bytes), now);
      TeardownIdempotent(old(life), Disconnect(id, code, message), Disconnect(id, PACKET_ERROR, "parse failed"));
    }

    /** The wait on non_empty_send_queue_ completes because an async_send moved its expiry
        to time_point::min(): handle_send runs again. (The cancellation by handle_stop is
        part of HandleStop: its handler sees a stopped session and does nothing.) */
    method OnQueueWake(now: int)
      requires Valid() && tx.waiting && tx.signalled
      modifies this
      ensures Valid() && Repr == old(Repr)
      ensures StaysStopped()
      ensures tx == ResumeSend(old(tx).(waiting := false), life.open, options, now)
      // the wake takes the front the admission queued and starts writing it
      ensures life.open ==> tx.writing && tx.inflight == Some(old(tx.queue[0])) && tx.queue == old(tx.queue[1..])
      ensures id == old(id) && options == old(options) && life == old(life)
      ensures recv == old(recv) && rx == old(rx) && books == old(books)
    {
      tx := tx.(waiting := false);
      HandleSend(now);
    }

    /** check_deadline for one watchdog, firing at `now`: nothing once stopped; close the
        transport if the deadline has passed; otherwise wait again. It never tears down. */
    method CheckDeadline(which: Watchdog, now: int)
      requires Valid()
      requires which == ReceiveWatch ==> life.recvWatch
      requires which == SendWatch ==> life.sendWatch
      modifies this
      ensures Valid() && Repr == old(Repr)
      ensures StaysStopped()
      ensures var d := if which == ReceiveWatch then rx.deadline else tx.deadline;
              var rearmed := old(life.open) && !Expired(d, now);
              life == if which == ReceiveWatch then old(life).(open := rearmed, recvWatch := rearmed)
                      else old(life).(open := rearmed, sendWatch := rearmed)
      ensures id == old(id) && options == old(options)
      ensures recv == old(recv) && rx == old(rx) && tx == old(tx) && books == old(books)
    {
      if which == ReceiveWatch {
        life := life.(recvWatch := false);
      } else {
        life := life.(sendWatch := false);
      }
      if !life.open {
        return;
      }
      var d := if which == ReceiveWatch then rx.deadline else tx.deadline;
      if Expired(d, now) {
        if life.open {
          life := life.(open := false);
        }
      } else if which == ReceiveWatch {
        life := life.(recvWatch := true);
      } else {
        life := life.(sendWatch := true);
      }
    }

    /** check_heartbeat, firing at `now`: once the heartbeat deadline has passed on an open
        session the heartbeat payload goes through async_send, with its usual admission rules. */
    method OnHeartbeat(now: int)
      requires Valid() && tx.heartbeatArmed
      modifies this
      ensures Valid() && Repr == old(Repr)
      ensures StaysStopped()
      ensures var hb := options.heartbeatData;
              var admitted := old(life.open) && Expired(tx.heartbeatDeadline, now)
                              && SendVerdict(false, |hb|, life.open, capacity, |old(tx.queue)|) == OK;
              && tx == old(tx).(queue := if admitted then old(tx.queue) + [hb] else old(tx.queue),
                                signalled := admitted || old(tx.signalled), heartbeatArmed := false)
              && books == if admitted then old(books).(accepted := old(books.accepted) + [hb]) else old(books)
      ensures id == old(id) && options == old(options) && life == old(life)
      ensures recv == old(recv) && rx == old(rx)
    {
      tx := tx.(heartbeatArmed := false);
      if !life.open {
        return;
      }
      if Expired(tx.heartbeatDeadline, now) {
        var r := AsyncSend(Some(options.heartbeatData), |options.heartbeatData|);
        assert options.heartbeatData[..|options.heartbeatData|] == options.heartbeatData;
      }
    }
  }
}
