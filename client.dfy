/** The outbound connector `socket_client` of include/utility/net/client.h.

    Name resolution is an input (the endpoint list a resolve produced); each async_connect
    outstanding on the client's socket is an `Attempt` that remembers its endpoint list and
    the iterator's position, and its completion is `HandleConnect`. The two retry timers
    are a log of the delays they were started with; a firing is `OnRetryTimer`. A session's
    disconnect callback, bound to `on_disconnect`, is the event `OnDisconnect`. */
module Clients {
  import opened Bytes
  import opened ErrorCodes
  import opened Framing
  import opened Sessions
  import Buffers

  /** A resolved endpoint, as text. */
  type Endpoint = string

  /** An async_connect in flight: the resolved list and the position of the iterator. */
  datatype Attempt = Attempt(endpoints: seq<Endpoint>, index: nat)

  /** set_options' six settings (login data, auto_reconnect_, heartbeat data, heartbeat
      interval, send and receive timeouts). */
  datatype Config = Config(loginData: seq<byte>, autoReconnect: bool, heartData: seq<byte>,
                           heartbeatInterval: int32, sendTimeout: int32, recvTimeout: int32)

  /** The member initialisers: no login or heartbeat data, no reconnection, a 10 s
      heartbeat and 30 s timeouts. */
  const DEFAULT_CONFIG: Config := Config([], false, [], 10, 30, 30)

  /** send_queue_capacity_. */
  const SEND_QUEUE_CAPACITY: nat := 8192

  /** Seconds before connect() runs again after every endpoint failed. */
  const CONNECT_RETRY_DELAY: nat := 5

  /** Seconds before connect() runs again after a session disconnected. */
  const RECONNECT_DELAY: nat := 2

  const INT32_MAX: int32 := 0x7fff_ffff
  const INT32_MIN: int32 := -0x8000_0000

  /** Retry timers started, by delay in seconds, and how many have fired. */
  datatype Retries = Retries(delays: seq<nat>, fired: nat)

  /** `++unique_ssid_` on a 32-bit atomic: two's complement wrap-around. */
  function NextSsid(x: int32): (r: int32)
    ensures x < INT32_MAX ==> r as int == x as int + 1
    ensures x == INT32_MAX ==> r == INT32_MIN
  {
    if x == INT32_MAX then INT32_MIN else x + 1
  }

  /** Session ids, as the size_t the counter is converted to, strictly increase from one
      connection to the next at every counter value but -1: the step from INT_MAX to INT_MIN
      lands on 2^64 - 2^31, above every earlier id; each other step adds exactly one. */
  lemma SessionIdsIncrease(x: int32)
    requires x != -1
    ensures ToSize(NextSsid(x)) > ToSize(x)
    ensures x != INT32_MAX ==> ToSize(NextSsid(x)) == ToSize(x) + 1
  {
  }

  /** The one step where they do not: from -1 (2^64 - 1 as size_t) the counter reaches 0, so
      later connections repeat the ids handed out from the first one on. */
  lemma SessionIdsRestart()
    ensures ToSize(NextSsid(-1)) == 0 && ToSize(-1) == SIZE_MODULUS - 1
  {
  }

  /** Where a failed attempt at position `index` of `count` endpoints goes on:
      `++endpoint_iter`, unless that reaches the end. */
  function NextCandidate(count: nat, index: nat): (r: Option<nat>)
    requires index < count
    ensures r.Some? <==> index + 1 < count
    ensures r.Some? ==> r.value == index + 1 && r.value < count
  {
    if index + 1 < count then Some(index + 1) else None
  }

  /** Removing entry `k` after overwriting it removes the original entry. */
  lemma RemoveUpdated(s: seq<Attempt>, k: nat, x: Attempt)
    requires k < |s|
    ensures s[k := x][..k] + s[k := x][k + 1..] == s[..k] + s[k + 1..]
  {
    assert s[k := x][..k] == s[..k];
    assert s[k := x][k + 1..] == s[k + 1..];
  }

  /** The endpoints after position `i` are the one at `i + 1` followed by those after it. */
  lemma RemainingSplit(e: seq<Endpoint>, i: nat)
    requires i + 1 < |e|
    ensures e[i + 1..] == [e[i + 1]] + e[i + 2..]
  {
  }

  /** Every attempt's iterator points into its endpoint list. */
  predicate Positioned(attempts: seq<Attempt>)
  {
    forall i :: 0 <= i < |attempts| ==> attempts[i].index < |attempts[i].endpoints|
  }

  /** Dropping a finished attempt keeps the others positioned. */
  lemma PositionedRemove(attempts: seq<Attempt>, k: nat)
    requires Positioned(attempts) && k < |attempts|
    ensures Positioned(attempts[..k] + attempts[k + 1..])
  {
    var rest := attempts[..k] + attempts[k + 1..];
    forall i | 0 <= i < |rest|
      ensures rest[i].index < |rest[i].endpoints|
    {
      if i < k {
        assert rest[i] == attempts[i];
      } else {
        assert rest[i] == attempts[i + 1];
      }
    }
  }

  /** Moving one attempt to an endpoint within its list keeps them all positioned. */
  lemma PositionedUpdate(attempts: seq<Attempt>, k: nat, x: Attempt)
    requires Positioned(attempts) && k < |attempts| && x.index < |x.endpoints|
    ensures Positioned(attempts[k := x])
  {
  }

  /** The session state start() leaves at time `now` on a transport that is `open` or
      already closed, once the login data `login` has gone through async_send, for
      settings `o`. */
  predicate Started(life: Lifecycle, rx: Receiving, tx: SendSide, books: Ledger, o: Options,
                    login: seq<seq<byte>>, open: bool, now: int)
  {
    // async_send refuses everything on a stopped session
    var queued := if open then login else [];
    var heartbeat := open && o.heartbeatInterval > 0 && o.heartbeatData != [];
    // the transport is as it was handed over, no disconnect has been reported, and each
    // watchdog is waiting exactly when its timeout is positive, open or not
    && life == Lifecycle(open, false, [], 0, o.recvTimeout > 0, o.sendTimeout > 0)
    // on an open transport the first read is outstanding at the head, its deadline
    // extended by the receive timeout; on a closed one handle_recv returned at once
    && rx == (if open then Receiving(true, Extend(Never, o.recvTimeout, now), [], 0)
              else Receiving(false, Never, [], 0))
    // on an open transport the send chain waits for data with the send deadline at max()
    // and, when configured, the heartbeat armed; the admitted login data is queued and
    // wakes that wait. On a closed one handle_send returned at once.
    && tx == SendSide(queued, None, false, open, queued != [], Never,
                      if heartbeat then At(now + Seconds(o.heartbeatInterval)) else Never, heartbeat)
    && books == Ledger([], queued, [])
  }

  /** `s` is what a successful handle_connect at time `now` leaves on a socket that is
      `open` or not: a started session with id `id`, the client's parser and queue capacity,
      the stored settings, an empty initial receive buffer, and, on an open socket, at most
      the login data queued (when its length is acceptable) as the first payload admitted.
      On a closed socket the session is stopped from the start and nothing ever tears it
      down, so the disconnect callback is never called for it. */
  ghost predicate Established(s: Session, parse: seq<byte> -> Parsed, id: nat, config: Config,
                              open: bool, now: int)
    reads s, s.Repr
  {
    var o := Options(ToSize(config.sendTimeout), ToSize(config.recvTimeout),
                     ToSize(config.heartbeatInterval), config.heartData);
    && s.Valid()
    && s.id == id && s.parse == parse && s.capacity == SEND_QUEUE_CAPACITY && s.options == o
    && s.recv.Data() == [] && s.recv.offset == 0 && s.recv.Capacity() == Buffers.INITIAL_SIZE
    && Started(s.life, s.rx, s.tx, s.books, o,
               if 0 < |config.loginData| <= Buffers.MAX_PACK_SIZE then [config.loginData] else [], open, now)
  }

  /** The body of a successful handle_connect on the transport it was given, open or
      already closed: a session with the next id and the stored settings is started, and
      the login data is its first async_send (admitted when its length is acceptable and
      the transport is open). */
  method OpenSession(parse: seq<byte> -> Parsed, id: nat, config: Config, open: bool, now: int) returns (s: Session)
    ensures fresh(s) && fresh(s.Repr) && Established(s, parse, id, config, open, now)
  {
    s := new Session(parse, SEND_QUEUE_CAPACITY, open);
    s.SetSessionId(id);
    s.SetOptions(config.sendTimeout, config.recvTimeout, config.heartbeatInterval, config.heartData);
    s.Start(now);
    var _ := s.AsyncSend(Some(config.loginData), |config.loginData|);
    assert config.loginData[..|config.loginData|] == config.loginData;
  }

  class Client {
    var config: Config
    var uniqueSsid: int32
    /** socket_.is_open() for the client's own socket. */
    var socketOpen: bool
    var session: Session?
    var parse: seq<byte> -> Parsed
    var attempts: seq<Attempt>
    var retries: Retries
    /** The calls of the caller's disconnect callback. */
    var forwarded: seq<Disconnect>
    /** The endpoints async_connect was started on, in order. */
    ghost var dialled: seq<Endpoint>
    ghost var Repr: set<object>

    ghost predicate Valid()
      reads this, Repr
    {
      && this in Repr
      && (session == null ==> Repr == {this})
      && (session != null ==>
            && session in Repr && Repr == {this} + session.Repr && this !in session.Repr
            && session.Valid() && session.capacity == SEND_QUEUE_CAPACITY)
      && Positioned(attempts)
      && retries.fired <= |retries.delays|
    }

    /** The client's footprint follows its session's, which grows when the receive buffer
        does: after the session's own handlers have run (a read completing, a write, a
        timer), this re-establishes the invariant and changes nothing else. */
    ghost method Resync()
      requires this in Repr && Positioned(attempts) && retries.fired <= |retries.delays|
      requires session != null ==>
                 && session.Valid() && session.capacity == SEND_QUEUE_CAPACITY && this !in session.Repr
      modifies this
      ensures Valid()
      ensures Repr == {this} + (if session != null then session.Repr else {})
      ensures config == old(config) && uniqueSsid == old(uniqueSsid) && socketOpen == old(socketOpen)
      ensures session == old(session) && parse == old(parse) && attempts == old(attempts)
      ensures retries == old(retries) && forwarded == old(forwarded) && dialled == old(dialled)
    {
      Repr := {this} + (if session != null then session.Repr else {});
    }

    /** socket_client(ioc) followed by set_callback's framing parser: no session, no
        attempt, the default settings. */
    constructor (parse: seq<byte> -> Parsed)
      ensures Valid() && fresh(Repr)
      ensures config == DEFAULT_CONFIG && uniqueSsid == 0 && !socketOpen && session == null
      ensures this.parse == parse && attempts == [] && retries == Retries([], 0) && forwarded == []
      ensures dialled == []
    {
      config := DEFAULT_CONFIG;
      uniqueSsid := 0;
      socketOpen := false;
      session := null;
      this.parse := parse;
      attempts := [];
      retries := Retries([], 0);
      forwarded := [];
      dialled := [];
      Repr := {this};
    }

    /** set_callback's framing parser (the receive and disconnect callbacks are the logs of
        the session and of this client). */
    method SetCallback(parse: seq<byte> -> Parsed)
      requires Valid()
      modifies this
      ensures Valid() && Repr == old(Repr) && this.parse == parse
      ensures config == old(config) && uniqueSsid == old(uniqueSsid) && socketOpen == old(socketOpen)
      ensures session == old(session) && attempts == old(attempts) && retries == old(retries)
      ensures forwarded == old(forwarded) && dialled == old(dialled)
    {
      this.parse := parse;
    }

    /** set_options: exactly the six settings are overwritten. */
    method SetOptions(loginData: seq<byte>, autoReconnect: bool, heartData: seq<byte>,
                      heartbeatInterval: int32, sendTimeout: int32, recvTimeout: int32)
      requires Valid()
      modifies this
      ensures Valid() && Repr == old(Repr)
      ensures config == Config(loginData, autoReconnect, heartData, heartbeatInterval, sendTimeout, recvTimeout)
      ensures uniqueSsid == old(uniqueSsid) && socketOpen == old(socketOpen) && parse == old(parse)
      ensures session == old(session) && attempts == old(attempts) && retries == old(retries)
      ensures forwarded == old(forwarded) && dialled == old(dialled)
    {
      config := Config(loginData, autoReconnect, heartData, heartbeatInterval, sendTimeout, recvTimeout);
    }

    /** disconnect(): stop a running session and close the socket; auto_reconnect_ and
        everything else are left alone. */
    method Disconnect()
      requires Valid()
      modifies this, session
      ensures Valid() && Repr == old(Repr) && !socketOpen
      ensures session == old(session)
      ensures session != null ==> session.ClosedOnly() && session.recv.Data() == old(session.recv.Data())
      ensures config == old(config) && uniqueSsid == old(uniqueSsid) && parse == old(parse)
      ensures attempts == old(attempts) && retries == old(retries) && forwarded == old(forwarded)
      ensures dialled == old(dialled)
    {
      if session != null && !session.Stopped() {
        session.Stop();
      }
      socketOpen := false;
    }

    /** close(): clear auto_reconnect_, then disconnect(). */
    method Close()
      requires Valid()
      modifies this, session
      ensures Valid() && Repr == old(Repr) && !socketOpen
      ensures config == old(config).(autoReconnect := false)
      ensures session == old(session)
      ensures session != null ==> session.ClosedOnly() && session.recv.Data() == old(session.recv.Data())
      ensures uniqueSsid == old(uniqueSsid) && parse == old(parse)
      ensures attempts == old(attempts) && retries == old(retries) && forwarded == old(forwarded)
      ensures dialled == old(dialled)
    {
      config := config.(autoReconnect := false);
      Disconnect();
    }

    /** connect() with the endpoint list the resolver produced: stop a running session,
        close the socket, then start an async_connect on the first endpoint, or do nothing
        more when there is none (no retry is scheduled then). */
    method Connect(resolved: seq<Endpoint>)
      requires Valid()
      modifies this, session
      ensures Valid() && Repr == old(Repr)
      ensures socketOpen <==> resolved != []
      ensures attempts == old(attempts) + (if resolved != [] then [Attempt(resolved, 0)] else [])
      ensures dialled == old(dialled) + (if resolved != [] then [resolved[0]] else [])
      ensures session == old(session)
      ensures session != null ==> session.ClosedOnly() && session.recv.Data() == old(session.recv.Data())
      ensures config == old(config) && uniqueSsid == old(uniqueSsid) && parse == old(parse)
      ensures retries == old(retries) && forwarded == old(forwarded)
    {
      Disconnect();
      if resolved != [] {
        // async_connect opens the socket for the attempt
        attempts := attempts + [Attempt(resolved, 0)];
        dialled := dialled + [resolved[0]];
        socketOpen := true;
      }
    }

    /** async_send: session_not_exist without a session, otherwise exactly the session's
        own async_send. */
    method AsyncSend(data: Option<seq<byte>>, length: nat) returns (r: int)
      requires Valid() && (data.Some? ==> length <= |data.value|)
      modifies session
      ensures Valid() && Repr == old(Repr) && session == old(session)
      ensures session == null ==> r == SESSION_NOT_EXIST
      ensures session != null ==>
                && r == SendVerdict(data.None?, length, session.life.open, session.capacity, |old(session.tx.queue)|)
                // an admission joins the queue and the ledger and wakes a waiting send chain
                && session.tx == (if r == OK then old(session.tx).(queue := old(session.tx.queue) + [data.value[..length]],
                                                                   signalled := true)
                                  else old(session.tx))
                && session.books == (if r == OK then old(session.books).(accepted := old(session.books.accepted) + [data.value[..length]])
                                     else old(session.books))
                && session.id == old(session.id) && session.options == old(session.options)
                && session.life == old(session.life) && session.rx == old(session.rx)
                && session.recv == old(session.recv) && session.recv.Data() == old(session.recv.Data())
      ensures config == old(config) && uniqueSsid == old(uniqueSsid) && socketOpen == old(socketOpen)
      ensures attempts == old(attempts) && retries == old(retries) && forwarded == old(forwarded)
      ensures dialled == old(dialled)
    {
      if session != null {
        r := session.AsyncSend(data, length);
      } else {
        r := SESSION_NOT_EXIST;
      }
    }

    /** The completion of attempt `k` at time `now`, successful when `ok`. On success the
        socket moves into a new session with the next id and the stored settings, which
        is started and sends the login data first. On failure the next endpoint is tried
        at once; after the last one, connect() is scheduled in 5 s, whatever
        auto_reconnect_ says. */
    method HandleConnect(k: nat, ok: bool, now: int)
      requires Valid() && k < |attempts|
      modifies this
      ensures Valid() && fresh(Repr - old(Repr))
      ensures config == old(config) && parse == old(parse) && forwarded == old(forwarded)
      ensures ok ==>
                && session != null && fresh(session) && uniqueSsid == NextSsid(old(uniqueSsid))
                && Established(session, parse, ToSize(uniqueSsid), config, old(socketOpen), now)
                && !socketOpen && attempts == old(attempts[..k] + attempts[k + 1..])
                && retries == old(retries) && dialled == old(dialled)
      ensures !ok ==>
                && session == old(session) && uniqueSsid == old(uniqueSsid) && Repr == old(Repr)
                && var a := old(attempts[k]);
                   match NextCandidate(|a.endpoints|, a.index)
                   case Some(next) =>
                     && socketOpen && attempts == old(attempts)[k := Attempt(a.endpoints, next)]
                     && dialled == old(dialled) + [a.endpoints[next]]
                     && retries == old(retries)
                   case None =>
                     && socketOpen == old(socketOpen) && attempts == old(attempts[..k] + attempts[k + 1..])
                     && dialled == old(dialled)
                     && retries == old(retries).(delays := old(retries.delays) + [CONNECT_RETRY_DELAY])
    {
      var a := attempts[k];
      if ok {
        Adopt(k, now);
      } else if a.index + 1 < |a.endpoints| {
        // close the socket and try the next endpoint with the same handler
        PositionedUpdate(attempts, k, Attempt(a.endpoints, a.index + 1));
        attempts := attempts[k := Attempt(a.endpoints, a.index + 1)];
        dialled := dialled + [a.endpoints[a.index + 1]];
        socketOpen := true;
      } else {
        PositionedRemove(attempts, k);
        attempts := attempts[..k] + attempts[k + 1..];
        retries := retries.(delays := retries.delays + [CONNECT_RETRY_DELAY]);
      }
    }

    /** The success branch of handle_connect for attempt `k`: the socket moves into a new
        session with the next id, and the attempt ends. */
    method Adopt(k: nat, now: int)
      requires Valid() && k < |attempts|
      modifies this
      ensures Valid() && fresh(Repr - old(Repr))
      ensures session != null && fresh(session) && uniqueSsid == NextSsid(old(uniqueSsid))
      ensures Established(session, parse, ToSize(uniqueSsid), config, old(socketOpen), now)
      ensures !socketOpen && attempts == old(attempts[..k] + attempts[k + 1..])
      ensures config == old(config) && parse == old(parse) && forwarded == old(forwarded)
      ensures retries == old(retries) && dialled == old(dialled)
    {
      var id := NextSsid(uniqueSsid);
      var rest := attempts[..k] + attempts[k + 1..];
      PositionedRemove(attempts, k);
      // socket_ is moved into the session as it is
      var open := socketOpen;
      attempts, socketOpen, uniqueSsid := rest, false, id;
      var s := OpenSession(parse, ToSize(id), config, open, now);
      assert this !in s.Repr;
      session := s;
      Resync();
    }

    /** Attempt `k` fails at every endpoint it has left, at time `now`: the remaining
        endpoints are dialled once each, in list order, with no delay in between, and then
        exactly one 5 s retry of connect() is scheduled. */
    method FailRemaining(k: nat, now: int)
      requires Valid() && k < |attempts|
      modifies this
      ensures Valid() && Repr == old(Repr)
      ensures var a := old(attempts[k]);
              && dialled == old(dialled) + a.endpoints[a.index + 1..]
              && attempts == old(attempts[..k] + attempts[k + 1..])
              && retries == old(retries).(delays := old(retries.delays) + [CONNECT_RETRY_DELAY])
      ensures session == old(session) && uniqueSsid == old(uniqueSsid)
      ensures config == old(config) && parse == old(parse) && forwarded == old(forwarded)
      decreases |attempts[k].endpoints| - attempts[k].index
    {
      var a := attempts[k];
      ghost var before := attempts;
      ghost var log := dialled;
      HandleConnect(k, false, now);
      if a.index + 1 < |a.endpoints| {
        FailRemaining(k, now);
        RemoveUpdated(before, k, Attempt(a.endpoints, a.index + 1));
        RemainingSplit(a.endpoints, a.index);
        Associative(log, [a.endpoints[a.index + 1]], a.endpoints[a.index + 2..]);
      }
    }

    /** on_disconnect: forward to the caller's disconnect callback, then schedule
        connect() in 2 s exactly when auto_reconnect_ is set. */
    method OnDisconnect(note: Disconnect)
      requires Valid()
      modifies this
      ensures Valid() && Repr == old(Repr)
      ensures forwarded == old(forwarded) + [note]
      ensures retries == if config.autoReconnect then old(retries).(delays := old(retries.delays) + [RECONNECT_DELAY])
                         else old(retries)
      ensures config == old(config) && uniqueSsid == old(uniqueSsid) && socketOpen == old(socketOpen)
      ensures session == old(session) && parse == old(parse) && attempts == old(attempts)
      ensures dialled == old(dialled)
    {
      forwarded := forwarded + [note];
      if config.autoReconnect {
        retries := retries.(delays := retries.delays + [RECONNECT_DELAY]);
      }
    }

    /** A retry timer fires: connect() runs unconditionally, even after close(). */
    method OnRetryTimer(resolved: seq<Endpoint>)
      requires Valid() && retries.fired < |retries.delays|
      modifies this, session
      ensures Valid() && Repr == old(Repr)
      ensures retries == old(retries).(fired := old(retries.fired) + 1)
      ensures socketOpen <==> resolved != []
      ensures attempts == old(attempts) + (if resolved != [] then [Attempt(resolved, 0)] else [])
      ensures dialled == old(dialled) + (if resolved != [] then [resolved[0]] else [])
      ensures session == old(session)
      ensures session != null ==> session.ClosedOnly() && session.recv.Data() == old(session.recv.Data())
      ensures config == old(config) && uniqueSsid == old(uniqueSsid) && parse == old(parse)
      ensures forwarded == old(forwarded)
    {
      retries := retries.(fired := retries.fired + 1);
      Connect(resolved);
    }
  }
}
