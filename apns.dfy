/** The connection side of `txapns/apns.py` with the reactor abstracted
    away: `APNSService` lazily creates one `APNSClientFactory`, which keeps
    the FIFO list of deferreds issued while no connection is live and the
    live `APNSProtocol`; the feedback side opens a one-shot connection whose
    `APNSFeedbackHandler` accumulates bytes until the peer closes. Reactor
    callbacks (connection made, lost, failed, a timeout elapsing, data
    arriving) are methods the environment calls. */
module Apns {
  import opened Bytes
  import opened Deferreds

  // ---------------------------------------------------------------------
  // Hosts and ports

  const GatewayHost: string := "gateway.push.apple.com"
  const GatewaySandboxHost: string := "gateway.sandbox.push.apple.com"
  const GatewayPort: nat := 2195
  const FeedbackHost: string := "feedback.push.apple.com"
  const FeedbackSandboxHost: string := "feedback.sandbox.push.apple.com"
  const FeedbackPort: nat := 2196

  datatype Endpoint = Endpoint(host: string, port: nat)

  /** The gateway `write` connects to: the sandbox host exactly for the
      environment `'sandbox'`, the production host for every other value. */
  function GatewayEndpoint(environment: string): (e: Endpoint)
    ensures e.port == GatewayPort
    ensures e.host == GatewaySandboxHost <==> environment == "sandbox"
    ensures e.host == GatewayHost <==> environment != "sandbox"
  {
    Endpoint(if environment == "sandbox" then GatewaySandboxHost else GatewayHost, GatewayPort)
  }

  /** The feedback service `read` connects to, chosen the same way. */
  function FeedbackEndpoint(environment: string): (e: Endpoint)
    ensures e.port == FeedbackPort
    ensures e.host == FeedbackSandboxHost <==> environment == "sandbox"
    ensures e.host == FeedbackHost <==> environment != "sandbox"
    ensures e != GatewayEndpoint(environment)
  {
    Endpoint(if environment == "sandbox" then FeedbackSandboxHost else FeedbackHost, FeedbackPort)
  }

  // ---------------------------------------------------------------------
  // The gateway connection

  /** An `APNSProtocol`; `written` is everything `sendMessage` handed to
      its transport, in order. */
  class Protocol {
    var written: seq<byte>

    constructor ()
      ensures written == []
    {
      written := [];
    }

    method SendMessage(message: seq<byte>)
      modifies this
      ensures written == old(written) + message
    {
      written := written + message;
    }
  }

  /** One element of `APNSClientFactory._deferred`, with the notification
      bytes that the callback `write` attached to it sends. */
  datatype Entry = Entry(deferred: Deferred<Protocol>, message: seq<byte>)

  function Listed(es: seq<Entry>): set<Deferred<Protocol>>
  {
    set e | e in es :: e.deferred
  }

  function States(es: seq<Entry>): (r: seq<DeferredState<Protocol>>)
    reads Listed(es)
    ensures |r| == |es| && forall k :: 0 <= k < |es| ==> r[k] == es[k].deferred.state
  {
    seq(|es|, k requires 0 <= k < |es| reads Listed(es) => es[k].deferred.state)
  }

  /** The messages of those of the first `n` entries whose deferred was
      still waiting in `states`, in list order: what a connection sends
      when it flushes them. */
  function Flushed(es: seq<Entry>, states: seq<DeferredState<Protocol>>, n: nat): seq<byte>
    requires |states| == |es| && n <= |es|
    decreases n
  {
    if n == 0 then []
    else Flushed(es, states, n - 1) + (if states[n - 1].outcome.Waiting? then es[n - 1].message else [])
  }

  /** The messages of the first `n` entries, in list order. */
  function Messages(es: seq<Entry>, n: nat): seq<byte>
    requires n <= |es|
    decreases n
  {
    if n == 0 then [] else Messages(es, n - 1) + es[n - 1].message
  }

  /** Writing one more entry's message after what was written before. */
  lemma MessagesNext(before: seq<byte>, es: seq<Entry>, i: nat)
    requires i < |es|
    ensures before + Messages(es, i + 1) == (before + Messages(es, i)) + es[i].message
  {
  }

  /** Flushing one more entry writes its message exactly when its deferred
      was waiting. */
  lemma FlushedNext(before: seq<byte>, es: seq<Entry>, states: seq<DeferredState<Protocol>>, i: nat)
    requires |states| == |es| && i < |es|
    ensures states[i].outcome.Waiting? ==>
      before + Flushed(es, states, i + 1) == (before + Flushed(es, states, i)) + es[i].message
    ensures !states[i].outcome.Waiting? ==>
      before + Flushed(es, states, i + 1) == before + Flushed(es, states, i)
  {
  }

  /** When every one of the first `n` entries is still waiting, flushing
      them sends every one of their messages. */
  lemma {:induction false} FlushedAllWaiting(es: seq<Entry>, states: seq<DeferredState<Protocol>>, n: nat)
    requires |states| == |es| && n <= |es|
    requires forall k :: 0 <= k < n ==> states[k].outcome.Waiting?
    ensures Flushed(es, states, n) == Messages(es, n)
    decreases n
  {
    if n > 0 {
      FlushedAllWaiting(es, states, n - 1);
    }
  }

  /** The first `n` deferreds were still waiting in `states`. */
  ghost predicate WaitingUpTo(states: seq<DeferredState<Protocol>>, n: nat)
  {
    n <= |states| && forall k :: 0 <= k < n ==> states[k].outcome.Waiting?
  }

  /** No deferred is listed twice. */
  ghost predicate Distinct(es: seq<Entry>)
  {
    forall i, j :: 0 <= i < j < |es| ==> es[i].deferred != es[j].deferred
  }

  /** `states` after `d.callback(p)` on each of the first `n` deferreds,
      in list order; the others as they were. */
  function FiredUpTo(states: seq<DeferredState<Protocol>>, n: nat, p: Protocol): seq<DeferredState<Protocol>>
    requires n <= |states|
  {
    seq(|states|, k requires 0 <= k < |states| => if k < n then Step(states[k], Fire(p)) else states[k])
  }

  /** Firing none changes nothing. */
  lemma FiredUpToNone(states: seq<DeferredState<Protocol>>, p: Protocol)
    ensures FiredUpTo(states, 0, p) == states
  {
  }

  /** Firing one more deferred updates its state alone, and not even that
      when it already had a result. */
  lemma FiredUpToNext(states: seq<DeferredState<Protocol>>, n: nat, p: Protocol)
    requires n < |states|
    ensures FiredUpTo(states, n + 1, p) == FiredUpTo(states, n, p)[n := Step(states[n], Fire(p))]
    ensures !states[n].outcome.Waiting? ==> FiredUpTo(states, n + 1, p) == FiredUpTo(states, n, p)
  {
  }

  /** After every deferred is fired with `p`, each one that was waiting has
      succeeded with `p` and its timeout is no longer scheduled, and each
      one that already had a result keeps it. */
  lemma FiredAllOutcomes(states: seq<DeferredState<Protocol>>, p: Protocol, k: nat)
    requires k < |states|
    ensures states[k].outcome.Waiting? ==>
      FiredUpTo(states, |states|, p)[k].outcome == Succeeded(p)
      && FiredUpTo(states, |states|, p)[k].timer != Armed
    ensures !states[k].outcome.Waiting? ==> FiredUpTo(states, |states|, p)[k] == states[k]
  {
  }

  /** One turn of the `addClient` loop as written: `d.callback(p)` on the
      deferred of entry `i`, then, unless that raised, the message goes
      out on `p`. No other listed deferred changes. */
  method Deliver(es: seq<Entry>, i: nat, p: Protocol) returns (raised: bool)
    requires i < |es| && Distinct(es)
    modifies es[i].deferred, p
    ensures raised == !old(States(es))[i].outcome.Waiting?
    ensures States(es) == old(States(es))[i := Step(old(States(es))[i], Fire(p))]
    ensures p.written == if raised then old(p.written) else old(p.written) + es[i].message
  {
    raised := es[i].deferred.Callback(p);
    if !raised {
      p.SendMessage(es[i].message);
    }
  }

  /** `APNSClientFactory`, a `ReconnectingClientFactory`. */
  class ClientFactory {
    /** `_deferred`: the deferreds handed out while no client was live. */
    var pending: seq<Entry>
    /** `clientProtocol`: the live connection, if any. */
    var client: Protocol?
    /** The reconnect attempts counted since the last `resetDelay()`;
        zero stands for the initial reconnect delay. */
    var retries: nat

    /** No deferred is listed twice, and while a client is live nothing
        waits for one. */
    ghost predicate Valid()
      reads this
    {
      && Distinct(pending)
      && (client != null ==> pending == [])
    }

    constructor ()
      ensures Valid() && pending == [] && client == null && retries == 0
    {
      pending, client, retries := [], null, 0;
    }

    /** Reading the `deferred` property: a new deferred at the end of the
        list, earlier entries untouched. `message` is what the callback
        `write` then attaches to it sends. */
    method NewDeferred(message: seq<byte>) returns (d: Deferred<Protocol>)
      requires Valid() && client == null
      modifies this`pending
      ensures Valid() && fresh(d) && d.state == Initial()
      ensures pending == old(pending) + [Entry(d, message)]
    {
      d := new Deferred();
      pending := pending + [Entry(d, message)];
    }

    /** `addClient(p)`, corrected: `p` becomes the live client, every
        listed deferred that is still waiting is fired with `p` in list
        order (so its message goes out on `p`), one whose timeout already
        failed it is skipped, and the list ends empty. */
    method AddClient(p: Protocol)
      requires Valid()
      modifies this`client, this`pending, p, Listed(pending)
      ensures Valid() && client == p && pending == []
      ensures p.written == old(p.written) + Flushed(old(pending), old(States(pending)), |old(pending)|)
      ensures States(old(pending)) == FiredUpTo(old(States(pending)), |old(pending)|, p)
    {
      client := p;
      FireWaiting(p);
      pending := [];
    }

    /** The loop of the corrected `addClient(p)`: each listed deferred that
        is still waiting is fired with `p` and its message goes out on `p`;
        the others are left as they are. */
    method FireWaiting(p: Protocol)
      requires Distinct(pending)
      modifies p, Listed(pending)
      ensures p.written == old(p.written) + Flushed(pending, old(States(pending)), |pending|)
      ensures States(pending) == FiredUpTo(old(States(pending)), |pending|, p)
    {
      ghost var was := States(pending);
      FiredUpToNone(was, p);
      var i := 0;
      while i < |pending|
        invariant 0 <= i <= |pending|
        invariant p.written == old(p.written) + Flushed(pending, was, i)
        invariant States(pending) == FiredUpTo(was, i, p)
      {
        FlushedNext(old(p.written), pending, was, i);
        FiredUpToNext(was, i, p);
        if pending[i].deferred.state.outcome.Waiting? {
          var _ := Deliver(pending, i, p);
        }
        i := i + 1;
      }
    }

    /** The turns of the `addClient(p)` loop as written that do not raise:
        `d.callback(p)` on each listed deferred in order, the message of
        each going out on `p`, up to the first one that already has a
        result. `n` is how far they get: every deferred before it was
        waiting and is now fired, the one at `n` (if any) already had a
        result, and it and the rest are untouched. */
    method CallbackWaiting(p: Protocol) returns (n: nat)
      requires Distinct(pending)
      modifies p, Listed(pending)
      ensures n <= |pending| && WaitingUpTo(old(States(pending)), n)
      ensures n < |pending| ==> !old(States(pending))[n].outcome.Waiting?
      ensures p.written == old(p.written) + Messages(pending, n)
      ensures States(pending) == FiredUpTo(old(States(pending)), n, p)
    {
      var es := pending;
      ghost var was := States(es);
      FiredUpToNone(was, p);
      n := 0;
      while n < |es| && es[n].deferred.state.outcome.Waiting?
        invariant 0 <= n <= |es| && WaitingUpTo(was, n)
        invariant p.written == old(p.written) + Messages(es, n)
        invariant States(es) == FiredUpTo(was, n, p)
      {
        MessagesNext(old(p.written), es, n);
        FiredUpToNext(was, n, p);
        var _ := Deliver(es, n, p);
        n := n + 1;
      }
    }

    /** `addClient(p)` as written: `p` becomes the live client before the
        loop runs, and the list is reset only if the loop runs to the end.
        When a listed deferred's timeout already failed it, the loop's
        `d.callback(p)` on it raises `AlreadyCalledError`: the deferreds
        after it are never fired and stay listed beside a live client. */
    method AddClientAsWritten(p: Protocol) returns (raised: bool, n: nat)
      requires Valid()
      modifies this`client, this`pending, p, Listed(pending)
      ensures n <= |old(pending)| && WaitingUpTo(old(States(pending)), n)
      ensures n < |old(pending)| ==> !old(States(pending))[n].outcome.Waiting?
      ensures client == p
      ensures raised == (n < |old(pending)|)
      ensures pending == if raised then old(pending) else []
      ensures p.written == old(p.written) + Messages(old(pending), n)
      ensures States(old(pending)) == FiredUpTo(old(States(pending)), n, p)
    {
      client := p;
      n := CallbackWaiting(p);
      if n < |pending| {
        // The turn that raises `AlreadyCalledError`: nothing changes and
        // the loop ends.
        ghost var before := States(pending);
        raised := Deliver(pending, n, p);
        assert before[n := before[n]] == before;
      } else {
        raised := false;
        pending := [];
      }
    }

    /** `removeClient(p)`: the list is dropped without firing anything
        (the dropped deferreds' timeouts are still scheduled), and no
        client is live. */
    method RemoveClient()
      modifies this`client, this`pending
      ensures Valid() && client == null && pending == []
      ensures States(old(pending)) == old(States(pending))
    {
      pending := [];
      client := null;
    }

    /** `buildProtocol(addr)`: `resetDelay()`, then a new protocol. */
    method BuildProtocol() returns (p: Protocol)
      modifies this`retries
      ensures fresh(p) && p.written == [] && retries == 0
    {
      retries := 0;
      p := new Protocol();
    }

    /** `ReconnectingClientFactory.retry()`, reached from both
        `clientConnectionLost` and `clientConnectionFailed`: one more
        attempt is counted and another connection is scheduled. */
    method Retry()
      modifies this`retries
      ensures retries == old(retries) + 1
    {
      retries := retries + 1;
    }
  }

  // ---------------------------------------------------------------------
  // The feedback connection

  /** `APNSFeedbackHandler` in raw mode: `io` is its `StringIO`, `open`
      whether that is still open; `chunks` are the pieces received, in
      arrival order. */
  class FeedbackHandler {
    const deferred: Deferred<seq<byte>>
    var io: seq<byte>
    var open: bool
    ghost var chunks: seq<seq<byte>>

    ghost predicate Valid()
      reads this
    {
      io == Concat(chunks)
    }

    constructor (deferred: Deferred<seq<byte>>)
      ensures Valid() && this.deferred == deferred && chunks == [] && open
    {
      this.deferred := deferred;
      io, open, chunks := [], true, [];
    }

    /** `rawDataReceived(data)`: `self.io.write(data)`, which raises
        `ValueError` once the buffer is closed. */
    method DataReceived(data: seq<byte>) returns (raised: bool)
      requires Valid()
      modifies this`io, this`chunks
      ensures Valid() && raised == !open
      ensures chunks == if raised then old(chunks) else old(chunks) + [data]
    {
      raised := !open;
      if !raised {
        chunks := chunks + [data];
        assert chunks[..|chunks| - 1] == old(chunks);
        io := io + data;
      }
    }

    /** `connectionLost(reason)`: `deferred.callback(io.getvalue())`, then
        `io.close()`. `getvalue` on a closed buffer raises `ValueError`,
        `callback` on a deferred the timeout already failed raises
        `AlreadyCalledError`; either leaves the buffer as it is. */
    method ConnectionLost() returns (raised: bool)
      requires Valid()
      modifies this`open, deferred
      ensures Valid()
      ensures raised == (!old(open) || !old(deferred.state).outcome.Waiting?)
      ensures !raised ==> deferred.state == Step(old(deferred.state), Fire(Concat(chunks))) && !open
      ensures !raised ==> deferred.state.outcome == Succeeded(Concat(chunks))
      ensures raised ==> deferred.state == old(deferred.state) && open == old(open)
    {
      if !open {
        return true;
      }
      raised := deferred.Callback(io);
      if !raised {
        open := false;
      }
    }
  }

  /** `APNSFeedbackClientFactory`: one deferred for the one connection. */
  class FeedbackClientFactory {
    const deferred: Deferred<seq<byte>>

    constructor ()
      ensures fresh(deferred) && deferred.state == Initial()
    {
      deferred := new Deferred();
    }

    /** `buildProtocol(addr)`: a raw-mode handler sharing the factory's
        deferred, with an empty buffer. */
    method BuildProtocol() returns (h: FeedbackHandler)
      ensures fresh(h) && h.Valid() && h.deferred == deferred && h.chunks == [] && h.open
    {
      h := new FeedbackHandler(deferred);
    }
  }

  // ---------------------------------------------------------------------
  // The service

  datatype WriteResult =
    | Sent                              // `client.sendMessage(...)` returned: handed to the transport
    | Queued(deferred: Deferred<Protocol>)  // a deferred that fires once a connection is made

  function ClientOf(f: ClientFactory?): set<object>
    reads f
  {
    if f != null && f.client != null then {f.client} else {}
  }

  /** `APNSService`. `dialed` records the `reactor.connectSSL` calls made,
      in order. */
  class Service {
    const environment: string
    const timeout: nat
    var factory: ClientFactory?
    var dialed: seq<Endpoint>

    ghost predicate Valid()
      reads this, factory
    {
      factory != null ==> factory.Valid()
    }

    constructor (environment: string, timeout: nat)
      ensures Valid() && factory == null && dialed == []
      ensures this.environment == environment && this.timeout == timeout
    {
      this.environment, this.timeout := environment, timeout;
      factory, dialed := null, [];
    }

    /** `write(notifications)`. Without a factory, one is created and a
        connection to the gateway is started; later calls reuse it. With a
        live client the bytes are sent at once; otherwise one new deferred
        is queued behind the earlier ones, its timeout scheduled. */
    method Write(message: seq<byte>) returns (r: WriteResult)
      requires Valid()
      modifies this`factory, this`dialed, factory, ClientOf(factory)
      ensures Valid() && factory != null
      ensures old(factory) == null ==>
        && fresh(factory) && factory.retries == 0
        && dialed == old(dialed) + [GatewayEndpoint(environment)]
      ensures old(factory) != null ==>
        factory == old(factory) && dialed == old(dialed) && factory.retries == old(factory.retries)
      ensures old(factory) != null && old(factory.client) != null ==>
        && r == Sent && factory.client == old(factory.client) && factory.pending == []
        && factory.client.written == old(factory.client.written) + message
      ensures old(factory) == null || old(factory.client) == null ==>
        && r.Queued? && fresh(r.deferred) && r.deferred.state == Initial()
        && factory.client == null
        && factory.pending == (if old(factory) == null then [] else old(factory.pending)) + [Entry(r.deferred, message)]
    {
      if factory == null {
        factory := new ClientFactory();
        dialed := dialed + [GatewayEndpoint(environment)];
      }
      var client := factory.client;
      if client != null {
        client.SendMessage(message);
        r := Sent;
      } else {
        var d := factory.NewDeferred(message);
        r := Queued(d);
      }
    }

    /** The reactor's TLS connection to the gateway completes:
        `buildProtocol` (resetting the reconnect delay) and then
        `connectionMade`, which calls `addClient`. Every waiting deferred
        is fired in queue order and its message goes out on the new
        connection. */
    method Connected() returns (p: Protocol)
      requires Valid() && factory != null
      modifies factory, Listed(factory.pending)
      ensures Valid() && fresh(p)
      ensures factory.client == p && factory.pending == [] && factory.retries == 0
      ensures p.written == Flushed(old(factory.pending), old(States(factory.pending)), |old(factory.pending)|)
      ensures States(old(factory.pending)) == FiredUpTo(old(States(factory.pending)), |old(factory.pending)|, p)
    {
      p := factory.BuildProtocol();
      factory.AddClient(p);
    }

    /** The live connection is lost: `connectionLost` calls `removeClient`,
        and the factory's `clientConnectionLost` schedules a reconnect. */
    method ConnectionLost()
      requires Valid() && factory != null
      modifies factory
      ensures Valid() && factory.client == null && factory.pending == []
      ensures factory.retries == old(factory.retries) + 1
    {
      factory.RemoveClient();
      factory.Retry();
    }

    /** A connection attempt fails: `clientConnectionFailed` schedules
        another; the queued deferreds stay queued. */
    method ConnectionFailed()
      requires Valid() && factory != null
      modifies factory`retries
      ensures Valid() && factory.retries == old(factory.retries) + 1
    {
      factory.Retry();
    }

    /** `read()`: a new feedback factory and its deferred, a connection to
        the feedback service, and a timeout for the deferred. */
    method Read() returns (d: Deferred<seq<byte>>, f: FeedbackClientFactory)
      modifies this`dialed
      ensures dialed == old(dialed) + [FeedbackEndpoint(environment)]
      ensures fresh(f) && fresh(d) && f.deferred == d && d.state == Initial()
    {
      f := new FeedbackClientFactory();
      d := f.deferred;
      dialed := dialed + [FeedbackEndpoint(environment)];
    }
  }

  /** Two writes queued before the connection, the first timing out before
      the connection is made: as written, `addClient` raises on the first
      and strands the second, still waiting, in the list beside a live
      client. */
  method AddClientAsWrittenStrands() returns (raised: bool, second: Outcome<Protocol>, left: nat, sent: seq<byte>)
    ensures raised && second == Waiting && left == 2 && sent == []
  {
    var f := new ClientFactory();
    var d1 := f.NewDeferred([1]);
    var d2 := f.NewDeferred([2]);
    d1.Expire();
    var p := new Protocol();
    ghost var es := f.pending;
    ghost var was := States(f.pending);
    assert es == [Entry(d1, [1]), Entry(d2, [2])];
    assert was == [DeferredState(TimedOut, Fired), Initial()];
    var n;
    raised, n := f.AddClientAsWritten(p);
    assert n == 0 && States(es)[1] == was[1];
    second := d2.state.outcome;
    left := |f.pending|;
    sent := p.written;
  }

  /** The same trace with the corrected `addClient`: the timed-out deferred
      is skipped, the second is sent and resolved, and the list is empty. */
  method AddClientSkipsTimedOut() returns (first: Outcome<Protocol>, second: Outcome<Protocol>, left: nat, sent: seq<byte>)
    ensures first == TimedOut && second.Succeeded? && left == 0 && sent == [2]
  {
    var f := new ClientFactory();
    var d1 := f.NewDeferred([1]);
    var d2 := f.NewDeferred([2]);
    d1.Expire();
    var p := new Protocol();
    ghost var es := f.pending;
    ghost var was := States(f.pending);
    assert es == [Entry(d1, [1]), Entry(d2, [2])];
    assert was == [DeferredState(TimedOut, Fired), Initial()];
    assert Flushed(es, was, 1) == [];
    assert Flushed(es, was, 2) == [2];
    f.AddClient(p);
    assert States(es)[0] == was[0] && States(es)[1] == Step(was[1], Fire(p));
    first, second := d1.state.outcome, d2.state.outcome;
    left := |f.pending|;
    sent := p.written;
  }
}
