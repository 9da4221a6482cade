/** What every run of the RPC client keeps. */
module IpcRuns {
  import opened Common
  import opened IpcProtocol

  // ---------------------------------------------------------------- each operation keeps the invariant

  lemma NewProxyKeeps(w: World, id: ProxyId, descriptor: seq<Method>)
    requires Inv(w) && Enabled(w, NewProxy(id, descriptor))
    ensures Inv(Apply(w, NewProxy(id, descriptor)))
  {
    var w' := Apply(w, NewProxy(id, descriptor));
    assert QueueInv(w') && ProxyInv(w') && ReplyInv(w') by { hide CallbackInv, Finished; }
    forall cb | cb in w'.calls
      ensures CallbackOk(w', cb)
    {
      assert CallbackOk(w, cb);
    }
  }

  /** All pending callbacks of a proxy are rejected; the proxy is gone or has none left. */
  ghost predicate Rejected(w: World, id: ProxyId, w': World) {
    && id in w.proxies && !(w.replying.Some? && w.replying.value.request.proxy == id)
    && w'.calls == RejectAll(w.calls, w.proxies[id].pending)
    && w'.home == w.home && w'.replying == w.replying
    && w'.proxies.Keys <= w.proxies.Keys
    && (id in w'.proxies ==> w'.proxies[id].pending == map[])
    && (forall p :: p in w.proxies && p != id ==> p in w'.proxies && w'.proxies[p] == w.proxies[p])
  }

  lemma RejectAllKeeps(w: World, id: ProxyId, w': World)
    requires ProxyInv(w) && CallbackInv(w) && Rejected(w, id, w')
    ensures CallbackInv(w')
    ensures forall cb :: cb in w.calls && cb !in w.proxies[id].pending.Values ==> w'.calls[cb] == w.calls[cb]
  {
    hide ProxyInv, CallbackOk;
    forall cb | cb in w'.calls
      ensures CallbackOk(w', cb)
    {
      RejectKeepsCallback(w, id, w', cb);
    }
  }

  lemma RejectKeepsCallback(w: World, id: ProxyId, w': World, cb: CallbackId)
    requires ProxyInv(w) && CallbackInv(w) && Rejected(w, id, w') && cb in w'.calls
    ensures CallbackOk(w', cb)
  {
    hide ProxyInv, CallbackInv;
    if cb in w.proxies[id].pending.Values {
      HeldIsUnfinished(w, id, cb);
      RejectedIsFinished(w, w', id, cb);
    } else {
      NotRejectedIsOk(w, id, w', cb);
    }
  }

  lemma RejectedIsFinished(w: World, w': World, id: ProxyId, cb: CallbackId)
    requires Rejected(w, id, w') && cb in w.calls && CallbackOk(w, cb) && !Finished(w.calls[cb])
    requires cb in w.proxies[id].pending.Values && cb in w.home && w.home[cb].0 == id
    ensures CallbackOk(w', cb)
  {
  }

  lemma NotRejectedIsOk(w: World, id: ProxyId, w': World, cb: CallbackId)
    requires CallbackInv(w) && Rejected(w, id, w') && cb in w'.calls && cb !in w.proxies[id].pending.Values
    ensures CallbackOk(w', cb)
  {
    hide WellFormed, Finished;
    assert CallbackOk(w, cb);
  }

  /** A callback held by a proxy that is not being replied to has not had its final result. */
  lemma HeldIsUnfinished(w: World, id: ProxyId, cb: CallbackId)
    requires ProxyInv(w) && CallbackInv(w) && id in w.proxies && cb in w.proxies[id].pending.Values
    requires !(w.replying.Some? && w.replying.value.request.proxy == id)
    ensures cb in w.home && w.home[cb].0 == id && cb in w.calls && CallbackOk(w, cb) && !Finished(w.calls[cb])
  {
    var requestId :| requestId in w.proxies[id].pending && w.proxies[id].pending[requestId] == cb;
    assert PendingOk(w, id, requestId) && CallbackOk(w, cb);
  }

  lemma DestroyProxyKeeps(w: World, id: ProxyId)
    requires Inv(w) && Enabled(w, DestroyProxy(id))
    ensures Inv(Apply(w, DestroyProxy(id)))
  {
    hide QueueInv, ProxyInv, ReplyInv, CallbackInv, RejectAll;
    var w' := Apply(w, DestroyProxy(id));
    RejectAllKeeps(w, id, w');
    RejectedAreFiled(w, id, w');
  }

  /** The ledgers without the callbacks of a proxy that has gone or was disconnected. */
  lemma RejectedAreFiled(w: World, id: ProxyId, w': World)
    requires Inv(w) && Rejected(w, id, w') && w'.born == w.born && w'.disconnects <= w.disconnects
    requires w'.client.queued == w.client.queued && w'.client.lastRequestId == w.client.lastRequestId
    requires w'.client.alive == w.client.alive && w'.client.disconnectSeen == w.client.disconnectSeen
    requires id in w'.proxies ==> w'.proxies[id].dropped && w.client.disconnectSeen
    ensures QueueInv(w') && ProxyInv(w') && ReplyInv(w')
  {
    hide RejectAll, CallbackOk, WellFormed, Finished;
    RejectAllKeeps(w, id, w');
    forall p, q: RequestId | p in w'.proxies && q in w'.proxies[p].pending
      ensures PendingOk(w', p, q) && w'.calls[w.proxies[p].pending[q]] == w.calls[w.proxies[p].pending[q]]
    {
      assert PendingOk(w, p, q);
      NotHeldTwice(w, id, p, q);
    }
  }

  lemma NotHeldTwice(w: World, id: ProxyId, p: ProxyId, q: RequestId)
    requires ProxyInv(w) && id in w.proxies && p in w.proxies && p != id && q in w.proxies[p].pending
    ensures w.proxies[p].pending[q] !in w.proxies[id].pending.Values
  {
    assert PendingOk(w, p, q);
    assert forall r :: r in w.proxies[id].pending ==> PendingOk(w, id, r);
  }

  lemma ProxyDisconnectKeeps(w: World, task: (ServiceId, ProxyId))
    requires Inv(w) && Enabled(w, ProxyDisconnect(task))
    ensures Inv(Apply(w, ProxyDisconnect(task)))
  {
    var w' := Apply(w, ProxyDisconnect(task));
    assert w.client.disconnectSeen;
    hide QueueInv, ProxyInv, ReplyInv, CallbackInv, RejectAll;
    if task.1 in w.proxies {
      RejectAllKeeps(w, task.1, w');
      RejectedAreFiled(w, task.1, w');
    } else {
      FewerDisconnectsKeep(w, w');
    }
  }

  lemma FewerDisconnectsKeep(w: World, w': World)
    requires Inv(w) && w'.disconnects <= w.disconnects && w' == w.(disconnects := w'.disconnects)
    ensures Inv(w')
  {
    hide Finished, WellFormed;
    forall cb | cb in w'.calls
      ensures CallbackOk(w', cb)
    {
      assert CallbackOk(w, cb);
    }
    forall p, q: RequestId | p in w'.proxies && q in w'.proxies[p].pending
      ensures PendingOk(w', p, q)
    {
      assert PendingOk(w, p, q);
    }
  }

  /** A client that only learned of new bind requests. */
  predicate BindsMore(c: Client, c': Client, live: set<ProxyId>) {
    && c'.alive == c.alive && c'.disconnectSeen == c.disconnectSeen
    && c.lastRequestId <= c'.lastRequestId
    && (forall id :: id in c.queued ==> id in c'.queued && c'.queued[id] == c.queued[id])
    && (forall id :: id in c'.queued && id !in c.queued ==>
          c'.queued[id].BindRequest? && c'.queued[id].proxy in live && c.lastRequestId < id <= c'.lastRequestId)
  }

  lemma BindsMoreKeeps(w: World, c': Client)
    requires Inv(w) && BindsMore(w.client, c', w.proxies.Keys)
    ensures Inv(w.(client := c'))
  {
  }

  lemma {:induction false} DrainBindsMore(c: Client, live: set<ProxyId>, proxies: seq<ProxyId>, sent: seq<bool>)
    requires forall id :: id in c.queued ==> id <= c.lastRequestId
    requires c.lastRequestId + |proxies| < TWO_TO_THE_64
    ensures BindsMore(c, ClientDrainBindings(c, live, proxies, sent), live)
    decreases |proxies|
  {
    if proxies != [] {
      var ok := sent != [] && sent[0] && c.connected;
      var c' := if proxies[0] in live then ClientBind(c, proxies[0], ok) else c;
      assert BindsMore(c, c', live);
      DrainBindsMore(c', live, proxies[1..], if sent == [] then [] else sent[1..]);
    }
  }

  lemma BindKeeps(w: World, id: ProxyId, sent: bool)
    requires Inv(w) && IdsLeft(w) && Enabled(w, Bind(id, sent))
    ensures Inv(Apply(w, Bind(id, sent)))
  {
    if id in w.proxies {
      BindsMoreKeeps(w, ClientBind(w.client, id, sent));
    }
  }

  lemma ConnectedKeeps(w: World, sends: seq<bool>)
    requires Inv(w) && IdsLeft(w) && Enabled(w, Connected(sends))
    ensures Inv(Apply(w, Connected(sends)))
  {
    var c := w.client.(connected := true, queuedBindings := []);
    DrainBindsMore(c, w.proxies.Keys, w.client.queuedBindings, sends);
    BindsMoreKeeps(w, ClientDrainBindings(c, w.proxies.Keys, w.client.queuedBindings, sends));
  }

  /** An invocation that does not reach the host: its callback is rejected at once. */
  lemma RejectedInvokeKeeps(w: World, c': Client, cb: Option<CallbackId>)
    requires Inv(w) && (cb.Some? ==> cb.value !in w.calls)
    requires c'.alive == w.client.alive && c'.disconnectSeen == w.client.disconnectSeen
    requires c'.queued == w.client.queued && w.client.lastRequestId <= c'.lastRequestId
    ensures var calls := if cb.Some? then w.calls[cb.value := []] else w.calls;
            Inv(w.(client := c', calls := Reject(calls, cb)))
  {
    assert cb.Some? ==> cb.value !in w.home;
  }

  /** An invocation has been sent: the request and its callback are filed under the same new id. */
  ghost predicate Filed(w: World, w': World, id: ProxyId, name: string, cb: CallbackId) {
    var requestId := w.client.lastRequestId + 1;
    && id in w.proxies && cb !in w.calls
    && w'.client.alive == w.client.alive && w'.client.disconnectSeen == w.client.disconnectSeen
    && w'.client.lastRequestId == requestId
    && w'.client.queued == w.client.queued[requestId := InvokeRequest(id, name)]
    && w'.proxies == w.proxies[id := w.proxies[id].(pending := w.proxies[id].pending[requestId := cb])]
    && w'.calls == w.calls[cb := []]
    && w'.home == w.home[cb := (id, requestId)]
    && w'.born == w.born && w'.disconnects == w.disconnects
    && w'.replying == w.replying && w'.unexpectedReply == w.unexpectedReply
  }

  lemma FiledKeepsQueue(w: World, w': World, id: ProxyId, name: string, cb: CallbackId)
    requires QueueInv(w) && ProxyInv(w) && CallbackInv(w) && Filed(w, w', id, name, cb)
    ensures QueueInv(w') && ProxyInv(w')
  {
    hide CallbackOk;
    assert cb !in w.home;
    forall p, r: RequestId | p in w'.proxies && r in w'.proxies[p].pending
      ensures PendingOk(w', p, r)
    {
      if r in w.proxies[p].pending {
        assert PendingOk(w, p, r);
      }
    }
  }

  lemma FiledKeepsReply(w: World, w': World, id: ProxyId, name: string, cb: CallbackId)
    requires ProxyInv(w) && ReplyInv(w) && Filed(w, w', id, name, cb)
    ensures ReplyInv(w')
  {
  }

  lemma FiledKeepsCallbacks(w: World, w': World, id: ProxyId, name: string, cb: CallbackId)
    requires ProxyInv(w) && CallbackInv(w) && Filed(w, w', id, name, cb)
    ensures CallbackInv(w')
  {
    forall other | other in w'.calls
      ensures CallbackOk(w', other)
    {
      if other != cb {
        assert CallbackOk(w, other);
      }
    }
  }

  lemma FiledKeeps(w: World, w': World, id: ProxyId, name: string, cb: CallbackId)
    requires Inv(w) && Filed(w, w', id, name, cb)
    ensures Inv(w')
  {
    hide QueueInv, ProxyInv, ReplyInv, CallbackInv;
    FiledKeepsQueue(w, w', id, name, cb);
    FiledKeepsReply(w, w', id, name, cb);
    FiledKeepsCallbacks(w, w', id, name, cb);
  }

  lemma InvokeKeeps(w: World, id: ProxyId, name: string, cb: Option<CallbackId>, sent: bool)
    requires Inv(w) && IdsLeft(w) && Enabled(w, Invoke(id, name, cb, sent))
    ensures Inv(Apply(w, Invoke(id, name, cb, sent)))
  {
    hide Inv;
    var p, w' := w.proxies[id], Apply(w, Invoke(id, name, cb, sent));
    var requestId := NextId(w.client.lastRequestId);
    assert requestId == w.client.lastRequestId + 1;
    assert w.proxies[id := p] == w.proxies;
    if p.serviceId == 0 || !p.hasClient || !w.client.alive || name !in p.methods {
      RejectedInvokeKeeps(w, w.client, cb);
    } else if !sent || cb.None? {
      RejectedInvokeKeeps(w, Sent(w.client, sent), cb);
    } else {
      assert requestId !in w.client.queued && requestId !in p.pending by { NewIdIsUnused(w, id); }
      assert Filed(w, w', id, name, cb.value);
      FiledKeeps(w, w', id, name, cb.value);
    }
  }

  /** Request ids are never reused: the next one is in no queue and in no proxy. */
  lemma NewIdIsUnused(w: World, id: ProxyId)
    requires Inv(w) && IdsLeft(w) && id in w.proxies
    ensures NextId(w.client.lastRequestId) == w.client.lastRequestId + 1
    ensures NextId(w.client.lastRequestId) !in w.client.queued
    ensures NextId(w.client.lastRequestId) !in w.proxies[id].pending
  {
  }

  /** Nothing changes for the callbacks when requests leave the queue or a proxy is bound anew. */
  lemma SameLedgersKeep(w: World, w': World)
    requires Inv(w)
    requires w'.client.alive == w.client.alive && w'.client.disconnectSeen == w.client.disconnectSeen
    requires w'.client.lastRequestId == w.client.lastRequestId
    requires forall id :: id in w'.client.queued ==>
             id in w.client.queued && w'.client.queued[id] == w.client.queued[id]
    requires w'.proxies.Keys == w.proxies.Keys
    requires forall p :: p in w.proxies ==>
               w'.proxies[p].pending == w.proxies[p].pending && w'.proxies[p].dropped == w.proxies[p].dropped
    requires w'.calls == w.calls && w'.home == w.home && w'.born == w.born && w'.disconnects == w.disconnects
    requires w'.replying == w.replying && w'.unexpectedReply == w.unexpectedReply
    ensures Inv(w')
  {
  }

  lemma BindReplyKeeps(w: World, requestId: RequestId, reply: Msg)
    requires Inv(w) && requestId in w.client.queued && w.client.queued[requestId].BindRequest?
    requires reply.BindReply?
    ensures Inv(Received(w, Frame(requestId, reply)))
  {
    hide Inv, BindReplied, InvokeReplied;
    var w1 := w.(client := w.client.(queued := w.client.queued - {requestId}));
    SameLedgersKeep(w, w1);
    BoundKeeps(w1, w.client.queued[requestId].proxy, reply);
  }

  lemma BoundKeeps(w: World, id: ProxyId, reply: Msg)
    requires Inv(w) && reply.BindReply?
    ensures Inv(BindReplied(w, id, reply))
  {
    hide Inv, MethodMap;
    SameLedgersKeep(w, BindReplied(w, id, reply));
  }

  /** The callback that a proxy holds under the request id is called with a result. */
  ghost predicate Called(w: World, w': World, requestId: RequestId, request: Request, result: AsyncResult) {
    && request.InvokeRequest? && request.proxy in w.proxies && requestId in w.proxies[request.proxy].pending
    && requestId !in w.client.queued && w.replying.None? && w.client.alive && !w.client.disconnectSeen
    && var cb := w.proxies[request.proxy].pending[requestId];
       cb in w.calls && w' == w.(replying := Some(Replying(requestId, request, result.hasMore)),
                                 calls := Call(w.calls, cb, result))
  }

  lemma CalledKeepsReply(w: World, w': World, requestId: RequestId, request: Request, result: AsyncResult)
    requires QueueInv(w) && ProxyInv(w) && Called(w, w', requestId, request, result)
    ensures QueueInv(w') && ProxyInv(w') && ReplyInv(w')
  {
    assert PendingOk(w, request.proxy, requestId);
    forall p, id: RequestId | p in w'.proxies && id in w'.proxies[p].pending
      ensures PendingOk(w', p, id)
    {
      assert PendingOk(w, p, id);
    }
  }

  lemma CalledKeepsCallbacks(w: World, w': World, requestId: RequestId, request: Request, result: AsyncResult)
    requires ProxyInv(w) && CallbackInv(w) && Called(w, w', requestId, request, result)
    ensures CallbackInv(w')
  {
    var cb := w.proxies[request.proxy].pending[requestId];
    assert PendingOk(w, request.proxy, requestId);
    forall other | other in w'.calls
      ensures CallbackOk(w', other)
    {
      assert CallbackOk(w, other);
    }
  }

  lemma CalledKeeps(w: World, w': World, requestId: RequestId, request: Request, result: AsyncResult)
    requires Inv(w) && Called(w, w', requestId, request, result)
    ensures Inv(w')
  {
    hide QueueInv, ProxyInv, ReplyInv, CallbackInv;
    CalledKeepsReply(w, w', requestId, request, result);
    CalledKeepsCallbacks(w, w', requestId, request, result);
  }

  /** A reply to a queued invocation of a live proxy finds its callback and calls it. */
  lemma InvokeReplyKeeps(w: World, requestId: RequestId, reply: Msg)
    requires Inv(w) && requestId in w.client.queued && w.client.queued[requestId].InvokeRequest?
    requires reply.InvokeReply? && w.replying.None? && w.client.alive && !w.client.disconnectSeen
    ensures Inv(Received(w, Frame(requestId, reply)))
  {
    hide Inv, Decode, Call;
    var request, w' := w.client.queued[requestId], Received(w, Frame(requestId, reply));
    var w1 := w.(client := w.client.(queued := w.client.queued - {requestId}));
    SameLedgersKeep(w, w1);
    if request.proxy in w.proxies {
      AwaitedIsHeld(w, requestId);
      CalledKeeps(w1, w', requestId, request, ReplyResult(w.proxies[request.proxy], request.methodName, reply));
    }
  }

  lemma AwaitedIsHeld(w: World, requestId: RequestId)
    requires Inv(w) && requestId in w.client.queued && w.client.queued[requestId].InvokeRequest?
    requires !w.client.disconnectSeen && w.client.queued[requestId].proxy in w.proxies
    ensures var p := w.proxies[w.client.queued[requestId].proxy];
            requestId in p.pending && p.pending[requestId] in w.calls
  {
    hide CallbackInv, ReplyInv;
    assert requestId in w.proxies[w.client.queued[requestId].proxy].pending;
    assert PendingOk(w, w.client.queued[requestId].proxy, requestId);
  }

  lemma ReceiveKeeps(w: World, frame: Frame)
    requires Inv(w) && Enabled(w, Receive(frame))
    ensures Inv(Apply(w, Receive(frame)))
  {
    if frame.requestId in w.client.queued {
      var request := w.client.queued[frame.requestId];
      if request.BindRequest? && frame.msg.BindReply? {
        BindReplyKeeps(w, frame.requestId, frame.msg);
      } else if request.InvokeRequest? && frame.msg.InvokeReply? {
        InvokeReplyKeeps(w, frame.requestId, frame.msg);
      }
    }
  }

  lemma ReplyDoneKeeps(w: World)
    requires Inv(w) && Enabled(w, ReplyDone)
    ensures Inv(Apply(w, ReplyDone))
  {
    hide QueueInv, ProxyInv, ReplyInv, CallbackInv;
    ReplyDoneKeepsFiled(w);
    ReplyDoneKeepsCallbacks(w);
  }

  lemma ReplyDoneKeepsFiled(w: World)
    requires Inv(w) && w.replying.Some?
    ensures QueueInv(ReplyCompleted(w)) && ProxyInv(ReplyCompleted(w)) && ReplyInv(ReplyCompleted(w))
  {
    hide CallbackInv, Finished;
    var r, w' := w.replying.value, ReplyCompleted(w);
    assert PendingOk(w, r.request.proxy, r.requestId);
    forall p, id: RequestId | p in w'.proxies && id in w'.proxies[p].pending
      ensures PendingOk(w', p, id)
    {
      assert PendingOk(w, p, id);
    }
  }

  lemma ReplyDoneKeepsCallbacks(w: World)
    requires Inv(w) && w.replying.Some?
    ensures CallbackInv(ReplyCompleted(w))
  {
    hide QueueInv, WellFormed;
    var r, w' := w.replying.value, ReplyCompleted(w);
    assert PendingOk(w, r.request.proxy, r.requestId);
    forall other | other in w'.calls
      ensures CallbackOk(w', other)
    {
      assert CallbackOk(w, other);
    }
  }

  /** No connection, or no more: only the client is affected. */
  lemma ConnectionLostKeeps(w: World, op: Op)
    requires Inv(w) && Enabled(w, op) && (op == ConnectFailed || op == ConnectionLost)
    ensures Inv(Apply(w, op))
  {
    hide Inv;
    SameLedgersKeep(w, Apply(w, op));
  }

  /** The client is told of the disconnection, or destroyed: nothing changes for the callbacks yet. */
  lemma DisconnectKeeps(w: World, w': World)
    requires Inv(w) && w.replying.None? && w'.replying.None?
    requires w'.client.disconnectSeen && w'.client.lastRequestId == w.client.lastRequestId
    requires forall id :: id in w'.client.queued ==>
             id in w.client.queued && w'.client.queued[id] == w.client.queued[id]
    requires w'.proxies == w.proxies && w'.calls == w.calls && w'.home == w.home && w'.born == w.born
    requires w'.unexpectedReply == w.unexpectedReply
    ensures Inv(w')
  {
  }

  /** Every operation keeps the invariant, as long as the request counter is not exhausted. */
  lemma StepKeeps(w: World, op: Op)
    requires Inv(w) && IdsLeft(w) && Enabled(w, op)
    ensures Inv(Apply(w, op))
  {
    hide Inv, InvokeOn, Received, ReplyCompleted, ClientDrainBindings, ClientBind, RejectAll;
    match op
    case NewProxy(id, descriptor) => NewProxyKeeps(w, id, descriptor);
    case DestroyProxy(id) => DestroyProxyKeeps(w, id);
    case Bind(id, sent) => BindKeeps(w, id, sent);
    case Invoke(id, name, cb, sent) => InvokeKeeps(w, id, name, cb, sent);
    case Receive(frame) => ReceiveKeeps(w, frame);
    case ReplyDone => ReplyDoneKeeps(w);
    case Connected(sends) => ConnectedKeeps(w, sends);
    case ConnectFailed => ConnectionLostKeeps(w, op);
    case ConnectionLost => ConnectionLostKeeps(w, op);
    case ClientDisconnect => DisconnectKeeps(w, Apply(w, op));
    case ProxyDisconnect(task) => ProxyDisconnectKeeps(w, task);
    case DestroyClient => DisconnectKeeps(w, Apply(w, op));
  }

  // ---------------------------------------------------------------- runs

  /** The operations can happen one after the other, and never exhaust the request counter. */
  predicate CanRun(w: World, ops: seq<Op>)
    decreases |ops|
  {
    ops == [] || (Enabled(w, ops[0]) && IdsLeft(w) && CanRun(Apply(w, ops[0]), ops[1..]))
  }

  function Run(w: World, ops: seq<Op>): World
    requires CanRun(w, ops)
    decreases |ops|
  {
    if ops == [] then w else Run(Apply(w, ops[0]), ops[1..])
  }

  lemma {:induction false} RunKeeps(w: World, ops: seq<Op>)
    requires Inv(w) && CanRun(w, ops)
    ensures Inv(Run(w, ops))
    decreases |ops|
  {
    hide Inv, Enabled, Apply, IdsLeft;
    if ops != [] {
      StepKeeps(w, ops[0]);
      RunKeeps(Apply(w, ops[0]), ops[1..]);
    }
  }

  /** From a fresh client every reachable state satisfies the invariant. */
  lemma ReachableInv(ops: seq<Op>)
    requires CanRun(START, ops)
    ensures Inv(Run(START, ops))
  {
    assert Inv(START);
    RunKeeps(START, ops);
  }

  // ---------------------------------------------------------------- what the invariant gives

  /** In no run does a reply find a live proxy without the callback it is for. */
  lemma NoUnexpectedReply(ops: seq<Op>)
    requires CanRun(START, ops)
    ensures !Run(START, ops).unexpectedReply
  {
    ReachableInv(ops);
  }

  /** The callback that is being called keeps its place while user code runs. */
  ghost predicate StillReplying(w: World, w': World) {
    && w.replying.Some? && w'.replying == w.replying
    && var r := w.replying.value;
       && r.request.proxy in w.proxies && r.requestId in w.proxies[r.request.proxy].pending
       && var cb := w.proxies[r.request.proxy].pending[r.requestId];
          Owns(w', r.request.proxy, r.requestId, cb) && cb in w.calls && cb in w'.calls && w'.calls[cb] == w.calls[cb]
  }

  lemma StepWhileReplying(w: World, op: Op)
    requires Inv(w) && IdsLeft(w) && Enabled(w, op) && w.replying.Some? && !op.ReplyDone?
    ensures StillReplying(w, Apply(w, op))
  {
    hide QueueInv, CallbackInv, Finished, ClientDrainBindings;
    var r := w.replying.value;
    assert PendingOk(w, r.request.proxy, r.requestId);
    match op
    case Invoke(id, name, cb, sent) => InvokedWhileReplying(w, id, name, cb, sent);
    case DestroyProxy(id) =>
      forall q: RequestId | q in w.proxies[id].pending
        ensures w.proxies[id].pending[q] != w.proxies[r.request.proxy].pending[r.requestId]
      {
        assert PendingOk(w, id, q);
      }
    case _ =>
  }

  lemma InvokedWhileReplying(w: World, id: ProxyId, name: string, cb: Option<CallbackId>, sent: bool)
    requires Inv(w) && IdsLeft(w) && Enabled(w, Invoke(id, name, cb, sent)) && w.replying.Some?
    ensures StillReplying(w, Apply(w, Invoke(id, name, cb, sent)))
  {
    hide QueueInv, CallbackInv, Finished;
    NewIdIsUnused(w, id);
  }

  lemma {:induction false} RunWhileReplying(w: World, ops: seq<Op>)
    requires Inv(w) && CanRun(w, ops) && w.replying.Some? && forall i :: 0 <= i < |ops| ==> !ops[i].ReplyDone?
    ensures Inv(Run(w, ops)) && StillReplying(w, Run(w, ops))
    decreases |ops|
  {
    hide QueueInv, CallbackInv, Finished, Enabled, Apply, IdsLeft;
    if ops != [] {
      StepWhileReplying(w, ops[0]);
      StepKeeps(w, ops[0]);
      RunWhileReplying(Apply(w, ops[0]), ops[1..]);
    }
  }

  /**
   In every reachable state a reply to a queued invocation of a live proxy calls the callback that
   was handed to the very invocation that got this request id, with the decoded reply, and calls
   no other callback. Whatever the callback does in between, completing the reply then queues the
   request again and keeps the callback if more is announced, and drops both otherwise.
   */
  lemma ReplyReachesItsCallback(ops: seq<Op>, frame: Frame, during: seq<Op>)
    requires CanRun(START, ops)
    requires var w := Run(START, ops);
             && Enabled(w, Receive(frame)) && IdsLeft(w) && frame.msg.InvokeReply?
             && frame.requestId in w.client.queued && w.client.queued[frame.requestId].InvokeRequest?
             && w.client.queued[frame.requestId].proxy in w.proxies
             && CanRun(Apply(w, Receive(frame)), during)
    requires forall i :: 0 <= i < |during| ==> !during[i].ReplyDone?
    ensures var w := Run(START, ops);
            var request := w.client.queued[frame.requestId];
            var w' := Apply(w, Receive(frame));
            var w2 := Run(w', during);
            && Enabled(w2, ReplyDone)
            && exists cb :: Delivered(w, w', w2, request, frame, cb)
  {
    ReachableInv(ops);
    var w := Run(START, ops);
    var request := w.client.queued[frame.requestId];
    var cb := w.proxies[request.proxy].pending[frame.requestId];
    assert PendingOk(w, request.proxy, frame.requestId);
    ReplyDelivered(w, frame, request, cb, during);
  }

  /** The result has the message that the method of this name decodes, if the reply is a success. */
  ghost predicate IsReply(descriptor: seq<Method>, name: string, reply: Msg, r: AsyncResult)
    requires reply.InvokeReply?
  {
    && r.hasMore == reply.hasMore
    && if reply.success then DecodedBy(descriptor, name, reply.proto, r.msg) else r.msg == None
  }

  lemma ReplyResultIs(p: Proxy, name: string, reply: Msg)
    requires reply.InvokeReply?
    ensures IsReply(p.descriptor, name, reply, ReplyResult(p, name, reply))
  {
    hide Decode, DecodedBy;
    DecodeIsByFirst(p.descriptor, name, reply.proto);
  }

  /** The callback gets the reply; afterwards it and the request stay exactly if more is announced. */
  ghost predicate Delivered(w: World, w': World, w2: World, request: Request, frame: Frame, cb: CallbackId)
    requires frame.msg.InvokeReply? && request.InvokeRequest? && request.proxy in w.proxies && Enabled(w2, ReplyDone)
  {
    var w3 := Apply(w2, ReplyDone);
    && cb in w.calls && cb in w.home && w.home[cb] == (request.proxy, frame.requestId)
    && cb in w'.calls && |w'.calls[cb]| == |w.calls[cb]| + 1
    && (var r := w'.calls[cb][|w.calls[cb]|];
        && w'.calls == w.calls[cb := w.calls[cb] + [r]]
        && IsReply(w.proxies[request.proxy].descriptor, request.methodName, frame.msg, r))
    && cb in w2.calls && w2.calls[cb] == w'.calls[cb] && w3.calls == w2.calls
    && frame.requestId !in w2.client.queued
    && w3.client.queued == (if frame.msg.hasMore then w2.client.queued[frame.requestId := request]
       else w2.client.queued)
    && (frame.msg.hasMore <==> Owns(w3, request.proxy, frame.requestId, cb))
  }

  lemma ReplyDelivered(w: World, frame: Frame, request: Request, cb: CallbackId, during: seq<Op>)
    requires Inv(w) && Enabled(w, Receive(frame)) && IdsLeft(w) && frame.msg.InvokeReply? && request.InvokeRequest?
    requires frame.requestId in w.client.queued && w.client.queued[frame.requestId] == request
    requires Owns(w, request.proxy, frame.requestId, cb) && cb in w.calls && cb in w.home
    requires w.home[cb] == (request.proxy, frame.requestId)
    requires CanRun(Apply(w, Receive(frame)), during) && forall i :: 0 <= i < |during| ==> !during[i].ReplyDone?
    ensures var w' := Apply(w, Receive(frame));
            var w2 := Run(w', during);
            Enabled(w2, ReplyDone) && Delivered(w, w', w2, request, frame, cb)
  {
    hide Inv, CanRun, Run, Apply, ReplyResult, IsReply;
    ReplyResultIs(w.proxies[request.proxy], request.methodName, frame.msg);
    AnswerCalls(w, frame, request, cb);
    StepKeeps(w, Receive(frame));
    RunWhileReplying(Apply(w, Receive(frame)), during);
    AnswerCompleted(Run(Apply(w, Receive(frame)), during), cb);
  }

  lemma AnswerCalls(w: World, frame: Frame, request: Request, cb: CallbackId)
    requires Enabled(w, Receive(frame)) && frame.msg.InvokeReply? && request.InvokeRequest? && cb in w.calls
    requires frame.requestId in w.client.queued && w.client.queued[frame.requestId] == request
    requires Owns(w, request.proxy, frame.requestId, cb)
    ensures var w' := Apply(w, Receive(frame));
            && w'.replying == Some(Replying(frame.requestId, request, frame.msg.hasMore))
            && w'.calls == Call(w.calls, cb, ReplyResult(w.proxies[request.proxy], request.methodName, frame.msg))
            && Owns(w', request.proxy, frame.requestId, cb)
  {
    hide ReplyResult, Call;
  }

  lemma AnswerCompleted(w: World, cb: CallbackId)
    requires Inv(w) && w.replying.Some? && Owns(w, w.replying.value.request.proxy, w.replying.value.requestId, cb)
    ensures var r, w' := w.replying.value, Apply(w, ReplyDone);
            && w'.calls == w.calls && r.requestId !in w.client.queued
            && w'.client.queued == (if r.hasMore then w.client.queued[r.requestId := r.request] else w.client.queued)
            && (r.hasMore <==> Owns(w', r.request.proxy, r.requestId, cb))
  {
    hide QueueInv, ProxyInv, CallbackInv, Finished;
  }

  /**
   Conservation: in every reachable state a callback that was handed to an invocation either has
   been given its final result, or is held by exactly one proxy under exactly one request id.
   */
  lemma CallbackIsOwnedOrFinished(ops: seq<Op>, cb: CallbackId)
    requires CanRun(START, ops) && cb in Run(START, ops).calls
    ensures var w := Run(START, ops);
            && WellFormed(w.calls[cb])
            && (!Finished(w.calls[cb]) ==> exists p, r :: Owns(w, p, r, cb))
            && (Finished(w.calls[cb]) && w.replying.None? ==> forall p, r :: !Owns(w, p, r, cb))
            && (forall p, r, p', r' :: Owns(w, p, r, cb) && Owns(w, p', r', cb) ==> p == p' && r == r')
  {
    ReachableInv(ops);
    var w := Run(START, ops);
    assert CallbackOk(w, cb);
    forall p: ProxyId, r: RequestId | Owns(w, p, r, cb)
      ensures w.home[cb] == (p, r)
    {
    }
  }

  /** Results only ever accumulate, and a finished callback is never called again. */
  ghost predicate OnlyAdds(calls: Results, calls': Results, cb: CallbackId)
    requires cb in calls
  {
    cb in calls' && calls[cb] <= calls'[cb] && (Finished(calls[cb]) ==> calls'[cb] == calls[cb])
  }

  lemma SameOnlyAdds(calls: Results, calls': Results, cb: CallbackId)
    requires cb in calls && calls' == calls
    ensures OnlyAdds(calls, calls', cb)
  {
  }

  lemma RejectedOnce(w: World, id: ProxyId, cb: CallbackId)
    requires Inv(w) && id in w.proxies && cb in w.calls
    requires !(w.replying.Some? && w.replying.value.request.proxy == id)
    ensures OnlyAdds(w.calls, RejectAll(w.calls, w.proxies[id].pending), cb)
  {
    hide QueueInv, ReplyInv, CallbackOk;
    if cb in w.proxies[id].pending.Values {
      HeldIsUnfinished(w, id, cb);
    }
  }

  lemma InvokeOnlyAdds(w: World, id: ProxyId, name: string, cb': Option<CallbackId>, sent: bool, cb: CallbackId)
    requires Enabled(w, Invoke(id, name, cb', sent)) && cb in w.calls
    ensures OnlyAdds(w.calls, InvokeOn(w, id, name, cb', sent).calls, cb)
  {
    hide ClientBeginInvoke;
  }

  lemma ReceiveOnlyAdds(w: World, frame: Frame, cb: CallbackId)
    requires Inv(w) && Enabled(w, Receive(frame)) && cb in w.calls
    ensures OnlyAdds(w.calls, Received(w, frame).calls, cb)
  {
    hide ReplyResult, QueueInv, ReplyInv;
    var id := frame.requestId;
    if id in w.client.queued && w.client.queued[id].InvokeRequest? && w.client.queued[id].proxy in w.proxies &&
       id in w.proxies[w.client.queued[id].proxy].pending {
      assert PendingOk(w, w.client.queued[id].proxy, id);
      assert CallbackOk(w, cb);
    }
  }

  lemma CallsStay(w: World, op: Op)
    requires Enabled(w, op) && !op.DestroyProxy? && !op.ProxyDisconnect? && !op.Invoke? && !op.Receive?
    ensures Apply(w, op).calls == w.calls
  {
    hide ClientBind, ClientDrainBindings, ClientOnDisconnect, ReplyCompleted, InvokeOn, Received, RejectAll;
    if op.ReplyDone? {
      CompletedCallsNothing(w);
    }
  }

  lemma CompletedCallsNothing(w: World)
    requires w.replying.Some?
    ensures ReplyCompleted(w).calls == w.calls
  {
    hide Emplace;
  }

  lemma StepOnlyAdds(w: World, op: Op, cb: CallbackId)
    requires Inv(w) && IdsLeft(w) && Enabled(w, op) && cb in w.calls
    ensures OnlyAdds(w.calls, Apply(w, op).calls, cb)
  {
    hide Inv, InvokeOn, Received, RejectAll, OnlyAdds;
    if op.DestroyProxy? {
      RejectedOnce(w, op.id, cb);
    } else if op.ProxyDisconnect? && op.task.1 in w.proxies {
      RejectedOnce(w, op.task.1, cb);
    } else if op.Invoke? {
      InvokeOnlyAdds(w, op.id, op.methodName, op.cb, op.sent, cb);
    } else if op.Receive? {
      ReceiveOnlyAdds(w, op.frame, cb);
    } else {
      if !op.ProxyDisconnect? {
        CallsStay(w, op);
      }
      SameOnlyAdds(w.calls, Apply(w, op).calls, cb);
    }
  }

  lemma {:induction false} RunOnlyAdds(w: World, ops: seq<Op>, cb: CallbackId)
    requires Inv(w) && CanRun(w, ops) && cb in w.calls
    ensures cb in Run(w, ops).calls && w.calls[cb] <= Run(w, ops).calls[cb]
    ensures Finished(w.calls[cb]) ==> Run(w, ops).calls[cb] == w.calls[cb]
    decreases |ops|
  {
    hide Inv, Enabled, Apply, IdsLeft;
    if ops != [] {
      StepKeeps(w, ops[0]);
      StepOnlyAdds(w, ops[0], cb);
      RunOnlyAdds(Apply(w, ops[0]), ops[1..], cb);
    }
  }

  /** A reply whose callback does nothing further: what OnFrameReceived does from beginning to end. */
  lemma ReplyInOnePiece(w: World, frame: Frame)
    requires w.replying.None? && frame.msg.InvokeReply?
    requires frame.requestId in w.client.queued && w.client.queued[frame.requestId].InvokeRequest?
    requires var p := w.client.queued[frame.requestId].proxy;
             p in w.proxies && frame.requestId in w.proxies[p].pending &&
                 w.proxies[p].pending[frame.requestId] in w.calls
    ensures Received(w, frame).replying.Some?
    ensures var request := w.client.queued[frame.requestId];
            var p := w.proxies[request.proxy];
            ReplyCompleted(Received(w, frame)) ==
            w.(client := w.client.(queued := if frame.msg.hasMore then w.client.queued
                else w.client.queued - {frame.requestId}),
               calls := Call(w.calls, p.pending[frame.requestId], ReplyResult(p, request.methodName, frame.msg)),
               proxies := w.proxies[request.proxy := if frame.msg.hasMore then p
                   else p.(pending := p.pending - {frame.requestId})])
  {
    var request := w.client.queued[frame.requestId];
    assert (w.client.queued - {frame.requestId})[frame.requestId := request] == w.client.queued;
    assert w.proxies[request.proxy := w.proxies[request.proxy]] == w.proxies;
  }
}
