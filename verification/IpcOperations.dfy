/**
 The other operations of the client and its proxies against the state machine of the protocol. The
 objects start in the machine's first state, and each call takes them to the state after the
 machine's operation. Together with the handling of frames, every sequence of calls is a run.
 */
module IpcOperations {
  import opened Common
  import opened IpcProtocol
  import opened IpcRuns
  import opened IpcClient
  import opened IpcRefinement

  method Start(socketRetry: bool) returns (c: ClientImpl, log: CallbackLog)
    ensures fresh(c) && fresh(log) && Agrees(c, {}, log, START)
  {
    c := new ClientImpl(socketRetry);
    log := new CallbackLog();
    EmptyCollections(c);
  }

  method CreateProxy(c: ClientImpl, ghost all: set<ServiceProxy>, log: CallbackLog, id: ProxyId,
                     descriptor: seq<Method>, ghost w: World) returns (p: ServiceProxy)
    requires Agrees(c, all, log, w) && Enabled(w, NewProxy(id, descriptor))
    ensures fresh(p) && p.id == id && Agrees(c, all + {p}, log, Apply(w, NewProxy(id, descriptor)))
  {
    p := new ServiceProxy(id, descriptor);
  }

  /** The effect on the proxy, on the client and on the callbacks. */
  method DestroyOne(c: ClientImpl, ghost all: set<ServiceProxy>, log: CallbackLog, p: ServiceProxy, ghost w: World)
    requires w.client == c.View() && w.calls == log.calls && Enabled(w, IpcProtocol.DestroyProxy(p.id))
    requires w.proxies[p.id] == p.View()
    requires p.alive && p.Valid(log) && (p.client == null || p.client == c) && KnownBindings(c.serviceBindings, all)
    modifies c, p`alive, p`pendingCallbacks, p.pendingCallbacks.Values, log
    ensures var w' := Apply(w, IpcProtocol.DestroyProxy(p.id));
            !p.alive && c.View() == w'.client && log.calls == w'.calls
    ensures p.Valid(log) && p.pendingCallbacks == map[] && KnownBindings(c.serviceBindings, all)
    ensures c.queuedRequests == old(c.queuedRequests) && c.queuedBindings == old(c.queuedBindings)
  {
    hide ServiceProxy.Pending, ServiceProxy.Distinct, ServiceProxy.Valid, RejectAll, Queue, Bindings, Ids;
    BindingsWithout(c.serviceBindings, p.serviceId);
    p.Destroy(log);
  }

  lemma DestroyedIs(w: World, id: ProxyId)
    requires Enabled(w, IpcProtocol.DestroyProxy(id))
    ensures var w' := Apply(w, IpcProtocol.DestroyProxy(id));
            && w'.born == w.born && w'.calls == RejectAll(w.calls, w.proxies[id].pending) && id !in w'.proxies
            && forall q :: q != id ==>
                 (q in w'.proxies <==> q in w.proxies) && (q in w.proxies ==> w'.proxies[q] == w.proxies[q])
  {
  }

  method DestroyProxy(c: ClientImpl, ghost all: set<ServiceProxy>, log: CallbackLog, p: ServiceProxy, ghost w: World)
    requires Agrees(c, all, log, w) && p in all && Enabled(w, IpcProtocol.DestroyProxy(p.id))
    modifies c, p, p.pendingCallbacks.Values, log
    ensures Agrees(c, all, log, Apply(w, IpcProtocol.DestroyProxy(p.id)))
  {
    hide ServiceProxy.Pending, ServiceProxy.Distinct, ServiceProxy.Valid, ProxyAgrees, Knows, RejectAll,
         KnownRequests, KnownBindings, ClientImpl.View, ServiceProxy.View, Apply;
    ghost var w' := Apply(w, IpcProtocol.DestroyProxy(p.id));
    DestroyedIs(w, p.id);
    AgreeingParts(all, log, w.proxies);
    AgreeingIsValid(p, log, w.proxies);
    RejectAllKeys(w.calls, p.Pending());
    DestroyOne(c, all, log, p, w);
    IsAgreeing(p, log, w'.proxies);
    forall q | q in all && q != p
      ensures ProxyAgrees(q, log, w'.proxies)
    {
      StillAgrees(q, log, w.calls, w'.proxies);
    }
  }

  lemma StillKnown(m: Requests, m': Requests, proxies: seq<ServiceProxy>, all: set<ServiceProxy>)
    requires KnownRequests(m, all) && Adds(m, m', proxies) && forall p :: p in proxies ==> p in all
    ensures KnownRequests(m', all)
  {
  }

  method BindProxy(c: ClientImpl, ghost all: set<ServiceProxy>, log: CallbackLog, listeners: ListenerLog,
                   p: ServiceProxy, sent: bool, ghost w: World)
    requires Agrees(c, all, log, w) && p in all && Enabled(w, Bind(p.id, sent))
    modifies c, listeners
    ensures Agrees(c, all, log, Apply(w, Bind(p.id, sent)))
  {
    hide ServiceProxy.Pending, ServiceProxy.Distinct, ServiceProxy.Valid, ProxyAgrees, Knows, Queue, Bindings, Ids,
         Adds, KnownRequests, ClientBind, BindNotices;
    AgreeingParts(all, log, w.proxies);
    ghost var requests := c.queuedRequests;
    c.BindService(p, sent, listeners);
    StillKnown(requests, c.queuedRequests, [p], all);
  }

  /** A proxy without a client rejects the reply, whatever the client is like. */
  lemma BegunWithoutClient(p: Proxy, c: Client, c': Client, calls: Results, id: ProxyId, name: string,
                           cb: Option<CallbackId>, sent: bool)
    requires (cb.Some? ==> cb.value in calls) && !p.hasClient
    ensures IpcProtocol.BeginInvoke(p, c', calls, id, name, cb, sent)
            == IpcProtocol.BeginInvoke(p, c, calls, id, name, cb, sent).(client := c')
  {
  }

  lemma NextIsNotPending(w: World, id: ProxyId)
    requires Inv(w) && IdsLeft(w) && id in w.proxies
    ensures NextId(w.client.lastRequestId) !in w.proxies[id].pending
  {
    hide QueueInv, ReplyInv, CallbackInv;
    assert forall r :: r in w.proxies[id].pending ==> PendingOk(w, id, r);
  }

  lemma InvokedIs(w: World, id: ProxyId, name: string, cb: Option<CallbackId>, sent: bool)
    requires Enabled(w, Invoke(id, name, cb, sent))
    ensures var w' := Apply(w, Invoke(id, name, cb, sent));
            && w' == InvokeOn(w, id, name, cb, sent) && w'.born == w.born && w.calls.Keys <= w'.calls.Keys
            && id in w'.proxies
            && forall q :: q != id ==>
                 (q in w'.proxies <==> q in w.proxies) && (q in w.proxies ==> w'.proxies[q] == w.proxies[q])
  {
    hide ClientBeginInvoke;
  }

  lemma FreshIsUnheld(p: ServiceProxy, log: CallbackLog, before: Results, cb: CallbackId)
    requires p.Distinct() && Knows(p, before) && cb !in before && log.calls == before[cb := []]
    ensures p.Valid(log) && p.Unheld(cb)
  {
  }

  /** The effect on the proxy, on the client and on the callbacks. */
  method InvokeOne(c: ClientImpl, log: CallbackLog, p: ServiceProxy, name: string, cb: Option<CallbackId>, sent: bool,
                   ghost w: World)
    requires w.client == c.View() && w.calls == log.calls && p.id in w.proxies && w.proxies[p.id] == p.View()
    requires p.alive && p.Distinct() && p.Valid(log) && Knows(p, log.calls) && (p.client == null || p.client == c)
    requires (cb.Some? ==> cb.value !in log.calls) && NextId(c.lastRequestId) !in p.Pending()
    modifies c, p`pendingCallbacks, log
    ensures var w' := InvokeOn(w, p.id, name, cb, sent);
            c.View() == w'.client && p.View() == w'.proxies[p.id] && log.calls == w'.calls
    ensures p.Valid(log) && fresh(p.pendingCallbacks.Values - old(p.pendingCallbacks.Values))
    ensures Adds(old(c.queuedRequests), c.queuedRequests, [p])
    ensures c.serviceBindings == old(c.serviceBindings) && c.queuedBindings == old(c.queuedBindings)
  {
    hide ServiceProxy.Pending, ServiceProxy.Distinct, ServiceProxy.Valid, Knows, Queue, Bindings, Ids, Adds,
         ServiceProxy.Unheld, IpcProtocol.BeginInvoke;
    AddsNothing(c.queuedRequests, [p]);
    if cb.Some? {
      log.Add(cb.value);
      FreshIsUnheld(p, log, w.calls, cb.value);
    }
    if p.client == null {
      BegunWithoutClient(p.View(), NEW_CLIENT, c.View(), log.calls, p.id, name, cb, sent);
    }
    var reply := new DeferredBase(cb);
    p.BeginInvoke(name, reply, sent, log);
  }

  /** The reply object is made from a callback that is not in use, or from none. */
  method InvokeProxy(c: ClientImpl, ghost all: set<ServiceProxy>, log: CallbackLog, p: ServiceProxy, name: string,
                     cb: Option<CallbackId>, sent: bool, ghost w: World)
    requires Agrees(c, all, log, w) && Inv(w) && IdsLeft(w) && p in all && Enabled(w, Invoke(p.id, name, cb, sent))
    modifies c, p, log
    ensures Agrees(c, all, log, Apply(w, Invoke(p.id, name, cb, sent)))
    ensures fresh(p.pendingCallbacks.Values - old(p.pendingCallbacks.Values))
  {
    hide Inv, ServiceProxy.Pending, ServiceProxy.Distinct, ServiceProxy.Valid, ProxyAgrees, Knows, Adds, KnownRequests,
         KnownBindings, ClientImpl.View, ServiceProxy.View, InvokeOn, Apply;
    c.Seen();
    ghost var requests := c.queuedRequests;
    ghost var w' := Apply(w, Invoke(p.id, name, cb, sent));
    AgreeingParts(all, log, w.proxies);
    AgreeingIsValid(p, log, w.proxies);
    NextIsNotPending(w, p.id);
    InvokedIs(w, p.id, name, cb, sent);
    InvokeOne(c, log, p, name, cb, sent, w);
    StillKnown(requests, c.queuedRequests, [p], all);
    IsAgreeing(p, log, w'.proxies);
    forall q | q in all && q != p
      ensures ProxyAgrees(q, log, w'.proxies)
    {
      StillAgrees(q, log, w.calls, w'.proxies);
    }
  }

  method ConnectionAttempted(c: ClientImpl, ghost all: set<ServiceProxy>, log: CallbackLog, listeners: ListenerLog,
                             success: bool, sends: seq<bool>, ghost w: World) returns (retryAfterMs: Option<nat>)
    requires Agrees(c, all, log, w) && Enabled(w, Connected(sends))
    modifies c, listeners
    ensures Agrees(c, all, log, if success then Apply(w, Connected(sends))
                                else if retryAfterMs.None? then Apply(w, ConnectFailed)
                                else w)
  {
    hide ServiceProxy.Pending, ServiceProxy.Distinct, ServiceProxy.Valid, ProxyAgrees, Knows, Queue, Bindings, Ids,
         Adds, KnownRequests, ClientDrainBindings, DrainNotices, FailureNotices;
    AgreeingParts(all, log, w.proxies);
    ghost var requests, waiting := c.queuedRequests, c.queuedBindings;
    retryAfterMs := c.OnConnect(success, sends, w.proxies.Keys, listeners);
    StillKnown(requests, c.queuedRequests, waiting, all);
  }

  method LoseConnection(c: ClientImpl, ghost all: set<ServiceProxy>, log: CallbackLog, ghost w: World)
    requires Agrees(c, all, log, w)
    modifies c
    ensures Agrees(c, all, log, Apply(w, ConnectionLost))
  {
    c.SendFrame(false);
  }

  method DisconnectClient(c: ClientImpl, ghost all: set<ServiceProxy>, log: CallbackLog, ghost w: World)
    returns (posted: set<(ServiceId, ServiceProxy)>)
    requires Agrees(c, all, log, w) && Enabled(w, ClientDisconnect)
    modifies c
    ensures Agrees(c, all, log, Apply(w, ClientDisconnect))
    ensures forall t :: t in posted ==> t.1 in all && (t.0, t.1.id) in Apply(w, ClientDisconnect).disconnects
  {
    var failed;
    posted, failed := c.OnDisconnect();
  }

  method DestroyClient(c: ClientImpl, ghost all: set<ServiceProxy>, log: CallbackLog, ghost w: World)
    returns (posted: set<(ServiceId, ServiceProxy)>)
    requires Agrees(c, all, log, w) && Enabled(w, IpcProtocol.DestroyClient)
    modifies c
    ensures Agrees(c, all, log, Apply(w, IpcProtocol.DestroyClient))
    ensures forall t :: t in posted ==> t.1 in all && (t.0, t.1.id) in Apply(w, IpcProtocol.DestroyClient).disconnects
  {
    var failed;
    posted, failed := c.Destroy();
  }

  lemma DisconnectedIs(w: World, task: (ServiceId, ProxyId))
    requires Enabled(w, ProxyDisconnect(task))
    ensures var w' := Apply(w, ProxyDisconnect(task));
            && w'.client == w.client && w'.born == w.born
            && (task.1 !in w.proxies ==> w'.proxies == w.proxies && w'.calls == w.calls)
            && (task.1 in w.proxies ==>
                  var p := w.proxies[task.1];
                  && w'.proxies == w.proxies[task.1 := p.(pending := map[], dropped := true)]
                  && w'.calls == RejectAll(w.calls, p.pending))
  {
  }

  /** The task posted for a binding, which holds a weak pointer to the proxy. */
  method RunDisconnection(c: ClientImpl, ghost all: set<ServiceProxy>, log: CallbackLog, listeners: ListenerLog,
                          task: (ServiceId, ServiceProxy), ghost w: World)
    requires Agrees(c, all, log, w) && task.1 in all && Enabled(w, ProxyDisconnect((task.0, task.1.id)))
    modifies task.1, task.1.pendingCallbacks.Values, log, listeners
    ensures Agrees(c, all, log, Apply(w, ProxyDisconnect((task.0, task.1.id))))
  {
    hide ServiceProxy.Pending, ServiceProxy.Distinct, ServiceProxy.Valid, ProxyAgrees, Knows, RejectAll, KnownRequests,
         KnownBindings, ClientImpl.View, Apply;
    var p := task.1;
    ghost var w' := Apply(w, ProxyDisconnect((task.0, p.id)));
    DisconnectedIs(w, (task.0, p.id));
    AgreeingParts(all, log, w.proxies);
    AgreeingIsValid(p, log, w.proxies);
    RejectAllKeys(w.calls, p.Pending());
    if p.alive {
      p.OnDisconnect(log, listeners);
    }
    IsAgreeing(p, log, w'.proxies);
    forall q | q in all && q != p
      ensures ProxyAgrees(q, log, w'.proxies)
    {
      StillAgrees(q, log, w.calls, w'.proxies);
    }
  }

  lemma AgreeingIsValid(p: ServiceProxy, log: CallbackLog, proxies: map<ProxyId, Proxy>)
    requires ProxyAgrees(p, log, proxies)
    ensures p.Valid(log) && p.View().pending == p.Pending()
  {
  }

  lemma RejectAllKeys(calls: Results, pending: map<RequestId, CallbackId>)
    ensures RejectAll(calls, pending).Keys == calls.Keys
  {
  }

  lemma BindingsWithout(m: map<ServiceId, ServiceProxy>, s: ServiceId)
    ensures Bindings(m - {s}) == Bindings(m) - {s}
  {
  }

  lemma EmptyCollections(c: ClientImpl)
    requires c.View() == NEW_CLIENT
    ensures c.queuedRequests == map[] && c.serviceBindings == map[] && c.queuedBindings == []
  {
    QueueKeys(c.queuedRequests);
    assert Queue(c.queuedRequests).Keys == {} && Bindings(c.serviceBindings).Keys == {};
  }
}
