/**
 The objects of the RPC client: reply objects that own a callback, service proxies and the client.
 Every method is proved to do what the operations of the protocol say. `sent` arguments are the
 outcome of sending a frame on the socket.
 */
module IpcClient {
  import opened Common
  import opened IpcProtocol

  /** The user's callbacks, identified by number, and the results each has been called with. */
  class CallbackLog {
    var calls: Results

    constructor ()
      ensures calls == map[]
    {
      calls := map[];
    }

    method Invoke(cb: CallbackId, r: AsyncResult)
      requires cb in calls
      modifies this
      ensures calls == Call(old(calls), cb, r)
    {
      calls := calls[cb := calls[cb] + [r]];
    }

    /** A callback that has not had any result yet. */
    method Add(cb: CallbackId)
      modifies this
      ensures calls == old(calls)[cb := []]
    {
      calls := calls[cb := []];
    }
  }

  /** What the listener of a proxy is told: that the proxy is connected, or that it is not. */
  datatype Notice = Notice(proxy: ProxyId, connected: bool)

  class ListenerLog {
    var notices: seq<Notice>

    constructor ()
      ensures notices == []
    {
      notices := [];
    }
  }

  class DeferredBase {
    var callback: Option<CallbackId>

    constructor (callback: Option<CallbackId>)
      ensures this.callback == callback
    {
      this.callback := callback;
    }

    method Move(other: DeferredBase)
      requires other != this
      modifies this, other
      ensures callback == old(other.callback) && other.callback == None
    {
      callback := other.callback;
      other.callback := None;
    }

    /** Binding replaces a callback that was bound before; the old one is not called. */
    method Bind(cb: CallbackId)
      modifies this
      ensures callback == Some(cb)
    {
      callback := Some(cb);
    }

    method IsBound() returns (r: bool)
      ensures r == callback.Some?
    {
      r := callback.Some?;
    }

    /** Calls the callback, and releases it unless more results are announced. */
    method Resolve(r: AsyncResult, log: CallbackLog)
      requires callback.Some? ==> callback.value in log.calls
      modifies this, log
      ensures old(callback).None? ==> log.calls == old(log.calls) && callback == None
      ensures old(callback).Some? ==>
                && log.calls == Call(old(log.calls), old(callback).value, r)
                && callback == if r.hasMore then old(callback) else None
    {
      if callback.None? {
        return;
      }
      log.Invoke(callback.value, r);
      if !r.hasMore {
        callback := None;
      }
    }

    method RejectCallback(log: CallbackLog)
      requires callback.Some? ==> callback.value in log.calls
      modifies this, log
      ensures callback == None && log.calls == Reject(old(log.calls), old(callback))
    {
      Resolve(AsyncResult(None, false), log);
    }

    /** The destructor: a callback that is still bound is rejected. */
    method Destroy(log: CallbackLog)
      requires callback.Some? ==> callback.value in log.calls
      modifies this, log
      ensures callback == None && log.calls == Reject(old(log.calls), old(callback))
    {
      if callback.Some? {
        RejectCallback(log);
      }
    }

    /** Move assignment: the callback owned so far is rejected before the other one is taken over. */
    method MoveAssign(other: DeferredBase, log: CallbackLog)
      requires other != this
      requires callback.Some? ==> callback.value in log.calls
      modifies this, other, log
      ensures callback == old(other.callback) && other.callback == None
      ensures log.calls == Reject(old(log.calls), old(callback))
    {
      if callback.Some? {
        RejectCallback(log);
      }
      Move(other);
    }
  }

  class ServiceProxy {
    const id: ProxyId
    const descriptor: seq<Method>
    var alive: bool
    var client: ClientImpl?
    var serviceId: ServiceId
    var remoteMethodIds: map<string, MethodId>
    var pendingCallbacks: map<RequestId, DeferredBase>
    ghost var dropped: bool

    constructor (id: ProxyId, descriptor: seq<Method>)
      ensures alive && client == null && this.id == id && this.descriptor == descriptor
      ensures pendingCallbacks == map[] && View() == Proxy(descriptor, 0, false, map[], map[], false)
    {
      this.id, this.descriptor := id, descriptor;
      alive, client, serviceId, remoteMethodIds, pendingCallbacks := true, null, 0, map[], map[];
      dropped := false;
    }

    /** The callbacks held, by request id. */
    ghost function Pending(): map<RequestId, CallbackId>
      reads `pendingCallbacks, pendingCallbacks.Values
    {
      map r | r in pendingCallbacks && pendingCallbacks[r].callback.Some? :: pendingCallbacks[r].callback.value
    }

    ghost function View(): Proxy
      reads this, pendingCallbacks.Values
    {
      Proxy(descriptor, serviceId, client != null, remoteMethodIds, Pending(), dropped)
    }

    /** Every reply object is bound, and no two of them are the same or own the same callback. */
    ghost predicate Distinct()
      reads `pendingCallbacks, pendingCallbacks.Values
    {
      && (forall r :: r in pendingCallbacks ==> pendingCallbacks[r].callback.Some?)
      && (forall r, r' :: r in pendingCallbacks && r' in pendingCallbacks && r != r' ==>
            && pendingCallbacks[r] != pendingCallbacks[r']
            && pendingCallbacks[r].callback != pendingCallbacks[r'].callback)
    }

    /** The same of all but one of them. */
    ghost predicate DistinctBut(requestId: RequestId)
      reads `pendingCallbacks, pendingCallbacks.Values
    {
      && (forall r :: r in pendingCallbacks && r != requestId ==> pendingCallbacks[r].callback.Some?)
      && (forall r, r' :: r in pendingCallbacks && r' in pendingCallbacks && r != r' ==>
            && pendingCallbacks[r] != pendingCallbacks[r']
            && pendingCallbacks[r].callback != pendingCallbacks[r'].callback)
    }

    ghost predicate Unheld(cb: CallbackId)
      reads `pendingCallbacks, pendingCallbacks.Values
    {
      forall r :: r in Pending() ==> Pending()[r] != cb
    }

    ghost predicate Valid(log: CallbackLog)
      reads `pendingCallbacks, pendingCallbacks.Values, log
    {
      Distinct() && forall r :: r in Pending() ==> Pending()[r] in log.calls
    }

    method InitializeBinding(client: ClientImpl, serviceId: ServiceId, remoteMethodIds: map<string, MethodId>)
      modifies this`client, this`serviceId, this`remoteMethodIds
      ensures this.client == client && this.serviceId == serviceId && this.remoteMethodIds == remoteMethodIds
    {
      this.client, this.serviceId, this.remoteMethodIds := client, serviceId, remoteMethodIds;
    }

    /** What the protocol says about an invocation from the present state. */
    ghost function Begins(name: string, reply: DeferredBase, sent: bool, log: CallbackLog): Begun
      requires reply.callback.Some? ==> reply.callback.value in log.calls
      reads this, pendingCallbacks.Values, reply, log, client
    {
      var c := if client == null then NEW_CLIENT else client.View();
      IpcProtocol.BeginInvoke(View(), c, log.calls, id, name, reply.callback, sent)
    }

    /** `reply` is the by-value parameter, which is destroyed on every way out. */
    method BeginInvoke(name: string, reply: DeferredBase, sent: bool, log: CallbackLog)
      requires Valid(log) && alive
      requires reply !in pendingCallbacks.Values
      requires reply.callback.Some? ==> reply.callback.value in log.calls && Unheld(reply.callback.value)
      requires client != null ==> NextId(client.lastRequestId) !in Pending()
      modifies this`pendingCallbacks, reply, client, log
      ensures client == old(client) && Valid(log)
      ensures View() == old(Begins(name, reply, sent, log)).proxy
      ensures client != null ==> client.View() == old(Begins(name, reply, sent, log)).client
      ensures log.calls == old(Begins(name, reply, sent, log)).calls
      ensures reply.callback == None && fresh(pendingCallbacks.Values - old(pendingCallbacks.Values))
      ensures client != null ==>
                && Adds(old(client.queuedRequests), client.queuedRequests, [this])
                && client.serviceBindings == old(client.serviceBindings)
                && client.queuedBindings == old(client.queuedBindings)
    {
      hide Pending, Distinct, Valid, Unheld, NextId, Reject, ClientImpl.View, Adds;
      if client != null {
        AddsNothing(client.queuedRequests, [this]);
        client.Seen();
      }
      if serviceId == 0 {
        Release(reply, log);
        return;
      }
      if client == null || !client.alive {
        Release(reply, log);
        return;
      }
      var requestId := 0;
      var dropReply := reply.callback.None?;
      if name in remoteMethodIds {
        requestId := client.BeginInvoke(this, name, dropReply, sent);
      }
      if requestId == 0 {
        Release(reply, log);
        return;
      }
      EmplacePending(requestId, reply, log);
      Release(reply, log);
    }

    /** The parameter goes out of scope; the reply objects held by the proxy are not affected. */
    method Release(reply: DeferredBase, log: CallbackLog)
      requires Valid(log) && reply !in pendingCallbacks.Values
      requires reply.callback.Some? ==> reply.callback.value in log.calls
      modifies reply, log
      ensures Valid(log) && reply.callback == None && log.calls == Reject(old(log.calls), old(reply.callback))
      ensures old(reply.callback).None? ==> log.calls == old(log.calls)
    {
      hide Pending, Distinct;
      reply.Destroy(log);
    }

    /** pending_callbacks_.emplace(request_id, std::move(reply)). */
    method EmplacePending(requestId: RequestId, reply: DeferredBase, log: CallbackLog)
      requires Valid(log) && requestId !in Pending() && reply !in pendingCallbacks.Values
      requires reply.callback.Some? && reply.callback.value in log.calls && Unheld(reply.callback.value)
      modifies this`pendingCallbacks, reply
      ensures Valid(log) && reply.callback == None && reply !in pendingCallbacks.Values
      ensures Pending() == old(Pending())[requestId := old(reply.callback).value]
      ensures fresh(pendingCallbacks.Values - old(pendingCallbacks.Values))
    {
      var held := new DeferredBase(None);
      held.Move(reply);
      forall r | r in pendingCallbacks
        ensures pendingCallbacks[r] != held &&
                pendingCallbacks[r].callback == old(pendingCallbacks[r].callback) != held.callback
      {
        assert pendingCallbacks[r] in pendingCallbacks.Values;
        assert r in old(Pending());
      }
      pendingCallbacks := pendingCallbacks[requestId := held];
      assert Pending() == old(Pending())[requestId := held.callback.value];
    }

    /** Hands a result to the callback of a request and forgets it after the last one. */
    method EndInvoke(requestId: RequestId, result: Option<Message>, hasMore: bool, log: CallbackLog)
      requires Valid(log)
      modifies this`pendingCallbacks, pendingCallbacks.Values, log
      ensures Valid(log)
      ensures pendingCallbacks == if requestId in old(Pending()) && !hasMore then old(pendingCallbacks) - {requestId}
              else old(pendingCallbacks)
      ensures requestId !in old(Pending()) ==> View() == old(View()) && log.calls == old(log.calls)
      ensures requestId in old(Pending()) ==>
                && log.calls == Call(old(log.calls), old(Pending())[requestId], AsyncResult(result, hasMore))
                && View() == if hasMore then old(View()) else old(View()).(pending := old(Pending()) - {requestId})
    {
      if requestId !in pendingCallbacks {
        return;
      }
      assert requestId in Pending();
      var reply := pendingCallbacks[requestId];
      reply.Resolve(AsyncResult(result, hasMore), log);
      assert Pending() == if hasMore then old(Pending()) else old(Pending()) - {requestId};
      if !hasMore {
        ErasePending(requestId, log);
      }
    }

    /** A reply object that has had its last result is taken out and destroyed. */
    method ErasePending(requestId: RequestId, log: CallbackLog)
      requires requestId in pendingCallbacks && pendingCallbacks[requestId].callback == None
      requires DistinctBut(requestId) && forall r :: r in Pending() ==> Pending()[r] in log.calls
      modifies this`pendingCallbacks, pendingCallbacks[requestId], log
      ensures Valid(log) && Pending() == old(Pending()) && log.calls == old(log.calls)
      ensures pendingCallbacks == old(pendingCallbacks) - {requestId}
    {
      var reply := pendingCallbacks[requestId];
      pendingCallbacks := pendingCallbacks - {requestId};
      reply.Destroy(log);
      assert Pending() == old(Pending());
    }

    /** One reply object is taken out and destroyed. */
    method DropPending(r: RequestId, log: CallbackLog)
      requires Valid(log) && r in pendingCallbacks
      modifies this`pendingCallbacks, pendingCallbacks[r], log
      ensures Valid(log) && pendingCallbacks == old(pendingCallbacks) - {r}
      ensures r in old(Pending()) && Pending() == old(Pending()) - {r}
      ensures pendingCallbacks.Values <= old(pendingCallbacks.Values)
      ensures |pendingCallbacks| < |old(pendingCallbacks)| && Pending().Keys == pendingCallbacks.Keys
      ensures log.calls == Call(old(log.calls), old(Pending())[r], REJECTION)
    {
      assert r in Pending();
      var reply := pendingCallbacks[r];
      pendingCallbacks := pendingCallbacks - {r};
      reply.Destroy(log);
      assert Pending() == old(Pending()) - {r};
    }

    lemma PendingFacts(log: CallbackLog)
      requires Valid(log)
      ensures Pending().Keys == pendingCallbacks.Keys && PendingInjective(Pending())
      ensures IsRest(Pending(), map[], Pending()) && RejectAll(log.calls, map[]) == log.calls
      ensures forall r :: r in Pending() ==> Pending()[r] in log.calls
    {
    }

    /** pending_callbacks_.clear(): every reply object is destroyed, in whatever order. */
    method ClearPending(log: CallbackLog)
      requires Valid(log)
      modifies this`pendingCallbacks, pendingCallbacks.Values, log
      ensures Valid(log) && pendingCallbacks == map[] && View() == old(View()).(pending := map[])
      ensures log.calls == RejectAll(old(log.calls), old(Pending()))
    {
      hide Pending, Distinct, Valid, RejectAll, Call, IsRest, PendingInjective;
      PendingFacts(log);
      ghost var all := Pending();
      ghost var done: map<RequestId, CallbackId> := map[];
      while pendingCallbacks != map[]
        invariant Valid(log) && pendingCallbacks.Values <= old(pendingCallbacks.Values)
        invariant Pending().Keys == pendingCallbacks.Keys
        invariant IsRest(all, done, Pending())
        invariant log.calls == RejectAll(old(log.calls), done)
        decreases |pendingCallbacks|
      {
        var r :| r in pendingCallbacks;
        ghost var todo := Pending();
        OneLess(all, done, todo, r);
        RejectOneMore(old(log.calls), done, r, todo[r]);
        DropPending(r, log);
        done := done[r := todo[r]];
      }
      AllDone(all, done, Pending());
    }

    method OnConnect(success: bool, listeners: ListenerLog)
      modifies listeners
      ensures listeners.notices == old(listeners.notices) + [Notice(id, success)]
    {
      listeners.notices := listeners.notices + [Notice(id, success)];
    }

    method OnDisconnect(log: CallbackLog, listeners: ListenerLog)
      requires Valid(log)
      modifies this`pendingCallbacks, this`dropped, pendingCallbacks.Values, log, listeners
      ensures listeners.notices == old(listeners.notices) + [Notice(id, false)]
      ensures Valid(log) && pendingCallbacks == map[] && View() == old(View()).(pending := map[], dropped := true)
      ensures log.calls == RejectAll(old(log.calls), old(Pending()))
    {
      ClearPending(log);
      dropped := true;
      listeners.notices := listeners.notices + [Notice(id, false)];
    }

    /** The destructor. */
    method Destroy(log: CallbackLog)
      requires Valid(log) && alive
      modifies this`alive, this`pendingCallbacks, pendingCallbacks.Values, log, client
      ensures !alive && log.calls == RejectAll(old(log.calls), old(Pending()))
      ensures Valid(log) && pendingCallbacks == map[]
      ensures client != null ==>
                && client.View() == (if old(client.alive) && serviceId != 0
                                     then WithoutBinding(old(client.View()), serviceId)
                                     else old(client.View()))
                && client.queuedRequests == old(client.queuedRequests)
                && client.queuedBindings == old(client.queuedBindings)
                && client.serviceBindings == (if old(client.alive) && serviceId != 0
                                              then old(client.serviceBindings) - {serviceId}
                                              else old(client.serviceBindings))
    {
      hide Pending, Distinct, RejectAll, Queue, Bindings, Ids;
      if client != null && client.alive && serviceId != 0 {
        client.UnbindService(serviceId);
      }
      alive := false;
      assert Pending() == old(Pending());
      ClearPending(log);
    }
  }

  function WithoutBinding(c: Client, serviceId: ServiceId): Client {
    c.(bindings := c.bindings - {serviceId})
  }

  ghost predicate PendingInjective(m: map<RequestId, CallbackId>) {
    forall r, r' :: r in m && r' in m && r != r' ==> m[r] != m[r']
  }

  type Callbacks = map<RequestId, CallbackId>

  ghost predicate IsRest(all: Callbacks, done: Callbacks, todo: Callbacks) {
    done.Keys !! todo.Keys && done + todo == all
  }

  lemma OneLess(all: Callbacks, done: Callbacks, todo: Callbacks, r: RequestId)
    requires PendingInjective(all) && IsRest(all, done, todo) && r in todo
    ensures r in all && r !in done && all[r] == todo[r]
    ensures todo[r] !in done.Values && IsRest(all, done[r := todo[r]], todo - {r})
  {
    forall k | k in done
      ensures done[k] != todo[r]
    {
      assert all[k] == done[k] && all[r] == todo[r];
    }
  }

  lemma AllDone(all: map<RequestId, CallbackId>, done: map<RequestId, CallbackId>, todo: map<RequestId, CallbackId>)
    requires IsRest(all, done, todo) && todo.Keys == {}
    ensures done == all && todo == map[]
  {
  }

  lemma RejectOneMore(calls: Results, done: map<RequestId, CallbackId>, r: RequestId, cb: CallbackId)
    requires cb in calls && cb !in done.Values && r !in done
    ensures RejectAll(calls, done[r := cb]) == Call(RejectAll(calls, done), cb, REJECTION)
  {
    var more := done[r := cb];
    assert more[r] == cb && forall k :: k in done ==> k in more && more[k] == done[k];
    assert forall x :: x in done.Values ==> x in more.Values;
    assert more.Values == done.Values + {cb};
  }

  datatype QueuedRequest = QueuedRequest(isBind: bool, requestId: RequestId, proxy: ServiceProxy, methodName: string)

  type Requests = map<RequestId, QueuedRequest>

  /** Only requests of the given proxies are added, under their own ids. */
  ghost predicate Adds(m: Requests, m': Requests, proxies: seq<ServiceProxy>) {
    forall r :: r in m' ==> (r in m && m'[r] == m[r]) || (m'[r].requestId == r && m'[r].proxy in proxies)
  }

  lemma AddsMore(m: Requests, m1: Requests, m2: Requests, proxies: seq<ServiceProxy>, i: nat)
    requires i < |proxies| && Adds(m, m1, proxies) && Adds(m1, m2, [proxies[i]])
    ensures Adds(m, m2, proxies)
  {
  }

  lemma AddsNothing(m: Requests, proxies: seq<ServiceProxy>)
    ensures Adds(m, m, proxies)
  {
  }

  // The client's collections, with proxies named by their ids.

  function RequestOf(q: QueuedRequest): Request {
    if q.isBind then BindRequest(q.proxy.id) else InvokeRequest(q.proxy.id, q.methodName)
  }

  function Queue(m: map<RequestId, QueuedRequest>): map<RequestId, Request> {
    map r | r in m :: RequestOf(m[r])
  }

  function Bindings(m: map<ServiceId, ServiceProxy>): map<ServiceId, ProxyId> {
    map s | s in m :: m[s].id
  }

  function Ids(proxies: seq<ServiceProxy>): (r: seq<ProxyId>)
    ensures |r| == |proxies| && forall i :: 0 <= i < |r| ==> r[i] == proxies[i].id
  {
    if proxies == [] then [] else Ids(proxies[..|proxies| - 1]) + [proxies[|proxies| - 1].id]
  }

  /** A bind request that could not be sent. */
  function BindNotices(attempted: bool, id: ProxyId, sent: bool): seq<Notice> {
    if attempted && !sent then [Notice(id, false)] else []
  }

  /** What the listeners are told while the queued bindings are sent one by one. */
  function DrainNotices(c: Client, live: set<ProxyId>, proxies: seq<ProxyId>, sent: seq<bool>): seq<Notice>
    decreases |proxies|
  {
    if proxies == [] then []
    else
      var ok := sent != [] && sent[0] && c.connected;
      var c' := if proxies[0] in live then ClientBind(c, proxies[0], ok) else c;
      BindNotices(proxies[0] in live && c.connected, proxies[0], ok)
      + DrainNotices(c', live, proxies[1..], if sent == [] then [] else sent[1..])
  }

  function From<T>(s: seq<T>, i: nat): seq<T> {
    if i <= |s| then s[i..] else []
  }

  lemma FromStart(ids: seq<ProxyId>, sends: seq<bool>)
    ensures From(sends, 0) == sends && ids[0..] == ids
  {
  }

  lemma DrainOne(c: Client, live: set<ProxyId>, ids: seq<ProxyId>, i: nat, sends: seq<bool>)
    requires i < |ids|
    ensures var left := From(sends, i);
            var left' := From(sends, i + 1);
            var ok := i < |sends| && sends[i] && c.connected;
            var c' := if ids[i] in live then ClientBind(c, ids[i], ok) else c;
            && ClientDrainBindings(c, live, ids[i..], left) == ClientDrainBindings(c', live, ids[i + 1..], left')
            && DrainNotices(c, live, ids[i..], left)
               == BindNotices(ids[i] in live && c.connected, ids[i], ok) + DrainNotices(c', live, ids[i + 1..], left')
  {
    hide ClientBind, BindNotices;
    assert ids[i..][1..] == ids[i + 1..];
    if i < |sends| {
      assert sends[i..][1..] == sends[i + 1..];
    }
  }

  lemma DrainedAll(c: Client, live: set<ProxyId>, ids: seq<ProxyId>, sends: seq<bool>)
    ensures var left := From(sends, |ids|);
            ClientDrainBindings(c, live, ids[|ids|..], left) == c && DrainNotices(c, live, ids[|ids|..], left) == []
  {
  }

  /** The listeners of the live proxies whose bindings were waiting for a connection that failed. */
  function FailureNotices(live: set<ProxyId>, proxies: seq<ProxyId>): seq<Notice> {
    if proxies == [] then []
    else
      var last := proxies[|proxies| - 1];
      FailureNotices(live, proxies[..|proxies| - 1]) + if last in live then [Notice(last, false)] else []
  }

  /** One second more up to ten, then half a minute. */
  function NextBackoff(ms: nat): nat {
    if ms < 10000 then ms + 1000 else 30000
  }

  class ClientImpl {
    var alive: bool
    var connected: bool
    ghost var disconnectSeen: bool
    var lastRequestId: RequestId
    var queuedRequests: map<RequestId, QueuedRequest>
    var serviceBindings: map<ServiceId, ServiceProxy>
    var queuedBindings: seq<ServiceProxy>
    const socketRetry: bool
    var socketBackoffMs: nat

    constructor (socketRetry: bool)
      ensures View() == NEW_CLIENT && this.socketRetry == socketRetry && socketBackoffMs == 0
    {
      this.socketRetry, socketBackoffMs := socketRetry, 0;
      alive, connected, disconnectSeen, lastRequestId := true, false, false, 0;
      queuedRequests, serviceBindings, queuedBindings := map[], map[], [];
    }

    ghost function View(): Client
      reads this
    {
      Client(alive, connected, disconnectSeen, lastRequestId,
             Queue(queuedRequests), Bindings(serviceBindings), Ids(queuedBindings))
    }

    lemma Seen()
      ensures View().alive == alive && View().lastRequestId == lastRequestId
    {
    }

    method NextRequestId() returns (id: RequestId)
      modifies this`lastRequestId
      ensures id == NextId(old(lastRequestId)) && lastRequestId == id
    {
      lastRequestId := (lastRequestId + 1) % TWO_TO_THE_64;
      id := lastRequestId;
    }

    method SendFrame(sent: bool)
      modifies this`connected
      ensures connected == (old(connected) && sent)
    {
      if !sent {
        connected := false;
      }
    }

    method EmplaceRequest(q: QueuedRequest)
      modifies this`queuedRequests
      ensures queuedRequests == Emplace(old(queuedRequests), q.requestId, q)
      ensures Queue(queuedRequests) == Emplace(old(Queue(queuedRequests)), q.requestId, RequestOf(q))
    {
      if q.requestId !in queuedRequests {
        queuedRequests := queuedRequests[q.requestId := q];
      }
    }

    method BeginInvoke(proxy: ServiceProxy, name: string, dropReply: bool, sent: bool) returns (requestId: RequestId)
      modifies this`lastRequestId, this`connected, this`queuedRequests
      ensures (View(), requestId) == ClientBeginInvoke(old(View()), proxy.id, name, dropReply, sent)
      ensures Adds(old(queuedRequests), queuedRequests, [proxy])
    {
      var id := NextRequestId();
      SendFrame(sent);
      if !sent || dropReply {
        return 0;
      }
      EmplaceRequest(QueuedRequest(false, id, proxy, name));
      return id;
    }

    /** The listener is told at once if the request cannot be sent. */
    method BindService(proxy: ServiceProxy, sent: bool, listeners: ListenerLog)
      modifies this`lastRequestId, this`connected, this`queuedRequests, this`queuedBindings, listeners
      ensures View() == if proxy.alive then ClientBind(old(View()), proxy.id, sent) else old(View())
      ensures Adds(old(queuedRequests), queuedRequests, [proxy])
      ensures queuedBindings == old(queuedBindings) || queuedBindings == old(queuedBindings) + [proxy]
      ensures listeners.notices == old(listeners.notices) + BindNotices(proxy.alive && old(connected), proxy.id, sent)
    {
      if !proxy.alive {
        return;
      }
      if !connected {
        queuedBindings := queuedBindings + [proxy];
        return;
      }
      var id := NextRequestId();
      SendFrame(sent);
      if !sent {
        proxy.OnConnect(false, listeners);
        return;
      }
      EmplaceRequest(QueuedRequest(true, id, proxy, ""));
    }

    method UnbindService(serviceId: ServiceId)
      modifies this`serviceBindings
      ensures View() == WithoutBinding(old(View()), serviceId)
      ensures serviceBindings == old(serviceBindings) - {serviceId}
    {
      serviceBindings := serviceBindings - {serviceId};
    }

    /**
     The attempt to connect has ended. A failed one is repeated later if the client is to retry;
     otherwise the bindings queued meanwhile are sent, in order, or their listeners told of the failure.
     */
    method OnConnect(success: bool, sends: seq<bool>, ghost live: set<ProxyId>, listeners: ListenerLog)
      returns (retryAfterMs: Option<nat>)
      requires forall p :: p in queuedBindings ==> (p.id in live <==> p.alive)
      modifies this`lastRequestId, this`connected, this`queuedRequests, this`queuedBindings, this`socketBackoffMs,
               listeners
      ensures !success && socketRetry ==>
                && View() == old(View()) && listeners.notices == old(listeners.notices)
                && retryAfterMs == Some(socketBackoffMs) && socketBackoffMs == NextBackoff(old(socketBackoffMs))
      ensures success || !socketRetry ==> retryAfterMs == None && socketBackoffMs == old(socketBackoffMs)
      ensures !success && !socketRetry ==>
                && View() == old(View()).(queuedBindings := [])
                && listeners.notices == old(listeners.notices) + FailureNotices(live, old(View()).queuedBindings)
      ensures success ==>
                var start, ids := old(View()).(connected := true, queuedBindings := []), old(View()).queuedBindings;
                && View() == ClientDrainBindings(start, live, ids, sends)
                && listeners.notices == old(listeners.notices) + DrainNotices(start, live, ids, sends)
      ensures Adds(old(queuedRequests), queuedRequests, old(queuedBindings))
      ensures forall p :: p in queuedBindings ==> p in old(queuedBindings)
    {
      retryAfterMs := None;
      if !success && socketRetry {
        socketBackoffMs := NextBackoff(socketBackoffMs);
        return Some(socketBackoffMs);
      }
      if success {
        SendQueuedBindings(sends, live, listeners);
      } else {
        FailQueuedBindings(live, listeners);
      }
    }

    method SendQueuedBindings(sends: seq<bool>, ghost live: set<ProxyId>, listeners: ListenerLog)
      requires forall p :: p in queuedBindings ==> (p.id in live <==> p.alive)
      modifies this`lastRequestId, this`connected, this`queuedRequests, this`queuedBindings, listeners
      ensures var start, ids := old(View()).(connected := true, queuedBindings := []), old(View()).queuedBindings;
              && View() == ClientDrainBindings(start, live, ids, sends)
              && listeners.notices == old(listeners.notices) + DrainNotices(start, live, ids, sends)
      ensures Adds(old(queuedRequests), queuedRequests, old(queuedBindings))
      ensures forall p :: p in queuedBindings ==> p in old(queuedBindings)
    {
      hide Queue, Bindings, Ids, ClientBind, BindNotices, ClientDrainBindings, DrainNotices, From, Adds;
      AddsNothing(queuedRequests, queuedBindings);
      var bindings := queuedBindings;
      connected, queuedBindings := true, [];
      ghost var start, ids, before := View(), Ids(bindings), listeners.notices;
      assert Ids([]) == [];
      ghost var end := ClientDrainBindings(start, live, ids, sends);
      ghost var all := before + DrainNotices(start, live, ids, sends);
      FromStart(ids, sends);
      for i := 0 to |bindings|
        invariant end == ClientDrainBindings(View(), live, ids[i..], From(sends, i))
        invariant all == listeners.notices + DrainNotices(View(), live, ids[i..], From(sends, i))
        invariant Adds(old(queuedRequests), queuedRequests, bindings)
        invariant forall p :: p in queuedBindings ==> p in bindings
      {
        var sent := i < |sends| && sends[i] && connected;
        DrainOne(View(), live, ids, i, sends);
        ghost var now, requests := listeners.notices, queuedRequests;
        ghost var told := BindNotices(bindings[i].alive && connected, bindings[i].id, sent);
        BindService(bindings[i], sent, listeners);
        AddsMore(old(queuedRequests), requests, queuedRequests, bindings, i);
        ghost var later := DrainNotices(View(), live, ids[i + 1..], From(sends, i + 1));
        assert now + (told + later) == now + told + later;
      }
      DrainedAll(View(), live, ids, sends);
      assert listeners.notices + [] == listeners.notices;
    }

    method FailQueuedBindings(ghost live: set<ProxyId>, listeners: ListenerLog)
      requires forall p :: p in queuedBindings ==> (p.id in live <==> p.alive)
      modifies this`queuedBindings, listeners
      ensures View() == old(View()).(queuedBindings := [])
      ensures listeners.notices == old(listeners.notices) + FailureNotices(live, old(View()).queuedBindings)
    {
      var bindings := queuedBindings;
      queuedBindings := [];
      ghost var ids, before := Ids(bindings), listeners.notices;
      assert ids[..0] == [];
      for i := 0 to |bindings|
        invariant listeners.notices == before + FailureNotices(live, ids[..i]) && queuedBindings == []
      {
        if bindings[i].alive {
          bindings[i].OnConnect(false, listeners);
        }
        assert ids[..i + 1][..i] == ids[..i];
      }
      assert ids[..|ids|] == ids;
    }

    /** One disconnection task per binding, one failure notice per queued bind request; the requests stay. */
    method OnDisconnect() returns (posted: set<(ServiceId, ServiceProxy)>, failed: set<(RequestId, ServiceProxy)>)
      modifies this`connected, this`disconnectSeen, this`serviceBindings, this`queuedBindings
      ensures View() == ClientOnDisconnect(old(View()))
      ensures posted == old(serviceBindings.Items)
      ensures failed == set r | r in queuedRequests && queuedRequests[r].isBind :: (r, queuedRequests[r].proxy)
      ensures serviceBindings == map[] && queuedBindings == []
    {
      posted := {};
      var todo := serviceBindings.Keys;
      while todo != {}
        invariant todo <= serviceBindings.Keys
        invariant posted == set s | s in serviceBindings && s !in todo :: (s, serviceBindings[s])
      {
        var s :| s in todo;
        posted, todo := posted + {(s, serviceBindings[s])}, todo - {s};
      }
      assert forall item :: item in serviceBindings.Items <==>
               item.0 in serviceBindings && item.1 == serviceBindings[item.0];
      failed := FailedBinds();
      serviceBindings, queuedBindings := map[], [];
      connected, disconnectSeen := false, true;
    }

    /** The destructor. */
    method Destroy() returns (posted: set<(ServiceId, ServiceProxy)>, failed: set<(RequestId, ServiceProxy)>)
      requires alive
      modifies this
      ensures View() == ClientOnDisconnect(old(View())).(alive := false, queued := map[])
      ensures posted == old(serviceBindings.Items)
      ensures failed == old(set r | r in queuedRequests && queuedRequests[r].isBind :: (r, queuedRequests[r].proxy))
      ensures queuedRequests == map[] && serviceBindings == map[] && queuedBindings == []
    {
      posted, failed := OnDisconnect();
      alive, queuedRequests := false, map[];
    }

    method FailedBinds() returns (failed: set<(RequestId, ServiceProxy)>)
      ensures failed == set r | r in queuedRequests && queuedRequests[r].isBind :: (r, queuedRequests[r].proxy)
    {
      failed := {};
      var left := queuedRequests.Keys;
      while left != {}
        invariant left <= queuedRequests.Keys
        invariant failed == set r | r in queuedRequests && r !in left &&
                  queuedRequests[r].isBind :: (r, queuedRequests[r].proxy)
      {
        var r :| r in left;
        left := left - {r};
        if !queuedRequests[r].isBind {
          continue;
        }
        failed := failed + {(r, queuedRequests[r].proxy)};
      }
    }

    /** A successful bind reply counts unless another live proxy is bound under the same id. */
    ghost predicate Accepts(proxy: ServiceProxy, reply: Msg)
      requires reply.BindReply?
      reads this, proxy, serviceBindings.Values
    {
      proxy.alive && reply.success && !(reply.serviceId in serviceBindings && serviceBindings[reply.serviceId].alive)
    }

    /** The map from method names to ids; unnamed and zero-id entries are skipped, later ones win. */
    method RemoteMethods(entries: seq<(string, MethodId)>) returns (methods: map<string, MethodId>)
      ensures methods == MethodMap(entries) && MethodsOf(entries, methods)
    {
      MethodMapIsLast(entries);
      methods := map[];
      for i := 0 to |entries|
        invariant methods == MethodMap(entries[..i])
      {
        var m := entries[i];
        assert entries[..i + 1][..i] == entries[..i];
        if m.0 == "" || m.1 == 0 {
          continue;
        }
        methods := methods[m.0 := m.1];
      }
      assert entries[..|entries|] == entries;
    }

    method OnBindServiceReply(proxy: ServiceProxy, reply: Msg, listeners: ListenerLog)
      requires reply.BindReply?
      modifies this`serviceBindings, proxy`client, proxy`serviceId, proxy`remoteMethodIds, listeners
      ensures listeners.notices == old(listeners.notices) + if proxy.alive
              then [Notice(proxy.id, old(Accepts(proxy, reply)))] else []
      ensures proxy.View() == if old(Accepts(proxy, reply)) then Rebound(old(proxy.View()), reply)
              else old(proxy.View())
      ensures proxy.client == if old(Accepts(proxy, reply)) then this else old(proxy.client)
      ensures serviceBindings == if old(Accepts(proxy, reply)) then old(serviceBindings)[reply.serviceId := proxy]
              else old(serviceBindings)
      ensures View() == if old(Accepts(proxy, reply))
              then old(View()).(bindings := old(View()).bindings[reply.serviceId := proxy.id]) else old(View())
    {
      hide Queue, Ids, MethodMap, ServiceProxy.Pending;
      if !proxy.alive {
        return;
      }
      if !reply.success {
        proxy.OnConnect(false, listeners);
        return;
      }
      if reply.serviceId in serviceBindings && serviceBindings[reply.serviceId].alive {
        proxy.OnConnect(false, listeners);
        return;
      }
      var methods := RemoteMethods(reply.methods);
      proxy.InitializeBinding(this, reply.serviceId, methods);
      serviceBindings := serviceBindings[reply.serviceId := proxy];
      proxy.OnConnect(true, listeners);
    }

    /** The reply decoder of the request's method is looked up in the proxy's descriptor. */
    method DecodeReply(descriptor: seq<Method>, name: string, reply: Msg) returns (msg: Option<Message>)
      requires reply.InvokeReply?
      ensures msg == if reply.success then Decode(descriptor, name, reply.proto) else None
      ensures if reply.success then DecodedBy(descriptor, name, reply.proto, msg) else msg == None
    {
      DecodeIsByFirst(descriptor, name, reply.proto);
      msg := None;
      if reply.success {
        for i := 0 to |descriptor|
          invariant Decode(descriptor, name, reply.proto) == Decode(descriptor[i..], name, reply.proto)
          invariant msg == None
        {
          if descriptor[i].name == name {
            return descriptor[i].decoder(reply.proto);
          }
        }
      }
    }

    /** The effect of a reply on a proxy and its callbacks; a reply that nobody awaits has none. */
    ghost predicate Answers(q: QueuedRequest, reply: Msg)
      requires reply.InvokeReply?
      reads q.proxy, q.proxy.pendingCallbacks.Values
    {
      q.proxy.alive && q.requestId in q.proxy.Pending()
    }

    method OnInvokeMethodReply(q: QueuedRequest, reply: Msg, log: CallbackLog)
      requires reply.InvokeReply? && !q.isBind && q.proxy.Valid(log)
      modifies this`queuedRequests, q.proxy`pendingCallbacks, q.proxy.pendingCallbacks.Values, log
      ensures q.proxy.Valid(log) && q.proxy.pendingCallbacks.Values <= old(q.proxy.pendingCallbacks.Values)
      ensures queuedRequests ==
              if q.proxy.alive && reply.hasMore then Emplace(old(queuedRequests), q.requestId, q)
                  else old(queuedRequests)
      ensures !old(Answers(q, reply)) ==> q.proxy.View() == old(q.proxy.View()) && log.calls == old(log.calls)
      ensures old(Answers(q, reply)) ==>
                var p := old(q.proxy.View());
                && log.calls == Call(old(log.calls), p.pending[q.requestId], ReplyResult(p, q.methodName, reply))
                && q.proxy.View() == if reply.hasMore then p else p.(pending := p.pending - {q.requestId})
    {
      hide ServiceProxy.Pending, ServiceProxy.Distinct, Decode, Queue, RequestOf;
      if !q.proxy.alive {
        return;
      }
      var decoded := DecodeReply(q.proxy.descriptor, q.methodName, reply);
      q.proxy.EndInvoke(q.requestId, decoded, reply.hasMore, log);
      if reply.hasMore {
        EmplaceRequest(q);
      }
    }

    /** Takes the request out of the queue and hands the frame to the code for its kind of request. */
    method OnFrameReceived(frame: Frame, log: CallbackLog, listeners: ListenerLog)
      requires frame.requestId in queuedRequests ==>
                 queuedRequests[frame.requestId].requestId == frame.requestId &&
                     queuedRequests[frame.requestId].proxy.Valid(log)
      modifies this`queuedRequests, this`serviceBindings
      modifies if frame.requestId in queuedRequests
               then var p := queuedRequests[frame.requestId].proxy; {p} + p.pendingCallbacks.Values
               else {}
      modifies log, listeners
      ensures frame.requestId !in old(queuedRequests) ==>
                && queuedRequests == old(queuedRequests) && serviceBindings == old(serviceBindings)
                && log.calls == old(log.calls) && listeners.notices == old(listeners.notices)
      ensures frame.requestId in old(queuedRequests) ==>
                var q := old(queuedRequests)[frame.requestId];
                var bound := q.isBind && frame.msg.BindReply? && old(Accepts(q.proxy, frame.msg));
                var invoked := !q.isBind && frame.msg.InvokeReply?;
                var answered := invoked && old(Answers(q, frame.msg));
                var p := old(q.proxy.View());
                && q.proxy.Valid(log) && q.proxy.alive == old(q.proxy.alive)
                && q.proxy.client == (if bound then this else old(q.proxy.client))
                && q.proxy.pendingCallbacks.Values <= old(q.proxy.pendingCallbacks.Values)
                && queuedRequests == (if invoked && q.proxy.alive && frame.msg.hasMore then old(queuedRequests)
                                      else old(queuedRequests) - {frame.requestId})
                && serviceBindings == (if bound then old(serviceBindings)[frame.msg.serviceId := q.proxy]
                   else old(serviceBindings))
                && listeners.notices == old(listeners.notices) +
                     (if q.isBind && frame.msg.BindReply? && q.proxy.alive then [Notice(q.proxy.id, bound)] else [])
                && log.calls == (if answered
                   then Call(old(log.calls), p.pending[frame.requestId], ReplyResult(p, q.methodName, frame.msg))
                                 else old(log.calls))
                && q.proxy.View() == (if bound then Rebound(p, frame.msg)
                                      else if answered && !frame.msg.hasMore
                                          then p.(pending := p.pending - {frame.requestId})
                                      else p)
    {
      hide ServiceProxy.Pending, ServiceProxy.Distinct, ServiceProxy.Valid, Decode, RequestOf, MethodMap, Bindings,
           Ids, Queue;
      if frame.requestId !in queuedRequests {
        return;
      }
      var q := queuedRequests[frame.requestId];
      queuedRequests := queuedRequests - {frame.requestId};
      if q.isBind && frame.msg.BindReply? {
        OnBindServiceReply(q.proxy, frame.msg, listeners);
      } else if !q.isBind && frame.msg.InvokeReply? {
        OnInvokeMethodReply(q, frame.msg, log);
      }
    }
  }
}
