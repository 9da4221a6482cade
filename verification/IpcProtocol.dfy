/**
 The client side of the RPC protocol as a state machine. A state holds one client, its live service
 proxies and, for every reply callback ever handed to an invocation, the results it has been given.
 Each operation is one uninterrupted piece of client code. A reply is two operations, because user
 code runs in between: the callback is called, whatever the callback does happens as further
 operations, and then the reply is completed.
 */
module IpcProtocol {
  import opened Common

  type ProxyId = nat
  type RequestId = nat
  type ServiceId = nat
  type MethodId = nat
  type CallbackId = nat
  type Message = seq<byte>

  datatype AsyncResult = AsyncResult(msg: Option<Message>, hasMore: bool)

  /** What a rejected callback is given. */
  const REJECTION := AsyncResult(None, false)

  type Results = map<CallbackId, seq<AsyncResult>>

  // ---------------------------------------------------------------- client

  datatype Request = BindRequest(proxy: ProxyId) | InvokeRequest(proxy: ProxyId, methodName: string)

  datatype Client = Client(
    alive: bool,
    connected: bool,       // the socket is connected
    disconnectSeen: bool,  // the socket has reported its disconnection
    lastRequestId: RequestId,
    queued: map<RequestId, Request>,
    bindings: map<ServiceId, ProxyId>,
    queuedBindings: seq<ProxyId>)

  /** Request ids are 64-bit counters. */
  function NextId(last: RequestId): RequestId {
    (last + 1) % TWO_TO_THE_64
  }

  /** std::map::emplace: an existing entry wins. */
  function Emplace<K, V>(m: map<K, V>, k: K, v: V): map<K, V> {
    if k in m then m else m[k := v]
  }

  /** A failed send leaves the socket disconnected. */
  function Sent(c: Client, ok: bool): Client {
    c.(lastRequestId := NextId(c.lastRequestId), connected := c.connected && ok)
  }

  function ClientBeginInvoke(c: Client, proxy: ProxyId, name: string, dropReply: bool, sent: bool)
      : (Client, RequestId) {
    var id := NextId(c.lastRequestId);
    var c' := Sent(c, sent);
    if !sent || dropReply then (c', 0)
    else (c'.(queued := Emplace(c'.queued, id, InvokeRequest(proxy, name))), id)
  }

  function ClientBind(c: Client, proxy: ProxyId, sent: bool): Client {
    if !c.connected then
      c.(queuedBindings := c.queuedBindings + [proxy])
    else
      var c' := Sent(c, sent);
      if sent then c'.(queued := Emplace(c'.queued, NextId(c.lastRequestId), BindRequest(proxy))) else c'
  }

  /** The bindings queued before the connection, sent one by one; `sent` tells which sends succeed. */
  function ClientDrainBindings(c: Client, live: set<ProxyId>, proxies: seq<ProxyId>, sent: seq<bool>): Client
    decreases |proxies|
  {
    if proxies == [] then c
    else
      var ok := sent != [] && sent[0] && c.connected;
      var c' := if proxies[0] in live then ClientBind(c, proxies[0], ok) else c;
      ClientDrainBindings(c', live, proxies[1..], if sent == [] then [] else sent[1..])
  }

  function ClientOnDisconnect(c: Client): Client {
    c.(connected := false, disconnectSeen := true, bindings := map[], queuedBindings := [])
  }

  // ---------------------------------------------------------------- proxy

  datatype Method = Method(name: string, decoder: Message -> Option<Message>)

  datatype Proxy = Proxy(
    descriptor: seq<Method>,
    serviceId: ServiceId,
    hasClient: bool,  // InitializeBinding has been called
    methods: map<string, MethodId>,
    pending: map<RequestId, CallbackId>,
    dropped: bool)    // OnDisconnect has been called

  /** The reply decoder of the first method with the given name. */
  function Decode(descriptor: seq<Method>, name: string, proto: Message): Option<Message> {
    if descriptor == [] then None
    else if descriptor[0].name == name then descriptor[0].decoder(proto)
    else Decode(descriptor[1..], name, proto)
  }

  /** The first method with the given name is at position `i`. */
  predicate FirstNamed(descriptor: seq<Method>, i: int, name: string) {
    && 0 <= i < |descriptor| && descriptor[i].name == name
    && forall j :: 0 <= j < i ==> descriptor[j].name != name
  }

  /** What a reply is decoded to: by the first method with the name, and to nothing if there is none. */
  ghost predicate DecodedBy(descriptor: seq<Method>, name: string, proto: Message, r: Option<Message>) {
    && (forall i :: FirstNamed(descriptor, i, name) ==> r == descriptor[i].decoder(proto))
    && ((forall i :: 0 <= i < |descriptor| ==> descriptor[i].name != name) ==> r == None)
  }

  lemma {:induction false} DecodeIsByFirst(descriptor: seq<Method>, name: string, proto: Message)
    ensures DecodedBy(descriptor, name, proto, Decode(descriptor, name, proto))
  {
    if descriptor != [] && descriptor[0].name != name {
      var rest := descriptor[1..];
      DecodeIsByFirst(rest, name, proto);
      forall i | FirstNamed(descriptor, i, name)
        ensures FirstNamed(rest, i - 1, name)
      {
        assert forall j :: 0 <= j < i - 1 ==> rest[j] == descriptor[j + 1];
      }
    }
  }

  /** Later entries of a bind reply override earlier ones; unnamed or zero-id methods are skipped. */
  function MethodMap(methods: seq<(string, MethodId)>): map<string, MethodId> {
    if methods == [] then map[]
    else
      var last := methods[|methods| - 1];
      var m := MethodMap(methods[..|methods| - 1]);
      if last.0 == "" || last.1 == 0 then m else m[last.0 := last.1]
  }

  /** The entry at `i` is the last one with a name and an id that has this name. */
  predicate LastNamed(entries: seq<(string, MethodId)>, i: int, name: string) {
    && 0 <= i < |entries| && entries[i].0 == name != "" && entries[i].1 != 0
    && forall j :: i < j < |entries| ==> entries[j].0 != name || entries[j].1 == 0
  }

  /** The map has exactly the names of such entries, with their ids. */
  ghost predicate MethodsOf(entries: seq<(string, MethodId)>, m: map<string, MethodId>) {
    && (forall i, name :: LastNamed(entries, i, name) ==> name in m && m[name] == entries[i].1)
    && (forall name :: name in m ==> exists i :: LastNamed(entries, i, name))
  }

  lemma {:induction false} MethodMapIsLast(entries: seq<(string, MethodId)>)
    ensures MethodsOf(entries, MethodMap(entries))
  {
    if entries != [] {
      var n := |entries| - 1;
      var front, last := entries[..n], entries[n];
      MethodMapIsLast(front);
      var skipped := last.0 == "" || last.1 == 0;
      forall i, name | LastNamed(entries, i, name)
        ensures name in MethodMap(entries) && MethodMap(entries)[name] == entries[i].1
      {
        assert i < n ==> LastNamed(front, i, name);
      }
      forall name | name in MethodMap(entries)
        ensures exists i :: LastNamed(entries, i, name)
      {
        if !skipped && name == last.0 {
          assert LastNamed(entries, n, name);
        } else {
          var i :| LastNamed(front, i, name);
          assert LastNamed(entries, i, name);
        }
      }
    }
  }

  // ---------------------------------------------------------------- callbacks

  /** Calls a callback with a result. */
  function Call(calls: Results, cb: CallbackId, r: AsyncResult): Results
    requires cb in calls
  {
    calls[cb := calls[cb] + [r]]
  }

  /** The reply object handed to an invocation goes out of scope. */
  function Reject(calls: Results, cb: Option<CallbackId>): Results
    requires cb.Some? ==> cb.value in calls
  {
    if cb.Some? then Call(calls, cb.value, REJECTION) else calls
  }

  /** All the pending reply objects of a proxy go out of scope. */
  function RejectAll(calls: Results, pending: map<RequestId, CallbackId>): Results {
    map cb | cb in calls :: if cb in pending.Values then calls[cb] + [REJECTION] else calls[cb]
  }

  // ---------------------------------------------------------------- the whole state

  datatype Msg =
    | BindReply(success: bool, serviceId: ServiceId, methods: seq<(string, MethodId)>)
    | InvokeReply(success: bool, hasMore: bool, proto: Message)
    | RequestError
    | OtherMsg

  datatype Frame = Frame(requestId: RequestId, msg: Msg)

  /** A reply whose callback is being called. */
  datatype Replying = Replying(requestId: RequestId, request: Request, hasMore: bool)

  datatype World = World(
    client: Client,
    proxies: map<ProxyId, Proxy>,                     // live proxies
    born: set<ProxyId>,                               // proxies that live or have lived
    calls: Results,
    disconnects: multiset<(ServiceId, ProxyId)>,      // posted proxy disconnections
    replying: Option<Replying>,
    home: map<CallbackId, (ProxyId, RequestId)>,      // which invocation a callback was handed to
    unexpectedReply: bool)                            // EndInvoke found no callback

  const NEW_CLIENT := Client(true, false, false, 0, map[], map[], [])

  const START := World(NEW_CLIENT, map[], {}, map[], multiset{}, None, map[], false)

  datatype Op =
    | NewProxy(id: ProxyId, descriptor: seq<Method>)
    | DestroyProxy(id: ProxyId)
    | Bind(id: ProxyId, sent: bool)
    | Invoke(id: ProxyId, methodName: string, cb: Option<CallbackId>, sent: bool)
    | Receive(frame: Frame)
    | ReplyDone
    | Connected(sends: seq<bool>)
    | ConnectFailed
    | ConnectionLost
    | ClientDisconnect
    | ProxyDisconnect(task: (ServiceId, ProxyId))
    | DestroyClient

  /** When an operation can happen. User code may run at any time, the rest only between tasks. */
  predicate Enabled(w: World, op: Op) {
    match op
    case NewProxy(id, _) => id !in w.born
    case DestroyProxy(id) => id in w.proxies && !(w.replying.Some? && w.replying.value.request.proxy == id)
    case Bind(_, sent) => w.client.alive && (sent ==> w.client.connected)
    case Invoke(id, _, cb, sent) =>
      id in w.proxies && (cb.Some? ==> cb.value !in w.calls) && (sent ==> w.client.connected)
    case Receive(_) => w.replying.None? && w.client.alive && !w.client.disconnectSeen
    case ReplyDone => w.replying.Some?
    case Connected(_) => w.replying.None? && w.client.alive && !w.client.disconnectSeen
    case ConnectFailed => w.replying.None? && w.client.alive && !w.client.disconnectSeen
    case ConnectionLost => true
    case ClientDisconnect => w.replying.None? && w.client.alive
    case ProxyDisconnect(task) => w.replying.None? && task in w.disconnects
    case DestroyClient => w.replying.None? && w.client.alive
  }

  /** What an invocation leaves behind; a request id of zero means that nothing awaits a reply. */
  datatype Begun = Begun(proxy: Proxy, client: Client, calls: Results, requestId: RequestId)

  function BeginInvoke(p: Proxy, c: Client, calls: Results, id: ProxyId, name: string, cb: Option<CallbackId>,
      sent: bool): Begun
    requires cb.Some? ==> cb.value in calls
  {
    if p.serviceId == 0 || !p.hasClient || !c.alive || name !in p.methods then
      Begun(p, c, Reject(calls, cb), 0)
    else
      var (c', requestId) := ClientBeginInvoke(c, id, name, cb.None?, sent);
      if requestId == 0 || cb.None? then
        Begun(p, c', Reject(calls, cb), 0)
      else
        Begun(p.(pending := Emplace(p.pending, requestId, cb.value)), c', calls, requestId)
  }

  function InvokeOn(w: World, id: ProxyId, name: string, cb: Option<CallbackId>, sent: bool): World
    requires id in w.proxies
  {
    var calls := if cb.Some? then w.calls[cb.value := []] else w.calls;
    var b := BeginInvoke(w.proxies[id], w.client, calls, id, name, cb, sent);
    w.(client := b.client,
       calls := b.calls,
       proxies := w.proxies[id := b.proxy],
       home := if b.requestId != 0 && cb.Some? then w.home[cb.value := (id, b.requestId)] else w.home)
  }

  /** A new binding: the id is refused when another live proxy is bound to it. */
  function Rebound(p: Proxy, reply: Msg): Proxy
    requires reply.BindReply?
  {
    p.(serviceId := reply.serviceId, hasClient := true, methods := MethodMap(reply.methods))
  }

  function BindReplied(w: World, id: ProxyId, reply: Msg): World
    requires reply.BindReply?
  {
    if id !in w.proxies || !reply.success then w
    else if reply.serviceId in w.client.bindings && w.client.bindings[reply.serviceId] in w.proxies then w
    else
      w.(proxies := w.proxies[id := Rebound(w.proxies[id], reply)],
         client := w.client.(bindings := w.client.bindings[reply.serviceId := id]))
  }

  function ReplyResult(p: Proxy, name: string, reply: Msg): AsyncResult
    requires reply.InvokeReply?
  {
    AsyncResult(if reply.success then Decode(p.descriptor, name, reply.proto) else None, reply.hasMore)
  }

  function InvokeReplied(w: World, requestId: RequestId, request: Request, reply: Msg): World
    requires reply.InvokeReply? && request.InvokeRequest?
  {
    if request.proxy !in w.proxies then w
    else
      var p := w.proxies[request.proxy];
      var w' := w.(replying := Some(Replying(requestId, request, reply.hasMore)));
      if requestId !in p.pending || p.pending[requestId] !in w.calls then
        w'.(unexpectedReply := true)
      else
        w'.(calls := Call(w.calls, p.pending[requestId], ReplyResult(p, request.methodName, reply)))
  }

  function Received(w: World, frame: Frame): World {
    var id := frame.requestId;
    if id !in w.client.queued then w
    else
      var request := w.client.queued[id];
      var w := w.(client := w.client.(queued := w.client.queued - {id}));
      if request.BindRequest? && frame.msg.BindReply? then BindReplied(w, request.proxy, frame.msg)
      else if request.InvokeRequest? && frame.msg.InvokeReply? then InvokeReplied(w, id, request, frame.msg)
      else w
  }

  function ReplyCompleted(w: World): World
    requires w.replying.Some?
  {
    var r := w.replying.value;
    var w := w.(replying := None);
    if r.hasMore then
      w.(client := w.client.(queued := Emplace(w.client.queued, r.requestId, r.request)))
    else if r.request.proxy in w.proxies then
      var p := w.proxies[r.request.proxy];
      w.(proxies := w.proxies[r.request.proxy := p.(pending := p.pending - {r.requestId})])
    else w
  }

  function Apply(w: World, op: Op): World
    requires Enabled(w, op)
  {
    match op
    case NewProxy(id, descriptor) =>
      w.(proxies := w.proxies[id := Proxy(descriptor, 0, false, map[], map[], false)], born := w.born + {id})
    case DestroyProxy(id) =>
      var p := w.proxies[id];
      var unbind := p.hasClient && w.client.alive && p.serviceId != 0;
      w.(proxies := w.proxies - {id},
         calls := RejectAll(w.calls, p.pending),
         client := if unbind then w.client.(bindings := w.client.bindings - {p.serviceId}) else w.client)
    case Bind(id, sent) =>
      if id in w.proxies then w.(client := ClientBind(w.client, id, sent)) else w
    case Invoke(id, name, cb, sent) => InvokeOn(w, id, name, cb, sent)
    case Receive(frame) => Received(w, frame)
    case ReplyDone => ReplyCompleted(w)
    case Connected(sends) =>
      var c := w.client.(connected := true, queuedBindings := []);
      w.(client := ClientDrainBindings(c, w.proxies.Keys, w.client.queuedBindings, sends))
    case ConnectFailed => w.(client := w.client.(queuedBindings := []))
    case ConnectionLost => w.(client := w.client.(connected := false))
    case ClientDisconnect =>
      w.(client := ClientOnDisconnect(w.client), disconnects := w.disconnects + multiset(w.client.bindings.Items))
    case ProxyDisconnect(task) =>
      var w := w.(disconnects := w.disconnects - multiset{task});
      if task.1 !in w.proxies then w
      else
        var p := w.proxies[task.1];
        w.(calls := RejectAll(w.calls, p.pending),
           proxies := w.proxies[task.1 := p.(pending := map[], dropped := true)])
    case DestroyClient =>
      w.(client := ClientOnDisconnect(w.client).(alive := false, queued := map[]),
         disconnects := w.disconnects + multiset(w.client.bindings.Items))
  }

  // ---------------------------------------------------------------- the invariant

  /** Any number of results that announce more, then at most one that does not. */
  predicate WellFormed(rs: seq<AsyncResult>) {
    forall i :: 0 <= i < |rs| - 1 ==> rs[i].hasMore
  }

  predicate Finished(rs: seq<AsyncResult>) {
    rs != [] && !rs[|rs| - 1].hasMore
  }

  /** The proxy holds the callback under the request id. */
  predicate Owns(w: World, id: ProxyId, requestId: RequestId, cb: CallbackId) {
    id in w.proxies && requestId in w.proxies[id].pending && w.proxies[id].pending[requestId] == cb
  }

  /** The callback whose final result is being delivered right now. */
  predicate BeingFinished(w: World, cb: CallbackId) {
    && w.replying.Some? && !w.replying.value.hasMore
    && Owns(w, w.replying.value.request.proxy, w.replying.value.requestId, cb)
  }

  predicate QueueInv(w: World) {
    && (forall id :: id in w.client.queued ==>
          1 <= id <= w.client.lastRequestId && w.client.queued[id].proxy in w.born)
    && (forall id :: id in w.client.queued && w.client.queued[id].InvokeRequest? ==>
          var p := w.client.queued[id].proxy;
          p in w.proxies && !w.proxies[p].dropped ==> id in w.proxies[p].pending)
  }

  /** A pending callback is the one handed to the invocation with this id. */
  predicate PendingOk(w: World, p: ProxyId, id: RequestId)
    requires p in w.proxies && id in w.proxies[p].pending
  {
    var cb := w.proxies[p].pending[id];
    1 <= id <= w.client.lastRequestId && cb in w.calls && cb in w.home && w.home[cb] == (p, id)
  }

  predicate ProxyInv(w: World) {
    && w.proxies.Keys <= w.born
    && (forall cb :: cb in w.home ==> w.home[cb].0 in w.born)
    && (forall p :: p in w.proxies && w.proxies[p].dropped ==> w.client.disconnectSeen)
    && (forall task :: task in w.disconnects ==> w.client.disconnectSeen)
    && (forall p, id :: p in w.proxies && id in w.proxies[p].pending ==> PendingOk(w, p, id))
  }

  predicate ReplyInv(w: World) {
    w.replying.Some? ==>
      var r := w.replying.value;
      && r.request.InvokeRequest?
      && !w.client.disconnectSeen
      && w.client.alive
      && 1 <= r.requestId <= w.client.lastRequestId
      && r.requestId !in w.client.queued
      && r.request.proxy in w.proxies
      && r.requestId in w.proxies[r.request.proxy].pending
      && var cb := w.proxies[r.request.proxy].pending[r.requestId];
         cb in w.calls && w.calls[cb] != [] && (r.hasMore <==> !Finished(w.calls[cb]))
  }

  /** An unfinished callback is where it was filed; a finished one is nowhere, or about to be dropped. */
  predicate CallbackOk(w: World, cb: CallbackId)
    requires cb in w.calls
  {
    && WellFormed(w.calls[cb])
    && (!Finished(w.calls[cb]) ==> cb in w.home && Owns(w, w.home[cb].0, w.home[cb].1, cb))
    && (Finished(w.calls[cb]) && cb in w.home && Owns(w, w.home[cb].0, w.home[cb].1, cb) ==> BeingFinished(w, cb))
  }

  predicate CallbackInv(w: World) {
    && w.home.Keys <= w.calls.Keys
    && forall cb :: cb in w.calls ==> CallbackOk(w, cb)
  }

  predicate Inv(w: World) {
    QueueInv(w) && ProxyInv(w) && ReplyInv(w) && CallbackInv(w) && !w.unexpectedReply
  }

  /** The 64-bit request counter has not been exhausted. */
  predicate IdsLeft(w: World) {
    w.client.lastRequestId + 1 + |w.client.queuedBindings| < TWO_TO_THE_64
  }
}
