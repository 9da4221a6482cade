/** A disconnect reaches every proxy that awaits a reply, so it leaves no callback without a final result. */
module IpcDisconnect {
  import opened Common
  import opened IpcProtocol
  import opened IpcRuns

  /** A disconnection of the proxy is posted. */
  ghost predicate Posted(disconnects: multiset<(ServiceId, ProxyId)>, p: ProxyId) {
    exists task :: task in disconnects && task.1 == p
  }

  /** The client knows the proxy under the service id that the proxy was bound with last. */
  predicate Bound(bindings: map<ServiceId, ProxyId>, id: ProxyId, p: Proxy) {
    p.hasClient ==> p.serviceId in bindings && bindings[p.serviceId] == id
  }

  /** Only a bound proxy awaits replies. */
  predicate KnownInv(bindings: map<ServiceId, ProxyId>, proxies: map<ProxyId, Proxy>) {
    forall id :: id in proxies ==>
      Bound(bindings, id, proxies[id]) && (proxies[id].pending != map[] ==> proxies[id].hasClient)
  }

  /** After the disconnect, a proxy that awaits replies has its disconnection posted. */
  ghost predicate LeavingInv(proxies: map<ProxyId, Proxy>, disconnects: multiset<(ServiceId, ProxyId)>) {
    forall id :: id in proxies && proxies[id].pending != map[] ==> Posted(disconnects, id)
  }

  ghost predicate LinkInv(w: World) {
    if w.client.disconnectSeen then !w.client.connected && LeavingInv(w.proxies, w.disconnects)
    else KnownInv(w.client.bindings, w.proxies)
  }

  // ---------------------------------------------------------------- one operation at a time

  /** Neither the bindings nor what the proxies await have changed. */
  lemma SameLinksKeep(w: World, w': World)
    requires LinkInv(w)
    requires w'.client.disconnectSeen == w.client.disconnectSeen && w'.client.bindings == w.client.bindings
    requires w'.client.disconnectSeen && w'.client.connected ==> w.client.connected
    requires w'.disconnects == w.disconnects
    requires forall id :: id in w'.proxies ==>
      if id in w.proxies then
        && w'.proxies[id].serviceId == w.proxies[id].serviceId && w'.proxies[id].hasClient == w.proxies[id].hasClient
        && (w'.proxies[id].pending != map[] ==> w.proxies[id].pending != map[])
      else !w'.proxies[id].hasClient && w'.proxies[id].pending == map[]
    ensures LinkInv(w')
  {
    forall id | id in w'.proxies && !w.client.disconnectSeen
      ensures Bound(w'.client.bindings, id, w'.proxies[id])
    {
      assert id in w.proxies ==> Bound(w.client.bindings, id, w.proxies[id]);
    }
  }

  lemma NewProxyLinks(w: World, id: ProxyId, descriptor: seq<Method>)
    requires Inv(w) && LinkInv(w) && Enabled(w, NewProxy(id, descriptor))
    ensures LinkInv(Apply(w, NewProxy(id, descriptor)))
  {
    hide LinkInv, QueueInv, CallbackInv, ReplyInv;
    SameLinksKeep(w, Apply(w, NewProxy(id, descriptor)));
  }

  lemma DestroyProxyLinks(w: World, id: ProxyId)
    requires LinkInv(w) && Enabled(w, DestroyProxy(id))
    ensures LinkInv(Apply(w, DestroyProxy(id)))
  {
    var w' := Apply(w, DestroyProxy(id));
    forall q | q in w'.proxies && !w.client.disconnectSeen
      ensures Bound(w'.client.bindings, q, w'.proxies[q])
    {
      assert Bound(w.client.bindings, q, w.proxies[q]) && Bound(w.client.bindings, id, w.proxies[id]);
    }
  }

  /** A client that sent something, or tried to. */
  predicate SameBindings(c: Client, c': Client) {
    && c'.disconnectSeen == c.disconnectSeen && c'.bindings == c.bindings
    && (c'.connected ==> c.connected)
  }

  lemma {:induction false} DrainKeepsBindings(c: Client, live: set<ProxyId>, proxies: seq<ProxyId>, sent: seq<bool>)
    ensures SameBindings(c, ClientDrainBindings(c, live, proxies, sent))
    decreases |proxies|
  {
    if proxies != [] {
      var ok := sent != [] && sent[0] && c.connected;
      var c' := if proxies[0] in live then ClientBind(c, proxies[0], ok) else c;
      DrainKeepsBindings(c', live, proxies[1..], if sent == [] then [] else sent[1..]);
    }
  }

  lemma InvokeParts(w: World, id: ProxyId, name: string, cb: Option<CallbackId>, sent: bool)
    requires Enabled(w, Invoke(id, name, cb, sent))
    ensures var w' := Apply(w, Invoke(id, name, cb, sent));
            && SameBindings(w.client, w'.client) && w'.disconnects == w.disconnects
            && id in w'.proxies && w'.proxies == w.proxies[id := w'.proxies[id]]
            && w'.proxies[id].serviceId == w.proxies[id].serviceId
            && w'.proxies[id].hasClient == w.proxies[id].hasClient
            && (w'.proxies[id].pending != w.proxies[id].pending ==> w.proxies[id].hasClient && w.client.connected)
  {
    hide Reject;
  }

  lemma InvokeLinks(w: World, id: ProxyId, name: string, cb: Option<CallbackId>, sent: bool)
    requires LinkInv(w) && Enabled(w, Invoke(id, name, cb, sent))
    ensures LinkInv(Apply(w, Invoke(id, name, cb, sent)))
  {
    hide Apply;
    InvokeParts(w, id, name, cb, sent);
    var w' := Apply(w, Invoke(id, name, cb, sent));
    if !w.client.disconnectSeen {
      forall q | q in w'.proxies
        ensures Bound(w'.client.bindings, q, w'.proxies[q])
        ensures w'.proxies[q].pending != map[] ==> w'.proxies[q].hasClient
      {
        assert Bound(w.client.bindings, q, w.proxies[q]);
      }
    }
  }

  lemma RebindKnown(bindings: map<ServiceId, ProxyId>, proxies: map<ProxyId, Proxy>, id: ProxyId, p: Proxy)
    requires KnownInv(bindings, proxies) && id in proxies && p.hasClient
    requires !(p.serviceId in bindings && bindings[p.serviceId] in proxies)
    ensures KnownInv(bindings[p.serviceId := id], proxies[id := p])
  {
    var bindings', proxies' := bindings[p.serviceId := id], proxies[id := p];
    forall q | q in proxies' && q != id
      ensures Bound(bindings', q, proxies'[q])
    {
      assert Bound(bindings, q, proxies[q]);
    }
  }

  lemma BindReplyLinks(w: World, id: ProxyId, reply: Msg)
    requires LinkInv(w) && reply.BindReply? && !w.client.disconnectSeen
    ensures LinkInv(BindReplied(w, id, reply))
  {
    hide MethodMap, KnownInv;
    if BindReplied(w, id, reply) != w {
      RebindKnown(w.client.bindings, w.proxies, id, Rebound(w.proxies[id], reply));
    }
  }

  lemma ReceiveLinks(w: World, frame: Frame)
    requires LinkInv(w) && Enabled(w, Receive(frame))
    ensures LinkInv(Apply(w, Receive(frame)))
  {
    hide LinkInv, BindReplied;
    var w' := Apply(w, Receive(frame));
    if frame.requestId in w.client.queued {
      var request := w.client.queued[frame.requestId];
      var w1 := w.(client := w.client.(queued := w.client.queued - {frame.requestId}));
      SameLinksKeep(w, w1);
      if request.BindRequest? && frame.msg.BindReply? {
        BindReplyLinks(w1, request.proxy, frame.msg);
      } else {
        SameLinksKeep(w1, w');
      }
    }
  }

  /** Every proxy that awaits a reply is bound, so its disconnection is posted. */
  lemma DisconnectLinks(w: World, w': World)
    requires LinkInv(w) && w'.proxies == w.proxies
    requires w'.client.disconnectSeen && !w'.client.connected
    requires w'.disconnects == w.disconnects + multiset(w.client.bindings.Items)
    ensures LinkInv(w')
  {
    forall id | id in w.proxies && w.proxies[id].pending != map[]
      ensures Posted(w'.disconnects, id)
    {
      if w.client.disconnectSeen {
        var task :| task in w.disconnects && task.1 == id;
        assert task in w'.disconnects;
      } else {
        assert Bound(w.client.bindings, id, w.proxies[id]);
        var task := (w.proxies[id].serviceId, id);
        assert task in w.client.bindings.Items;
        assert task in w'.disconnects;
      }
    }
  }

  lemma ProxyDisconnectLinks(w: World, task: (ServiceId, ProxyId))
    requires LinkInv(w) && Inv(w) && Enabled(w, ProxyDisconnect(task))
    ensures LinkInv(Apply(w, ProxyDisconnect(task)))
  {
    hide QueueInv, CallbackInv, ReplyInv;
    assert w.client.disconnectSeen;
    var w' := Apply(w, ProxyDisconnect(task));
    forall id | id in w'.proxies && w'.proxies[id].pending != map[]
      ensures Posted(w'.disconnects, id)
    {
      var other :| other in w.disconnects && other.1 == id;
      assert other in w'.disconnects;
    }
  }

  /** Every operation keeps the link between proxies that await replies and the client. */
  lemma StepLinks(w: World, op: Op)
    requires Inv(w) && LinkInv(w) && Enabled(w, op)
    ensures LinkInv(Apply(w, op))
  {
    hide LinkInv, Inv, ClientDrainBindings;
    match op
    case NewProxy(id, descriptor) => NewProxyLinks(w, id, descriptor);
    case DestroyProxy(id) => DestroyProxyLinks(w, id);
    case Bind(id, sent) => SameLinksKeep(w, Apply(w, op));
    case Invoke(id, name, cb, sent) => InvokeLinks(w, id, name, cb, sent);
    case Receive(frame) => ReceiveLinks(w, frame);
    case ReplyDone => ReplyDoneLinks(w);
    case Connected(sends) =>
      DrainKeepsBindings(w.client.(connected := true, queuedBindings := []), w.proxies.Keys, w.client.queuedBindings,
          sends);
      SameLinksKeep(w, Apply(w, op));
    case ConnectFailed => SameLinksKeep(w, Apply(w, op));
    case ConnectionLost => SameLinksKeep(w, Apply(w, op));
    case ClientDisconnect => DisconnectLinks(w, Apply(w, op));
    case ProxyDisconnect(task) => ProxyDisconnectLinks(w, task);
    case DestroyClient => DisconnectLinks(w, Apply(w, op));
  }

  lemma ReplyDoneLinks(w: World)
    requires LinkInv(w) && Enabled(w, ReplyDone)
    ensures LinkInv(Apply(w, ReplyDone))
  {
    hide LinkInv;
    SameLinksKeep(w, Apply(w, ReplyDone));
  }

  lemma {:induction false} RunLinks(w: World, ops: seq<Op>)
    requires Inv(w) && LinkInv(w) && CanRun(w, ops)
    ensures Inv(Run(w, ops)) && LinkInv(Run(w, ops))
    decreases |ops|
  {
    hide Inv, LinkInv, Enabled, Apply, IdsLeft;
    if ops != [] {
      StepKeeps(w, ops[0]);
      StepLinks(w, ops[0]);
      RunLinks(Apply(w, ops[0]), ops[1..]);
    }
  }

  // ---------------------------------------------------------------- no callback is lost

  /**
   In every run: once the client has been disconnected or destroyed and the disconnections posted
   then have run, every callback ever handed to an invocation has had its final result.
   */
  lemma NoCallbackIsLost(ops: seq<Op>)
    requires CanRun(START, ops)
    requires Run(START, ops).client.disconnectSeen && Run(START, ops).disconnects == multiset{}
    ensures forall cb :: cb in Run(START, ops).calls ==> Finished(Run(START, ops).calls[cb])
  {
    assert Inv(START) && LinkInv(START);
    RunLinks(START, ops);
    var w := Run(START, ops);
    forall id | id in w.proxies
      ensures w.proxies[id].pending == map[]
    {
      assert !Posted(w.disconnects, id);
    }
    forall cb | cb in w.calls
      ensures Finished(w.calls[cb])
    {
      assert CallbackOk(w, cb);
    }
  }

  /**
   And before any disconnect: an invocation that was not sent, or whose proxy has been destroyed
   since, has had its final result.
   */
  lemma UnsentAndDestroyedFinish(ops: seq<Op>, cb: CallbackId)
    requires CanRun(START, ops) && cb in Run(START, ops).calls
    requires var w := Run(START, ops); cb in w.home ==> w.home[cb].0 !in w.proxies
    ensures Finished(Run(START, ops).calls[cb])
  {
    ReachableInv(ops);
    assert CallbackOk(Run(START, ops), cb);
  }
}
