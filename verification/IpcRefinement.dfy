/**
 The objects of the client against the state machine of the protocol: handling frames one after the
 other takes the objects from one state of the machine to the next.
 */
module IpcRefinement {
  import opened Common
  import opened IpcProtocol
  import opened IpcRuns
  import opened IpcClient

  /** All reply objects held by the proxies. */
  ghost function Held(all: set<ServiceProxy>): set<object>
    reads all
  {
    set p, d | p in all && d in p.pendingCallbacks.Values :: d
  }

  /** A proxy is as the machine has it. */
  ghost predicate ProxyAgrees(p: ServiceProxy, log: CallbackLog, proxies: map<ProxyId, Proxy>)
    reads p, p.pendingCallbacks.Values, log
  {
    && p.Valid(log) && (p.alive <==> p.id in proxies)
    && (p.alive ==> proxies[p.id] == p.View())
  }

  /** No two proxies have the same id, or hold the same reply object. */
  ghost predicate Apart(all: set<ServiceProxy>)
    reads all
  {
    forall p, q :: p in all && q in all && p != q ==>
      p.id != q.id && p.pendingCallbacks.Values !! q.pendingCallbacks.Values
  }

  /** No proxy is bound to another client, and every one was created. */
  ghost predicate Belong(c: ClientImpl, all: set<ServiceProxy>, born: set<ProxyId>)
    reads all
  {
    forall p :: p in all ==> (p.client == null || p.client == c) && p.id in born
  }

  ghost predicate KnownRequests(queued: map<RequestId, QueuedRequest>, all: set<ServiceProxy>) {
    forall r :: r in queued ==> queued[r].requestId == r && queued[r].proxy in all
  }

  ghost predicate KnownBindings(bindings: map<ServiceId, ServiceProxy>, all: set<ServiceProxy>) {
    forall s :: s in bindings ==> bindings[s] in all
  }

  /** Client, proxies and callbacks are in the state `w`. */
  ghost predicate Agrees(c: ClientImpl, all: set<ServiceProxy>, log: CallbackLog, w: World)
    reads c, all, Held(all), log
  {
    && w.client == c.View() && w.calls == log.calls
    && KnownRequests(c.queuedRequests, all) && KnownBindings(c.serviceBindings, all)
    && (forall p :: p in c.queuedBindings ==> p in all)
    && Apart(all) && Belong(c, all, w.born)
    && (forall p :: p in all ==> ProxyAgrees(p, log, w.proxies))
  }

  /** The machine's answer to a frame whose callback, if it calls one, does nothing further. */
  function Handled(w: World, frame: Frame): World {
    var w' := Received(w, frame);
    if w'.replying.Some? then ReplyCompleted(w') else w'
  }

  function HandledAll(w: World, frames: seq<Frame>): World {
    if frames == [] then w else Handled(HandledAll(w, frames[..|frames| - 1]), frames[|frames| - 1])
  }

  /** A state in which frames are handled. */
  predicate Ready(w: World) {
    Inv(w) && w.replying.None? && w.client.alive && !w.client.disconnectSeen
  }

  lemma HandledKeepsReady(w: World, frame: Frame)
    requires Ready(w)
    ensures Ready(Handled(w, frame))
  {
    hide Inv;
    ReceiveKeeps(w, frame);
    if Received(w, frame).replying.Some? {
      ReplyDoneKeeps(Received(w, frame));
    }
  }

  /** A bind reply that the machine accepts. */
  predicate Binds(w: World, frame: Frame)
    requires frame.requestId in w.client.queued
  {
    var request := w.client.queued[frame.requestId];
    && request.BindRequest? && frame.msg.BindReply? && request.proxy in w.proxies && frame.msg.success
    && !(frame.msg.serviceId in w.client.bindings && w.client.bindings[frame.msg.serviceId] in w.proxies)
  }

  /** A reply that calls a callback. */
  predicate Answered(w: World, frame: Frame)
    requires frame.requestId in w.client.queued
  {
    var request := w.client.queued[frame.requestId];
    request.InvokeRequest? && frame.msg.InvokeReply? && request.proxy in w.proxies
  }

  /** The effect of a frame in terms of the parts of the state. */
  lemma HandledIs(w: World, frame: Frame)
    requires Ready(w) && frame.requestId in w.client.queued
    ensures var id := frame.requestId;
            var request := w.client.queued[id];
            var p := if request.proxy in w.proxies then w.proxies[request.proxy]
                else Proxy([], 0, false, map[], map[], false);
            var w' := Handled(w, frame);
            && (Answered(w, frame) ==> id in p.pending && p.pending[id] in w.calls) && w'.born == w.born
            && w'.client == w.client.(
                 queued := if Answered(w, frame) && frame.msg.hasMore then w.client.queued else w.client.queued - {id},
                 bindings := if Binds(w, frame) then w.client.bindings[frame.msg.serviceId := request.proxy]
                     else w.client.bindings)
            && w'.calls == (if Answered(w, frame)
               then Call(w.calls, p.pending[id], ReplyResult(p, request.methodName, frame.msg))
                            else w.calls)
            && w'.proxies == (if Binds(w, frame) then w.proxies[request.proxy := Rebound(p, frame.msg)]
                              else if Answered(w, frame) && !frame.msg.hasMore
                                then w.proxies[request.proxy := p.(pending := p.pending - {id})]
                              else w.proxies)
  {
    hide CallbackInv, ReplyInv, ReplyResult, Rebound;
    if Answered(w, frame) {
      var request := w.client.queued[frame.requestId];
      assert PendingOk(w, request.proxy, frame.requestId);
      ReplyInOnePiece(w, frame);
      assert w.proxies[request.proxy := w.proxies[request.proxy]] == w.proxies;
    }
  }

  lemma QueueWithout(m: map<RequestId, QueuedRequest>, id: RequestId)
    ensures Queue(m - {id}) == Queue(m) - {id}
  {
  }

  lemma BindingsWith(m: map<ServiceId, ServiceProxy>, s: ServiceId, p: ServiceProxy)
    ensures Bindings(m[s := p]) == Bindings(m)[s := p.id]
  {
  }

  /** What the request is for, as the machine sees it. */
  lemma RequestSeen(c: ClientImpl, all: set<ServiceProxy>, log: CallbackLog, w: World, frame: Frame)
    requires Agrees(c, all, log, w) && frame.requestId in c.queuedRequests
    ensures frame.requestId in w.client.queued
    ensures var q := c.queuedRequests[frame.requestId];
            && q.proxy in all && q.proxy.Valid(log) && q.requestId == frame.requestId
            && w.client.queued[frame.requestId] == RequestOf(q)
            && (q.proxy.alive <==> q.proxy.id in w.proxies)
            && (q.proxy.alive ==> w.proxies[q.proxy.id] == q.proxy.View())
            && (frame.msg.BindReply? ==> (Binds(w, frame) <==> q.isBind && c.Accepts(q.proxy, frame.msg)))
            && (frame.msg.InvokeReply? && Ready(w) ==> (Answered(w, frame) <==> !q.isBind && c.Answers(q, frame.msg)))
            && (Binds(w, frame) ==> frame.msg.BindReply? && q.proxy.alive)
            && (Answered(w, frame) <==> !q.isBind && frame.msg.InvokeReply? && q.proxy.alive)
  {
    hide Inv;
    var q := c.queuedRequests[frame.requestId];
    assert ProxyAgrees(q.proxy, log, w.proxies);
    if frame.msg.BindReply? && frame.msg.serviceId in c.serviceBindings {
      assert ProxyAgrees(c.serviceBindings[frame.msg.serviceId], log, w.proxies);
    }
    if frame.msg.InvokeReply? && Ready(w) {
      HandledIs(w, frame);
    }
  }

  /** A proxy that still has all its callbacks known. */
  lemma StillAgrees(p: ServiceProxy, log: CallbackLog, before: Results, proxies: map<ProxyId, Proxy>)
    requires p.Distinct() && Knows(p, before) && before.Keys <= log.calls.Keys
    requires (p.alive <==> p.id in proxies) && (p.alive ==> proxies[p.id] == p.View())
    ensures ProxyAgrees(p, log, proxies)
  {
  }

  ghost predicate Knows(p: ServiceProxy, calls: Results)
    reads p`pendingCallbacks, p.pendingCallbacks.Values
  {
    forall r :: r in p.Pending() ==> p.Pending()[r] in calls
  }

  lemma AgreeingParts(all: set<ServiceProxy>, log: CallbackLog, proxies: map<ProxyId, Proxy>)
    requires forall p :: p in all ==> ProxyAgrees(p, log, proxies)
    ensures forall p :: p in all ==> p.Distinct() && Knows(p, log.calls)
    ensures forall p :: p in all ==> (p.alive <==> p.id in proxies) && (p.alive ==> proxies[p.id] == p.View())
  {
    forall p | p in all
      ensures p.Distinct() && Knows(p, log.calls)
      ensures (p.alive <==> p.id in proxies) && (p.alive ==> proxies[p.id] == p.View())
    {
      assert ProxyAgrees(p, log, proxies);
    }
  }

  method HandleFrame(c: ClientImpl, ghost all: set<ServiceProxy>, log: CallbackLog, listeners: ListenerLog,
                     frame: Frame, ghost w: World)
    requires Agrees(c, all, log, w) && Ready(w)
    modifies c, all, Held(all), log, listeners
    ensures Agrees(c, all, log, Handled(w, frame)) && Held(all) <= old(Held(all))
  {
    hide Inv, Handled, Queue, Bindings, ProxyAgrees, ServiceProxy.Valid, ServiceProxy.Distinct, Knows;
    AgreeingParts(all, log, w.proxies);
    QueueKeys(c.queuedRequests);
    if frame.requestId in c.queuedRequests {
      HandleKnown(c, all, log, listeners, frame, w);
    } else {
      HandledUnknown(w, frame);
      c.OnFrameReceived(frame, log, listeners);
      forall p | p in all
        ensures ProxyAgrees(p, log, w.proxies)
      {
        StillAgrees(p, log, w.calls, w.proxies);
      }
    }
  }

  method HandleKnown(c: ClientImpl, ghost all: set<ServiceProxy>, log: CallbackLog, listeners: ListenerLog,
                     frame: Frame, ghost w: World)
    requires Agrees(c, all, log, w) && Ready(w) && frame.requestId in c.queuedRequests
    modifies c, all, Held(all), log, listeners
    ensures Agrees(c, all, log, Handled(w, frame)) && Held(all) <= old(Held(all))
  {
    hide Inv, Handled, ServiceProxy.Pending, ServiceProxy.Distinct, ServiceProxy.Valid, ServiceProxy.View,
         ClientImpl.View, KnownBindings, ProxyAgrees, Knows;
    ghost var w', q := Handled(w, frame), c.queuedRequests[frame.requestId];
    AgreeingParts(all, log, w.proxies);
    OthersUnchanged(c, all, log, w, frame);
    AnswerFrame(c, all, log, listeners, frame, w);
    forall p | p in all && p != q.proxy
      ensures ProxyAgrees(p, log, w'.proxies)
    {
      StillAgrees(p, log, w.calls, w'.proxies);
    }
  }

  /** The other proxies are not affected. */
  lemma OthersUnchanged(c: ClientImpl, all: set<ServiceProxy>, log: CallbackLog, w: World, frame: Frame)
    requires Agrees(c, all, log, w) && Ready(w) && frame.requestId in c.queuedRequests
    ensures var w' := Handled(w, frame);
            forall id :: id != c.queuedRequests[frame.requestId].proxy.id ==>
              (id in w'.proxies <==> id in w.proxies) && (id in w.proxies ==> w'.proxies[id] == w.proxies[id])
  {
    hide Inv, Handled;
    RequestSeen(c, all, log, w, frame);
    HandledIs(w, frame);
  }

  /** The effect on the client, on the callbacks and on the proxy that the request is from. */
  method AnswerFrame(c: ClientImpl, ghost all: set<ServiceProxy>, log: CallbackLog, listeners: ListenerLog,
                     frame: Frame, ghost w: World)
    requires Agrees(c, all, log, w) && Ready(w) && frame.requestId in c.queuedRequests
    modifies c`queuedRequests, c`serviceBindings, c.queuedRequests[frame.requestId].proxy,
             c.queuedRequests[frame.requestId].proxy.pendingCallbacks.Values, log, listeners
    ensures var w', q := Handled(w, frame), old(c.queuedRequests)[frame.requestId];
            && c.View() == w'.client && log.calls == w'.calls && w.calls.Keys <= log.calls.Keys
            && KnownRequests(c.queuedRequests, all) && KnownBindings(c.serviceBindings, all)
            && ProxyAgrees(q.proxy, log, w'.proxies) && w'.born == w.born
            && (q.proxy.client == c || q.proxy.client == old(q.proxy.client))
            && q.proxy.pendingCallbacks.Values <= old(q.proxy.pendingCallbacks.Values)
  {
    hide Inv, Handled, ServiceProxy.Pending, ServiceProxy.Distinct, ServiceProxy.Valid, RequestOf, Queue, Bindings,
         Rebound,
         ReplyResult, Binds, ClientImpl.Accepts, ClientImpl.Answers, ProxyAgrees, Answered;
    ghost var w', q := Handled(w, frame), c.queuedRequests[frame.requestId];
    RequestSeen(c, all, log, w, frame);
    RequestKind(q);
    HandledIs(w, frame);
    QueueWithout(c.queuedRequests, frame.requestId);
    if frame.msg.BindReply? {
      BindingsWith(c.serviceBindings, frame.msg.serviceId, q.proxy);
    }
    c.OnFrameReceived(frame, log, listeners);
    IsAgreeing(q.proxy, log, w'.proxies);
  }

  lemma IsAgreeing(p: ServiceProxy, log: CallbackLog, proxies: map<ProxyId, Proxy>)
    requires p.Valid(log) && (p.alive <==> p.id in proxies) && (p.alive ==> proxies[p.id] == p.View())
    ensures ProxyAgrees(p, log, proxies)
  {
  }

  lemma QueueKeys(m: map<RequestId, QueuedRequest>)
    ensures Queue(m).Keys == m.Keys
  {
  }

  lemma RequestKind(q: QueuedRequest)
    ensures RequestOf(q).BindRequest? <==> q.isBind
    ensures RequestOf(q).proxy == q.proxy.id
    ensures !q.isBind ==> RequestOf(q).methodName == q.methodName
  {
  }

  lemma HandledUnknown(w: World, frame: Frame)
    requires frame.requestId !in w.client.queued && w.replying.None?
    ensures Handled(w, frame) == w
  {
  }

  /** The frames that a receive has yielded, handled one after the other. */
  method HandleFrames(c: ClientImpl, ghost all: set<ServiceProxy>, log: CallbackLog, listeners: ListenerLog,
                      frames: seq<Frame>, ghost w: World)
    requires Agrees(c, all, log, w) && Ready(w)
    modifies c, all, Held(all), log, listeners
    ensures Agrees(c, all, log, HandledAll(w, frames)) && Ready(HandledAll(w, frames))
  {
    hide Agrees, Ready, Handled;
    for i := 0 to |frames|
      invariant Agrees(c, all, log, HandledAll(w, frames[..i])) && Ready(HandledAll(w, frames[..i]))
      invariant Held(all) <= old(Held(all))
    {
      assert frames[..i + 1][..i] == frames[..i];
      HandledKeepsReady(HandledAll(w, frames[..i]), frames[i]);
      HandleFrame(c, all, log, listeners, frames[i], HandledAll(w, frames[..i]));
    }
    assert frames[..|frames|] == frames;
  }

  /** The operations of the machine that a frame stands for. */
  function FrameOps(w: World, frame: Frame): seq<Op> {
    if Received(w, frame).replying.Some? then [Receive(frame), ReplyDone] else [Receive(frame)]
  }

  /** So whatever holds of every run of the machine holds of the objects, frame after frame. */
  lemma HandledIsRun(w: World, frame: Frame)
    requires Ready(w) && IdsLeft(w)
    ensures CanRun(w, FrameOps(w, frame)) && Run(w, FrameOps(w, frame)) == Handled(w, frame)
  {
    hide Inv;
    var w1 := Received(w, frame);
    assert Apply(w, Receive(frame)) == w1 && IdsLeft(w1);
    if w1.replying.Some? {
      assert FrameOps(w, frame)[1..] == [ReplyDone] && [ReplyDone][1..] == [];
      assert Run(w1, [ReplyDone]) == Run(Apply(w1, ReplyDone), []);
    } else {
      assert FrameOps(w, frame)[1..] == [];
    }
  }
}
