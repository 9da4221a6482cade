/**
 What single operations of the client come to, said of the state before and after and not of the
 code in between: which invocations await a reply, which bind replies count, and what becomes of the
 bindings that wait for a connection.
 */
module IpcEffects {
  import opened Common
  import opened IpcProtocol
  import opened IpcRuns
  import opened IpcClient
  import Disconnect = IpcDisconnect

  // ---------------------------------------------------------------- invocations

  /** The proxy can send the request: it is bound, the service has the method, the client lives. */
  predicate CanSend(w: World, id: ProxyId, name: string)
    requires id in w.proxies
  {
    var p := w.proxies[id];
    p.hasClient && p.serviceId != 0 && name in p.methods && w.client.alive
  }

  /** A request with a callback is awaited, under the next id, if and only if it could be sent and was. */
  lemma InvokeExactly(w: World, id: ProxyId, name: string, cb: CallbackId, sent: bool)
    requires Inv(w) && IdsLeft(w) && Enabled(w, Invoke(id, name, Some(cb), sent))
    ensures var w', next := Apply(w, Invoke(id, name, Some(cb), sent)), w.client.lastRequestId + 1;
            && w'.calls == w.calls[cb := if CanSend(w, id, name) && sent then [] else [REJECTION]]
            && w'.client.lastRequestId == (if CanSend(w, id, name) then next else w.client.lastRequestId)
            && w'.client.connected == (w.client.connected && (CanSend(w, id, name) ==> sent))
            && (if CanSend(w, id, name) && sent then
                  && w'.client.queued == w.client.queued[next := InvokeRequest(id, name)]
                  && w'.proxies == w.proxies[id := w.proxies[id].(pending := w.proxies[id].pending[next := cb])]
                else w'.client.queued == w.client.queued && w'.proxies == w.proxies)
  {
    hide Inv;
    NewIdIsUnused(w, id);
    assert w.proxies[id := w.proxies[id]] == w.proxies;
    RejectedAtOnce(w.calls, cb);
  }

  lemma RejectedAtOnce(calls: Results, cb: CallbackId)
    ensures Call(calls[cb := []], cb, REJECTION) == calls[cb := [REJECTION]]
  {
    var none: seq<AsyncResult> := [];
    assert none + [REJECTION] == [REJECTION];
  }

  /** Without a callback nothing is awaited, but the request is sent all the same. */
  lemma InvokeWithoutCallback(w: World, id: ProxyId, name: string, sent: bool)
    requires Inv(w) && IdsLeft(w) && Enabled(w, Invoke(id, name, None, sent))
    ensures var w', next := Apply(w, Invoke(id, name, None, sent)), w.client.lastRequestId + 1;
            && w'.calls == w.calls && w'.client.queued == w.client.queued && w'.proxies == w.proxies
            && w'.client.lastRequestId == (if CanSend(w, id, name) then next else w.client.lastRequestId)
            && w'.client.connected == (w.client.connected && (CanSend(w, id, name) ==> sent))
  {
    hide Inv;
    NewIdIsUnused(w, id);
    assert w.proxies[id := w.proxies[id]] == w.proxies;
  }

  // ---------------------------------------------------------------- bind requests

  /**
   A bind request of a live proxy waits for the connection if there is none, and otherwise uses up
   the next id, under which it is awaited if and only if it was sent.
   */
  lemma BindExactly(w: World, id: ProxyId, sent: bool)
    requires Inv(w) && IdsLeft(w) && Enabled(w, Bind(id, sent))
    ensures var c, w', next := w.client, Apply(w, Bind(id, sent)), w.client.lastRequestId + 1;
            && w' == w.(client := w'.client)
            && (id !in w.proxies ==> w'.client == c)
            && (id in w.proxies && !c.connected ==> w'.client == c.(queuedBindings := c.queuedBindings + [id]))
            && (id in w.proxies && c.connected ==>
                  w'.client == c.(lastRequestId := next, connected := sent,
                                  queued := if sent then c.queued[next := BindRequest(id)] else c.queued))
  {
    hide Inv;
    if id in w.proxies {
      NewIdIsUnused(w, id);
    }
  }

  // ---------------------------------------------------------------- bind replies

  /** A live proxy is known under the service id. */
  predicate Taken(w: World, serviceId: ServiceId) {
    serviceId in w.client.bindings && w.client.bindings[serviceId] in w.proxies
  }

  /**
   A reply to a bind request binds the proxy if and only if it is a success, the proxy lives and no
   live proxy is known under the service id. The proxy then has exactly the methods listed.
   */
  lemma BindReplyExactly(w: World, requestId: RequestId, reply: Msg)
    requires Enabled(w, Receive(Frame(requestId, reply))) && reply.BindReply?
    requires requestId in w.client.queued && w.client.queued[requestId].BindRequest?
    ensures var w', id := Apply(w, Receive(Frame(requestId, reply))), w.client.queued[requestId].proxy;
            && w'.client.queued == w.client.queued - {requestId} && w'.calls == w.calls
            && (if reply.success && id in w.proxies && !Taken(w, reply.serviceId) then
                  && id in w'.proxies && w'.proxies == w.proxies[id := w'.proxies[id]]
                  && w'.client.bindings == w.client.bindings[reply.serviceId := id]
                  && w'.proxies[id].hasClient && w'.proxies[id].serviceId == reply.serviceId
                  && MethodsOf(reply.methods, w'.proxies[id].methods)
                  && w'.proxies[id].pending == w.proxies[id].pending
                  && w'.proxies[id].descriptor == w.proxies[id].descriptor
                else w'.client.bindings == w.client.bindings && w'.proxies == w.proxies)
  {
    hide MethodMap, MethodsOf;
    MethodMapIsLast(reply.methods);
  }

  /** In every run, until the disconnect, no two live proxies are bound to the same service. */
  lemma BindingsAreExclusive(ops: seq<Op>, p: ProxyId, q: ProxyId)
    requires CanRun(START, ops)
    requires var w := Run(START, ops);
             && !w.client.disconnectSeen && p in w.proxies && q in w.proxies && p != q
             && w.proxies[p].hasClient && w.proxies[q].hasClient
    ensures var w := Run(START, ops); w.proxies[p].serviceId != w.proxies[q].serviceId
  {
    hide CanRun, Run;
    assert Inv(START) && Disconnect.LinkInv(START);
    Disconnect.RunLinks(START, ops);
    var w := Run(START, ops);
    assert Disconnect.Bound(w.client.bindings, p, w.proxies[p]) && Disconnect.Bound(w.client.bindings, q, w.proxies[q]);
  }

  // ---------------------------------------------------------------- bindings that wait for the connection

  /** The live ones among the proxies, in order. */
  function Live(live: set<ProxyId>, proxies: seq<ProxyId>): seq<ProxyId> {
    if proxies == [] then [] else (if proxies[0] in live then [proxies[0]] else []) + Live(live, proxies[1..])
  }

  /** The requests get the next ids, in order. */
  ghost predicate SentInOrder(c: Client, c': Client, proxies: seq<ProxyId>) {
    && c'.lastRequestId == c.lastRequestId + |proxies|
    && (forall i :: 0 <= i < |proxies| ==> Sends(c', c.lastRequestId + 1 + i, proxies[i]))
    && (forall id :: id in c'.queued && id <= c.lastRequestId ==> id in c.queued)
    && (forall id :: id in c.queued ==> id in c'.queued && c'.queued[id] == c.queued[id])
    && (forall id :: id in c'.queued ==> id in c.queued || c.lastRequestId < id <= c'.lastRequestId)
  }

  predicate Sends(c: Client, id: int, proxy: ProxyId) {
    0 <= id && id in c.queued && c.queued[id] == BindRequest(proxy)
  }

  predicate IdsFree(c: Client, n: nat) {
    c.lastRequestId + n < TWO_TO_THE_64 && forall id :: id in c.queued ==> id <= c.lastRequestId
  }

  /** The send for every live proxy succeeds. */
  predicate Succeed(live: set<ProxyId>, proxies: seq<ProxyId>, sent: seq<bool>) {
    forall i :: 0 <= i < |proxies| && proxies[i] in live ==> i < |sent| && sent[i]
  }

  function Rest<T>(s: seq<T>): seq<T> {
    if s == [] then [] else s[1..]
  }

  /** As long as the sends succeed, every live proxy that waited gets its bind request sent, in order. */
  lemma {:induction false} AllAreSent(c: Client, live: set<ProxyId>, proxies: seq<ProxyId>, sent: seq<bool>)
    requires c.connected && IdsFree(c, |proxies|) && Succeed(live, proxies, sent)
    ensures var c' := ClientDrainBindings(c, live, proxies, sent);
            c'.connected && c'.queuedBindings == c.queuedBindings && SentInOrder(c, c', Live(live, proxies))
    decreases |proxies|
  {
    hide SentInOrder, IdsFree, ClientBind;
    if proxies == [] {
      NothingSent(c);
    } else {
      var c1 := if proxies[0] in live then ClientBind(c, proxies[0], true) else c;
      OneSent(c, proxies[0], |proxies|);
      AllAreSent(c1, live, proxies[1..], Rest(sent));
      if proxies[0] in live {
        SentMore(c, c1, proxies[0], Live(live, proxies[1..]), ClientDrainBindings(c1, live, proxies[1..], Rest(sent)));
      } else {
        assert Live(live, proxies) == Live(live, proxies[1..]);
      }
    }
  }

  lemma NothingSent(c: Client)
    ensures SentInOrder(c, c, [])
  {
  }

  lemma OneSent(c: Client, proxy: ProxyId, n: nat)
    requires c.connected && IdsFree(c, n) && 0 < n
    ensures IdsFree(c, n - 1)
    ensures var c1 := ClientBind(c, proxy, true);
            && c1.connected && c1.queuedBindings == c.queuedBindings && IdsFree(c1, n - 1)
            && c1.lastRequestId == c.lastRequestId + 1
            && c1.queued == c.queued[c.lastRequestId + 1 := BindRequest(proxy)] && c.lastRequestId + 1 !in c.queued
            && forall id :: id in c.queued ==> id <= c.lastRequestId
  {
  }

  lemma SentMore(c: Client, c1: Client, proxy: ProxyId, rest: seq<ProxyId>, c': Client)
    requires SentInOrder(c1, c', rest) && c1.lastRequestId == c.lastRequestId + 1 && c.lastRequestId + 1 !in c.queued
    requires c1.queued == c.queued[c.lastRequestId + 1 := BindRequest(proxy)]
    requires forall id :: id in c.queued ==> id <= c.lastRequestId
    ensures SentInOrder(c, c', [proxy] + rest)
  {
    var all := [proxy] + rest;
    forall i | 0 <= i < |all|
      ensures Sends(c', c.lastRequestId + 1 + i, all[i])
    {
      if 0 < i {
        assert Sends(c', c1.lastRequestId + 1 + (i - 1), rest[i - 1]);
      }
    }
  }

  /** After a send has failed the live ones wait again, in order, and nothing else changes. */
  lemma {:induction false} TheRestWaits(c: Client, live: set<ProxyId>, proxies: seq<ProxyId>, sent: seq<bool>)
    requires !c.connected
    ensures ClientDrainBindings(c, live, proxies, sent)
            == c.(queuedBindings := c.queuedBindings + Live(live, proxies))
    decreases |proxies|
  {
    hide ClientBind;
    if proxies == [] {
      assert c.queuedBindings + [] == c.queuedBindings;
    } else {
      var c1 := if proxies[0] in live then ClientBind(c, proxies[0], false) else c;
      OneWaits(c, proxies[0]);
      TheRestWaits(c1, live, proxies[1..], Rest(sent));
      assert c.queuedBindings + [proxies[0]] + Live(live, proxies[1..])
             == c.queuedBindings + ([proxies[0]] + Live(live, proxies[1..]));
      assert [] + Live(live, proxies[1..]) == Live(live, proxies[1..]);
    }
  }

  lemma OneWaits(c: Client, proxy: ProxyId)
    requires !c.connected
    ensures ClientBind(c, proxy, false) == c.(queuedBindings := c.queuedBindings + [proxy])
  {
  }

  lemma {:induction false} DrainInTwo(c: Client, live: set<ProxyId>, a: seq<ProxyId>, b: seq<ProxyId>, sent: seq<bool>)
    ensures ClientDrainBindings(c, live, a + b, sent)
            == ClientDrainBindings(ClientDrainBindings(c, live, a, sent), live, b, Drop(sent, |a|))
    decreases |a|
  {
    hide ClientBind;
    if a == [] {
      assert a + b == b;
    } else {
      assert (a + b)[1..] == a[1..] + b;
      var ok := sent != [] && sent[0] && c.connected;
      var c1 := if a[0] in live then ClientBind(c, a[0], ok) else c;
      DrainInTwo(c1, live, a[1..], b, Rest(sent));
      assert Drop(Rest(sent), |a| - 1) == Drop(sent, |a|);
    }
  }

  function Drop<T>(s: seq<T>, n: nat): seq<T> {
    if n <= |s| then s[n..] else []
  }

  /**
   The connection is up, and of the bindings that waited the k-th is the first live one whose request
   cannot be sent: the live ones before it are sent, in order; its id is used up and the connection
   gone; the live ones behind it wait again, in order.
   */
  lemma FirstFailure(c: Client, live: set<ProxyId>, proxies: seq<ProxyId>, sent: seq<bool>, k: nat)
    requires c.connected && IdsFree(c, |proxies|) && k < |proxies| && proxies[k] in live
    requires Succeed(live, proxies[..k], sent) && !(k < |sent| && sent[k])
    ensures var c' := ClientDrainBindings(c, live, proxies, sent);
            && !c'.connected && c'.queuedBindings == c.queuedBindings + Live(live, proxies[k + 1..])
            && 0 < c'.lastRequestId
            && SentInOrder(c, c'.(lastRequestId := c'.lastRequestId - 1), Live(live, proxies[..k]))
  {
    hide SentInOrder, ClientBind, ClientDrainBindings;
    assert proxies == proxies[..k] + proxies[k..];
    DrainInTwo(c, live, proxies[..k], proxies[k..], sent);
    assert IdsFree(c, k);
    AllAreSent(c, live, proxies[..k], sent);
    var c1 := ClientDrainBindings(c, live, proxies[..k], sent);
    LiveLength(live, proxies[..k]);
    LastIdOf(c, c1, Live(live, proxies[..k]));
    FailedSend(c1, live, proxies[k..], Drop(sent, k));
  }

  lemma {:induction false} LiveLength(live: set<ProxyId>, proxies: seq<ProxyId>)
    ensures |Live(live, proxies)| <= |proxies|
  {
    if proxies != [] {
      LiveLength(live, proxies[1..]);
    }
  }

  lemma LastIdOf(c: Client, c': Client, proxies: seq<ProxyId>)
    requires SentInOrder(c, c', proxies)
    ensures c'.lastRequestId == c.lastRequestId + |proxies|
    ensures forall n :: SentInOrder(c, c'.(connected := false, queuedBindings := n), proxies)
  {
  }

  lemma FailedSend(c: Client, live: set<ProxyId>, proxies: seq<ProxyId>, sent: seq<bool>)
    requires c.connected && proxies != [] && proxies[0] in live && !(sent != [] && sent[0])
    requires c.lastRequestId + 1 < TWO_TO_THE_64
    ensures ClientDrainBindings(c, live, proxies, sent)
            == c.(connected := false, lastRequestId := c.lastRequestId + 1,
                  queuedBindings := c.queuedBindings + Live(live, proxies[1..]))
  {
    TheRestWaits(ClientBind(c, proxies[0], false), live, proxies[1..], Rest(sent));
  }

  // ---------------------------------------------------------------- retrying

  /** What the client waits for after so many failed attempts. */
  function Backoff(attempts: nat): nat {
    if attempts == 0 then 0 else NextBackoff(Backoff(attempts - 1))
  }

  /** A second more each time, up to ten, and half a minute from then on. */
  lemma {:induction false} BackoffIs(attempts: nat)
    ensures Backoff(attempts) == if attempts <= 10 then 1000 * attempts else 30000
  {
    if attempts != 0 {
      BackoffIs(attempts - 1);
    }
  }

  // ---------------------------------------------------------------- what the listeners are told

  lemma {:induction false} LiveInTwo(live: set<ProxyId>, a: seq<ProxyId>, b: seq<ProxyId>)
    ensures Live(live, a + b) == Live(live, a) + Live(live, b)
    decreases |a|
  {
    if a == [] {
      assert a + b == b;
    } else {
      assert (a + b)[1..] == a[1..] + b && (a + b)[0] == a[0];
      LiveInTwo(live, a[1..], b);
      var first := if a[0] in live then [a[0]] else [];
      assert first + (Live(live, a[1..]) + Live(live, b)) == first + Live(live, a[1..]) + Live(live, b);
    }
  }

  /** When the attempt to connect has failed, exactly the live proxies that waited are told, in order. */
  lemma {:induction false} FailureIsTold(live: set<ProxyId>, proxies: seq<ProxyId>)
    ensures var told, waited := FailureNotices(live, proxies), Live(live, proxies);
            |told| == |waited| && forall i :: 0 <= i < |told| ==> told[i] == Notice(waited[i], false)
    decreases |proxies|
  {
    if proxies != [] {
      var front, last := proxies[..|proxies| - 1], proxies[|proxies| - 1];
      FailureIsTold(live, front);
      assert proxies == front + [last];
      LiveInTwo(live, front, [last]);
      assert Live(live, [last]) == (if last in live then [last] else []) + Live(live, [last][1..]);
    }
  }

  /** Nobody is told anything while the sends succeed, and nothing when there is no connection any more. */
  lemma {:induction false} NobodyIsTold(c: Client, live: set<ProxyId>, proxies: seq<ProxyId>, sent: seq<bool>)
    requires c.connected ==> Succeed(live, proxies, sent)
    ensures DrainNotices(c, live, proxies, sent) == []
    decreases |proxies|
  {
    if proxies != [] {
      var ok := sent != [] && sent[0] && c.connected;
      var c1 := if proxies[0] in live then ClientBind(c, proxies[0], ok) else c;
      NobodyIsTold(c1, live, proxies[1..], Rest(sent));
    }
  }

  /** Of the proxies that waited, only the one whose request could not be sent is told. */
  lemma {:induction false} FirstFailureIsTold(c: Client, live: set<ProxyId>, proxies: seq<ProxyId>, sent: seq<bool>,
                                              k: nat)
    requires c.connected && k < |proxies| && proxies[k] in live
    requires Succeed(live, proxies[..k], sent) && !(k < |sent| && sent[k])
    ensures DrainNotices(c, live, proxies, sent) == [Notice(proxies[k], false)]
    decreases |proxies|
  {
    hide ClientBind, DrainNotices;
    DrainFirst(c, live, proxies, sent);
    var ok := sent != [] && sent[0];
    var c1 := if proxies[0] in live then ClientBind(c, proxies[0], ok) else c;
    BindConnection(c, proxies[0], ok);
    if k == 0 {
      NobodyIsTold(c1, live, proxies[1..], Rest(sent));
    } else {
      var before, later := proxies[..k], proxies[1..][..k - 1];
      assert before[0] == proxies[0] && forall i :: 0 <= i < |later| ==> later[i] == before[i + 1];
      FirstFailureIsTold(c1, live, proxies[1..], Rest(sent), k - 1);
    }
  }

  lemma DrainFirst(c: Client, live: set<ProxyId>, proxies: seq<ProxyId>, sent: seq<bool>)
    requires c.connected && proxies != []
    ensures var ok := sent != [] && sent[0];
            var c1 := if proxies[0] in live then ClientBind(c, proxies[0], ok) else c;
            DrainNotices(c, live, proxies, sent)
            == (if proxies[0] in live && !ok then [Notice(proxies[0], false)] else [])
               + DrainNotices(c1, live, proxies[1..], Rest(sent))
  {
  }

  lemma BindConnection(c: Client, proxy: ProxyId, sent: bool)
    requires c.connected
    ensures ClientBind(c, proxy, sent).connected == sent
  {
  }
}
