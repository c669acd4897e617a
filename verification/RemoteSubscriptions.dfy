/** Subscriptions shared per URI, the move-only handles that own their callbacks, and the sources
    that hold the handles (RemoteSubscriptionHandle, RemoteSourceSubscription,
    RemoteSubscriptionManager and RemoteSourceCommon in src/ui/blocks/RemoteSource.hpp). Every
    method below is one atomic step: what the original does while it holds the manager's lock. */
module RemoteSubscriptions {
  import opened Shared

  datatype Command = Subscribe(uri: string) | Unsubscribe(uri: string)

  /** What a subscription brings: data, or a failure, after which to try again at a time. */
  datatype Message = Data(body: string) | Failure(retryAt: nat)

  /** A subscription to one URI, with the callbacks of the sources that share it. */
  class RemoteSourceSubscription {
    const subscribedUri: string
    var userCallbacks: map<nat, RemoteSource>  // the source that each callback feeds

    constructor (uri: string)
      ensures subscribedUri == uri && userCallbacks == map[]
    {
      subscribedUri, userCallbacks := uri, map[];
    }
  }

  /** A handle to one callback; the empty handle has no subscription. */
  datatype Handle = Handle(subscription: RemoteSourceSubscription?, id: nat)

  const EMPTY := Handle(null, 0)

  class RemoteSource {
    var remoteUri: string
    var host: string
    var handle: Handle
    var reconnect: nat  // 0 if disabled, otherwise the time at which to reconnect
    var received: seq<string>  // the data that its callbacks were given

    constructor (remoteUri: string, host: string)
      ensures this.remoteUri == remoteUri && this.host == host && handle == EMPTY && reconnect == 0 && received == []
    {
      this.remoteUri, this.host, handle, reconnect, received := remoteUri, host, EMPTY, 0, [];
    }
  }

  /** Subscribe commands minus Unsubscribe commands for a URI. */
  function Net(commands: seq<Command>, uri: string): int {
    if |commands| == 0 then 0
    else
      var last := commands[|commands| - 1];
      Net(commands[..|commands| - 1], uri) + (if last == Subscribe(uri) then 1 else if last == Unsubscribe(uri) then -1 else 0)
  }

  /** At no time has a URI been subscribed twice, or unsubscribed without a subscription. */
  ghost predicate Alternating(commands: seq<Command>) {
    forall n, uri :: 0 <= n <= |commands| ==> 0 <= Net(commands[..n], uri) <= 1
  }

  lemma NetNext(commands: seq<Command>, c: Command, uri: string)
    ensures Net(commands + [c], uri) ==
            Net(commands, uri) + (if c == Subscribe(uri) then 1 else if c == Unsubscribe(uri) then -1 else 0)
  {
    assert (commands + [c])[..|commands|] == commands;
  }

  lemma NetStep(commands: seq<Command>, c: Command)
    requires Alternating(commands)
    requires Net(commands, c.uri) == if c.Subscribe? then 0 else 1
    ensures Alternating(commands + [c])
    ensures forall uri :: Net(commands + [c], uri) ==
              Net(commands, uri) + (if c == Subscribe(uri) then 1 else if c == Unsubscribe(uri) then -1 else 0)
  {
    hide Net;
    var after := commands + [c];
    forall n, uri | 0 <= n <= |after|
      ensures 0 <= Net(after[..n], uri) <= 1
    {
      if n <= |commands| {
        assert after[..n] == commands[..n];
      } else {
        assert after[..n] == after && commands[..|commands|] == commands;
        NetNext(commands, c, uri);
        assert 0 <= Net(commands[..|commands|], uri) <= 1;
      }
    }
    forall uri
      ensures Net(after, uri) == Net(commands, uri) + (if c == Subscribe(uri) then 1 else if c == Unsubscribe(uri) then -1 else 0)
    {
      NetNext(commands, c, uri);
    }
  }

  /** Everything that the steps change, as one value: the subscriptions by URI, the callbacks of
      every existing subscription, the handle of every source, the handles that are about to be
      destroyed, the next callback id, and the commands sent so far. */
  datatype State = State(subscriptions: map<string, RemoteSourceSubscription>,
                         callbacks: map<RemoteSourceSubscription, map<nat, RemoteSource>>,
                         handles: map<RemoteSource, Handle>,
                         queued: seq<Handle>,
                         lastUsedId: nat,
                         commands: seq<Command>)

  /** The handle leads to a stored callback of a subscription that exists. */
  ghost predicate Registered(st: State, h: Handle) {
    h.subscription != null && h.subscription in st.callbacks && h.id in st.callbacks[h.subscription]
  }

  /** The subscription is the one of its URI, and has a callback. */
  ghost predicate SubscriptionOk(st: State, sub: RemoteSourceSubscription)
    requires sub in st.callbacks
  {
    && sub.subscribedUri in st.subscriptions && st.subscriptions[sub.subscribedUri] == sub
    && st.callbacks[sub] != map[]
  }

  /** The source's handle, unless empty, is registered for this source and held nowhere else. */
  ghost predicate HandleOk(st: State, s: RemoteSource)
    requires s in st.handles
  {
    st.handles[s].subscription != null ==>
      && Registered(st, st.handles[s])
      && st.callbacks[st.handles[s].subscription][st.handles[s].id] == s
      && st.handles[s] !in st.queued
  }

  /** The callback is owned by the handle of the source that it feeds, or by a queued handle. */
  ghost predicate CallbackOk(st: State, sub: RemoteSourceSubscription, id: nat)
    requires sub in st.callbacks && id in st.callbacks[sub]
  {
    && id < st.lastUsedId
    && var s := st.callbacks[sub][id];
       s in st.handles && (st.handles[s] == Handle(sub, id) || Handle(sub, id) in st.queued)
  }

  ghost predicate Inv(st: State) {
    && (forall uri {:trigger st.subscriptions[uri]} :: uri in st.subscriptions ==>
          st.subscriptions[uri] in st.callbacks && st.subscriptions[uri].subscribedUri == uri)
    && (forall sub {:trigger SubscriptionOk(st, sub)} :: sub in st.callbacks ==> SubscriptionOk(st, sub))
    && (forall s {:trigger HandleOk(st, s)} :: s in st.handles ==> HandleOk(st, s))
    && (forall h :: h in st.queued ==> Registered(st, h))
    && (forall i, j :: 0 <= i < j < |st.queued| ==> st.queued[i] != st.queued[j])
    && (forall sub, id {:trigger CallbackOk(st, sub, id)} :: sub in st.callbacks && id in st.callbacks[sub] ==> CallbackOk(st, sub, id))
    && Alternating(st.commands)
    && (forall uri :: Net(st.commands, uri) == if uri in st.subscriptions then 1 else 0)
  }

  function CallbacksOf(st: State, sub: RemoteSourceSubscription): map<nat, RemoteSource> {
    if sub in st.callbacks then st.callbacks[sub] else map[]
  }

  /** A source without a handle gets one; `sub` is the subscription of the URI, new if there was none. */
  function Subscribed(st: State, s: RemoteSource, uri: string, sub: RemoteSourceSubscription): State {
    var first := uri !in st.subscriptions;
    State(st.subscriptions[uri := sub],
          st.callbacks[sub := CallbacksOf(st, sub)[st.lastUsedId := s]],
          st.handles[s := Handle(sub, st.lastUsedId)],
          st.queued,
          st.lastUsedId + 1,
          if first then st.commands + [Subscribe(uri)] else st.commands)
  }

  lemma SubscribedIs(st: State, s: RemoteSource, uri: string, sub: RemoteSourceSubscription)
    ensures var after := Subscribed(st, s, uri, sub);
      && after.subscriptions == st.subscriptions[uri := sub]
      && after.callbacks == st.callbacks[sub := CallbacksOf(st, sub)[st.lastUsedId := s]]
      && after.handles == st.handles[s := Handle(sub, st.lastUsedId)]
      && after.queued == st.queued && after.lastUsedId == st.lastUsedId + 1
      && after.commands == st.commands + (if uri in st.subscriptions then [] else [Subscribe(uri)])
  {
  }

  /** The callback of a live handle is removed, and with its last callback the subscription. */
  function Released(st: State, h: Handle): State {
    if h.subscription == null || h.subscription !in st.callbacks then st else
    var sub: RemoteSourceSubscription := h.subscription;
    var rest := st.callbacks[sub] - {h.id};
    if rest != map[] then st.(callbacks := st.callbacks[sub := rest])
    else st.(callbacks := st.callbacks - {sub}, subscriptions := st.subscriptions - {sub.subscribedUri},
             commands := st.commands + [Unsubscribe(sub.subscribedUri)])
  }

  lemma IdsAreUsed(st: State, h: Handle)
    requires Inv(st) && Registered(st, h)
    ensures h.id < st.lastUsedId
  {
    assert CallbackOk(st, h.subscription, h.id);
  }

  /** `sub` may serve the URI: it is the subscription that exists, or a new one. */
  ghost predicate Serves(st: State, uri: string, sub: RemoteSourceSubscription) {
    && sub.subscribedUri == uri
    && if uri in st.subscriptions then st.subscriptions[uri] == sub && sub in st.callbacks else sub !in st.callbacks
  }

  lemma SubscribedHandle(st: State, s: RemoteSource, uri: string, sub: RemoteSourceSubscription, x: RemoteSource)
    requires Inv(st) && s in st.handles && Serves(st, uri, sub) && x in st.handles
    ensures HandleOk(Subscribed(st, s, uri, sub), x)
  {
    var id := st.lastUsedId;
    assert HandleOk(st, x);
    if x == s {
      if Handle(sub, id) in st.queued {
        IdsAreUsed(st, Handle(sub, id));
      }
    } else if st.handles[x].subscription == sub {
      IdsAreUsed(st, st.handles[x]);
    }
  }

  lemma SubscribedCallback(st: State, s: RemoteSource, uri: string, sub: RemoteSourceSubscription,
                           x: RemoteSourceSubscription, k: nat)
    requires Inv(st) && s in st.handles && st.handles[s].subscription == null && Serves(st, uri, sub)
    requires var after := Subscribed(st, s, uri, sub); x in after.callbacks && k in after.callbacks[x]
    ensures CallbackOk(Subscribed(st, s, uri, sub), x, k)
  {
    if !(x == sub && k == st.lastUsedId) {
      assert CallbackOk(st, x, k);
    }
  }

  lemma SubscribedSubscription(st: State, s: RemoteSource, uri: string, sub: RemoteSourceSubscription,
                               x: RemoteSourceSubscription)
    requires Inv(st) && s in st.handles && Serves(st, uri, sub)
    requires x in Subscribed(st, s, uri, sub).callbacks
    ensures SubscriptionOk(Subscribed(st, s, uri, sub), x)
  {
    if x != sub {
      assert SubscriptionOk(st, x);
    } else {
      assert st.lastUsedId in Subscribed(st, s, uri, sub).callbacks[x];
    }
  }

  lemma SubscribedKeepsInv(st: State, s: RemoteSource, uri: string, sub: RemoteSourceSubscription)
    requires Inv(st) && s in st.handles && st.handles[s].subscription == null && Serves(st, uri, sub)
    ensures Inv(Subscribed(st, s, uri, sub))
  {
    hide SubscriptionOk, HandleOk, CallbackOk;
    var after := Subscribed(st, s, uri, sub);
    if uri !in st.subscriptions {
      NetStep(st.commands, Subscribe(uri));
    }
    forall x | x in after.callbacks
      ensures SubscriptionOk(after, x)
    {
      SubscribedSubscription(st, s, uri, sub, x);
    }
    forall x, k | x in after.callbacks && k in after.callbacks[x]
      ensures CallbackOk(after, x, k)
    {
      SubscribedCallback(st, s, uri, sub, x, k);
    }
    forall x | x in after.handles
      ensures HandleOk(after, x)
    {
      SubscribedHandle(st, s, uri, sub, x);
    }
    forall h | h in after.queued
      ensures Registered(after, h)
    {
      assert Registered(st, h);
    }
  }

  lemma SubscriptionOf(st: State, uri: string)
    requires Inv(st) && uri in st.subscriptions
    ensures Serves(st, uri, st.subscriptions[uri])
  {
  }

  /** The holder of h has let go of it: neither a source nor the queue has it any more. */
  ghost predicate LetGo(st: State, h: Handle, handles: map<RemoteSource, Handle>, queued: seq<Handle>) {
    && handles.Keys == st.handles.Keys
    && (forall s :: s in handles ==> handles[s] == if st.handles[s] == h then EMPTY else st.handles[s])
    && (forall x :: x in queued ==> x in st.queued && x != h)
    && (forall x :: x in st.queued && x != h ==> x in queued)
    && (forall i, j :: 0 <= i < j < |queued| ==> queued[i] != queued[j])
  }

  lemma ReleasedHandle(st: State, h: Handle, handles: map<RemoteSource, Handle>, queued: seq<Handle>, s: RemoteSource)
    requires Inv(st) && Registered(st, h) && LetGo(st, h, handles, queued) && s in handles
    ensures HandleOk(Released(st.(handles := handles, queued := queued), h), s)
  {
    assert HandleOk(st, s);
    if handles[s].subscription != null {
      StillRegistered(st.(handles := handles, queued := queued), h, handles[s]);
    }
  }

  lemma ReleasedCallback(st: State, h: Handle, handles: map<RemoteSource, Handle>, queued: seq<Handle>,
                         sub: RemoteSourceSubscription, id: nat)
    requires Inv(st) && Registered(st, h) && LetGo(st, h, handles, queued)
    requires var after := Released(st.(handles := handles, queued := queued), h); sub in after.callbacks && id in after.callbacks[sub]
    ensures CallbackOk(Released(st.(handles := handles, queued := queued), h), sub, id)
  {
    assert CallbackOk(st, sub, id);
  }

  lemma ReleasedSubscription(st: State, h: Handle, handles: map<RemoteSource, Handle>, queued: seq<Handle>,
                             sub: RemoteSourceSubscription)
    requires Inv(st) && Registered(st, h) && LetGo(st, h, handles, queued)
    requires sub in Released(st.(handles := handles, queued := queued), h).callbacks
    ensures SubscriptionOk(Released(st.(handles := handles, queued := queued), h), sub)
  {
    assert SubscriptionOk(st, sub);
    RegisteredUri(st, h);
  }

  /** Releasing a handle that its source, or the queue, has let go of. */
  lemma ReleasedKeepsInv(st: State, h: Handle, handles: map<RemoteSource, Handle>, queued: seq<Handle>)
    requires Inv(st) && Registered(st, h) && LetGo(st, h, handles, queued)
    ensures Inv(Released(st.(handles := handles, queued := queued), h))
  {
    hide HandleOk, CallbackOk, Registered, SubscriptionOk, Alternating, Net;
    var before := st.(handles := handles, queued := queued);
    var after := Released(before, h);
    RegisteredUri(st, h);
    var sub: RemoteSourceSubscription := h.subscription;
    if st.callbacks[sub] - {h.id} == map[] {
      NetStep(st.commands, Unsubscribe(sub.subscribedUri));
    }
    forall x | x in after.callbacks
      ensures SubscriptionOk(after, x)
    {
      ReleasedSubscription(st, h, handles, queued, x);
    }
    forall x, k | x in after.callbacks && k in after.callbacks[x]
      ensures CallbackOk(after, x, k)
    {
      ReleasedCallback(st, h, handles, queued, x, k);
    }
    forall x | x in queued
      ensures Registered(after, x)
    {
      RegisteredAgain(st, before, h);
      RegisteredAgain(st, before, x);
      StillRegistered(before, h, x);
    }
    forall s | s in after.handles
      ensures HandleOk(after, s)
    {
      ReleasedHandle(st, h, handles, queued, s);
    }
  }

  lemma RegisteredAgain(st: State, after: State, h: Handle)
    requires Registered(st, h) && after.callbacks == st.callbacks
    ensures Registered(after, h)
  {
  }

  lemma StillRegistered(st: State, h: Handle, x: Handle)
    requires Registered(st, h) && Registered(st, x) && x != h
    ensures Registered(Released(st, h), x)
    ensures Released(st, h).callbacks[x.subscription][x.id] == st.callbacks[x.subscription][x.id]
  {
    if x.subscription == h.subscription {
      assert x.id in st.callbacks[h.subscription] - {h.id};
    }
  }

  /** The source's handle is moved to the handles that are to be destroyed. */
  function GivenUp(st: State, s: RemoteSource): State
    requires s in st.handles
  {
    st.(handles := st.handles[s := EMPTY],
        queued := if st.handles[s].subscription == null then st.queued else st.queued + [st.handles[s]])
  }

  lemma GivenUpKeepsInv(st: State, s: RemoteSource)
    requires Inv(st) && s in st.handles
    ensures Inv(GivenUp(st, s))
  {
    var after := GivenUp(st, s);
    assert HandleOk(st, s);
    forall x | x in after.handles
      ensures HandleOk(after, x)
    {
      assert HandleOk(st, x);
    }
    forall sub | sub in after.callbacks
      ensures SubscriptionOk(after, sub)
    {
      assert SubscriptionOk(st, sub);
    }
    forall sub, id | sub in after.callbacks && id in after.callbacks[sub]
      ensures CallbackOk(after, sub, id)
    {
      assert CallbackOk(st, sub, id);
    }
    forall h | h in after.queued
      ensures Registered(after, h)
    {
      assert h in st.queued ==> Registered(st, h);
    }
  }

  lemma AddedHandle(st: State, s: RemoteSource, x: RemoteSource)
    requires Inv(st) && s !in st.handles && (x in st.handles || x == s)
    ensures HandleOk(st.(handles := st.handles[s := EMPTY]), x)
  {
    if x != s {
      assert HandleOk(st, x);
    }
  }

  lemma AddedCallback(st: State, s: RemoteSource, sub: RemoteSourceSubscription, id: nat)
    requires Inv(st) && s !in st.handles && sub in st.callbacks && id in st.callbacks[sub]
    ensures CallbackOk(st.(handles := st.handles[s := EMPTY]), sub, id)
  {
    assert CallbackOk(st, sub, id);
  }

  lemma AddedKeepsInv(st: State, s: RemoteSource)
    requires Inv(st) && s !in st.handles
    ensures Inv(st.(handles := st.handles[s := EMPTY]))
  {
    hide Net, Alternating, HandleOk, CallbackOk;
    var after := st.(handles := st.handles[s := EMPTY]);
    forall x | x in after.handles
      ensures HandleOk(after, x)
    {
      AddedHandle(st, s, x);
    }
    forall sub | sub in after.callbacks
      ensures SubscriptionOk(after, sub)
    {
      assert SubscriptionOk(st, sub);
    }
    forall sub, id | sub in after.callbacks && id in after.callbacks[sub]
      ensures CallbackOk(after, sub, id)
    {
      AddedCallback(st, s, sub, id);
    }
    forall h | h in after.queued
      ensures Registered(after, h)
    {
      assert Registered(st, h);
    }
  }

  /** Unsubscribing and subscribing again changes nothing but the commands. */
  lemma ReconnectedKeepsInv(st: State, uri: string)
    requires Inv(st) && uri in st.subscriptions
    ensures Inv(st.(commands := st.commands + [Unsubscribe(uri), Subscribe(uri)]))
  {
    NetStep(st.commands, Unsubscribe(uri));
    NetStep(st.commands + [Unsubscribe(uri)], Subscribe(uri));
    assert st.commands + [Unsubscribe(uri)] + [Subscribe(uri)] == st.commands + [Unsubscribe(uri), Subscribe(uri)];
    SameButCommands(st, st.(commands := st.commands + [Unsubscribe(uri), Subscribe(uri)]));
  }

  lemma SameButCommands(st: State, after: State)
    requires Inv(st) && after == st.(commands := after.commands) && Alternating(after.commands)
    requires forall uri :: Net(after.commands, uri) == Net(st.commands, uri)
    ensures Inv(after)
  {
    forall x | x in after.handles
      ensures HandleOk(after, x)
    {
      assert HandleOk(st, x);
    }
    forall sub | sub in after.callbacks
      ensures SubscriptionOk(after, sub)
    {
      assert SubscriptionOk(st, sub);
    }
    forall sub, id | sub in after.callbacks && id in after.callbacks[sub]
      ensures CallbackOk(after, sub, id)
    {
      assert CallbackOk(st, sub, id);
    }
    forall h | h in after.queued
      ensures Registered(after, h)
    {
      assert Registered(st, h);
    }
  }

  function Stopped(st: State, s: RemoteSource): State
    requires s in st.handles
  {
    if st.handles[s].subscription == null then st
    else Released(st.(handles := st.handles[s := EMPTY]), st.handles[s])
  }

  lemma StoppedShrinks(st: State, s: RemoteSource)
    requires s in st.handles
    ensures Stopped(st, s).callbacks.Keys <= st.callbacks.Keys && Stopped(st, s).handles.Keys == st.handles.Keys
  {
  }

  lemma ReleasedShrinks(st: State, queued: seq<Handle>, h: Handle)
    ensures Released(st.(queued := queued), h).callbacks.Keys <= st.callbacks.Keys
    ensures Released(st.(queued := queued), h).handles == st.handles
  {
  }

  lemma SubscribedKeys(after: State, st: State, s: RemoteSource, uri: string, sub: RemoteSourceSubscription)
    requires after == Subscribed(st, s, uri, sub) && s in st.handles
    ensures after.callbacks.Keys == st.callbacks.Keys + {sub} && after.handles.Keys == st.handles.Keys
  {
  }

  lemma ServesUri(st: State, uri: string, sub: RemoteSourceSubscription)
    requires Serves(st, uri, sub)
    ensures sub.subscribedUri == uri
  {
  }

  lemma RegisteredUri(st: State, h: Handle)
    requires Inv(st) && Registered(st, h)
    ensures h.subscription != null && h.subscription in st.callbacks && h.id in st.callbacks[h.subscription]
    ensures h.subscription.subscribedUri in st.subscriptions && st.subscriptions[h.subscription.subscribedUri] == h.subscription
  {
    assert SubscriptionOk(st, h.subscription);
  }

  /** A live handle is registered, and no other source and no queued handle is the same. */
  lemma HandleOf(st: State, s: RemoteSource)
    requires Inv(st) && s in st.handles && st.handles[s].subscription != null
    ensures Registered(st, st.handles[s]) && st.handles[s] !in st.queued
    ensures st.callbacks[st.handles[s].subscription][st.handles[s].id] == s
    ensures forall x :: x in st.handles && st.handles[x] == st.handles[s] ==> x == s
  {
    assert HandleOk(st, s);
    forall x | x in st.handles && st.handles[x] == st.handles[s]
      ensures x == s
    {
      assert HandleOk(st, x);
    }
  }

  lemma QueuedDistinct(st: State)
    requires Inv(st)
    ensures forall i, j :: 0 <= i < j < |st.queued| ==> st.queued[i] != st.queued[j]
  {
  }

  function Without(hs: seq<Handle>, i: nat): seq<Handle>
    requires i < |hs|
  {
    hs[..i] + hs[i + 1..]
  }

  lemma WithoutMembers(hs: seq<Handle>, i: nat)
    requires i < |hs| && forall a, b :: 0 <= a < b < |hs| ==> hs[a] != hs[b]
    ensures forall x :: x in Without(hs, i) <==> x in hs && x != hs[i]
    ensures var r := Without(hs, i); forall a, b :: 0 <= a < b < |r| ==> r[a] != r[b]
  {
    var r := Without(hs, i);
    forall x | x in hs && x != hs[i]
      ensures x in r
    {
      var k :| 0 <= k < |hs| && hs[k] == x;
      assert r[if k < i then k else k - 1] == x;
    }
  }

  lemma QueuedRegistered(st: State, h: Handle)
    requires Inv(st) && h in st.queued
    ensures Registered(st, h)
    ensures forall s :: s in st.handles ==> st.handles[s] != h
  {
    forall s | s in st.handles
      ensures st.handles[s] != h
    {
      assert HandleOk(st, s);
    }
  }

  lemma CallbackSource(st: State, sub: RemoteSourceSubscription, id: nat)
    requires Inv(st) && sub in st.callbacks && id in st.callbacks[sub]
    ensures st.callbacks[sub][id] in st.handles
  {
    assert CallbackOk(st, sub, id);
  }

  /** The sources that a message for the URI reaches. */
  ghost function FedBy(st: State, uri: string): set<RemoteSource> {
    if uri in st.subscriptions && st.subscriptions[uri] in st.callbacks then st.callbacks[st.subscriptions[uri]].Values else {}
  }

  /** The callbacks that feed a source with what arrives for a URI. */
  ghost function Feeding(st: State, uri: string, s: RemoteSource): set<nat> {
    if uri in st.subscriptions && st.subscriptions[uri] in st.callbacks then CallbacksTo(st.callbacks[st.subscriptions[uri]], {}, s) else {}
  }

  ghost function CallbacksTo(callbacks: map<nat, RemoteSource>, todo: set<nat>, s: RemoteSource): set<nat> {
    set id | id in callbacks && id !in todo && callbacks[id] == s
  }

  function Copies(body: string, n: nat): seq<string> {
    seq(n, i => body)
  }

  lemma CallbacksToStep(callbacks: map<nat, RemoteSource>, todo: set<nat>, id: nat, s: RemoteSource, body: string)
    requires id in todo && id in callbacks
    ensures var was, now := |CallbacksTo(callbacks, todo, s)|, |CallbacksTo(callbacks, todo - {id}, s)|;
      Copies(body, now) == Copies(body, was) + (if callbacks[id] == s then [body] else [])
  {
    assert CallbacksTo(callbacks, todo - {id}, s) == CallbacksTo(callbacks, todo, s) + (if callbacks[id] == s then {id} else {});
  }

  lemma NoCopies(body: string)
    ensures Copies(body, 0) == []
  {
  }

  lemma CallbacksToNone(callbacks: map<nat, RemoteSource>, s: RemoteSource)
    ensures CallbacksTo(callbacks, callbacks.Keys, s) == {}
  {
  }

  ghost predicate Feeds(st: State, h: Handle, s: RemoteSource) {
    Registered(st, h) && st.callbacks[h.subscription][h.id] == s
  }

  /** A source that holds a handle is fed by that handle's callback, and by no other exactly if it has
      none left in the queue from a subscription that it gave up. */
  lemma FedOnce(st: State, s: RemoteSource)
    requires Inv(st) && s in st.handles && st.handles[s].subscription != null
    ensures var h := st.handles[s];
      && h.id in Feeding(st, h.subscription.subscribedUri, s)
      && (Feeding(st, h.subscription.subscribedUri, s) == {h.id} <==>
          forall q :: q in st.queued && q.subscription == h.subscription ==> !Feeds(st, q, s))
  {
    var h := st.handles[s];
    assert HandleOk(st, s) && SubscriptionOk(st, h.subscription);
    var callbacks := st.callbacks[h.subscription];
    forall id | id in callbacks && callbacks[id] == s && id != h.id
      ensures Handle(h.subscription, id) in st.queued
    {
      assert CallbackOk(st, h.subscription, id);
    }
    if q :| q in st.queued && q.subscription == h.subscription && Feeds(st, q, s) {
      assert q != h && q.id in Feeding(st, h.subscription.subscribedUri, s);
    }
    if id :| id in callbacks && callbacks[id] == s && id != h.id {
      assert Feeds(st, Handle(h.subscription, id), s);
    }
  }

  /** A source that subscribes, gives up and subscribes again, before the first handle is destroyed, is fed twice. */
  lemma FedTwice(s: RemoteSource, uri: string, sub: RemoteSourceSubscription) returns (st: State)
    requires sub.subscribedUri == uri
    ensures var st0 := State(map[], map[], map[s := EMPTY], [], 0, []);
      st == Subscribed(GivenUp(Subscribed(st0, s, uri, sub), s), s, uri, sub)
    ensures Inv(st) && Feeding(st, uri, s) == {0, 1} && st.queued == [Handle(sub, 0)] && st.handles[s] == Handle(sub, 1)
  {
    var st0 := State(map[], map[], map[s := EMPTY], [], 0, []);
    var st1 := Subscribed(st0, s, uri, sub);
    var st2 := GivenUp(st1, s);
    st := Subscribed(st2, s, uri, sub);
    assert Net([], uri) == 0;
    SubscribedKeepsInv(st0, s, uri, sub);
    GivenUpKeepsInv(st1, s);
    SubscribedKeepsInv(st2, s, uri, sub);
    assert st.callbacks[sub] == map[0 := s, 1 := s];
  }

  /** A source whose handle is empty or for another URI is fed only by callbacks of queued handles. */
  lemma FedOnlyByQueued(st: State, uri: string, s: RemoteSource, id: nat)
    requires Inv(st) && id in Feeding(st, uri, s)
    ensures st.subscriptions[uri].subscribedUri == uri
    ensures s in st.handles && (st.handles[s] == Handle(st.subscriptions[uri], id) || Handle(st.subscriptions[uri], id) in st.queued)
  {
    assert CallbackOk(st, st.subscriptions[uri], id);
  }

  /** The sources that the callbacks done so far feed. */
  ghost function SourcesDone(callbacks: map<nat, RemoteSource>, todo: set<nat>): set<RemoteSource> {
    set id | id in callbacks && id !in todo :: callbacks[id]
  }

  lemma SourcesDoneStep(callbacks: map<nat, RemoteSource>, todo: set<nat>, id: nat)
    requires id in todo && id in callbacks
    ensures SourcesDone(callbacks, todo - {id}) == SourcesDone(callbacks, todo) + {callbacks[id]}
  {
  }

  lemma SourcesDoneEnds(callbacks: map<nat, RemoteSource>)
    ensures SourcesDone(callbacks, callbacks.Keys) == {} && SourcesDone(callbacks, {}) == callbacks.Values
  {
  }

  /** From st to now the sources in `told` have given up their handles, and nothing else happened. */
  ghost predicate Told(st: State, now: State, told: set<RemoteSource>) {
    && now == st.(handles := now.handles, queued := now.queued)
    && now.handles.Keys == st.handles.Keys && st.queued <= now.queued
    && (forall s :: s in st.handles ==> now.handles[s] == if s in told then EMPTY else st.handles[s])
    && (forall h :: h in now.queued ==> h in st.queued || (exists s :: s in told && s in st.handles && st.handles[s] == h))
    && (forall s :: s in told && s in st.handles && st.handles[s].subscription != null ==> st.handles[s] in now.queued)
  }

  lemma ToldNobody(st: State)
    ensures Told(st, st, {})
  {
  }

  lemma ToldStep(st: State, now: State, told: set<RemoteSource>, s: RemoteSource)
    requires Told(st, now, told) && s in st.handles
    ensures Told(st, GivenUp(now, s), told + {s})
  {
    var next := GivenUp(now, s);
    forall x | x in told + {s} && x in st.handles && st.handles[x].subscription != null
      ensures st.handles[x] in next.queued
    {
      if x !in told {
        assert next.queued == now.queued + [st.handles[x]];
      }
    }
  }

  /** Exactly the stored callbacks have a live handle; each is held by one source, the one it
      feeds, or once in the queue, and never by both. */
  lemma HandlesMatchCallbacks(st: State, h: Handle)
    requires Inv(st) && h.subscription != null
    ensures Registered(st, h) <==> (exists s :: s in st.handles && st.handles[s] == h) || h in st.queued
    ensures !((exists s :: s in st.handles && st.handles[s] == h) && h in st.queued)
    ensures forall s, t :: s in st.handles && t in st.handles && st.handles[s] == h == st.handles[t] ==> s == t
    ensures forall i, j :: 0 <= i < |st.queued| && 0 <= j < |st.queued| && st.queued[i] == h == st.queued[j] ==> i == j
  {
    if Registered(st, h) {
      assert CallbackOk(st, h.subscription, h.id);
    }
    forall s | s in st.handles
      ensures st.handles[s] == h ==> Registered(st, h) && h !in st.queued && st.callbacks[h.subscription][h.id] == s
    {
      assert HandleOk(st, s);
    }
  }

  /** No live handle points to a subscription that was destroyed, and a URI is in the map exactly
      as long as some callback listens to it; the client was told so. */
  lemma SubscriptionsLive(st: State, uri: string)
    requires Inv(st)
    ensures uri in st.subscriptions <==> exists sub, id :: sub in st.callbacks && id in st.callbacks[sub] && sub.subscribedUri == uri
    ensures Net(st.commands, uri) == if uri in st.subscriptions then 1 else 0
    ensures forall n :: 0 <= n <= |st.commands| ==> 0 <= Net(st.commands[..n], uri) <= 1
    ensures forall s :: s in st.handles && st.handles[s].subscription != null ==>
              st.handles[s].subscription in st.callbacks && st.handles[s].subscription in st.subscriptions.Values
  {
    if uri in st.subscriptions {
      var sub := st.subscriptions[uri];
      assert SubscriptionOk(st, sub);
      var id :| id in st.callbacks[sub];
    }
    if sub, id :| sub in st.callbacks && id in st.callbacks[sub] && sub.subscribedUri == uri {
      assert SubscriptionOk(st, sub);
    }
    forall s | s in st.handles && st.handles[s].subscription != null
      ensures st.handles[s].subscription in st.callbacks && st.handles[s].subscription in st.subscriptions.Values
    {
      HandleOf(st, s);
      RegisteredUri(st, st.handles[s]);
    }
  }

  /** One step of a run, for a source given by its position. */
  datatype Step =
    | Start(source: nat)
    | Stop(source: nat)
    | SettingsChanged(source: nat, remoteUri: Option<string>, host: Option<string>)
    | Deliver(uri: string, message: Message)
    | DropQueued(index: nat)
    | MaybeReconnect(source: nat, now: nat)

  /** Without the guard at the start of startSubscription a subscription would leak: assigning a
      new handle keeps every callback owned exactly if the source had no handle. */
  lemma MoveAssignmentLeaks(st: State, s: RemoteSource, uri: string, sub: RemoteSourceSubscription)
    requires Inv(st) && s in st.handles && Serves(st, uri, sub)
    ensures Inv(Subscribed(st, s, uri, sub)) <==> st.handles[s].subscription == null
  {
    var h := st.handles[s];
    var after := Subscribed(st, s, uri, sub);
    if h.subscription == null {
      SubscribedKeepsInv(st, s, uri, sub);
    } else {
      assert HandleOk(st, s);
      assert CallbackOk(st, h.subscription, h.id);
      assert h.subscription in after.callbacks && h.id in after.callbacks[h.subscription];
      assert !CallbackOk(after, h.subscription, h.id);
    }
  }

  class RemoteSubscriptionManager {
    const resolve: (string, string) -> string  // host-relative URI and host to the URI of the topic
    var subscriptions: map<string, RemoteSourceSubscription>
    var lastUsedId: nat
    var commands: seq<Command>  // everything sent to the client so far
    var queuedUnsubscriptions: seq<Handle>  // given up by callbacks, not yet destroyed
    ghost var state: State

    ghost predicate Linked()
      reads this, state.handles.Keys, state.callbacks.Keys
    {
      && subscriptions == state.subscriptions && lastUsedId == state.lastUsedId && commands == state.commands
      && queuedUnsubscriptions == state.queued
      && (forall s {:trigger state.handles[s]} :: s in state.handles ==> s.handle == state.handles[s])
      && (forall sub {:trigger state.callbacks[sub]} :: sub in state.callbacks ==> sub.userCallbacks == state.callbacks[sub])
    }

    ghost predicate Valid()
      reads this, state.handles.Keys, state.callbacks.Keys
    {
      Linked() && Inv(state)
    }

    constructor (resolve: (string, string) -> string)
      ensures Valid() && state == State(map[], map[], map[], [], 0, []) && this.resolve == resolve
    {
      this.resolve := resolve;
      subscriptions, lastUsedId, commands, queuedUnsubscriptions := map[], 0, [], [];
      state := State(map[], map[], map[], [], 0, []);
    }

    /** A new source, without a subscription. */
    method AddSource(remoteUri: string, host: string) returns (s: RemoteSource)
      requires Valid()
      modifies this`state
      ensures Valid() && fresh(s) && state == old(state).(handles := old(state).handles[s := EMPTY])
      ensures s.remoteUri == remoteUri && s.host == host && s.handle == EMPTY && s.reconnect == 0 && s.received == []
    {
      hide Inv;
      s := new RemoteSource(remoteUri, host);
      ghost var st := state;
      state := state.(handles := state.handles[s := EMPTY]);
      AddedKeepsInv(st, s);
    }

    /** The subscription of the URI, made if there is none. */
    method FindOrMake(uri: string) returns (sub: RemoteSourceSubscription, first: bool)
      requires Valid()
      modifies this`subscriptions
      ensures first <==> uri !in old(subscriptions)
      ensures subscriptions == old(subscriptions)[uri := sub] && (!first ==> sub == old(subscriptions)[uri])
      ensures Serves(state, uri, sub) && (sub in state.callbacks <==> !first)
      ensures if first then fresh(sub) && sub.userCallbacks == map[] else sub.userCallbacks == state.callbacks[sub]
    {
      hide Inv;
      first := uri !in subscriptions;
      if first {
        sub := new RemoteSourceSubscription(uri);
        subscriptions := subscriptions[uri := sub];
      } else {
        SubscriptionOf(state, uri);
        sub := subscriptions[uri];
      }
    }

    /** RemoteSubscriptionManager::subscribe, and the move of its result into the source. */
    method SubscribeSource(s: RemoteSource)
      requires Valid() && s in state.handles && s.handle.subscription == null
      modifies this, s`handle, state.callbacks.Keys
      ensures Valid() && s.handle.subscription != null && s.handle.subscription.subscribedUri == resolve(s.remoteUri, s.host)
      ensures state == Subscribed(old(state), s, resolve(s.remoteUri, s.host), s.handle.subscription)
      ensures s.handle.subscription in old(state).callbacks || fresh(s.handle.subscription)
      ensures var uri := resolve(s.remoteUri, s.host);
        && s.handle.id == old(lastUsedId) && lastUsedId == old(lastUsedId) + 1
        && subscriptions == old(subscriptions)[uri := s.handle.subscription]
        && (uri in old(subscriptions) ==> s.handle.subscription == old(subscriptions)[uri] && commands == old(commands))
        && (uri !in old(subscriptions) ==> fresh(s.handle.subscription) && commands == old(commands) + [Subscribe(uri)])
        && s.handle.id in s.handle.subscription.userCallbacks && s.handle.subscription.userCallbacks[s.handle.id] == s
        && queuedUnsubscriptions == old(queuedUnsubscriptions)
    {
      hide Inv, Serves, Subscribed;
      var uri := resolve(s.remoteUri, s.host);
      var subscription, first := FindOrMake(uri);
      ServesUri(state, uri, subscription);
      PushCallback(s, uri, subscription, first);
    }

    /** The callback of the source is stored under a new id, and its handle moved into the source. */
    method PushCallback(s: RemoteSource, uri: string, subscription: RemoteSourceSubscription, first: bool)
      requires Inv(state) && s in state.handles && s.handle.subscription == null
      requires Serves(state, uri, subscription) && first == (uri !in state.subscriptions)
      requires subscriptions == state.subscriptions[uri := subscription]
      requires lastUsedId == state.lastUsedId && commands == state.commands && queuedUnsubscriptions == state.queued
      requires forall x {:trigger state.handles[x]} :: x in state.handles ==> x.handle == state.handles[x]
      requires forall x {:trigger state.callbacks[x]} :: x in state.callbacks ==> x.userCallbacks == state.callbacks[x]
      requires subscription.userCallbacks == CallbacksOf(state, subscription)
      modifies this, s`handle, subscription
      ensures Valid() && s.handle == Handle(subscription, old(lastUsedId))
      ensures state == Subscribed(old(state), s, uri, subscription)
      ensures subscription.userCallbacks == old(subscription.userCallbacks)[old(lastUsedId) := s] && lastUsedId == old(lastUsedId) + 1
      ensures commands == if first then old(commands) + [Subscribe(uri)] else old(commands)
      ensures subscriptions == old(subscriptions) && queuedUnsubscriptions == old(queuedUnsubscriptions)
    {
      hide Inv, Serves, Subscribed;
      SubscribedKeepsInv(state, s, uri, subscription);
      SubscribedIs(state, s, uri, subscription);
      s.handle := Handle(subscription, lastUsedId);
      subscription.userCallbacks := subscription.userCallbacks[lastUsedId := s];
      lastUsedId := lastUsedId + 1;
      if first {
        commands := commands + [Subscribe(uri)];
      }
      state := Subscribed(state, s, uri, subscription);
    }

    /** What destroying or resetting a handle does, once its holder has let go of it. */
    method Release(h: Handle, ghost handles: map<RemoteSource, Handle>, ghost queued: seq<Handle>)
      requires Inv(state) && Registered(state, h) && LetGo(state, h, handles, queued)
      requires subscriptions == state.subscriptions && lastUsedId == state.lastUsedId && commands == state.commands
      requires queuedUnsubscriptions == queued
      requires forall s {:trigger handles[s]} :: s in handles ==> s.handle == handles[s]
      requires forall sub {:trigger state.callbacks[sub]} :: sub in state.callbacks ==> sub.userCallbacks == state.callbacks[sub]
      modifies this, h.subscription
      ensures Valid() && state == Released(old(state).(handles := handles, queued := queued), h)
      ensures var left := old(h.subscription.userCallbacks) - {h.id};
        && h.subscription.userCallbacks == left
        && subscriptions == (if left == map[] then old(subscriptions) - {h.subscription.subscribedUri} else old(subscriptions))
        && commands == (if left == map[] then old(commands) + [Unsubscribe(h.subscription.subscribedUri)] else old(commands))
        && lastUsedId == old(lastUsedId) && queuedUnsubscriptions == queued
    {
      hide Inv;
      ReleasedKeepsInv(state, h, handles, queued);
      RegisteredUri(state, h);
      var subscription: RemoteSourceSubscription := h.subscription;
      subscription.userCallbacks := subscription.userCallbacks - {h.id};
      if subscription.userCallbacks == map[] {
        subscriptions := subscriptions - {subscription.subscribedUri};
        commands := commands + [Unsubscribe(subscription.subscribedUri)];
      }
      state := Released(state.(handles := handles, queued := queued), h);
    }

    /** stop: the source's handle is reset. */
    method Stop(s: RemoteSource)
      requires Valid() && s in state.handles
      modifies this, s`handle, state.callbacks.Keys
      ensures Valid() && s.handle.subscription == null
      ensures state == Stopped(old(state), s)
      ensures old(s.handle.subscription) == null ==> state == old(state)
      ensures var h := old(s.handle);
        h.subscription != null ==>
          && s.handle == EMPTY && h.subscription.userCallbacks == old(s.handle.subscription.userCallbacks) - {h.id}
          && commands == if h.subscription.userCallbacks == map[] then old(commands) + [Unsubscribe(h.subscription.subscribedUri)]
                         else old(commands)
    {
      hide Inv;
      var h := s.handle;
      if h.subscription == null {
        assert state.handles[s] == h;
        return;
      }
      HandleOf(state, s);
      assert state.handles[s] == h;
      s.handle := EMPTY;
      QueuedDistinct(state);
      Release(h, state.handles[s := EMPTY], state.queued);
    }

    /** startSubscription: a source that holds a handle keeps it. */
    method StartSubscription(s: RemoteSource)
      requires Valid() && s in state.handles
      modifies this, s`handle, state.callbacks.Keys
      ensures Valid() && s.handle.subscription != null
      ensures old(s.handle.subscription) != null ==> state == old(state)
      ensures old(s.handle.subscription) == null ==>
                state == Subscribed(old(state), s, resolve(s.remoteUri, s.host), s.handle.subscription)
      ensures forall sub :: sub in state.callbacks ==> sub in old(state).callbacks || fresh(sub)
    {
      hide Inv;
      if s.handle.subscription != null {
        return;
      }
      SubscribeSource(s);
    }

    method Start(s: RemoteSource)
      requires Valid() && s in state.handles
      modifies this, s`handle, state.callbacks.Keys
      ensures Valid() && state.handles.Keys == old(state).handles.Keys
      ensures s.remoteUri == "" || s.host == "" || old(s.handle.subscription) != null ==> state == old(state)
      ensures s.remoteUri != "" && s.host != "" ==> s.handle.subscription != null
      ensures s.remoteUri != "" && s.host != "" && old(s.handle.subscription) == null ==>
                state == Subscribed(old(state), s, resolve(s.remoteUri, s.host), s.handle.subscription)
      ensures forall sub :: sub in state.callbacks ==> sub in old(state).callbacks || fresh(sub)
    {
      hide Inv;
      if s.remoteUri != "" && s.host != "" {
        StartSubscription(s);
      }
    }

    /** settingsChanged: new values for the URI or the host make the source subscribe anew. */
    method SettingsChanged(s: RemoteSource, remoteUri: Option<string>, host: Option<string>)
      requires Valid() && s in state.handles
      modifies this, s, state.callbacks.Keys
      ensures Valid() && state.handles.Keys == old(state).handles.Keys
      ensures s.remoteUri == (if remoteUri.Some? then remoteUri.value else old(s.remoteUri))
      ensures s.host == (if host.Some? then host.value else old(s.host))
      ensures s.reconnect == old(s.reconnect) && s.received == old(s.received)
      ensures (remoteUri.Some? || host.Some?) && s.remoteUri != "" && s.host != "" ==>
                && s.handle.subscription != null
                && s.handle.subscription.subscribedUri == resolve(s.remoteUri, s.host)
                && state == Subscribed(Stopped(old(state), s), s, resolve(s.remoteUri, s.host), s.handle.subscription)
      ensures !((remoteUri.Some? || host.Some?) && s.remoteUri != "" && s.host != "") ==> state == old(state)
      ensures forall sub :: sub in state.callbacks ==> sub in old(state).callbacks || fresh(sub)
    {
      hide Inv;
      if remoteUri.Some? {
        s.remoteUri := remoteUri.value;
      }
      if host.Some? {
        s.host := host.value;
      }
      if (remoteUri.Some? || host.Some?) && s.host != "" && s.remoteUri != "" {
        Resubscribe(s);
      }
    }

    method Resubscribe(s: RemoteSource)
      requires Valid() && s in state.handles
      modifies this, s`handle, state.callbacks.Keys
      ensures Valid() && state.handles.Keys == old(state).handles.Keys
      ensures s.handle.subscription != null && s.handle.subscription.subscribedUri == resolve(s.remoteUri, s.host)
      ensures state == Subscribed(Stopped(old(state), s), s, resolve(s.remoteUri, s.host), s.handle.subscription)
      ensures forall sub :: sub in state.callbacks ==> sub in old(state).callbacks || fresh(sub)
    {
      hide Inv, Subscribed;
      ghost var st := state;
      Stop(s);
      StoppedShrinks(st, s);
      SubscribeSource(s);
      SubscribedKeys(state, Stopped(st, s), s, resolve(s.remoteUri, s.host), s.handle.subscription);
    }

    /** One of the queued handles of a finished delivery is destroyed, after the lock is released. */
    method DropQueued(i: nat)
      requires Valid() && i < |queuedUnsubscriptions|
      modifies this, state.callbacks.Keys
      ensures Valid()
      ensures state == Released(old(state).(queued := Without(old(state).queued, i)), old(queuedUnsubscriptions)[i])
      ensures queuedUnsubscriptions == old(queuedUnsubscriptions)[..i] + old(queuedUnsubscriptions)[i + 1..]
    {
      hide Inv;
      var h := queuedUnsubscriptions[i];
      QueuedDistinct(state);
      QueuedRegistered(state, h);
      WithoutMembers(state.queued, i);
      queuedUnsubscriptions := Without(queuedUnsubscriptions, i);
      Release(h, state.handles, Without(state.queued, i));
    }

    /** maybeReconnect: a source that is due again reconnects its subscription, or starts one. */
    method MaybeReconnect(s: RemoteSource, now: nat)
      requires Valid() && s in state.handles
      modifies this, s, state.callbacks.Keys
      ensures Valid() && state.handles.Keys == old(state).handles.Keys
      ensures s.remoteUri == old(s.remoteUri) && s.host == old(s.host) && s.received == old(s.received)
      ensures forall sub :: sub in state.callbacks ==> sub in old(state).callbacks || fresh(sub)
      ensures var due := 0 < old(s.reconnect) < now && s.host != "" && s.remoteUri != "";
        && (due ==> s.reconnect == 0 && s.handle.subscription != null)
        && (due && old(s.handle.subscription) == null ==>
              state == Subscribed(old(state), s, resolve(s.remoteUri, s.host), s.handle.subscription))
        && (due && old(s.handle.subscription) != null ==>
              var uri := old(s.handle.subscription).subscribedUri;
              && commands == old(commands) + [Unsubscribe(uri), Subscribe(uri)] && s.handle == old(s.handle)
              && subscriptions == old(subscriptions) && lastUsedId == old(lastUsedId)
              && queuedUnsubscriptions == old(queuedUnsubscriptions)
              && state == old(state).(commands := commands))
        && (!due ==> s.reconnect == old(s.reconnect) && state == old(state))
    {
      hide Inv;
      if s.reconnect != 0 && s.reconnect < now && s.host != "" && s.remoteUri != "" {
        s.reconnect := 0;
        if s.handle.subscription != null {
          var uri := s.handle.subscription.subscribedUri;
          assert state.handles[s] == s.handle;
          HandleOf(state, s);
          RegisteredUri(state, s.handle);
          ReconnectedKeepsInv(state, uri);
          commands := commands + [Unsubscribe(uri)];
          commands := commands + [Subscribe(uri)];
          assert commands == state.commands + [Unsubscribe(uri), Subscribe(uri)];
          state := state.(commands := commands);
        } else {
          StartSubscription(s);
        }
      }
    }

    /** The callback of a source on an error: it moves the source's handle out. */
    method GiveUp(s: RemoteSource, retryAt: nat)
      requires Valid() && s in state.handles
      modifies this`state, this`queuedUnsubscriptions, s`handle, s`reconnect
      ensures Valid() && state == GivenUp(old(state), s) && s.reconnect == retryAt && s.handle == EMPTY
      ensures queuedUnsubscriptions ==
              if old(s.handle.subscription) == null then old(queuedUnsubscriptions) else old(queuedUnsubscriptions) + [old(s.handle)]
      ensures state == old(state).(handles := state.handles, queued := queuedUnsubscriptions)
    {
      hide Inv;
      GivenUpKeepsInv(state, s);
      s.reconnect := retryAt;
      assert state.handles[s] == s.handle;
      if s.handle.subscription != null {
        queuedUnsubscriptions := queuedUnsubscriptions + [s.handle];
      }
      s.handle := EMPTY;
      state := GivenUp(state, s);
    }

    /** Every callback of the subscription passes the data on to its source. */
    method Broadcast(subscription: RemoteSourceSubscription, body: string)
      requires Valid() && subscription in state.callbacks
      modifies state.handles.Keys`received
      ensures Valid()
      ensures forall s :: s in state.handles ==>
                s.received == old(s.received) + Copies(body, |CallbacksTo(state.callbacks[subscription], {}, s)|)
    {
      hide Inv, CallbacksTo, Copies;
      ghost var callbacks := state.callbacks[subscription];
      var todo := subscription.userCallbacks.Keys;
      forall s | s in state.handles
        ensures |CallbacksTo(callbacks, todo, s)| == 0
      {
        CallbacksToNone(callbacks, s);
      }
      NoCopies(body);
      while todo != {}
        invariant Valid() && todo <= callbacks.Keys
        invariant forall s :: s in state.handles ==>
          s.received == old(s.received) + Copies(body, |CallbacksTo(callbacks, todo, s)|)
      {
        var id :| id in todo;
        var s := subscription.userCallbacks[id];
        CallbackSource(state, subscription, id);
        forall x | x in state.handles
          ensures Copies(body, |CallbacksTo(callbacks, todo - {id}, x)|)
                  == Copies(body, |CallbacksTo(callbacks, todo, x)|) + (if x == s then [body] else [])
        {
          CallbacksToStep(callbacks, todo, id, x, body);
        }
        s.received := s.received + [body];
        todo := todo - {id};
      }
    }

    /** The callbacks that are stored are those of the state. */
    lemma LookAt(uri: string)
      requires Valid() && uri in subscriptions
      ensures subscriptions == state.subscriptions
      ensures subscriptions[uri] in state.callbacks && subscriptions[uri].userCallbacks == state.callbacks[subscriptions[uri]]
    {
      SubscriptionOf(state, uri);
    }

    /** On a failure every callback of the subscription gives up its source's handle. */
    method BroadcastFailure(uri: string, retryAt: nat)
      requires Valid() && uri in subscriptions
      modifies this`state, this`queuedUnsubscriptions, state.handles.Keys`handle, state.handles.Keys`reconnect
      ensures Valid() && Told(old(state), state, FedBy(old(state), uri)) && state.handles.Keys == old(state).handles.Keys
      ensures forall s :: s in state.handles ==>
                s.reconnect == if s in FedBy(old(state), uri) then retryAt else old(s.reconnect)
    {
      hide Inv, Told, SourcesDone, RemoteSubscriptionManager.Linked;
      ghost var st := state;
      ToldNobody(st);
      LookAt(uri);
      var subscription := subscriptions[uri];
      ghost var callbacks := state.callbacks[subscription];
      var todo := subscription.userCallbacks.Keys;
      SourcesDoneEnds(callbacks);
      while todo != {}
        invariant Valid() && Told(st, state, SourcesDone(callbacks, todo)) && todo <= callbacks.Keys
        invariant state.callbacks == st.callbacks && state.subscriptions == st.subscriptions
        invariant state.handles.Keys == st.handles.Keys
        invariant forall s :: s in state.handles ==>
          s.reconnect == if s in SourcesDone(callbacks, todo) then retryAt else old(s.reconnect)
      {
        var id :| id in todo;
        SourcesDoneStep(callbacks, todo, id);
        ghost var told := SourcesDone(callbacks, todo);
        todo := todo - {id};
        var s := subscription.userCallbacks[id];
        CallbackSource(state, subscription, id);
        ToldStep(st, state, told, s);
        GiveUp(s, retryAt);
      }
    }

    /** A message arrives for a URI. Data goes to each source once for each callback that feeds it; after a
        failure those sources hold no handle, and are to reconnect at its time. */
    method Deliver(uri: string, message: Message)
      requires Valid()
      modifies this, state.handles.Keys
      ensures Valid()
      ensures var told := if message.Failure? then FedBy(old(state), uri) else {};
        && Told(old(state), state, told)
        && forall s :: s in state.handles ==> s.reconnect == if s in told then message.retryAt else old(s.reconnect)
      ensures message.Data? ==> state == old(state)
      ensures forall s :: s in state.handles ==>
        s.received == old(s.received) + if message.Data? then Copies(message.body, |Feeding(old(state), uri, s)|) else []
    {
      hide Inv, Told, Copies, CallbacksTo;
      ToldNobody(state);
      if uri !in subscriptions {
        NoCopies(if message.Data? then message.body else "");
        return;
      }
      SubscriptionOf(state, uri);
      match message {
        case Data(body) => Broadcast(subscriptions[uri], body);
        case Failure(retryAt) => BroadcastFailure(uri, retryAt);
      }
    }

    method Perform(sources: seq<RemoteSource>, step: Step)
      requires Valid() && forall s :: s in sources ==> s in state.handles
      modifies this, state.handles.Keys, state.callbacks.Keys
      ensures Valid() && state.handles.Keys == old(state).handles.Keys
      ensures forall sub :: sub in state.callbacks ==> sub in old(state).callbacks || fresh(sub)
    {
      hide Inv, Subscribed, Released;
      ghost var st := state;
      match step {
        case Start(i) =>
          if i < |sources| { Start(sources[i]); }
        case Stop(i) =>
          if i < |sources| {
            Stop(sources[i]);
            StoppedShrinks(st, sources[i]);
          }
        case SettingsChanged(i, remoteUri, host) =>
          if i < |sources| { SettingsChanged(sources[i], remoteUri, host); }
        case Deliver(uri, message) =>
          Deliver(uri, message);
        case DropQueued(i) =>
          if i < |queuedUnsubscriptions| {
            DropQueued(i);
            ReleasedShrinks(st, Without(st.queued, i), st.queued[i]);
          }
        case MaybeReconnect(i, now) =>
          if i < |sources| { MaybeReconnect(sources[i], now); }
      }
    }

    /** Every run of steps, in any order and by any of the sources, keeps handles and callbacks matched. */
    method Run(sources: seq<RemoteSource>, steps: seq<Step>)
      requires Valid() && forall s :: s in sources ==> s in state.handles
      modifies this, state.handles.Keys, state.callbacks.Keys
      ensures Valid() && state.handles.Keys == old(state).handles.Keys
    {
      for i := 0 to |steps|
        invariant Valid() && state.handles.Keys == old(state).handles.Keys
        invariant forall sub :: sub in state.callbacks ==> sub in old(state).callbacks || fresh(sub)
      {
        Perform(sources, steps[i]);
      }
    }
  }
}
