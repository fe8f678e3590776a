/**
  The push-notification server: an in-memory registry of push
  subscriptions, deduplicated by endpoint, and the three JSON handlers
  `/subscribe`, `/unsubscribe` and `/send-notification`.

  Each handler is a pure function from the current registry and the
  request to a `Reply`: the HTTP response, the registry afterwards, and
  the push deliveries it started. Push delivery itself (the `web-push`
  library) is the parameter `deliver`; the order in which the
  deliveries settle is the parameter `completion`.
 */
module Server {
  import opened Js
  import opened Seqs

  /**
    A push subscription as the browser serializes it: the endpoint that
    identifies it, and the remaining fields (encryption keys, expiry)
    that the server stores untouched.
   */
  datatype Subscription = Subscription(endpoint: Value, keys: map<string, string>)

  /** The server's subscription list, in insertion order. */
  type Registry = seq<Subscription>

  /** What one push delivery settled to: fulfilled, or rejected with an error message. */
  datatype Delivery = Delivered | Rejected(message: string)

  /** The notification content sent to every subscription. */
  datatype Payload = Payload(title: Value, body: Value, icon: string)

  /** One call of the push transport. */
  datatype Attempt = Attempt(target: Subscription, payload: Payload)

  /** One entry of the `results` list of a send: `{status: 'success', endpoint}` or `{status: 'error', endpoint, error}`. */
  datatype DispatchResult = Sent(endpoint: Value) | Failed(endpoint: Value, error: string)

  /** A JSON response body: `{}`, `{error}` or `{results}`. */
  datatype Body = EmptyObject | ErrorBody(error: string) | ResultsBody(results: seq<DispatchResult>)

  datatype Response = Response(status: int, body: Body)

  /** The outcome of one request: the response, the registry afterwards, and the deliveries started in call order. */
  datatype Reply = Reply(response: Response, registry: Registry, attempts: seq<Attempt>)

  const InvalidSubscription := "Неверные данные подписки"
  const EndpointRequired := "Необходимо указать endpoint"
  const TitleAndBodyRequired := "Необходимо указать title и body"
  const NotificationIcon := "/icons/icon-192.png"

  function SubscriptionEndpoint(s: Subscription): Value { s.endpoint }

  /** No two registry entries share an endpoint. */
  ghost predicate UniqueEndpoints(reg: Registry) {
    DistinctKeys(reg, SubscriptionEndpoint)
  }

  /** Some entry has endpoint `e` (`subscriptions.some(s => s.endpoint === e)`). */
  predicate HasEndpoint(reg: Registry, e: Value)
    ensures HasEndpoint(reg, e) <==> e in Map(reg, SubscriptionEndpoint)
  {
    exists i :: 0 <= i < |reg| && reg[i].endpoint == e
  }

  /** The positions of the entries whose endpoint is `e`. */
  ghost function EntriesFor(reg: Registry, e: Value): set<nat> {
    set i: nat | i < |reg| && reg[i].endpoint == e
  }

  /** The filter test of `/unsubscribe`: keep the entries whose endpoint differs from `e`. */
  function OtherEndpoint(e: Value): Subscription -> bool {
    (s: Subscription) => s.endpoint != e
  }

  /** The registry without the entries whose endpoint is `e`. */
  function Remove(reg: Registry, e: Value): (r: Registry)
    ensures forall s :: s in r <==> s in reg && s.endpoint != e
    ensures forall s :: multiset(r)[s] == if s.endpoint != e then multiset(reg)[s] else 0
    ensures IsSubsequence(r, reg)
    ensures !HasEndpoint(r, e)
  {
    var r := Filter(reg, OtherEndpoint(e));
    FilterIsSubsequence(reg, OtherEndpoint(e));
    FilterMembers(reg, OtherEndpoint(e));
    r
  }

  /** POST /subscribe with the parsed body `sub`. */
  function Subscribe(reg: Registry, sub: Subscription): (r: Reply)
    ensures r.attempts == []
    ensures !Truthy(sub.endpoint) ==> r == Reply(Response(400, ErrorBody(InvalidSubscription)), reg, [])
    ensures Truthy(sub.endpoint) ==> r.response == Response(201, EmptyObject)
    ensures Truthy(sub.endpoint) && !HasEndpoint(reg, sub.endpoint) ==> r.registry == reg + [sub]
    ensures HasEndpoint(reg, sub.endpoint) ==> r.registry == reg
  {
    if !Truthy(sub.endpoint) then
      Reply(Response(400, ErrorBody(InvalidSubscription)), reg, [])
    else if !HasEndpoint(reg, sub.endpoint) then
      Reply(Response(201, EmptyObject), reg + [sub], [])
    else
      Reply(Response(201, EmptyObject), reg, [])
  }

  /** POST /unsubscribe with the `endpoint` field of the body. */
  function Unsubscribe(reg: Registry, endpoint: Value): (r: Reply)
    ensures r.attempts == []
    ensures !Truthy(endpoint) ==> r == Reply(Response(400, ErrorBody(EndpointRequired)), reg, [])
    ensures Truthy(endpoint) ==> r.response == Response(200, EmptyObject)
    ensures Truthy(endpoint) ==> forall s :: s in r.registry <==> s in reg && s.endpoint != endpoint
    ensures Truthy(endpoint) ==> forall s :: multiset(r.registry)[s] == if s.endpoint != endpoint then multiset(reg)[s] else 0
    ensures Truthy(endpoint) ==> !HasEndpoint(r.registry, endpoint)
    ensures IsSubsequence(r.registry, reg)
  {
    if !Truthy(endpoint) then
      SubsequenceReflexive(reg);
      Reply(Response(400, ErrorBody(EndpointRequired)), reg, [])
    else
      Reply(Response(200, EmptyObject), Remove(reg, endpoint), [])
  }

  /** The result entry for one settled delivery. */
  function Outcome(sub: Subscription, d: Delivery): (r: DispatchResult)
    ensures r.endpoint == sub.endpoint
    ensures r.Sent? <==> d == Delivered
    ensures r.Failed? ==> d == Rejected(r.error)
  {
    match d
    case Delivered => Sent(sub.endpoint)
    case Rejected(message) => Failed(sub.endpoint, message)
  }

  /** The result entries in registry order, before completion reorders them. */
  function OutcomesInOrder(reg: Registry, payload: Payload, deliver: (Subscription, Payload) -> Delivery): (r: seq<DispatchResult>)
    ensures |r| == |reg|
    ensures forall i :: 0 <= i < |reg| ==> r[i] == Outcome(reg[i], deliver(reg[i], payload))
  {
    Map(reg, (s: Subscription) => Outcome(s, deliver(s, payload)))
  }

  /**
    POST /send-notification with the `title` and `body` fields of the
    request. `completion` lists the registry positions in the order in
    which their deliveries settle; each settlement appends its result.
   */
  function SendNotification(reg: Registry, title: Value, body: Value,
                            deliver: (Subscription, Payload) -> Delivery,
                            completion: seq<nat>): (r: Reply)
    requires IsPermutationOf(completion, |reg|)
    ensures r.registry == reg
    ensures !(Truthy(title) && Truthy(body)) ==> r.response == Response(400, ErrorBody(TitleAndBodyRequired))
    ensures !(Truthy(title) && Truthy(body)) ==> r.attempts == []
    ensures Truthy(title) && Truthy(body) ==>
      && r.response.status == 200
      && r.response.body.ResultsBody?
      && |r.response.body.results| == |reg|
      && |r.attempts| == |reg|
      && |r.response.body.results| == |completion|
    ensures Truthy(title) && Truthy(body) ==>
      forall i :: 0 <= i < |r.attempts| ==> r.attempts[i] == Attempt(reg[i], Payload(title, body, NotificationIcon))
    ensures Truthy(title) && Truthy(body) ==>
      forall k :: 0 <= k < |completion| ==>
        completion[k] < |reg| &&
        r.response.body.results[k] == Outcome(reg[completion[k]], deliver(reg[completion[k]], Payload(title, body, NotificationIcon)))
  {
    if !Truthy(title) || !Truthy(body) then
      Reply(Response(400, ErrorBody(TitleAndBodyRequired)), reg, [])
    else
      var payload := Payload(title, body, NotificationIcon);
      PermutationBounds(completion, |reg|);
      var attempts := Map(reg, (s: Subscription) => Attempt(s, payload));
      var results := Permute(OutcomesInOrder(reg, payload, deliver), completion);
      Reply(Response(200, ResultsBody(results)), reg, attempts)
  }

  // ---------------------------------------------------------------------
  // Registry properties

  /** Subscribing keeps the endpoints of the registry pairwise distinct. */
  lemma SubscribePreservesUniqueness(reg: Registry, sub: Subscription)
    requires UniqueEndpoints(reg)
    ensures UniqueEndpoints(Subscribe(reg, sub).registry)
  {
  }

  /** Unsubscribing keeps the endpoints of the registry pairwise distinct. */
  lemma UnsubscribePreservesUniqueness(reg: Registry, endpoint: Value)
    requires UniqueEndpoints(reg)
    ensures UniqueEndpoints(Unsubscribe(reg, endpoint).registry)
  {
    if Truthy(endpoint) {
      SubsequenceKeepsDistinctKeys(Remove(reg, endpoint), reg, SubscriptionEndpoint);
    }
  }

  /** A second subscribe with the same descriptor changes nothing: the same response and the same registry. */
  lemma SubscribeIdempotent(reg: Registry, sub: Subscription)
    ensures Subscribe(Subscribe(reg, sub).registry, sub) == Subscribe(reg, sub)
  {
    if Truthy(sub.endpoint) && !HasEndpoint(reg, sub.endpoint) {
      assert (reg + [sub])[|reg|] == sub;
    }
  }

  /** After a valid subscribe, a registry with distinct endpoints holds exactly one entry with that endpoint. */
  lemma SubscribeLeavesExactlyOne(reg: Registry, sub: Subscription)
    requires UniqueEndpoints(reg) && Truthy(sub.endpoint)
    ensures |EntriesFor(Subscribe(reg, sub).registry, sub.endpoint)| == 1
  {
    var after := Subscribe(reg, sub).registry;
    SubscribePreservesUniqueness(reg, sub);
    var i :| 0 <= i < |after| && after[i].endpoint == sub.endpoint by {
      if !HasEndpoint(reg, sub.endpoint) {
        assert after[|reg|] == sub;
      }
    }
    assert EntriesFor(after, sub.endpoint) == {i};
  }

  /** Unsubscribing an endpoint the registry does not hold leaves it unchanged (and still answers 200). */
  lemma UnsubscribeAbsent(reg: Registry, endpoint: Value)
    requires Truthy(endpoint) && !HasEndpoint(reg, endpoint)
    ensures Unsubscribe(reg, endpoint) == Reply(Response(200, EmptyObject), reg, [])
  {
    FilterKeepsAll(reg, OtherEndpoint(endpoint));
  }

  /** A second unsubscribe of the same endpoint changes nothing. */
  lemma UnsubscribeIdempotent(reg: Registry, endpoint: Value)
    ensures Unsubscribe(Unsubscribe(reg, endpoint).registry, endpoint) == Unsubscribe(reg, endpoint)
  {
    if Truthy(endpoint) {
      UnsubscribeAbsent(Unsubscribe(reg, endpoint).registry, endpoint);
    }
  }

  /** Subscribing a fresh endpoint and then unsubscribing it restores the registry. */
  lemma SubscribeThenUnsubscribe(reg: Registry, sub: Subscription)
    requires Truthy(sub.endpoint) && !HasEndpoint(reg, sub.endpoint)
    ensures Unsubscribe(Subscribe(reg, sub).registry, sub.endpoint).registry == reg
  {
    FilterAppend(reg, sub, OtherEndpoint(sub.endpoint));
    FilterKeepsAll(reg, OtherEndpoint(sub.endpoint));
  }

  // ---------------------------------------------------------------------
  // Dispatch properties

  function ResultEndpoint(r: DispatchResult): Value { r.endpoint }

  /**
    A valid send reports one result per registered subscription: the
    results are a reordering of the registry-order outcomes, so their
    endpoints are a reordering of the registry's endpoints.
   */
  lemma SendResultsArePermutation(reg: Registry, title: Value, body: Value,
                                  deliver: (Subscription, Payload) -> Delivery,
                                  completion: seq<nat>)
    requires IsPermutationOf(completion, |reg|)
    requires Truthy(title) && Truthy(body)
    ensures var results := SendNotification(reg, title, body, deliver, completion).response.body.results;
      && multiset(results) == multiset(OutcomesInOrder(reg, Payload(title, body, NotificationIcon), deliver))
      && multiset(Map(results, ResultEndpoint)) == multiset(Map(reg, SubscriptionEndpoint))
  {
    var payload := Payload(title, body, NotificationIcon);
    var inOrder := OutcomesInOrder(reg, payload, deliver);
    var results := SendNotification(reg, title, body, deliver, completion).response.body.results;
    PermuteIsPermutation(inOrder, completion);
    assert results == Permute(inOrder, completion);
    MapPermute(inOrder, completion, ResultEndpoint);
    PermuteIsPermutation(Map(inOrder, ResultEndpoint), completion);
    assert Map(inOrder, ResultEndpoint) == Map(reg, SubscriptionEndpoint);
  }

  /** With distinct endpoints, each registered subscription has exactly one result, and it carries that subscription's outcome. */
  lemma SendOneResultPerSubscription(reg: Registry, title: Value, body: Value,
                                     deliver: (Subscription, Payload) -> Delivery,
                                     completion: seq<nat>, i: nat)
    requires IsPermutationOf(completion, |reg|)
    requires Truthy(title) && Truthy(body)
    requires UniqueEndpoints(reg) && i < |reg|
    ensures var results := SendNotification(reg, title, body, deliver, completion).response.body.results;
      && (exists k :: 0 <= k < |results| && results[k] == Outcome(reg[i], deliver(reg[i], Payload(title, body, NotificationIcon))))
      && (forall k, k' :: 0 <= k < k' < |results| ==> results[k].endpoint != results[k'].endpoint)
  {
    var results := SendNotification(reg, title, body, deliver, completion).response.body.results;
    PermutationBounds(completion, |reg|);
    PermutationOnce(completion, |reg|, i);
    assert i in multiset(completion);
    var k :| 0 <= k < |completion| && completion[k] == i;
    assert results[k] == Outcome(reg[i], deliver(reg[i], Payload(title, body, NotificationIcon)));
    forall k, k' | 0 <= k < k' < |results|
      ensures results[k].endpoint != results[k'].endpoint
    {
      PermutationDistinct(completion, |reg|, k, k');
      if completion[k] < completion[k'] {
        assert reg[completion[k]].endpoint != reg[completion[k']].endpoint;
      } else {
        assert reg[completion[k']].endpoint != reg[completion[k]].endpoint;
      }
    }
  }

  /** A value at two different positions occurs at least twice. */
  lemma TwoPositions<T>(s: seq<T>, k: nat, k': nat)
    requires k < k' < |s|
    ensures multiset(s)[s[k]] >= if s[k] == s[k'] then 2 else 1
  {
    assert s == s[..k] + [s[k]] + s[k + 1..k'] + [s[k']] + s[k' + 1..];
  }

  /** Different positions of a permutation hold different indices. */
  lemma PermutationDistinct(order: seq<nat>, n: nat, k: nat, k': nat)
    requires IsPermutationOf(order, n)
    requires k < k' < |order|
    ensures order[k] != order[k']
  {
    PermutationBounds(order, n);
    PermutationOnce(order, n, order[k]);
    TwoPositions(order, k, k');
  }

  /** A send whose title or body is falsy does the same whatever the transport would do: no delivery is attempted. */
  lemma InvalidSendIgnoresTransport(reg: Registry, title: Value, body: Value,
                                    deliver: (Subscription, Payload) -> Delivery,
                                    deliver': (Subscription, Payload) -> Delivery,
                                    completion: seq<nat>)
    requires IsPermutationOf(completion, |reg|)
    requires !Truthy(title) || !Truthy(body)
    ensures SendNotification(reg, title, body, deliver, completion) == SendNotification(reg, title, body, deliver', completion)
    ensures SendNotification(reg, title, body, deliver, completion) == Reply(Response(400, ErrorBody(TitleAndBodyRequired)), reg, [])
  {
  }

  /** A worked example: subscribing A twice leaves one entry; a send then reports one result per endpoint. */
  lemma ScenarioSubscribeTwiceThenSend(a: Subscription, b: Subscription,
                                       deliver: (Subscription, Payload) -> Delivery)
    requires a.endpoint == Str("A") && b.endpoint == Str("B")
    ensures |Subscribe(Subscribe([], a).registry, a).registry| == 1
    ensures var reg := Subscribe(Subscribe([], a).registry, b).registry;
      && IsPermutationOf([1, 0], |reg|)
      && var results := SendNotification(reg, Str("T"), Str("B"), deliver, [1, 0]).response.body.results;
      && |results| == 2
      && results[0].endpoint == Str("B")
      && results[1].endpoint == Str("A")
  {
    assert Subscribe([], a).registry == [a];
    assert HasEndpoint([a], a.endpoint) by {
      assert [a][0].endpoint == a.endpoint;
    }
    var reg := Subscribe(Subscribe([], a).registry, b).registry;
    assert reg == [a, b];
    assert IsPermutationOf([1, 0], 2) by {
      assert Indices(2) == [0, 1];
      assert multiset([1, 0]) == multiset([0, 1]);
    }
  }
}
