/**
 * `setSubscribe` and `setUnsubscribe`: after checking `of`, both hand over to
 * the generic publish-subscribe operations inherited from the pubsub base,
 * whose request building is not part of this model; only the arguments passed
 * to them are recorded.
 */
module Subscriptions {
  import opened JsValues
  import opened Protocol

  /** The inherited operation called. */
  datatype PubsubCall = Subscribe | Unsubscribe

  /** One call of an inherited operation with `{ to, node }` and the caller's callback. */
  datatype Delegation = Delegation(call: PubsubCall, to: JsValue, node: string, callback: JsValue)

  datatype SubscriptionOutcome = Refused(error: ClientError) | Delegated(delegation: Delegation)

  /** The shared guard: a falsy `of` is a client error, otherwise one delegation to the metadata node of `of`. */
  function Subscription(call: PubsubCall, data: map<string, JsValue>, callback: JsValue): (r: SubscriptionOutcome)
    ensures r.Refused? <==> !Truthy(Get(data, "of"))
    ensures r.Refused? ==> r.error == ClientError(MissingKey("of"), true)
    ensures r.Delegated? ==> r.delegation == Delegation(call, data["of"], NsMeta, callback)
  {
    if !Truthy(Get(data, "of")) then Refused(ClientError(MissingKey("of"), true))
    else Delegated(Delegation(call, data["of"], NsMeta, callback))
  }

  /** `setSubscribe(data, callback)`: subscribes to the metadata node of `of`, or reports the missing `of`. */
  function SetSubscribe(data: map<string, JsValue>, callback: JsValue): (r: SubscriptionOutcome)
    ensures r.Refused? <==> !Truthy(Get(data, "of"))
    ensures r.Refused? ==> r.error == ClientError(MissingKey("of"), true)
    ensures r.Delegated? ==> r.delegation == Delegation(Subscribe, Get(data, "of"), NsMeta, callback)
  {
    Subscription(Subscribe, data, callback)
  }

  /** `setUnsubscribe(data, callback)`: unsubscribes from the metadata node of `of`, or reports the missing `of`. */
  function SetUnsubscribe(data: map<string, JsValue>, callback: JsValue): (r: SubscriptionOutcome)
    ensures r.Refused? <==> !Truthy(Get(data, "of"))
    ensures r.Refused? ==> r.error == ClientError(MissingKey("of"), true)
    ensures r.Delegated? ==> r.delegation == Delegation(Unsubscribe, Get(data, "of"), NsMeta, callback)
  {
    Subscription(Unsubscribe, data, callback)
  }
}
