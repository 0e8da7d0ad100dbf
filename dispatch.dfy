/** The `_events` table: which application event each avatar operation serves. */
module Dispatch {

  datatype Operation = UploadData | SetMetadata | GetData | SetSubscribe | SetUnsubscribe

  const Events: map<string, Operation> := map[
    "xmpp.avatar.upload" := UploadData,
    "xmpp.avatar.metadata" := SetMetadata,
    "xmpp.avatar.data" := GetData,
    "xmpp.avatar.subscribe" := SetSubscribe,
    "xmpp.avatar.unsubscribe" := SetUnsubscribe
  ]

  /** The event that reaches `op`. */
  function EventOf(op: Operation): (event: string)
    ensures event in Events && Events[event] == op
  {
    match op
    case UploadData => "xmpp.avatar.upload"
    case SetMetadata => "xmpp.avatar.metadata"
    case GetData => "xmpp.avatar.data"
    case SetSubscribe => "xmpp.avatar.subscribe"
    case SetUnsubscribe => "xmpp.avatar.unsubscribe"
  }

  /** Every operation is reached by exactly one event, and only the five events are routed. */
  lemma EventsRouteEachOperationOnce()
    ensures |Events| == 5
    ensures forall e :: e in Events ==> EventOf(Events[e]) == e
  {
    assert Events.Keys == {"xmpp.avatar.upload", "xmpp.avatar.metadata", "xmpp.avatar.data",
                           "xmpp.avatar.subscribe", "xmpp.avatar.unsubscribe"};
  }
}
