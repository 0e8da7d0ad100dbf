/**
 * What every avatar request shares: the protocol namespaces, the client-error
 * collaborator's calls, the request handed to the tracker and the transport,
 * and the response closures registered with the tracker.
 */
module Protocol {
  import opened Wrappers
  import opened JsValues
  import opened Ltx

  const NsImg: string := "urn:xmpp:avatar:data"
  const NsMeta: string := "urn:xmpp:avatar:metadata"
  const NsPubsub: string := "http://jabber.org/protocol/pubsub"
  const NsEvent: string := "http://jabber.org/protocol/pubsub#event"

  const MissingCallback: string := "Missing callback"

  /** The client-error message naming a missing key. */
  function MissingKey(key: string): string
  {
    "Missing '" + key + "' key"
  }

  /**
   * One call of the client-error collaborator: its description, and whether
   * a callback argument was passed to it along with the description.
   */
  datatype ClientError = ClientError(description: string, withCallback: bool)

  /** Which response closure an operation registered with the tracker. */
  datatype ReplyHandler =
    | Acknowledge            // setMetadata: `callback(null, true)`
    | EchoId(id: string)     // uploadData: `callback(null, { id: id })`
    | ExtractContent         // getData: `callback(null, { content: .. })`

  /**
   * What the callback receives when the tracked response arrives:
   * `(parseError(response), null)`, `(null, result)`, or nothing because the
   * closure threw while reading the response.
   */
  datatype Reply = Failed(response: Element) | Succeeded(result: JsValue) | HandlerThrew

  /** A stanza tracked once with its response closure and sent once. */
  datatype Request = Request(stanza: Element, handler: ReplyHandler)

  /**
   * The effects of one operation: the client errors raised (in order), the
   * request tracked and sent (if any), and whether the operation threw.
   */
  datatype Outcome = Outcome(errors: seq<ClientError>, request: Option<Request>, threw: bool)

  /** A validation failure: one client error, nothing tracked, nothing sent. */
  function Rejection(description: string, withCallback: bool): Outcome
  {
    Outcome([ClientError(description, withCallback)], None, false)
  }

  /** Where the published item sits in a publish request (XEP-0060 section 7.1). */
  const PublishItemPath: seq<Step> := [Step("pubsub", NsPubsub), Step("publish", ""), Step("item", "")]

  /** Where getData's closure looks for the payload: `pubsub`, `items`, `item`, namespaces ignored. */
  const RetrievedItemPath: seq<Step> := [Step("pubsub", ""), Step("items", ""), Step("item", "")]

  /** The closure `h` applied to the tracked response. */
  function OnResponse(h: ReplyHandler, response: Element): (r: Reply)
    ensures r.Failed? <==> Attr(response, "type") == Str("error")
    ensures r.Failed? ==> r.response == response
    ensures r.HandlerThrew? ==> h.ExtractContent? && Follow(response, RetrievedItemPath).None?
    ensures h.ExtractContent? && !r.Failed? && Follow(response, RetrievedItemPath).None? ==> r.HandlerThrew?
    ensures h.Acknowledge? && !r.Failed? ==> r == Succeeded(Bool(true))
    ensures h.EchoId? && !r.Failed? ==> r == Succeeded(Obj(map["id" := Str(h.id)]))
    ensures h.ExtractContent? && !r.Failed? && Follow(response, RetrievedItemPath).Some? ==>
      r == Succeeded(Obj(map["content" :=
        match ChildText(Follow(response, RetrievedItemPath).value, "data") case None => Null case Some(t) => Str(t)]))
  {
    if Attr(response, "type") == Str("error") then Failed(response)
    else
      match h
      case Acknowledge => Succeeded(Bool(true))
      case EchoId(id) => Succeeded(Obj(map["id" := Str(id)]))
      case ExtractContent =>
        match Follow(response, RetrievedItemPath)
        case None => HandlerThrew
        case Some(item) =>
          var content := match ChildText(item, "data") case None => Null case Some(t) => Str(t);
          Succeeded(Obj(map["content" := content]))
  }
}
