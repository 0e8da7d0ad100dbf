/**
 * Inbound metadata notifications: `handles` decides whether the avatar module
 * claims a stanza, and `handle` turns a claimed stanza into the
 * `xmpp.avatar.push.metadata` event for the application.
 */
module Notifications {
  import opened Wrappers
  import opened JsValues
  import opened Ltx
  import opened Protocol
  import opened Projection

  const PushEventName: string := "xmpp.avatar.push.metadata"

  /** `{ from, disabled: true }` or `{ from, avatars: [..] }`. */
  datatype Payload = Disabled | Avatars(avatars: seq<map<string, JsValue>>)

  /** One event sent on the socket: its name and its data. */
  datatype Push = Push(event: string, from: JsValue, payload: Payload)

  /** The chain `handles` requires, with the namespaces it checks. */
  const MetadataPath: seq<Step> :=
    [Step("event", NsEvent), Step("items", NsMeta), Step("item", ""), Step("metadata", NsMeta)]

  /** The chain `handle` walks: the same names, no namespace checked. */
  const AnyNamespacePath: seq<Step> :=
    [Step("event", ""), Step("items", ""), Step("item", ""), Step("metadata", "")]

  /** `handles(stanza)`: the stanza is a message and every link of the chain is present. */
  function Handles(stanza: Element): (r: bool)
    ensures r <==> stanza.name == "message" && Follow(stanza, MetadataPath).Some?
  {
    FollowFour(stanza, MetadataPath);
    if stanza.name != "message" then false
    else
      match FirstChild(stanza, "event", NsEvent)
      case None => false
      case Some(event) =>
        match FirstChild(event, "items", NsMeta)
        case None => false
        case Some(items) =>
          match FirstChild(items, "item", "")
          case None => false
          case Some(item) => FirstChild(item, "metadata", NsMeta).Some?
  }

  /** A link missing at any depth of the chain makes `handles` answer false. */
  lemma BrokenLinkNotHandled(stanza: Element, k: nat, reached: Element)
    requires k < |MetadataPath|
    requires Follow(stanza, MetadataPath[..k]) == Some(reached)
    requires FirstChild(reached, MetadataPath[k].name, MetadataPath[k].xmlns).None?
    ensures !Handles(stanza)
  {
    assert MetadataPath == MetadataPath[..k] + MetadataPath[k..];
    FollowAppend(stanza, MetadataPath[..k], MetadataPath[k..]);
  }

  /** The event `handle` emits for `stanza`, or None when it answers false. */
  function Translate(stanza: Element, jid: JsValue -> JsValue): (r: Option<Push>)
    ensures r.Some? <==> Follow(stanza, AnyNamespacePath).Some?
    ensures r.Some? ==> r.value.event == PushEventName && r.value.from == jid(Attr(stanza, "from"))
  {
    match Follow(stanza, AnyNamespacePath)
    case None => None
    case Some(metadata) =>
      var payload :=
        if |metadata.children| == 0 then Disabled
        else Avatars(ProjectEach(Named(metadata.children, "info")));
      Some(Push(PushEventName, jid(Attr(stanza, "from")), payload))
  }

  /**
   * `handle(stanza)`: walks the chain, builds the payload by pushing one
   * descriptor per `info` child, emits it and answers true; a broken chain
   * throws inside the `try`, so nothing is emitted and it answers false.
   * `jid` stands for the `_getJid` collaborator.
   */
  method Handle(stanza: Element, jid: JsValue -> JsValue) returns (handled: bool, emitted: Option<Push>)
    ensures emitted == Translate(stanza, jid)
    ensures handled <==> emitted.Some?
  {
    var from := jid(Attr(stanza, "from"));
    var chain := Follow(stanza, AnyNamespacePath);
    if chain.None? {
      return false, None;
    }
    var metadata := chain.value;
    var payload: Payload;
    if |metadata.children| == 0 {
      payload := Disabled;
    } else {
      var infos := Named(metadata.children, "info");
      var avatars: seq<map<string, JsValue>> := [];
      for i := 0 to |infos|
        invariant avatars == ProjectEach(infos[..i])
      {
        assert infos[..i + 1][..i] == infos[..i];
        var avatar := AddMetadata(infos[i].attrs, map[]);
        avatars := avatars + [avatar];
      }
      assert infos[..|infos|] == infos;
      payload := Avatars(avatars);
    }
    return true, Some(Push(PushEventName, from, payload));
  }

  /** An empty `metadata` element: exactly `{ from, disabled: true }`, with no avatar list. */
  lemma EmptyMetadataDisables(stanza: Element, jid: JsValue -> JsValue, metadata: Element)
    requires Follow(stanza, AnyNamespacePath) == Some(metadata)
    requires |metadata.children| == 0
    ensures Translate(stanza, jid) == Some(Push(PushEventName, jid(Attr(stanza, "from")), Disabled))
  {
  }

  /**
   * A non-empty `metadata` element: one descriptor per `info` child, in
   * document order, each the whitelist copy of that child's attributes.
   */
  lemma AvatarsFollowInfoChildren(stanza: Element, jid: JsValue -> JsValue, metadata: Element)
    requires Follow(stanza, AnyNamespacePath) == Some(metadata)
    requires |metadata.children| > 0
    ensures var infos := Named(metadata.children, "info");
      var r := Translate(stanza, jid);
      r.Some? && r.value.from == jid(Attr(stanza, "from")) && r.value.payload.Avatars? &&
      |r.value.payload.avatars| == |infos| &&
      forall i :: 0 <= i < |infos| ==> r.value.payload.avatars[i] == Projected(infos[i].attrs, map[])
  {
    ProjectEachAt(Named(metadata.children, "info"));
  }

  /**
   * `handle` does not check namespaces that `handles` checks: a chain without
   * any namespace is translated although it is not claimed.
   */
  lemma HandleIgnoresNamespaces(jid: JsValue -> JsValue)
    ensures var metadata := Element("metadata", Undefined, map[], []);
      var item := Element("item", Undefined, map[], [Child(metadata)]);
      var items := Element("items", Undefined, map[], [Child(item)]);
      var event := Element("event", Undefined, map[], [Child(items)]);
      var stanza := Element("message", Undefined, map[], [Child(event)]);
      !Handles(stanza) && Translate(stanza, jid) == Some(Push(PushEventName, jid(Undefined), Disabled))
  {
    var metadata := Element("metadata", Undefined, map[], []);
    var item := Element("item", Undefined, map[], [Child(metadata)]);
    var items := Element("items", Undefined, map[], [Child(item)]);
    var event := Element("event", Undefined, map[], [Child(items)]);
    var stanza := Element("message", Undefined, map[], [Child(event)]);
    assert FirstChild(stanza, "event", NsEvent).None?;
    assert FirstChild(stanza, "event", "") == Some(event);
    assert FirstChild(event, "items", "") == Some(items);
    assert FirstChild(items, "item", "") == Some(item);
    assert FirstChild(item, "metadata", "") == Some(metadata);
  }

  /**
   * A notification shaped as section 7.1.2.1 of XEP-0060 words it: the
   * `items` element declares no namespace of its own (it is in the event
   * namespace) and names the node in its `node` attribute.
   */
  function StandardNotification(from: JsValue, item: Element): Element
  {
    var items := Make("items", map["node" := Str(NsMeta)], Str(NsEvent), [Child(item)]);
    var event := Make("event", map["xmlns" := Str(NsEvent)], Undefined, [Child(items)]);
    Make("message", map["from" := from], Undefined, [Child(event)])
  }

  /** A standard notification is not claimed by `handles`, because its `items` is not in the metadata namespace. */
  lemma StandardNotificationNotHandled(from: JsValue, item: Element)
    ensures !Handles(StandardNotification(from, item))
  {
    var stanza := StandardNotification(from, item);
    var event := stanza.children[0].elem;
    assert FirstChild(stanza, "event", NsEvent) == Some(event);
    assert FirstChild(event, "items", NsMeta).None?;
  }

  /** The chain of a standard notification: `items` in the event namespace. */
  const NotificationPath: seq<Step> :=
    [Step("event", NsEvent), Step("items", NsEvent), Step("item", ""), Step("metadata", NsMeta)]

  /**
   * The evidently intended matcher: `items` in the event namespace, naming the
   * metadata node by its `node` attribute.
   */
  function HandlesNotification(stanza: Element): (r: bool)
    ensures r <==>
      && stanza.name == "message"
      && Follow(stanza, NotificationPath).Some?
      && Follow(stanza, NotificationPath[..2]).Some?
      && Attr(Follow(stanza, NotificationPath[..2]).value, "node") == Str(NsMeta)
  {
    FollowFour(stanza, NotificationPath);
    FollowTwo(stanza, NotificationPath[..2]);
    if stanza.name != "message" then false
    else
      match FirstChild(stanza, "event", NsEvent)
      case None => false
      case Some(event) =>
        match FirstChild(event, "items", NsEvent)
        case None => false
        case Some(items) =>
          if Attr(items, "node") != Str(NsMeta) then false
          else
            match FirstChild(items, "item", "")
            case None => false
            case Some(item) =>
              FirstChild(item, "metadata", NsMeta).Some?
  }

  /** The intended matcher claims every standard notification that carries a metadata element. */
  lemma StandardNotificationClaimed(from: JsValue, item: Element)
    requires item.name == "item"
    requires FirstChild(item, "metadata", NsMeta).Some?
    ensures HandlesNotification(StandardNotification(from, item))
  {
    var stanza := StandardNotification(from, item);
    var event := stanza.children[0].elem;
    var items := event.children[0].elem;
    assert FirstChild(stanza, "event", NsEvent) == Some(event);
    assert FirstChild(event, "items", NsEvent) == Some(items);
    assert FirstChild(items, "item", "") == Some(item);
    var m := FirstChild(item, "metadata", NsMeta).value;
    assert Child(m) in item.children;
  }
}
