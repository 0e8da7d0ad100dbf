/**
 * `uploadData` (XEP-0084 "User Publishes Data", a publish as in section 7.1
 * of XEP-0060) and `getData` (an item retrieval as in section 6.5 of XEP-0060).
 */
module DataRequests {
  import opened Wrappers
  import opened JsValues
  import opened Ltx
  import opened Protocol

  const ContentNotString: string := "Image content should be a string"
  const IdNotString: string := "Avatar id should be a string"

  /** The item id of an upload: the supplied `id` when truthy, otherwise the SHA-1 hex digest of the content. */
  function UploadId(data: map<string, JsValue>, sha1hex: string -> string): string
    requires Get(data, "content").Str?
    requires Truthy(Get(data, "id")) ==> Get(data, "id").Str?
  {
    if Truthy(Get(data, "id")) then Get(data, "id").s else sha1hex(Get(data, "content").s)
  }

  /** The `iq` publishing `content` as the text of a `data` element, in an item with id `id`. */
  function UploadStanza(iqId: string, id: string, content: string): Element
  {
    var payload := Make("data", map["xmlns" := Str(NsImg)], Str(NsPubsub), [Text(content)]);
    var item := Make("item", map["id" := Str(id)], Str(NsPubsub), [Child(payload)]);
    var publish := Make("publish", map["node" := Str(NsImg)], Str(NsPubsub), [Child(item)]);
    var pubsub := Make("pubsub", map["xmlns" := Str(NsPubsub)], Undefined, [Child(publish)]);
    Make("iq", map["type" := Str("set"), "id" := Str(iqId)], Undefined, [Child(pubsub)])
  }

  /**
   * `uploadData(data, callback)`, with `iqId` supplied by `_getId` and
   * `sha1hex` standing for the SHA-1 hex digest of the `crypto` module.
   */
  function UploadData(data: map<string, JsValue>, callback: JsValue, iqId: string, sha1hex: string -> string): (o: Outcome)
    ensures !o.threw
    ensures !callback.Func? ==> o == Rejection(MissingCallback, false)
    ensures o.request.Some? <==>
      callback.Func? && Truthy(Get(data, "content")) && Get(data, "content").Str? &&
      (Truthy(Get(data, "id")) ==> Get(data, "id").Str?)
    ensures o.request.None? ==> |o.errors| == 1
    ensures o.request.Some? ==> o.errors == [] && o.request.value.handler == EchoId(UploadId(data, sha1hex))
  {
    var content := Get(data, "content");
    var id := Get(data, "id");
    if !callback.Func? then Rejection(MissingCallback, false)
    else if !Truthy(content) then Rejection(MissingKey("content"), true)
    else if !content.Str? then Rejection(ContentNotString, true)
    else if Truthy(id) && !id.Str? then Rejection(IdNotString, true)
    else
      var itemId := UploadId(data, sha1hex);
      Outcome([], Some(Request(UploadStanza(iqId, itemId, content.s), EchoId(itemId))), false)
  }

  /** Checks in the source's order: callback, `content` present, `content` a string, a truthy `id` a string. */
  lemma UploadValidationOrder(data: map<string, JsValue>, callback: JsValue, iqId: string, sha1hex: string -> string)
    ensures var o := UploadData(data, callback, iqId, sha1hex);
      var content, id := Get(data, "content"), Get(data, "id");
      && (callback.Func? && !Truthy(content) ==> o == Rejection(MissingKey("content"), true))
      && (callback.Func? && Truthy(content) && !content.Str? ==> o == Rejection(ContentNotString, true))
      && ((callback.Func? && Truthy(content) && content.Str? && Truthy(id) && !id.Str?) ==>
            o == Rejection(IdNotString, true))
  {
  }

  /**
   * An upload is an `iq set` publishing to node `urn:xmpp:avatar:data` one
   * item with the given id, whose `data` child holds the content as its text.
   */
  lemma UploadStanzaShape(iqId: string, id: string, content: string)
    ensures var s := UploadStanza(iqId, id, content);
      && s.name == "iq" && Attr(s, "type") == Str("set") && Attr(s, "id") == Str(iqId)
      && Follow(s, PublishItemPath[..2]).Some? && Attr(Follow(s, PublishItemPath[..2]).value, "node") == Str(NsImg)
      && Follow(s, PublishItemPath).Some?
      && var item := Follow(s, PublishItemPath).value;
      && item.name == "item"
      && Attr(item, "id") == Str(id)
      && FirstChild(item, "data", NsImg).Some?
      && ChildText(item, "data") == Some(content)
  {
    var s := UploadStanza(iqId, id, content);
    var pubsub := s.children[0].elem;
    var publish := pubsub.children[0].elem;
    var item := publish.children[0].elem;
    var payload := item.children[0].elem;
    assert FirstChild(s, "pubsub", NsPubsub) == Some(pubsub);
    assert FirstChild(pubsub, "publish", "") == Some(publish);
    assert FirstChild(publish, "item", "") == Some(item);
    assert FirstChild(item, "data", NsImg) == Some(payload);
    assert FirstChild(item, "data", "") == Some(payload);
    assert payload.children[1..] == [];
    assert TextOf(payload.children) == content;
    var p1 := PublishItemPath[1..];
    assert p1[0] == PublishItemPath[1] && p1[1..][0] == PublishItemPath[2] && p1[1..][1..] == [];
    assert Follow(s, PublishItemPath) == Follow(pubsub, p1) == Follow(publish, p1[1..]) == Follow(item, p1[1..][1..]) == Some(item);
    var two := PublishItemPath[..2];
    assert two[0] == PublishItemPath[0] && two[1..][0] == PublishItemPath[1] && two[1..][1..] == [];
    assert Follow(s, two) == Follow(pubsub, two[1..]) == Follow(publish, two[1..][1..]) == Some(publish);
  }

  /**
   * A sent upload publishes an item whose id is the supplied `id` when truthy
   * and the digest of the content otherwise, whose `data` text is the content
   * exactly, and a success response hands `{ id }` with that same id to the
   * callback; an error response hands the parsed error.
   */
  lemma UploadedItem(data: map<string, JsValue>, callback: JsValue, iqId: string, sha1hex: string -> string, response: Element)
    requires UploadData(data, callback, iqId, sha1hex).request.Some?
    ensures var r := UploadData(data, callback, iqId, sha1hex).request.value;
      var content := Get(data, "content").s;
      var id := if Truthy(Get(data, "id")) then Get(data, "id").s else sha1hex(content);
      && Follow(r.stanza, PublishItemPath).Some?
      && Attr(Follow(r.stanza, PublishItemPath).value, "id") == Str(id)
      && ChildText(Follow(r.stanza, PublishItemPath).value, "data") == Some(content)
      && (Attr(response, "type") != Str("error") ==> OnResponse(r.handler, response) == Succeeded(Obj(map["id" := Str(id)])))
      && (Attr(response, "type") == Str("error") ==> OnResponse(r.handler, response) == Failed(response))
  {
    UploadStanzaShape(iqId, UploadId(data, sha1hex), Get(data, "content").s);
  }

  /** The same content without an explicit id always publishes under the same id. */
  lemma DigestIdDeterministic(d1: map<string, JsValue>, d2: map<string, JsValue>, c1: JsValue, c2: JsValue,
                              iq1: string, iq2: string, sha1hex: string -> string)
    requires UploadData(d1, c1, iq1, sha1hex).request.Some? && UploadData(d2, c2, iq2, sha1hex).request.Some?
    requires !Truthy(Get(d1, "id")) && !Truthy(Get(d2, "id"))
    requires Get(d1, "content") == Get(d2, "content")
    ensures UploadData(d1, c1, iq1, sha1hex).request.value.handler == UploadData(d2, c2, iq2, sha1hex).request.value.handler
  {
  }

  /** The `iq get` retrieving item `id` from `of`; the `node` of `items` is absent (`this.NS_DATA` is undefined). */
  function RetrieveStanza(iqId: string, of: JsValue, id: JsValue): Element
  {
    var item := Make("item", map["id" := id], Str(NsPubsub), []);
    var items := Make("items", map[], Str(NsPubsub), [Child(item)]);
    var pubsub := Make("pubsub", map["xmlns" := Str(NsPubsub)], Undefined, [Child(items)]);
    Make("iq", map["type" := Str("get"), "id" := Str(iqId), "to" := of], Undefined, [Child(pubsub)])
  }

  /** `getData(data, callback)`, with `iqId` supplied by `_getId`. */
  function GetData(data: map<string, JsValue>, callback: JsValue, iqId: string): (o: Outcome)
    ensures !o.threw
    ensures !callback.Func? ==> o == Rejection(MissingCallback, false)
    ensures callback.Func? && !Truthy(Get(data, "of")) ==> o == Rejection(MissingKey("of"), true)
    ensures callback.Func? && Truthy(Get(data, "of")) && !Truthy(Get(data, "id")) ==> o == Rejection(MissingKey("id"), true)
    ensures o.request.Some? <==> callback.Func? && Truthy(Get(data, "of")) && Truthy(Get(data, "id"))
    ensures o.request.Some? ==> o.errors == [] && o.request.value.handler == ExtractContent
  {
    if !callback.Func? then Rejection(MissingCallback, false)
    else if !Truthy(Get(data, "of")) then Rejection(MissingKey("of"), true)
    else if !Truthy(Get(data, "id")) then Rejection(MissingKey("id"), true)
    else Outcome([], Some(Request(RetrieveStanza(iqId, Get(data, "of"), Get(data, "id")), ExtractContent)), false)
  }

  /**
   * A sent retrieval is an `iq get` with id `iqId`, addressed to `of`, asking `items` (with no
   * `node` attribute) for the one item whose id is the requested `id`.
   */
  lemma RetrievalShape(data: map<string, JsValue>, callback: JsValue, iqId: string)
    requires GetData(data, callback, iqId).request.Some?
    ensures var s := GetData(data, callback, iqId).request.value.stanza;
      && s.name == "iq" && Attr(s, "type") == Str("get") && Attr(s, "id") == Str(iqId)
      && Attr(s, "to") == Get(data, "of")
      && FirstChild(s, "pubsub", NsPubsub).Some?
      && Follow(s, RetrievedItemPath).Some?
      && Attr(Follow(s, RetrievedItemPath).value, "id") == Get(data, "id")
      && Follow(s, RetrievedItemPath[..2]).Some?
      && "node" !in Follow(s, RetrievedItemPath[..2]).value.attrs
  {
    var s := GetData(data, callback, iqId).request.value.stanza;
    var pubsub := s.children[0].elem;
    var items := pubsub.children[0].elem;
    var item := items.children[0].elem;
    assert FirstChild(s, "pubsub", "") == Some(pubsub);
    assert FirstChild(pubsub, "items", "") == Some(items);
    assert FirstChild(items, "item", "") == Some(item);
    var two := RetrievedItemPath[..2];
    assert two[0] == RetrievedItemPath[0] && two[1..][0] == RetrievedItemPath[1] && two[1..][1..] == [];
    assert Follow(s, two) == Follow(pubsub, two[1..]) == Follow(items, two[1..][1..]) == Some(items);
    var p1 := RetrievedItemPath[1..];
    assert p1[0] == RetrievedItemPath[1] && p1[1..][0] == RetrievedItemPath[2] && p1[1..][1..] == [];
    assert Follow(s, RetrievedItemPath) == Follow(pubsub, p1) == Follow(items, p1[1..]) == Follow(item, p1[1..][1..]) == Some(item);
  }

  /** A result of a retrieval from `from`, carrying `item` as section 6.5 of XEP-0060 returns it. */
  function ItemsResult(iqId: string, from: JsValue, item: Element): Element
  {
    var items := Make("items", map["node" := Str(NsImg)], Str(NsPubsub), [Child(item)]);
    var pubsub := Make("pubsub", map["xmlns" := Str(NsPubsub)], Undefined, [Child(items)]);
    Make("iq", map["type" := Str("result"), "id" := Str(iqId), "from" := from], Undefined, [Child(pubsub)])
  }

  /** getData's closure finds the item of a retrieval result, which is not an error. */
  lemma ResultHoldsItem(iqId: string, from: JsValue, item: Element)
    requires item.name == "item"
    ensures Attr(ItemsResult(iqId, from, item), "type") != Str("error")
    ensures Follow(ItemsResult(iqId, from, item), RetrievedItemPath) == Some(item)
  {
    var r := ItemsResult(iqId, from, item);
    var pubsub := r.children[0].elem;
    var items := pubsub.children[0].elem;
    assert FirstChild(r, "pubsub", "") == Some(pubsub);
    assert FirstChild(pubsub, "items", "") == Some(items);
    assert FirstChild(items, "item", "") == Some(item);
    var p1 := RetrievedItemPath[1..];
    assert p1[0] == RetrievedItemPath[1] && p1[1..][0] == RetrievedItemPath[2] && p1[1..][1..] == [];
    assert Follow(r, RetrievedItemPath) == Follow(pubsub, p1) == Follow(items, p1[1..]) == Follow(item, p1[1..][1..]) == Some(item);
  }

  /** Any success response whose `pubsub/items/item` carries `data` text hands exactly that text to the callback. */
  lemma ResultContent(response: Element, item: Element, content: string)
    requires Attr(response, "type") != Str("error")
    requires Follow(response, RetrievedItemPath) == Some(item)
    requires ChildText(item, "data") == Some(content)
    ensures OnResponse(ExtractContent, response) == Succeeded(Obj(map["content" := Str(content)]))
  {
  }

  /**
   * Round trip: the item an upload publishes, returned in any success
   * response to a retrieval, hands the callback `{ content }` with exactly
   * the uploaded text.
   */
  lemma UploadThenRetrieve(data: map<string, JsValue>, callback: JsValue, iqId: string, sha1hex: string -> string,
                           response: Element)
    requires UploadData(data, callback, iqId, sha1hex).request.Some?
    requires Attr(response, "type") != Str("error")
    requires Follow(response, RetrievedItemPath) == Follow(UploadData(data, callback, iqId, sha1hex).request.value.stanza, PublishItemPath)
    ensures Follow(UploadData(data, callback, iqId, sha1hex).request.value.stanza, PublishItemPath).Some?
    ensures OnResponse(ExtractContent, response) == Succeeded(Obj(map["content" := Get(data, "content")]))
  {
    var content := Get(data, "content").s;
    var s := UploadStanza(iqId, UploadId(data, sha1hex), content);
    assert UploadData(data, callback, iqId, sha1hex).request.value.stanza == s;
    UploadStanzaShape(iqId, UploadId(data, sha1hex), content);
    ResultContent(response, Follow(s, PublishItemPath).value, content);
  }

  /** The uploaded item comes back in a retrieval result from the publisher's service: the round trip above applies to it. */
  lemma UploadedItemInResult(data: map<string, JsValue>, callback: JsValue, iqId: string, sha1hex: string -> string,
                             resultId: string, from: JsValue)
    requires UploadData(data, callback, iqId, sha1hex).request.Some?
    ensures var s := UploadData(data, callback, iqId, sha1hex).request.value.stanza;
      Follow(s, PublishItemPath).Some? &&
      OnResponse(ExtractContent, ItemsResult(resultId, from, Follow(s, PublishItemPath).value)) ==
        Succeeded(Obj(map["content" := Get(data, "content")]))
  {
    var content := Get(data, "content").s;
    var s := UploadStanza(iqId, UploadId(data, sha1hex), content);
    assert UploadData(data, callback, iqId, sha1hex).request.value.stanza == s;
    UploadStanzaShape(iqId, UploadId(data, sha1hex), content);
    var item := Follow(s, PublishItemPath).value;
    ResultHoldsItem(resultId, from, item);
    UploadThenRetrieve(data, callback, iqId, sha1hex, ItemsResult(resultId, from, item));
  }

  /** Any success response whose item has no `data` child hands `{ content: null }` (ltx's `getChildText` gives `null`). */
  lemma MissingPayloadGivesNull(response: Element, item: Element)
    requires Attr(response, "type") != Str("error")
    requires Follow(response, RetrievedItemPath) == Some(item)
    requires FirstChild(item, "data", "").None?
    ensures OnResponse(ExtractContent, response) == Succeeded(Obj(map["content" := Null]))
  {
  }
}
