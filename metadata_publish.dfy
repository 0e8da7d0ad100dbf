/**
 * `setMetadata`: validating a metadata request and publishing the metadata
 * item (XEP-0084 "User Publishes Metadata Notification", and the empty
 * metadata element that disables avatar publishing).
 */
module MetadataPublish {
  import opened Wrappers
  import opened JsValues
  import opened Ltx
  import opened Protocol
  import opened Projection
  import opened Notifications

  const AdditionalNotArray: string := "Additional must be an array"

  /** The client-error message for an `additional` entry missing `key`. */
  function MissingInAdditional(key: string): string
  {
    "Missing '" + key + "' key in additional"
  }

  /** The keys every `additional` entry must carry, in the order they are checked. */
  const AdditionalKeys: seq<string> := ["id", "url", "bytes", "type"]

  /** The request asks to disable publishing (`data.disable` is truthy). */
  predicate Disabling(data: map<string, JsValue>)
  {
    Truthy(Get(data, "disable"))
  }

  /** Reading `entry.key` does not throw and gives a truthy value. */
  predicate ReadsTruthy(entry: JsValue, key: string)
  {
    Member(entry, key).Some? && Truthy(Member(entry, key).value)
  }

  /** How the `some` callback treats one entry of `additional`. */
  datatype Verdict =
    | Throws                                   // reading a key of `null` or `undefined`
    | Missing(key: string)                     // one client error, entry skipped
    | Accepted(props: map<string, JsValue>)    // appended as an `info` child

  /** The callback's checks on one entry: `id`, `url`, `bytes`, `type`, the first falsy one reported. */
  function CheckEntry(entry: JsValue): (v: Verdict)
    ensures v.Throws? <==> Nullish(entry)
    ensures v.Accepted? <==> entry.Obj? && forall k :: k in AdditionalKeys ==> Truthy(Get(entry.props, k))
    ensures v.Accepted? ==> v.props == entry.props
    ensures v.Missing? ==>
      exists i :: 0 <= i < |AdditionalKeys| && v.key == AdditionalKeys[i] && !ReadsTruthy(entry, AdditionalKeys[i]) &&
        forall j :: 0 <= j < i ==> ReadsTruthy(entry, AdditionalKeys[j])
  {
    assert AdditionalKeys[0] == "id" && AdditionalKeys[1] == "url";
    assert AdditionalKeys[2] == "bytes" && AdditionalKeys[3] == "type";
    if Nullish(entry) then Throws
    else if !ReadsTruthy(entry, "id") then Missing("id")
    else if !ReadsTruthy(entry, "url") then Missing("url")
    else if !ReadsTruthy(entry, "bytes") then Missing("bytes")
    else if !ReadsTruthy(entry, "type") then Missing("type")
    else Accepted(entry.props)
  }

  /** An `info` child of the metadata element, carrying `attrs`. */
  function InfoNode(attrs: map<string, JsValue>): Node
  {
    Child(Make("info", attrs, Str(NsMeta), []))
  }

  /** One `info` child per attribute bag, in order. */
  function InfoNodes(bags: seq<map<string, JsValue>>): (r: seq<Node>)
    ensures |r| == |bags|
    ensures forall i :: 0 <= i < |bags| ==> r[i] == InfoNode(bags[i])
  {
    seq(|bags|, i requires 0 <= i < |bags| => InfoNode(bags[i]))
  }

  /** What the iteration over `additional` has produced so far. */
  datatype Scan = Scan(errors: seq<ClientError>, infos: seq<Node>, threw: bool)

  /** The state after the callback has run on `entry`. */
  function Visit(s: Scan, entry: JsValue): Scan
  {
    match CheckEntry(entry)
    case Throws => s.(threw := true)
    case Missing(key) => s.(errors := s.errors + [ClientError(MissingInAdditional(key), true)])
    case Accepted(props) => s.(infos := s.infos + [InfoNode(props)])
  }

  /** The state after iterating over `entries`; a throw ends the iteration. */
  function ScanEntries(entries: seq<JsValue>): Scan
    decreases |entries|
  {
    if entries == [] then Scan([], [], false)
    else
      var before := ScanEntries(entries[..|entries| - 1]);
      if before.threw then before else Visit(before, entries[|entries| - 1])
  }

  /** The index of the first `null` or `undefined` entry, `|entries|` when there is none. */
  function FirstNullish(entries: seq<JsValue>): (k: nat)
    ensures k <= |entries|
    ensures forall i :: 0 <= i < k ==> !Nullish(entries[i])
    ensures k < |entries| ==> Nullish(entries[k])
  {
    if entries == [] then 0
    else if Nullish(entries[0]) then 0
    else 1 + FirstNullish(entries[1..])
  }

  /** The accepted entries' properties, in input order. */
  function AcceptedBags(entries: seq<JsValue>): seq<map<string, JsValue>>
  {
    if entries == [] then []
    else
      (match CheckEntry(entries[0]) case Accepted(props) => [props] case _ => [])
      + AcceptedBags(entries[1..])
  }

  /** One client error per rejected entry, naming its first missing key, in input order. */
  function RejectionErrors(entries: seq<JsValue>): seq<ClientError>
  {
    if entries == [] then []
    else
      (match CheckEntry(entries[0]) case Missing(key) => [ClientError(MissingInAdditional(key), true)] case _ => [])
      + RejectionErrors(entries[1..])
  }

  lemma {:induction false} FirstNullishSnoc(init: seq<JsValue>, last: JsValue)
    ensures FirstNullish(init + [last]) ==
      if FirstNullish(init) < |init| then FirstNullish(init)
      else if Nullish(last) then |init| else |init| + 1
    decreases |init|
  {
    if init != [] {
      assert (init + [last])[1..] == init[1..] + [last];
      FirstNullishSnoc(init[1..], last);
    }
  }

  lemma {:induction false} ReferenceSnoc(init: seq<JsValue>, last: JsValue)
    ensures AcceptedBags(init + [last]) ==
      AcceptedBags(init) + (match CheckEntry(last) case Accepted(props) => [props] case _ => [])
    ensures RejectionErrors(init + [last]) ==
      RejectionErrors(init) + (match CheckEntry(last) case Missing(key) => [ClientError(MissingInAdditional(key), true)] case _ => [])
    decreases |init|
  {
    if init == [] {
      assert [last][1..] == [];
    } else {
      assert (init + [last])[1..] == init[1..] + [last];
      ReferenceSnoc(init[1..], last);
    }
  }

  /**
   * The iteration does not stop at an invalid entry: up to the first `null`
   * or `undefined` entry, every rejected entry raises exactly one error and
   * every accepted one is appended, in input order; it throws exactly when
   * such an entry exists.
   */
  lemma {:induction false} ScanSummary(entries: seq<JsValue>)
    ensures var k := FirstNullish(entries);
      ScanEntries(entries) == Scan(RejectionErrors(entries[..k]), InfoNodes(AcceptedBags(entries[..k])), k < |entries|)
    decreases |entries|
  {
    if entries != [] {
      var init, last := entries[..|entries| - 1], entries[|entries| - 1];
      assert entries == init + [last];
      ScanSummary(init);
      FirstNullishSnoc(init, last);
      var k0 := FirstNullish(init);
      if k0 < |init| {
        assert entries[..k0] == init[..k0];
      } else if Nullish(last) {
        assert entries[..|init|] == init;
        assert init[..k0] == init;
      } else {
        assert init[..k0] == init;
        assert entries[..|entries|] == entries;
        ReferenceSnoc(init, last);
      }
    }
  }

  /** The `iq` that publishes a metadata item with attributes `itemAttrs` and `info` children `infos`. */
  function PublishStanza(iqId: string, itemAttrs: map<string, JsValue>, infos: seq<Node>): Element
  {
    var item := PublishedItemElement(itemAttrs, infos);
    var publish := Make("publish", map["node" := Str(NsImg)], Str(NsPubsub), [Child(item)]);
    var pubsub := Make("pubsub", map["xmlns" := Str(NsPubsub)], Undefined, [Child(publish)]);
    Make("iq", map["type" := Str("set"), "id" := Str(iqId)], Undefined, [Child(pubsub)])
  }

  /** The item element of a publish request, with its metadata element and `info` children. */
  function PublishedItemElement(itemAttrs: map<string, JsValue>, infos: seq<Node>): Element
  {
    Make("item", itemAttrs, Str(NsPubsub), [Child(Make("metadata", map["xmlns" := Str(NsMeta)], Str(NsPubsub), infos))])
  }

  lemma FindPublishedItem(iqId: string, itemAttrs: map<string, JsValue>, infos: seq<Node>)
    ensures Follow(PublishStanza(iqId, itemAttrs, infos), PublishItemPath) == Some(PublishedItemElement(itemAttrs, infos))
  {
    var s := PublishStanza(iqId, itemAttrs, infos);
    var pubsub := s.children[0].elem;
    var publish := pubsub.children[0].elem;
    var item := publish.children[0].elem;
    assert FirstChild(s, "pubsub", NsPubsub) == Some(pubsub);
    assert FirstChild(pubsub, "publish", "") == Some(publish);
    assert FirstChild(publish, "item", "") == Some(item);
    var p1 := PublishItemPath[1..];
    assert p1[0] == PublishItemPath[1] && p1[1..][0] == PublishItemPath[2] && p1[1..][1..] == [];
    assert Follow(s, PublishItemPath) == Follow(pubsub, p1) == Follow(publish, p1[1..]) == Follow(item, p1[1..][1..]) == Some(item);
  }

  /**
   * Read back, the stanza is an `iq` of type `set` with the given id, publishing
   * to the node named by the image-data namespace one item with the given
   * attributes, whose metadata element (metadata namespace) has exactly `infos`.
   */
  lemma PublishStanzaShape(iqId: string, itemAttrs: map<string, JsValue>, infos: seq<Node>)
    ensures var s := PublishStanza(iqId, itemAttrs, infos);
      s.name == "iq" && Attr(s, "type") == Str("set") && Attr(s, "id") == Str(iqId) &&
      Follow(s, PublishItemPath[..2]).Some? && Attr(Follow(s, PublishItemPath[..2]).value, "node") == Str(NsImg) &&
      Follow(s, PublishItemPath).Some? &&
      var item := Follow(s, PublishItemPath).value;
      item.attrs == itemAttrs && FirstChild(item, "metadata", NsMeta).Some? &&
      FirstChild(item, "metadata", NsMeta).value.children == infos
  {
    var s := PublishStanza(iqId, itemAttrs, infos);
    var pubsub := s.children[0].elem;
    var publish := pubsub.children[0].elem;
    var item := publish.children[0].elem;
    var metadata := item.children[0].elem;
    assert FirstChild(s, "pubsub", NsPubsub) == Some(pubsub);
    assert FirstChild(pubsub, "publish", "") == Some(publish);
    assert FirstChild(item, "metadata", NsMeta) == Some(metadata);
    var two := PublishItemPath[..2];
    assert two[0] == PublishItemPath[0] && two[1..][0] == PublishItemPath[1] && two[1..][1..] == [];
    assert Follow(s, two) == Follow(pubsub, two[1..]) == Follow(publish, two[1..][1..]) == Some(publish);
    FindPublishedItem(iqId, itemAttrs, infos);
  }

  /** The item attributes and the `info` children a valid request publishes before `additional` is read. */
  function ItemAttrs(data: map<string, JsValue>): map<string, JsValue>
  {
    if Disabling(data) then map[] else map["id" := Get(data, "id")]
  }

  function PrimaryInfos(data: map<string, JsValue>): seq<Node>
  {
    if Disabling(data) then [] else [InfoNode(Projected(data, map[]))]
  }

  /** `setMetadata(data, callback)`, with `iqId` the identifier `_getId` supplies. */
  function MetadataOutcome(data: map<string, JsValue>, callback: JsValue, iqId: string): Outcome
  {
    if !callback.Func? then Rejection(MissingCallback, false)
    else if !Disabling(data) && !Truthy(Get(data, "bytes")) then Rejection(MissingKey("bytes"), true)
    else if !Disabling(data) && !Truthy(Get(data, "id")) then Rejection(MissingKey("id"), true)
    else if !Disabling(data) && !Truthy(Get(data, "type")) then Rejection(MissingKey("type"), true)
    else
      var additional := Get(data, "additional");
      if !Truthy(additional) then
        Outcome([], Some(Request(PublishStanza(iqId, ItemAttrs(data), PrimaryInfos(data)), Acknowledge)), false)
      else if !additional.Arr? then Rejection(AdditionalNotArray, true)
      else
        var scan := ScanEntries(additional.elems);
        if scan.threw then Outcome(scan.errors, None, true)
        else Outcome(scan.errors, Some(Request(PublishStanza(iqId, ItemAttrs(data), PrimaryInfos(data) + scan.infos), Acknowledge)), false)
  }

  /**
   * `setMetadata`: the checks in the source's order, then the stanza built
   * step by step, the `additional` entries appended by IterateAdditional.
   */
  method SetMetadata(data: map<string, JsValue>, callback: JsValue, iqId: string) returns (o: Outcome)
    ensures o == MetadataOutcome(data, callback, iqId)
  {
    if !callback.Func? {
      return Rejection(MissingCallback, false);
    }
    var itemAttrs: map<string, JsValue> := map[];
    var infoAttrs: map<string, JsValue> := map[];
    var disable := Truthy(Get(data, "disable"));
    if !disable {
      if !Truthy(Get(data, "bytes")) {
        return Rejection(MissingKey("bytes"), true);
      }
      if !Truthy(Get(data, "id")) {
        return Rejection(MissingKey("id"), true);
      }
      if !Truthy(Get(data, "type")) {
        return Rejection(MissingKey("type"), true);
      }
      infoAttrs := AddMetadata(data, infoAttrs);
      itemAttrs := itemAttrs["id" := Get(data, "id")];
    }
    assert itemAttrs == ItemAttrs(data);
    var infos: seq<Node> := [];
    if !disable {
      infos := infos + [InfoNode(infoAttrs)];
    }
    assert infos == PrimaryInfos(data);
    var errors: seq<ClientError> := [];
    var additional := Get(data, "additional");
    if Truthy(additional) {
      if !additional.Arr? {
        return Rejection(AdditionalNotArray, true);
      }
      var threw;
      errors, infos, threw := IterateAdditional(additional.elems, infos);
      if threw {
        return Outcome(errors, None, true);
      }
    }
    return Outcome(errors, Some(Request(PublishStanza(iqId, itemAttrs, infos), Acknowledge)), false);
  }

  /**
   * `data.additional.some(..)`: each entry is checked, a rejected one raises
   * its client error and the iteration goes on, an accepted one is appended
   * to `infos`; reading from a `null` or `undefined` entry throws out of the
   * iteration.
   */
  method IterateAdditional(entries: seq<JsValue>, infos0: seq<Node>) returns (errors: seq<ClientError>, infos: seq<Node>, threw: bool)
    ensures var scan := ScanEntries(entries);
      errors == scan.errors && threw == scan.threw && infos == infos0 + scan.infos
  {
    errors, infos := [], infos0;
    var i := 0;
    while i < |entries|
      invariant 0 <= i <= |entries|
      invariant !ScanEntries(entries[..i]).threw
      invariant errors == ScanEntries(entries[..i]).errors
      invariant infos == infos0 + ScanEntries(entries[..i]).infos
    {
      var entry := entries[i];
      assert entries[..i + 1][..i] == entries[..i];
      assert ScanEntries(entries[..i + 1]) == Visit(ScanEntries(entries[..i]), entry);
      if Nullish(entry) {
        ScanStaysThrown(entries, i + 1);
        return errors, infos, true;
      }
      if !ReadsTruthy(entry, "id") {
        errors := errors + [ClientError(MissingInAdditional("id"), true)];
      } else if !ReadsTruthy(entry, "url") {
        errors := errors + [ClientError(MissingInAdditional("url"), true)];
      } else if !ReadsTruthy(entry, "bytes") {
        errors := errors + [ClientError(MissingInAdditional("bytes"), true)];
      } else if !ReadsTruthy(entry, "type") {
        errors := errors + [ClientError(MissingInAdditional("type"), true)];
      } else {
        infos := infos + [InfoNode(entry.props)];
      }
      i := i + 1;
    }
    assert entries[..|entries|] == entries;
    threw := false;
  }

  /** Once the iteration has thrown, later entries change nothing. */
  lemma {:induction false} ScanStaysThrown(entries: seq<JsValue>, k: nat)
    requires k <= |entries|
    requires ScanEntries(entries[..k]).threw
    ensures ScanEntries(entries) == ScanEntries(entries[..k])
    decreases |entries| - k
  {
    if k < |entries| {
      assert entries[..k + 1][..k] == entries[..k];
      ScanStaysThrown(entries, k + 1);
    } else {
      assert entries[..k] == entries;
    }
  }

  /** The `additional` entries a request supplies: none unless it is a truthy array. */
  function AdditionalEntries(data: map<string, JsValue>): seq<JsValue>
  {
    var additional := Get(data, "additional");
    if Truthy(additional) && additional.Arr? then additional.elems else []
  }

  /**
   * Validation order: without a function callback, only "Missing callback"
   * (not handed a callback); otherwise, unless disabling, the first falsy of
   * `bytes`, `id`, `type` is the one error; a truthy non-array `additional`
   * is one error. In each case nothing is tracked or sent.
   */
  lemma ValidationOrder(data: map<string, JsValue>, callback: JsValue, iqId: string)
    ensures var o := MetadataOutcome(data, callback, iqId);
      && (!callback.Func? ==> o == Rejection(MissingCallback, false))
      && (callback.Func? && !Disabling(data) && !Truthy(Get(data, "bytes")) ==>
            o == Rejection(MissingKey("bytes"), true))
      && (callback.Func? && !Disabling(data) && Truthy(Get(data, "bytes")) && !Truthy(Get(data, "id")) ==>
            o == Rejection(MissingKey("id"), true))
      && ((callback.Func? && !Disabling(data) && Truthy(Get(data, "bytes")) && Truthy(Get(data, "id")) &&
           !Truthy(Get(data, "type"))) ==> o == Rejection(MissingKey("type"), true))
      && ((callback.Func? && MainFieldsValid(data) &&
           Truthy(Get(data, "additional")) && !Get(data, "additional").Arr?) ==> o == Rejection(AdditionalNotArray, true))
  {
  }

  /** The fields every valid request carries, unless it disables publishing. */
  predicate MainFieldsValid(data: map<string, JsValue>)
  {
    Disabling(data) || (Truthy(Get(data, "bytes")) && Truthy(Get(data, "id")) && Truthy(Get(data, "type")))
  }

  /**
   * The request is tracked and sent (once) exactly when the callback is a
   * function, the main fields are valid, and `additional` is absent or an
   * array without `null`/`undefined` entries; invalid entries do not prevent it.
   */
  lemma SentExactlyWhen(data: map<string, JsValue>, callback: JsValue, iqId: string)
    ensures MetadataOutcome(data, callback, iqId).request.Some? <==>
      && callback.Func?
      && MainFieldsValid(data)
      && (!Truthy(Get(data, "additional")) ||
          (Get(data, "additional").Arr? && forall e :: e in Get(data, "additional").elems ==> !Nullish(e)))
  {
    var additional := Get(data, "additional");
    if additional.Arr? {
      var es := additional.elems;
      ScanSummary(es);
      var k := FirstNullish(es);
      if k < |es| {
        assert es[k] in es;
      }
    }
  }

  /**
   * What a sent request publishes: an item with `id` (or, when disabling, no
   * attribute at all), whose metadata element holds the primary `info` (the
   * whitelist copy of the request, omitted when disabling) followed by the
   * accepted `additional` entries in input order; one client error was raised
   * per rejected entry.
   */
  lemma PublishedItem(data: map<string, JsValue>, callback: JsValue, iqId: string)
    requires MetadataOutcome(data, callback, iqId).request.Some?
    ensures var o := MetadataOutcome(data, callback, iqId);
      var s := o.request.value.stanza;
      && o.request.value.handler == Acknowledge
      && !o.threw
      && o.errors == RejectionErrors(AdditionalEntries(data))
      && s.name == "iq" && Attr(s, "type") == Str("set") && Attr(s, "id") == Str(iqId)
      && Follow(s, PublishItemPath[..2]).Some? && Attr(Follow(s, PublishItemPath[..2]).value, "node") == Str(NsImg)
      && Follow(s, PublishItemPath).Some?
      && var item := Follow(s, PublishItemPath).value;
      && (Disabling(data) ==> item.attrs == map[])
      && (!Disabling(data) ==> item.attrs == map["id" := Get(data, "id")])
      && FirstChild(item, "metadata", NsMeta).Some?
      && FirstChild(item, "metadata", NsMeta).value.children ==
           PrimaryInfos(data) + InfoNodes(AcceptedBags(AdditionalEntries(data)))
      && (!Disabling(data) ==> FirstChild(item, "metadata", NsMeta).value.children[0] == InfoNode(Projected(data, map[])))
  {
    var es := AdditionalEntries(data);
    ScanSummary(es);
    assert es[..|es|] == es;
    if Truthy(Get(data, "additional")) {
      SentExactlyWhen(data, callback, iqId);
      assert FirstNullish(es) == |es|;
    } else {
      assert RejectionErrors([]) == [] && InfoNodes(AcceptedBags([])) == [];
      assert PrimaryInfos(data) + [] == PrimaryInfos(data);
    }
    PublishStanzaShape(iqId, ItemAttrs(data), PrimaryInfos(data) + InfoNodes(AcceptedBags(es)));
  }

  /**
   * An invalid entry does not stop the iteration: an entry without `url`
   * followed by a valid one raises one error and still appends the valid one.
   */
  lemma InvalidEntryDoesNotStopIteration(good: map<string, JsValue>)
    requires forall k :: k in AdditionalKeys ==> Truthy(Get(good, k))
    ensures ScanEntries([Obj(map["id" := Str("a")]), Obj(good)]) ==
      Scan([ClientError(MissingInAdditional("url"), true)], [InfoNode(good)], false)
  {
    var es := [Obj(map["id" := Str("a")]), Obj(good)];
    assert es[..1] == [es[0]] && es[..1][..0] == [];
    assert CheckEntry(es[0]) == Missing("url");
    assert CheckEntry(es[1]) == Accepted(good);
    assert ScanEntries([]) == Scan([], [], false);
    var first := ScanEntries(es[..1]);
    assert first == Visit(Scan([], [], false), es[0]);
    assert ScanEntries(es) == Visit(first, es[1]);
  }

  /**
   * The callback can be invoked more than once: a request whose `additional`
   * holds one invalid entry hands the callback to the client-error path and
   * is still tracked with the same callback for the response.
   */
  lemma CallbackInvokedTwice(handle: nat, iqId: string)
    ensures var data := map["bytes" := Num(1), "id" := Str("a"), "type" := Str("image/png"),
                            "additional" := Arr([Obj(map[])])];
      var o := MetadataOutcome(data, Func(handle), iqId);
      o.errors == [ClientError(MissingInAdditional("id"), true)] && o.request.Some?
  {
    var entries := [Obj(map[])];
    assert entries[..0] == [];
    assert CheckEntry(entries[0]) == Missing("id");
    assert ScanEntries(entries) == Scan([ClientError(MissingInAdditional("id"), true)], [], false);
  }

  /** The attribute bags a request publishes: the request itself unless disabling, then the accepted `additional` entries. */
  function RequestBags(data: map<string, JsValue>): seq<map<string, JsValue>>
  {
    (if Disabling(data) then [] else [data]) + AcceptedBags(AdditionalEntries(data))
  }

  /** What the metadata element of a sent request stores: the primary `info` attributes, then the accepted entries. */
  function StoredBags(data: map<string, JsValue>): seq<map<string, JsValue>>
  {
    (if Disabling(data) then [] else [Projected(data, map[])]) + AcceptedBags(AdditionalEntries(data))
  }

  lemma SentStanzaStoresBags(data: map<string, JsValue>, callback: JsValue, iqId: string)
    requires MetadataOutcome(data, callback, iqId).request.Some?
    ensures MetadataOutcome(data, callback, iqId).request.value.stanza ==
      PublishStanza(iqId, ItemAttrs(data), InfoNodes(StoredBags(data)))
  {
    var es := AdditionalEntries(data);
    var infos := PrimaryInfos(data) + InfoNodes(AcceptedBags(es));
    assert infos == InfoNodes(StoredBags(data));
    if Truthy(Get(data, "additional")) {
      ScanSummary(es);
      assert es[..|es|] == es;
      SentExactlyWhen(data, callback, iqId);
      assert FirstNullish(es) == |es|;
      assert ScanEntries(Get(data, "additional").elems).infos == InfoNodes(AcceptedBags(es));
    } else {
      assert es == [] && AcceptedBags(es) == [] && infos == PrimaryInfos(data);
    }
  }

  /**
   * `push` is what `handle` reports for a metadata element storing `bags`:
   * sent by `from`, disabling when there is no bag, otherwise one descriptor
   * per bag, in order, each the whitelist copy of that bag.
   */
  predicate ReportsBags(push: Option<Push>, from: JsValue, jid: JsValue -> JsValue, bags: seq<map<string, JsValue>>)
  {
    && push.Some? && push.value.from == jid(from)
    && (bags == [] ==> push.value.payload == Disabled)
    && (bags != [] ==> (push.value.payload.Avatars? &&
          |push.value.payload.avatars| == |bags| &&
          forall i :: 0 <= i < |bags| ==> push.value.payload.avatars[i] == Projected(bags[i], map[])))
  }

  /** A published item echoed in a notification: `handle` reports exactly the stored bags. */
  lemma EchoedItemTranslates(iqId: string, itemAttrs: map<string, JsValue>, bags: seq<map<string, JsValue>>,
                             from: JsValue, jid: JsValue -> JsValue)
    ensures var item := Follow(PublishStanza(iqId, itemAttrs, InfoNodes(bags)), PublishItemPath);
      item.Some? && ReportsBags(Translate(StandardNotification(from, item.value), jid), from, jid, bags)
  {
    FindPublishedItem(iqId, itemAttrs, InfoNodes(bags));
    var item := PublishedItemElement(itemAttrs, InfoNodes(bags));
    var metadata := item.children[0].elem;
    var stanza := StandardNotification(from, item);
    var event := stanza.children[0].elem;
    var items := event.children[0].elem;
    assert FirstChild(stanza, "event", "") == Some(event);
    assert FirstChild(event, "items", "") == Some(items);
    assert FirstChild(items, "item", "") == Some(item);
    assert FirstChild(item, "metadata", "") == Some(metadata);
    FollowFour(stanza, AnyNamespacePath);
    assert Follow(stanza, AnyNamespacePath) == Some(metadata);
    assert metadata.children == InfoNodes(bags);
    if bags == [] {
      EmptyMetadataDisables(stanza, jid, metadata);
    } else {
      NamedKeepsAll(metadata.children, "info");
      AvatarsFollowInfoChildren(stanza, jid, metadata);
    }
  }

  /** Bags with the same whitelist copies are reported alike. */
  lemma ReportsSameCopies(push: Option<Push>, from: JsValue, jid: JsValue -> JsValue, b1: seq<map<string, JsValue>>, b2: seq<map<string, JsValue>>)
    requires |b1| == |b2|
    requires forall i :: 0 <= i < |b1| ==> Projected(b1[i], map[]) == Projected(b2[i], map[])
    requires ReportsBags(push, from, jid, b1)
    ensures ReportsBags(push, from, jid, b2)
  {
  }

  /**
   * Round trip: the item a request publishes, echoed back in a notification,
   * is translated by `handle` into `{ from, disabled: true }` when it carries
   * no `info`, and otherwise into one descriptor per published bag (the
   * request unless disabling, then the accepted `additional` entries), in
   * order, each equal to the whitelist copy of that bag.
   */
  lemma PublishedMetadataRoundTrip(data: map<string, JsValue>, callback: JsValue, iqId: string,
                                   from: JsValue, jid: JsValue -> JsValue)
    requires MetadataOutcome(data, callback, iqId).request.Some?
    ensures var s := MetadataOutcome(data, callback, iqId).request.value.stanza;
      Follow(s, PublishItemPath).Some? &&
      ReportsBags(Translate(StandardNotification(from, Follow(s, PublishItemPath).value), jid), from, jid, RequestBags(data))
  {
    var s := MetadataOutcome(data, callback, iqId).request.value.stanza;
    var stored, bags := StoredBags(data), RequestBags(data);
    SentStanzaStoresBags(data, callback, iqId);
    assert s == PublishStanza(iqId, ItemAttrs(data), InfoNodes(stored));
    EchoedItemTranslates(iqId, ItemAttrs(data), stored, from, jid);
    var item := Follow(s, PublishItemPath);
    assert item.Some?;
    var push := Translate(StandardNotification(from, item.value), jid);
    assert ReportsBags(push, from, jid, stored);
    assert |stored| == |bags|;
    forall i | 0 <= i < |bags|
      ensures Projected(stored[i], map[]) == Projected(bags[i], map[])
    {
      if i == 0 && !Disabling(data) {
        ProjectionIdempotent(data);
      } else {
        assert stored[i] == bags[i];
      }
    }
    ReportsSameCopies(push, from, jid, stored, bags);
  }
}
