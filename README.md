# Avatar (XEP-0084 over XEP-0060) — a Dafny model of `lib/avatar.js`

This project models the client side of XEP-0084 (User Avatar) as the
xmpp-ftw avatar extension implements it. It covers the five request
operations the `_events` table routes, the inbound notification matcher and
translator, and the whitelist copy of avatar descriptors they share.
Operations are modelled as values.

- `setMetadata`, `uploadData` and `getData` each return an `Outcome` with
  three parts. The first is the client errors raised, in order, each noting
  whether a callback was passed along. The second is the one request, if
  any, that is tracked with its response closure and sent. The third is
  whether the operation threw.
- `setSubscribe` and `setUnsubscribe` return a `SubscriptionOutcome`. It
  records either the client error or the one delegation to the inherited
  pubsub call.
- `handle` returns whether it handled the stanza and the push event it
  emitted, with that event's name and data.

The response closures are pure functions from the response stanza to the
arguments the callback receives (`OnResponse`).

Modules and files:

- `wrappers.dfy` (`Wrappers`), `js_values.dfy` (`JsValues`): an Option type, and
  JavaScript values with their truthiness (`!x`) and loose nullness (`null != x`).
  Request payloads are property bags `map<string, JsValue>`.
- `ltx.dfy` (`Ltx`): the element tree (name, resolved namespace, attributes,
  element and text children) and the lookups the module uses: `getChild`
  (first match, an empty namespace matching any), chains of them (`Follow`),
  `getChildren`, `getChildText`.
- `protocol.dfy` (`Protocol`): the namespaces, client errors, outcomes and the
  response closures.
- `projection.dfy` (`Projection`): `_addMetadata` as a loop over the six
  descriptor fields, proved equal to a specification function, with lemmas
  on it.
- `notifications.dfy` (`Notifications`): `handles` and `handle`.
- `metadata_publish.dfy` (`MetadataPublish`): `setMetadata`. The `additional`
  iteration is a loop proved equal to `ScanEntries`.
- `data_requests.dfy` (`DataRequests`): `uploadData` and `getData`.
- `subscriptions.dfy` (`Subscriptions`): `setSubscribe`, `setUnsubscribe`.
- `dispatch.dfy` (`Dispatch`): the `_events` table.

The model follows the code, including these behaviours a reader may not expect:

- An invalid `additional` entry does not stop the iteration. The `some`
  callback only ever returns `false` or `undefined`, so every later entry is
  still checked. Each invalid entry raises its own error, and every valid
  one is appended (`InvalidEntryDoesNotStopIteration`).
- Only a `null` or `undefined` entry ends the iteration: reading its keys
  throws. In that case nothing is sent.
- `setMetadata` publishes to the node named `urn:xmpp:avatar:data`, not the
  metadata node.
- `getData` names its node with `this.NS_DATA`, which is never defined. Its
  `items` element therefore has no `node` attribute.
- `handle` walks the chain without checking namespaces, whereas `handles`
  checks them (`HandleIgnoresNamespaces`).
- The callback of `setMetadata` can be invoked several times: once per
  invalid `additional` entry, then again with the response
  (`CallbackInvokedTwice`).

## Model

| member | source | states |
|---|---|---|
| `Ltx.FirstMatch` | lib/avatar.js:40-43 | `getChild(name, xmlns)` finds an element exactly when some child matches; the result is the first matching child, and no earlier child matches |
| `Ltx.FollowFour` | lib/avatar.js:52-55 | a four-link `getChild` chain is the nested sequence of first-child lookups, with None as soon as one link is missing |
| `Ltx.FollowAppend` | lib/avatar.js:39-44 | following a chain in two parts is following the first part and then the second from where it ended |
| `Ltx.Named` | lib/avatar.js:60 | `getChildren(name)` returns at most as many elements as there are children, each named `name` (exactness and order are the two lemmas below) |
| `Ltx.NamedMembers` | lib/avatar.js:60 | `getChildren(name)` returns exactly the element children named `name` |
| `Ltx.NamedAppend` | lib/avatar.js:60 | `getChildren(name)` keeps document order: on a concatenation of children it is the concatenation of the two results |
| `Ltx.NamedKeepsAll` | lib/avatar.js:60 | when every child is an element named `info`, `getChildren('info')` returns all of them in document order |
| `Protocol.OnResponse` | lib/avatar.js:148-212 | every closure hands `(parseError(response), null)` exactly when the response's `type` is `error`; otherwise setMetadata's hands `(null, true)`, uploadData's `(null, { id })` with the published id, and getData's throws exactly when the `pubsub/items/item` chain is missing, and otherwise hands `(null, { content })` with the text of that item's `data` child, or `null` when it has none |
| `Projection.CopyPresentSpec` | lib/avatar.js:73-80 | after visiting some keys, a visited key that is non-null in the source has the source's value, and every other key keeps the target's |
| `Projection.WhitelistOnly` | lib/avatar.js:73-80 | only the six descriptor fields that are non-null in the source are written; every other key of the target is unchanged, and other source keys are ignored |
| `Projection.ProjectionOfEmpty` | lib/avatar.js:73-80 | copied into an empty object, the result is exactly the source restricted to the six fields with non-null values (`0` and `""` are kept) |
| `Projection.ProjectionIdempotent` | lib/avatar.js:73-80 | copying an already copied descriptor gives the same descriptor |
| `Projection.AddMetadata` | lib/avatar.js:73-80 | the `forEach` loop over the six fields computes the whitelist copy |
| `Projection.ProjectEachAt` | lib/avatar.js:59-64 | one descriptor per `info` element, in order, each the whitelist copy of that element's attributes |
| `Notifications.Handles` | lib/avatar.js:37-46 | true iff the stanza is a `message` and has the full chain `event` (pubsub#event) → `items` (metadata ns) → `item` → `metadata` (metadata ns) |
| `Notifications.BrokenLinkNotHandled` | lib/avatar.js:39-44 | a link missing at any depth of the chain gives false |
| `Notifications.Translate` | lib/avatar.js:48-71 | a push is produced exactly when the namespace-blind chain exists; it is the `xmpp.avatar.push.metadata` event and carries `_getJid(from)` |
| `Notifications.Handle` | lib/avatar.js:48-71 | the `handle` loop emits exactly the push that `Translate` specifies, and answers true iff it emits one |
| `Notifications.EmptyMetadataDisables` | lib/avatar.js:50-67 | an empty `metadata` element gives exactly `{from, disabled: true}`, with no avatar list |
| `Notifications.AvatarsFollowInfoChildren` | lib/avatar.js:58-67 | a non-empty `metadata` element gives one avatar per `info` child, in document order, each the whitelist copy of its attributes |
| `Notifications.HandleIgnoresNamespaces` | lib/avatar.js:37-55 | a chain without namespaces is rejected by `handles` but translated by `handle` |
| `Notifications.StandardNotificationNotHandled` | lib/avatar.js:41 | a notification shaped as XEP-0060 sends it, with `items` in the event namespace and a `node` attribute, is never claimed |
| `Notifications.HandlesNotification` | lib/avatar.js:37-46 | the intended matcher claims a stanza iff it is a `message` with the chain `event` (pubsub#event) → `items` (pubsub#event) → `item` → `metadata` (metadata ns), and that `items` names node `urn:xmpp:avatar:metadata` in its `node` attribute |
| `Notifications.StandardNotificationClaimed` | lib/avatar.js:37-46 | the intended matcher claims every standard notification that carries a metadata element |
| `MetadataPublish.CheckEntry` | lib/avatar.js:119-143 | an entry throws iff it is null or undefined; it is accepted iff it is an object with truthy `id`, `url`, `bytes` and `type`; otherwise the reported key is the first falsy one in that order |
| `MetadataPublish.FirstNullish` | lib/avatar.js:118-119 | the index of the first entry whose key read throws; all entries before it are readable |
| `MetadataPublish.ScanSummary` | lib/avatar.js:118-144 | up to the first null entry, each rejected entry raises exactly one error naming its first missing key, and each accepted entry is appended, in input order; the iteration throws iff such an entry exists |
| `MetadataPublish.ScanStaysThrown` | lib/avatar.js:118-144 | once an entry has thrown, later entries change nothing |
| `MetadataPublish.IterateAdditional` | lib/avatar.js:118-144 | the `some` loop produces exactly the errors, the appended `info` children and the throw that `ScanEntries` specifies |
| `MetadataPublish.SetMetadata` | lib/avatar.js:82-154 | the method's checks and step-by-step stanza building give exactly `MetadataOutcome` |
| `MetadataPublish.ValidationOrder` | lib/avatar.js:84-117 | no callback gives only "Missing callback", and no callback is handed over; otherwise, unless disabling, the first falsy of `bytes`, `id`, `type` gives one error; a truthy non-array `additional` gives one error; in each case nothing is sent |
| `MetadataPublish.SentExactlyWhen` | lib/avatar.js:84-153 | the request is tracked and sent iff there is a callback, the main fields are valid or disabling is set, and `additional` is falsy or an array without null or undefined entries |
| `MetadataPublish.PublishStanzaShape` | lib/avatar.js:101-110 | the stanza is an `iq set` with the given id, publishing to node `urn:xmpp:avatar:data` one item with the given attributes, whose metadata element holds exactly the given children |
| `MetadataPublish.FindPublishedItem` | lib/avatar.js:101-106 | the `pubsub/publish/item` chain of a publish stanza reaches the item that was built |
| `MetadataPublish.PublishedItem` | lib/avatar.js:87-153 | a sent request publishes an item with `id` (no attribute at all when disabling); the primary `info` is the whitelist copy of the request (absent when disabling), followed by the accepted `additional` entries; errors are one per rejected entry |
| `MetadataPublish.InvalidEntryDoesNotStopIteration` | lib/avatar.js:118-144 | an entry missing `url` followed by a valid entry raises one error and still appends the valid one |
| `MetadataPublish.CallbackInvokedTwice` | lib/avatar.js:118-152 | a request with one invalid `additional` entry hands the callback to the client-error path and is still tracked for the response |
| `MetadataPublish.SentStanzaStoresBags` | lib/avatar.js:97-143 | the sent stanza stores the projected request (unless disabling) followed by the accepted entries |
| `MetadataPublish.EchoedItemTranslates` | lib/avatar.js:48-67 | a published item echoed in a notification is reported by `handle` as exactly its stored attribute bags, or as disabled when there are none |
| `MetadataPublish.PublishedMetadataRoundTrip` | lib/avatar.js:101-143 | publishing metadata and receiving the item back gives `disabled` when no `info` was published; otherwise it gives one avatar per published bag, in order, equal to the whitelist copy of the request or entry |
| `DataRequests.UploadData` | lib/avatar.js:156-188 | only "Missing callback" without a callback; a request is sent iff there is a callback, `content` is a non-empty string and a truthy `id` is a string; otherwise exactly one error; the registered closure echoes the item id |
| `DataRequests.UploadValidationOrder` | lib/avatar.js:158-165 | the checks run in the order: `content` present, `content` a string, a truthy `id` a string |
| `DataRequests.UploadStanzaShape` | lib/avatar.js:174-181 | the upload is an `iq set` with the given iq id, publishing to node `urn:xmpp:avatar:data` one item with the given id, whose `data` text is the content |
| `DataRequests.UploadedItem` | lib/avatar.js:166-186 | the item id is the supplied `id` when truthy, otherwise `sha1hex(content)`; the `data` text equals `content` exactly; a success response yields `{id}` with that id, and an error response yields the parsed error |
| `DataRequests.DigestIdDeterministic` | lib/avatar.js:166-173 | the same content without an id is always published under the same id |
| `DataRequests.GetData` | lib/avatar.js:190-215 | the checks run in the order: callback, `of`, `id`; a request is sent iff all three pass, with the content-extracting closure |
| `DataRequests.RetrievalShape` | lib/avatar.js:198-203 | the retrieval is an `iq get` with the given iq id, addressed to `of`, with `pubsub` in the pubsub namespace, whose `items` has no `node` attribute, asking for the item with the requested `id` |
| `DataRequests.ResultHoldsItem` | lib/avatar.js:207-209 | a retrieval result (an `iq result` with `from`, `pubsub`, `items`, `item`) is not an error, and the closure's `pubsub/items/item` chain finds its item |
| `DataRequests.ResultContent` | lib/avatar.js:204-211 | any non-error response whose `pubsub/items/item` chain reaches an item with `data` text yields exactly that text |
| `DataRequests.UploadThenRetrieve` | lib/avatar.js:174-211 | any non-error response whose `pubsub/items/item` chain reaches the item an upload published yields exactly the uploaded content |
| `DataRequests.UploadedItemInResult` | lib/avatar.js:174-211 | the uploaded item carried back in a retrieval result from any sender yields exactly the uploaded content |
| `DataRequests.MissingPayloadGivesNull` | lib/avatar.js:207-211 | any non-error response whose `pubsub/items/item` chain reaches an item without a `data` child yields `{content: null}` |
| `Subscriptions.Subscription` | lib/avatar.js:25-35 | a falsy `of` gives one "Missing 'of' key" error and no delegation; otherwise exactly one delegation with `{to: of, node: urn:xmpp:avatar:metadata}` and the caller's callback |
| `Subscriptions.SetSubscribe` | lib/avatar.js:25-29 | the same guard and target, delegating to the inherited `subscribe` |
| `Subscriptions.SetUnsubscribe` | lib/avatar.js:31-35 | the same guard and target, delegating to the inherited `unsubscribe` |
| `Dispatch.EventOf` | lib/avatar.js:16-22 | each operation has an event in the table that routes to it |
| `Dispatch.EventsRouteEachOperationOnce` | lib/avatar.js:16-22 | the table has exactly five events, and each routes to a different operation |

## Findings

| source | as written | input that shows it | evidently intended | confidence | as-written member | corrected member |
|---|---|---|---|---|---|---|
| lib/avatar.js:41 | `handles` requires the `items` element to be in namespace `urn:xmpp:avatar:metadata` | a metadata notification as XEP-0084 and section 7.1.2.1 of XEP-0060 show it: `<items node='urn:xmpp:avatar:metadata'>` inside `<event xmlns='http://jabber.org/protocol/pubsub#event'>`, so `items` resolves to the event namespace | identify the node by the `items` element's `node` attribute | medium (depends on ltx resolving inherited namespaces); not executed | `Notifications.StandardNotificationNotHandled` | `Notifications.HandlesNotification` (`Notifications.StandardNotificationClaimed`) |

## Left out

- Transport and tracker: `this.client.send`, `this.manager.trackId`, `this.socket.send`. These are recorded as the `request` of an `Outcome` and the emitted `Push`; the sending itself is I/O.
- Identifier and JID collaborators: `_getId` is a parameter (`iqId`), and `_getJid` is a function parameter (`jid`).
- `_parseError`: a failed response is handed on as `Failed(response)`, leaving the parsing to that collaborator.
- `_clientError`: recorded as `ClientError(description, withCallback)`. What it then does with the callback or the socket belongs to the base class.
- Stanza roots: the builder cursor handed to `trackId` and `send` is the innermost element built. The model records the root `iq`, which those collaborators send.
- SHA-1 hashing via `crypto` is the function parameter `sha1hex`. Hashing itself is not verifiable here.
- The inherited pubsub `subscribe`/`unsubscribe` request building is not part of this model. Only the arguments passed to it are recorded.
- The asynchronous response path is modelled as a pure function (`OnResponse`), with no timing or concurrency. The tracker's at-most-once delivery belongs to the tracker.
- Non-object payloads: every request payload `data` is a property bag, so a `null` or `undefined` `data` is not expressible. In the code, such a payload throws a TypeError at its first property read. For setMetadata, uploadData and getData that happens once the callback check has passed (lines 90, 160 and 194). For setSubscribe and setUnsubscribe it happens whatever the callback (lines 26 and 32). Those throws are not modelled.
- JavaScript numbers are integers: NaN, fractions and `-0` are not modelled. Values are JSON-like, with no getters or inherited properties.
- ltx details outside the module's use are not modelled: prefixed element names, and attribute serialisation.
- Notifications.Handle: an exception thrown by `socket.send` inside the `try` would also make `handle` answer false. The model does not include it, because the socket is I/O.
