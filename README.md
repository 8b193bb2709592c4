# Per-document annotation distribution, modelled in Dafny

This project models the annotation service of `lib/distribution.js`. Each
document gets a `DocumentDistributor`: a request/response and publish/subscribe
service on a transport channel named after the document, plus a discovery
session for the document's topic. The distributor binds eight routes. Five are
CRUD handlers over the document's `annotations` array. One reports the peers
that discovery has seen. Two are subscribable feeds. A module-level registry
(`swarms`) maps each document URL to its distributor. It is filled at startup
and on `doc-added`, torn down on `doc-removed`, and destroyed as a whole by the
returned shutdown function.

Modules, leaf first:

- `Wrappers` (`wrappers.dfy`): `Option`, `Outcome`, `Result`.
- `ArraySplice` (`splice.dfy`): ECMAScript `Array.prototype.splice` on sequences.
  A negative start counts from the end and is clamped to `max(len + start, 0)`.
  The delete count is clamped to what is left.
- `Annotations` (`annotations.dfy`): JSON values, annotations (maps from field
  names to values) and documents. Also the id scheme
  `docUrl + "/annotations/" + token + ".jsonld"`, and the JSON-LD enrichment
  (`@context` of the W3C Web Annotation Data Model, section 3.1, and
  `type: "Annotation"`). Also `find`/`findIndex` by id, the list and get
  responses, and the pure effect of each create, update and delete transaction.
  The lemmas here are the properties of those transactions.
- `Routes` (`routes.dfy`): the route table as static data, and lookups in it.
- `Distribution` (`distribution.dfy`): the stateful part, as classes. These are
  the store `Repo` (a map from document URL to document), `Subscription`,
  `WatchHandle`, `Discovery` (one listener multiset per event), the
  `handleAnnouncementChange` closure, `Distributor` and `Registry`. Each
  `repo.change` callback is one atomic assignment to the store's map.

Update and delete are modelled as the code is written. When the id is absent,
the handler resolves `false` but does not return. It then runs
`splice(-1, 1, …)`, which on an ECMAScript Array overwrites the last annotation
(update) or removes it (delete). On an empty list, update inserts the payload and delete changes
nothing. The reported code is still NOT_FOUND, because a promise keeps its
first resolution. The early `resolve(false)` shows the lookup was meant to stop
there; the code does not return, and the model follows the code. Likewise the
registry's `set` replaces an existing entry without a check, and the model keeps
that. Both behaviours are exposed in contracts (see Findings).

## Model

| member | source | states |
|---|---|---|
| `ArraySplice.Splice` | lib/distribution.js:125 | the result's length is the old length, minus the clamped delete count, plus the inserted items |
| `ArraySplice.SpliceReplaceAt` | lib/distribution.js:125 | `splice(i, 1, x)` at an index inside the array replaces exactly position i |
| `ArraySplice.SpliceRemoveAt` | lib/distribution.js:146 | `splice(i, 1)` at an index inside the array drops exactly position i |
| `ArraySplice.SpliceMinusOne` | lib/distribution.js:121-126 | on a non-empty array, `splice(-1, 1, items)` replaces the last element by the items |
| `ArraySplice.SpliceMinusOneEmpty` | lib/distribution.js:142-147 | on an empty array, `splice(-1, 1, items)` removes nothing and inserts the items |
| `Annotations.AnnotationUrl` | lib/distribution.js:95 | the id of an annotation: the document URL, `/annotations/`, the token and `.jsonld`, also built for lookups at :72, :119 and :140 |
| `Annotations.HasId` | lib/distribution.js:118-119 | the search test of `find` and `findIndex`: the annotation's `id` field is that string, as also at :71-72 and :139-140 |
| `Annotations.AnnotationsOrEmpty` | lib/distribution.js:41 | the stored annotations, or the empty sequence when the field is missing or not an array, as also at :57 and :70 |
| `Annotations.EnrichAll` | lib/distribution.js:45-49 | the stored annotations mapped through `Enrich`, in order |
| `Annotations.AnnotationUrlInjective` | lib/distribution.js:95 | within one document, equal annotation ids mean equal tokens |
| `Annotations.Enrich` | lib/distribution.js:45-49 | adds `@context` and `type` with their fixed values, overriding same-named fields, and keeps every other field |
| `Annotations.EnrichAllAppend` | lib/distribution.js:45-49 | enriching a list with one more annotation gives the enriched list followed by that annotation enriched |
| `Annotations.FindIndex` | lib/distribution.js:118-120 | returns the first index whose `id` is the URL, or -1 exactly when no element matches |
| `Annotations.FirstMatchIsFindIndex` | lib/distribution.js:118-120 | the first matching position is the one `findIndex` reports |
| `Annotations.ListResponse` | lib/distribution.js:39-51 | the code is OK, with one enriched element per stored annotation in order, and empty when the field is not an array |
| `Annotations.GetResponse` | lib/distribution.js:68-90 | NOT_FOUND with no data exactly when no annotation has the built id; otherwise OK with the first match enriched |
| `Annotations.NewAnnotation` | lib/distribution.js:94-96 | the payload with `id` and `annotation_id` set from the token, overriding the payload's own, and every other field kept |
| `Annotations.CreateStep` | lib/distribution.js:97-105 | a missing list becomes empty; the length grows by one, the prefix is unchanged, and the new last element is the annotation |
| `Annotations.FindIndexAppend` | lib/distribution.js:72 | appending a matching annotation to a list with no match makes it the first match |
| `Annotations.ListAfterCreate` | lib/distribution.js:39-105 | after a create, the stored list is the old one plus the new annotation, and the list response is the old list enriched followed by the new annotation enriched |
| `Annotations.GetAfterCreate` | lib/distribution.js:68-112 | after a create whose id no stored annotation had, get with the token returns OK and the created annotation, enriched |
| `Annotations.UpdatedAnnotations` | lib/distribution.js:116-127 | the update transaction as written keeps the length, except that an empty list grows to one element |
| `Annotations.DeletedAnnotations` | lib/distribution.js:137-148 | the delete transaction as written drops one element from a non-empty list, and none from an empty one |
| `Annotations.UpdatePresentReplaces` | lib/distribution.js:118-125 | update on a present id replaces the first match in place and nothing else |
| `Annotations.UpdateAbsentOverwritesLast` | lib/distribution.js:121-125 | update on an absent id overwrites the last element of a non-empty list |
| `Annotations.UpdateAbsentOnEmptyInserts` | lib/distribution.js:121-125 | update on an empty list inserts the payload |
| `Annotations.DeletePresentRemoves` | lib/distribution.js:139-146 | delete on a present id removes exactly the first match, and the others keep their order |
| `Annotations.DeleteAbsentRemovesLast` | lib/distribution.js:142-146 | delete on an absent id removes the last element of a non-empty list |
| `Annotations.DeleteAbsentOnEmptyKeeps` | lib/distribution.js:142-146 | delete on an empty list leaves it empty |
| `Annotations.IntendedUpdate` | lib/distribution.js:121-125 | the corrected update leaves the list unchanged on a miss and replaces the first match on a hit |
| `Annotations.IntendedDelete` | lib/distribution.js:142-146 | the corrected delete leaves the list unchanged on a miss and removes the first match on a hit |
| `Annotations.UpdateAgreesWhenPresent` | lib/distribution.js:118-126 | on a present id, the update as written and the corrected update agree |
| `Annotations.UpdateFallThroughCounterexample` | lib/distribution.js:121-125 | on a one-element list without the id, the update as written differs from the corrected one |
| `Annotations.DeleteFallThroughCounterexample` | lib/distribution.js:142-146 | on a one-element list without the id, the delete as written differs from the corrected one |
| `Annotations.FreshTokenIsAbsent` | lib/distribution.js:94-95 | in a well-formed list, no annotation has the id built from a fresh token |
| `Annotations.CreateKeepsWellFormed` | lib/distribution.js:94-103 | creating with a fresh token keeps every id built from its own token, with tokens unique |
| `Annotations.RemoveKeepsWellFormed` | lib/distribution.js:146 | removing any one element keeps the list well formed |
| `Annotations.DeleteKeepsWellFormed` | lib/distribution.js:137-148 | delete as written keeps the list well formed, on a hit and on a miss |
| `Annotations.GetAfterDelete` | lib/distribution.js:68-90 | in a well-formed list, get after deleting an id reports NOT_FOUND |
| `Annotations.UpdateBreaksWellFormed` | lib/distribution.js:116-127 | on a well-formed one-element list, updating the present id with a payload lacking the id fields leaves a list that is not well formed, and get by the token then reports NOT_FOUND |
| `Annotations.UpdateKeepsWellFormed` | lib/distribution.js:116-127 | updating a present id keeps the list well formed when the payload carries that token and the id built from it |
| `Annotations.CreateAll` | lib/distribution.js:93-105 | N serialized creates, each with its own token and payload, add exactly N annotations |
| `Annotations.CreateAllWellFormed` | lib/distribution.js:93-105 | N creates with distinct fresh tokens and any payloads leave every token distinct and every id matching its token |
| `Routes.Lookup` | lib/distribution.js:20-36 | finds nothing exactly when no route has the verb and pattern; otherwise the handler of the first such route |
| `Routes.RouteTableUnambiguous` | lib/distribution.js:20-36 | no two registrations share a verb and a pattern |
| `Routes.LookupFindsRoute` | lib/distribution.js:20-36 | in an unambiguous table, every route's verb and pattern look up its own handler |
| `Routes.EachHandlerRoutedOnce` | lib/distribution.js:20-36 | each of the eight handlers is bound by exactly one route |
| `Routes.SubscribableRoutes` | lib/distribution.js:35-36 | exactly the two feed handlers are on `sub` routes |
| `Distribution.Repo.Watch` | lib/distribution.js:54 | `repo.watch` returns a new, open handle for the document and subscriber |
| `Distribution.Subscription.Emit` | lib/distribution.js:55 | a publish appends exactly one payload |
| `Distribution.Subscription.OnDisconnect` | lib/distribution.js:61 | registering a disconnect callback appends exactly that callback |
| `Distribution.WatchHandle.Close` | lib/distribution.js:61 | closing the handle makes it closed |
| `Distribution.WatchHandle.OnChange` | lib/distribution.js:54-59 | an open watch publishes the raw annotation array, or an empty one; a closed one publishes nothing |
| `Distribution.Discovery.constructor` | lib/distribution.js:18 | a new discovery session for the target and document, with no listeners, not destroyed |
| `Distribution.Discovery.On` | lib/distribution.js:166-167 | adds one occurrence of the listener to that event's multiset and nothing else |
| `Distribution.Discovery.RemoveListener` | lib/distribution.js:170-171 | removes one occurrence of the listener from that event's multiset and nothing else |
| `Distribution.Discovery.Destroy` | lib/distribution.js:180 | the session is destroyed and its listeners are untouched |
| `Distribution.AnnouncementListener.Run` | lib/distribution.js:162-164 | publishes the current unique announcements, exactly once |
| `Distribution.RunDisconnect` | lib/distribution.js:61 | a watch callback closes its handle; a related-peers callback removes its listener once from each event |
| `Distribution.ChannelName` | lib/distribution.js:11 | the transport session's name for a document: `annotations-` followed by the document URL |
| `Distribution.ChannelNameInjective` | lib/distribution.js:12 | different documents get different transport channel names |
| `Distribution.Resolve` | lib/distribution.js:116-128 | after any `resolve` the promise is settled |
| `Distribution.ResolveSettlesOnce` | lib/distribution.js:116-128 | a second `resolve` has no effect, so the first resolution is the reported one |
| `Distribution.Distributor.constructor` | lib/distribution.js:11-37 | sets the channel from the URL and binds the route table; a fresh discovery session with no listeners; the transport open |
| `Distribution.Distributor.HandleGetAllAnnotations` | lib/distribution.js:39-51 | answers with the list response of the stored document |
| `Distribution.Distributor.HandleGetAnnotation` | lib/distribution.js:68-90 | answers with the get response for the stored document and the id parameter |
| `Distribution.Distributor.HandleRelated` | lib/distribution.js:156-159 | OK with discovery's current unique announcements |
| `Distribution.Distributor.HandleCreateAnnotation` | lib/distribution.js:93-112 | one atomic create on this document only, answered with CREATED and exactly the stored annotation |
| `Distribution.Distributor.HandleUpdateAnnotation` | lib/distribution.js:115-134 | rejects and changes nothing on a non-array list; otherwise applies the update as written, answers UPDATED or NOT_FOUND by presence, and returns the re-read document |
| `Distribution.Distributor.HandleDeleteAnnotation` | lib/distribution.js:136-154 | rejects and changes nothing on a non-array list; otherwise applies the delete as written and answers DELETED or NOT_FOUND by presence |
| `Distribution.Distributor.HandleSubAllAnnotations` | lib/distribution.js:53-66 | PUB_INIT; one new open watch for the document, and exactly one disconnect callback that closes it |
| `Distribution.Distributor.HandleSubRelated` | lib/distribution.js:161-177 | PUB_INIT; one fresh listener added once to each of announce and unannounce, and one disconnect callback that removes it |
| `Distribution.Distributor.SubscribeRelatedThenDisconnect` | lib/distribution.js:161-177 | subscribe then disconnect restores both listener multisets |
| `Distribution.Distributor.SubscribeRelatedThenAnnounce` | lib/distribution.js:161-167 | one announce after subscribing publishes exactly one event, carrying the current unique announcements |
| `Distribution.Distributor.SubscribeThenCreate` | lib/distribution.js:53-112 | a create after subscribing publishes exactly one event, carrying the list with the new annotation |
| `Distribution.Distributor.SubscribeDisconnectThenCreate` | lib/distribution.js:53-112 | a create after subscribing and disconnecting publishes nothing, and the subscription's watch is closed |
| `Distribution.Distributor.Destroy` | lib/distribution.js:179-182 | releases the discovery session, then the transport session; the session's listeners and announcements stay as they were |
| `Distribution.Registry.Footprints` | lib/distribution.js:205-206 | the objects that destroying every registered distributor may change |
| `Distribution.Registry.constructor` | lib/distribution.js:6 | the shared map starts empty, with no store handlers installed |
| `Distribution.Registry.AnnounceDoc` | lib/distribution.js:187-190 | fails if the given store lacks the document; otherwise sets a fresh distributor over that store for the document's target, overwriting any entry, and keeps the other entries |
| `Distribution.Registry.AnnounceDocIntended` | lib/distribution.js:187-190 | the corrected announce refuses a document that is already registered and leaves the registry unchanged; otherwise it behaves as `AnnounceDoc` |
| `Distribution.Registry.AnnounceEach` | lib/distribution.js:192-194 | announces the documents in order until the first one the store lacks; every announced document gets a fresh distributor over that store for its target, open and without listeners, and other entries are kept |
| `Distribution.Registry.DistributeDocs` | lib/distribution.js:185-196 | announces the given store's documents in order into the shared map, each with a fresh distributor over that store for the document's target, open and without listeners, keeping other entries; on the first missing document it stops with that error, installs no store handlers, and keeps what was already set; on success it installs one pair of handlers for that store |
| `Distribution.Registry.DocRemoved` | lib/distribution.js:198-203 | fails on a missing entry; otherwise destroys the distributor, keeping its discovery listeners and announcements, then fails on `swarms.remove` and leaves the entry in place |
| `Distribution.Registry.DocRemovedIntended` | lib/distribution.js:198-203 | the corrected handler destroys the distributor, keeping its discovery listeners and announcements, and drops its entry |
| `Distribution.Registry.Shutdown` | lib/distribution.js:205-206 | every registered distributor, whichever call registered it, releases discovery, then transport, with its discovery listeners and announcements kept; the map itself is unchanged |
| `Distribution.Registry.RemoveThenShutdown` | lib/distribution.js:198-206 | a distributor removed by doc-removed is destroyed a second time by shutdown |
| `Distribution.Registry.DistributeTwice` | lib/distribution.js:6-196 | two calls for two stores register both calls' documents in the one shared map and install one handler pair per call |
| `Distribution.Registry.TwoStoresShareShutdown` | lib/distribution.js:6-206 | after two calls, shutdown destroys the distributors of both calls' documents |
| `Distribution.Registry.AnnounceTwice` | lib/distribution.js:189 | announcing a document twice leaves the first distributor open and no longer registered |

## Left out

- Route matching and `:id` extraction belong to `ResponseSwarm`, which is not part of this model. Handlers take the `id` parameter directly.
- How `DiscoverySwarm` finds peers, and how it deduplicates `uniqueAnnouncements`, is not part of this model. The set is a field that only discovery would change.
- Event dispatch is not modelled: discovery calling its listeners on announce or unannounce, and the store calling a watch on change. The effect of one listener or one watch call is modelled (`AnnouncementListener.Run`, `WatchHandle.OnChange`). The client methods call it explicitly.
- The transport running a subscription's disconnect callbacks is not modelled. Running one callback is (`RunDisconnect`).
- `uuid()` is a caller-supplied token. Freshness is a premise of the lemmas that need it.
- Store persistence, and `repo.doc` failing for a document the store lacks, are left out for the handlers. Their `Valid()` premise (the document is in the store) is established by `AnnounceDoc`.
- Promise and event-loop interleaving is left out. Each `repo.change` callback is one atomic step, and each handler runs to completion. In the source, update re-reads the document after a separate await, so another change could slip in between. The model reads it right away.
- The model takes the list a `repo.change` callback receives (`state.annotations`) to be an ECMAScript Array, so a negative `splice` start is clamped. It also takes `repo.change` to run the callback synchronously inside the promise executor, without catching what it throws. The store is not part of this model; a store that hands out a different list type, defers the callback or catches its exceptions would behave differently at lib/distribution.js:97-148.
- When a `repo.change` callback throws (update or delete on a non-array `annotations`), the handler rejects, under the assumption above. The model reports `Failure(AnnotationsNotAnArray)` and leaves the store unchanged. Whether the real store rolls back is that store's business.
- A non-array `annotations` value is treated like a missing field. Array elements are taken to be objects; a `null` element would make `find` throw when it destructures, and that case is not modelled.
- JSON numbers are integers, and field order from object spreads is not kept, because an annotation is a map.
- A failing `destroy` is not modelled, so the rejection that `Promise.all` would report on shutdown is absent too. Shutdown destroys the distributors one after another, in an arbitrary order, although the source starts them concurrently.
- `repoStore.getDocs(repoId)` is the `docs` parameter of `DistributeDocs`, and `repo` is its store parameter. The two `repoStore.on` registrations of a call are one entry of `handlers`. The store firing doc-added or doc-removed is not dispatched; a client calls `AnnounceDoc` or `DocRemoved` with that call's store.
- `debug` logging, the `scripts/bridge-test.js` smoke script (argv, network, console output) and JSON schema validation (only a TODO) are not modelled.
- Distribution.Discovery.constructor: does not state the initial unique-announcement set, since discovery fills it.
- Distribution.Discovery.Destroy: `DiscoverySwarm.destroy` is not part of this model. The model takes it to mark the session destroyed and to leave its listeners and unique announcements as they were. The "kept" parts of the contracts of `Distributor.Destroy`, `Registry.DocRemoved`, `Registry.DocRemovedIntended` and `Registry.Shutdown` rest on that assumption.

## Findings

| source | as written | input that shows it | evidently intended | confidence | as-written member | corrected member |
|---|---|---|---|---|---|---|
| lib/distribution.js:121-125 | `if (index < 0) resolve(false)` without `return`, then `splice(index, 1, data)`, which overwrites the last element when the store's list is an ECMAScript Array | annotations `[{id: "a"}]`, update for an id that is not there | leave the list unchanged and report NOT_FOUND | high (not executed) | `Annotations.UpdateFallThroughCounterexample` | `Annotations.IntendedUpdate` |
| lib/distribution.js:142-146 | `if (index < 0) resolve(false)` without `return`, then `splice(index, 1)`, which removes the last element when the store's list is an ECMAScript Array | annotations `[{id: "a"}]`, delete for an id that is not there | leave the list unchanged and report NOT_FOUND | high (not executed) | `Annotations.DeleteFallThroughCounterexample` | `Annotations.IntendedDelete` |
| lib/distribution.js:189 | `swarms.set(docUrl, new DocumentDistributor(...))` on doc-added, without checking for an entry | doc-added for a document that is already registered | refuse the duplicate, so one distributor per document is live and reachable for teardown | medium (not executed) | `Distribution.Registry.AnnounceTwice` | `Distribution.Registry.AnnounceDocIntended` |
| lib/distribution.js:202 | `swarms.remove(docUrl)`, which `Map` does not have | doc-removed for any registered document | `swarms.delete(docUrl)`, so the entry is dropped | high (not executed) | `Distribution.Registry.DocRemoved` | `Distribution.Registry.DocRemovedIntended` |

The distributor's own methods keep the behaviour as written, because they model
the code. The corrected members state the intended behaviour beside it.
