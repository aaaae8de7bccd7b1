# Verified models of the SolarWinds OpenTelemetry collector components

This project states and proves what the stateful, concurrent and recursive parts of the collector's
components promise. Each module follows one component:

- `WatchCache`, `ChangeReports`: the Kubernetes objects receiver in watch mode. A cache of four hashes per object decides
  which list items and watch events become logs; it is pruned on every list and persisted. `Receiver` is
  the live object, the pure steps beside it are its specification, and the theorems range over every run
  of lists, events, 410 restarts and process restarts. `ChangeReports` tells what is reported from what was
  shown and saved.
- `Expiration`, `ExpiryEvents`, `KeyBuilder`, `ExpiryBatcher`: the entity connector's two caches with time to
  live, the order in which updates, deletions, evictions and expiry events can happen, the keys the caches
  use, and the loop that sends expiries in batches.
- `AttributeSplit`, `EventDetection`: how the entity connector splits resource attributes by prefix and
  derives entities and relationships from them without sending a detected entity twice.
- `Hostname`, `WorkloadLookup`, `LookupAnswers`, `InformerTransforms`: the workload type processor's host
  name parser, its owner resolution and lookups over informer caches, what they answer told from the host
  name as written and the objects cached, and the transforms that strip objects on the way in.
- `ManifestPipeline`: the goroutines and unbuffered channels of the event generation processor, as a
  transition system over all interleavings.
- `Digest`, `ImageEntities`: image digest normalisation and the entity and relation records of a pod.
- `AttributeFanIn`: the select loop with nil channels and a WaitGroup that merges host attributes, as a
  transition system over all schedules.
- `FanOut`, `Scraping`: workers on a buffered channel with a WaitGroup barrier, as a transition system over
  all interleavings, and the scrape manager that runs its scopes and emitters that way, with delayed
  processing.
- `ServiceMatch`: the choice of a service for a discovered pod.
- `Outcomes`, `Int64`, `Text`, `Sequences`: optional values, 64-bit integers, strings joined by a separator,
  and sequences joined together.

Conventions. Hash functions (SHA-256 over a section, FNV-64 over an entity) are function parameters. The few
lemmas that need them free of collisions ask for it on the values at hand only: the texts logged so far
(`Distinguishes`), the entities of the run (`CollisionFreeOn`). A goroutine scheduler, a select, the
iteration order of a Go map and the clock are left arbitrary: the contracts hold for every choice. Decoders
of manifests, the results of emitters and what the cluster answers are parameters.

Where the code does not do what its comments or names suggest, the code is modelled, an input shows the
difference, and a theorem says exactly when there is none:

- `getTimestamp` means to fall back when no observed timestamp is set, but no 64-bit timestamp is the zero
  time it compares with (`ObservedAlwaysTaken`, `WrittenTimeIgnored`).
- `matchServiceForPod` means to prefer the best port match, but picks the candidate with the fewest matching
  ports (`BestMatchIffEquallyMany`, `FewerPortsWin`).
- The OTel service lookup documents annotations before labels, but looks at labels first
  (`DocumentedOrderIff`, `LabelWins`).
- Owner references are dropped from the caches when no mapping that prefers owners expects pods, though such
  a mapping can still be asked for a pod by host name (`StrippingShowsIff`, `OwnerIsLost`).
- Deleted objects pass the same "nothing changed" filter as others, so a deletion that shows nothing new is
  not logged (`SilentIffUnchanged`, `DeletionMayBeSilent`).
- A relationship deleted after its time to live but before the cleanup is not found, so it still expires
  (`DeletionEffectiveIffInTime`, `LateDeletionIsIgnored`).
- An expiry event is meant to come at least the interval after the last update of its key with no deletion
  since. That holds of leaving the cache (`LifecycleConserved`), but the event is sent later, by a callback
  that shares no lock with updates and deletions and waits for an unbuffered channel: a relationship updated
  in between, and even one updated and deleted in between, is still reported as expired (`EventDueIff`,
  `SentAfterRenewal`, `SentAfterDeletion`).
- A bookmark or an error that carries an object would have that object cached as if it were on the server
  (`UnreportedFollowsIff`).
- Normalising an image ID is not idempotent on every text (`IdempotentIff`, `CapitalsTakeTwoPasses`).
- Owner resolution does not end above a ReplicaSet that is above itself (`EndsIffAcyclicAbove`,
  `SelfOwnedNeverEnds`).

## Model

| member | source | states |
|---|---|---|
| `WatchCache.KeyIdentifiesObject` | receiver/swok8sobjectsreceiver/receiver.go:474-476 | objects of different kind, namespace or name never share a cache key, as long as kinds hold no colon and namespaces no hash sign |
| `WatchCache.StepConsistent` | receiver/swok8sobjectsreceiver/receiver.go:247-396 | every list, event, failed list, 410, end and process restart keeps cache and saved copy equal, key by key, to the hashes of the last log sent |
| `WatchCache.RunConsistent` | receiver/swok8sobjectsreceiver/receiver.go:211-396 | in every run each cached key, in memory and on disk, holds exactly the four hashes of the object in the most recent log for that key |
| `WatchCache.ApplyItemsExact` | receiver/swok8sobjectsreceiver/receiver.go:503-519 | deciding item by item against the changing cache sends exactly the logs owed against the cache as it was before the list, and leaves all other keys alone |
| `WatchCache.RelistExact` | receiver/swok8sobjectsreceiver/receiver.go:478-543 | after a list the cache has no key that was not listed and each listed object's own hashes (an object that cannot be hashed keeps its old entry), the logs sent are one per item absent or different, in list order, and the saved copy is the cache |
| `WatchCache.RelistIsSilent` | receiver/swok8sobjectsreceiver/receiver.go:328-335 | listing the same objects again sends nothing and changes neither cache nor saved copy |
| `WatchCache.EventsFollowServer` | receiver/swok8sobjectsreceiver/receiver.go:270-296 | any sequence of unexcluded additions, modifications and deletions, with bookmarks and errors that leave nothing to cache in between, keeps the cache equal to the hash image of the server's objects |
| `WatchCache.UnreportedFollowsIff` | receiver/swok8sobjectsreceiver/receiver.go:282-321 | a bookmark or an error leaves the cache the hash image of the server exactly when it is excluded, carries no hashable object, or carries one with the hashes the server's object has anyway |
| `WatchCache.ListThenWatchFollowsServer` | receiver/swok8sobjectsreceiver/receiver.go:227-243 | from any state, a list followed by any such events leaves cache and saved copy equal to the hash image of the server |
| `WatchCache.SilentIffUnchanged` | receiver/swok8sobjectsreceiver/receiver.go:318-335 | in every run from a consistent state, with a digest that tells the texts logged apart, an unexcluded event sends no log exactly when its key is cached and its object has the four sections of the object in the most recent log for that key, deletions included |
| `WatchCache.DeletionMayBeSilent` | receiver/swok8sobjectsreceiver/receiver.go:318-335 | an object listed and then deleted unchanged leaves one log in all, of its addition |
| `WatchCache.GoneLeadsToRelist` | receiver/swok8sobjectsreceiver/receiver.go:227-243 | in every trace of the watch loop a 410 is followed by a list (or a failed one), and each watch after the first step comes right after a successful list; the receiver's own trace is such a trace by StartWatch |
| `WatchCache.Receiver.WatchEventToLogData` | receiver/swok8sobjectsreceiver/receiver.go:298-353 | the new cache entry, the log with its four change flags, and when it fails |
| `WatchCache.Receiver.SaveStorage` | receiver/swok8sobjectsreceiver/receiver.go:355-366 | the saved copy becomes the live map, only with a storage extension |
| `WatchCache.Receiver.LoadStorage` | receiver/swok8sobjectsreceiver/receiver.go:368-396 | key by key, a saved entry wins over a live one and any other live entry stays; undecodable data empties the map, a failing read or nothing saved leaves it alone |
| `WatchCache.Receiver.PruneStorage` | receiver/swok8sobjectsreceiver/receiver.go:522-527 | whatever the map order, exactly the keys that were not listed go |
| `WatchCache.Receiver.UpdateCache` | receiver/swok8sobjectsreceiver/receiver.go:502-533 | the state after the items of a list, the prune and the save |
| `WatchCache.Receiver.GetResourceVersionAndUpdateCache` | receiver/swok8sobjectsreceiver/receiver.go:478-543 | a configured version other than empty or 0 is taken without a list; otherwise a failed list or read gives none, and a list gives its own version, or 1 if that is empty or 0; what happened is recorded and the state stays the run of it |
| `WatchCache.Receiver.DoWatch` | receiver/swok8sobjectsreceiver/receiver.go:247-296 | records and handles deliveries up to a 410, a closed channel or a stop, and asks for a restart exactly on the 410 |
| `WatchCache.Receiver.ListAndWatch` | receiver/swok8sobjectsreceiver/receiver.go:227-243 | one iteration lists, then watches, in that order, and goes on exactly when the watch ended in a 410 |
| `WatchCache.Receiver.StartWatch` | receiver/swok8sobjectsreceiver/receiver.go:211-244 | the calls and deliveries of the whole loop, in the order they happen, are the full trace, in which a list answers every 410; the state is the run of that trace, so a consistent receiver stays consistent |
| `ChangeReports.ListOwes` | receiver/swok8sobjectsreceiver/receiver.go:368-543 | a list owes the logs that differ from the live entries with the saved ones over them, key by key; without a storage client, from the live entries alone |
| `ChangeReports.RestartOwes` | receiver/swok8sobjectsreceiver/receiver.go:368-543 | a new process that finds a saved map sends exactly the logs owed against that map |
| `ChangeReports.RestartIsInvisible` | receiver/swok8sobjectsreceiver/receiver.go:355-396 | in every run with a storage client, a restart before a list changes nothing that the list sends, caches or saves |
| `ChangeReports.RestartIsSilent` | receiver/swok8sobjectsreceiver/receiver.go:355-396 | a new process that lists what the old one listed sends nothing again and ends in the same state |
| `ChangeReports.EventReports` | receiver/swok8sobjectsreceiver/receiver.go:298-353 | in every run from a consistent state, an event adds one log of its own type with a flag for each section that differs from the last log of its key (all four for an unknown key), none if no section differs, if it is excluded or if its object cannot be encoded |
| `ChangeReports.ListReports` | receiver/swok8sobjectsreceiver/receiver.go:478-543 | in every such run a list adds, item by item, the log that the last log of the key calls for, Modified for a known key and Added for any other, marked as initial poll |
| `ChangeReports.WatchTraceIs` | receiver/swok8sobjectsreceiver/receiver.go:247-296 | a watch handles every event before the first delivery that is no data or is an error with code 410, and asks for a restart exactly on that 410 |
| `ChangeReports.SessionTraceIs` | receiver/swok8sobjectsreceiver/receiver.go:227-256 | one turn of the loop watches from a given version, else lists and watches from the listed version (1 if that is empty or 0), else only fails; a watch that does not open ends the turn |
| `ChangeReports.LoopGoesOnIff` | receiver/swok8sobjectsreceiver/receiver.go:227-243 | another turn, without a given version, follows exactly a watch that ended with a 410 |
| `KeyBuilder.EntityKeyIdentifies` | connector/solarwindsentityconnector/internal/key_builder.go:43-82 | two entities share a key exactly when they share the 64-bit hash |
| `KeyBuilder.RelationshipKeyIdentifies` | connector/solarwindsentityconnector/internal/key_builder.go:56-82 | distinct triples of type and two hexadecimal hashes never share a key, even when types hold colons |
| `KeyBuilder.RelationshipKeyed` | connector/solarwindsentityconnector/internal/key_builder.go:56-82 | a relationship between hashed entities has the key type, source hash and destination hash joined by colons, and none exactly when its type is empty |
| `Expiration.PolicyValidIffFits` | connector/solarwindsentityconnector/internal/storage/internal_storage.go:84-135 | a cleanup interval below one second is refused, any other accepted; in 64-bit arithmetic the entity lifetime is five times interval plus cleanup exactly when that product fits |
| `Expiration.StepKeepsCovered` | connector/solarwindsentityconnector/internal/storage/internal_storage.go:212-260 | every step, the three writes of concurrent updates apart, keeps both end entities of every cached or evicted relationship stored for their full lifetime from the earlier of their writes |
| `Expiration.StepKeepsTracked` | connector/solarwindsentityconnector/internal/storage/internal_storage.go:181-260 | every step keeps each cached relationship tied to the last update of its key, with no ending in between |
| `Expiration.RunKeepsInv` | connector/solarwindsentityconnector/internal/storage/internal_storage.go:139-260 | coverage, tracking, justified expiries and conservation hold after every run of ticks, single writes of interleaved updates, abandoned updates, deletes, cleanups and callbacks |
| `Expiration.LifecycleConserved` | connector/solarwindsentityconnector/internal/storage/internal_storage.go:181-258 | in every run a relationship leaves the cache by expiring at least the interval after the last update of its key with no effective deletion since, and for each key insertions equal deletions plus evictions plus what is cached |
| `Expiration.TimelyEvictionIsSent` | connector/solarwindsentityconnector/internal/storage/internal_storage.go:125-169 | in every run whose entities the hash tells apart, an eviction callback with a lag below four intervals and five cleanups, less the time its update took from covering the ends to linking them, finds both ends; whatever happens until the channel takes it, the event has type and IDs as last updated |
| `Expiration.LaterEvictionMayBeLost` | connector/solarwindsentityconnector/internal/storage/internal_storage.go:125-169 | that bound is exact: for every relationship and every time its update takes there is a run with that very lag in which nothing is sent |
| `Expiration.DeletionEffectiveIffInTime` | connector/solarwindsentityconnector/internal/storage/internal_storage.go:181-206 | in every run a delete removes a cached relationship exactly when it comes no later than the interval after its last update |
| `Expiration.LateDeletionIsIgnored` | connector/solarwindsentityconnector/internal/storage/internal_storage.go:181-206 | a relationship updated once and deleted one tick after its interval stays cached, and is collected after the deletion |
| `Expiration.UpdateCallAlone` | connector/solarwindsentityconnector/internal/storage/internal_storage.go:212-260 | the run of the three writes of one update, any time apart, leaves each entry with the expiry of its own write |
| `Expiration.InternalStorage.Update` | connector/solarwindsentityconnector/internal/storage/internal_storage.go:212-260 | source, destination and relationship are written in this order, each with the clock it finds; errors leave what was written before them |
| `Expiration.InternalStorage.Delete` | connector/solarwindsentityconnector/internal/storage/internal_storage.go:181-206 | only an unexpired relationship is removed, entities are left alone |
| `Expiration.InternalStorage.OnRelationshipEvict` | connector/solarwindsentityconnector/internal/storage/internal_storage.go:139-169 | an expiry is sent only with both ends found, carries the ends as stored when looked up, and is recorded at the time the channel takes it |
| `ExpiryEvents.StepKeepsEventInv` | connector/solarwindsentityconnector/internal/storage/internal_storage.go:139-260 | every step keeps callbacks matched to evictions, insertions accounted for, a key cached exactly while its last update has not ended, and a deletion effective exactly on such a key within the interval |
| `ExpiryEvents.EventsAnswerEvictions` | connector/solarwindsentityconnector/internal/storage/internal_storage.go:116-169 | in every run the n-th callback to end answers the n-th eviction, later and for the same key, the others still wait in order; the events sent are those recorded, each has the key that left the cache, and every insertion of a key leads to one effective deletion, one event, one lost event, or is waiting or cached |
| `ExpiryEvents.EventNamesRelationship` | connector/solarwindsentityconnector/internal/storage/internal_storage.go:146-168 | in every run whose entities the hash tells apart, each event carries type and ends of every update of its key, however late it is sent |
| `ExpiryEvents.EventDueIff` | connector/solarwindsentityconnector/internal/storage/internal_storage.go:116-206 | in every run an event comes the interval after the last update of its key with no effective deletion since, exactly when no update of that key was linked between its eviction and its sending, or the last one so linked is an interval back and no deletion was called in that interval before it was collected again |
| `ExpiryEvents.SentAfterRenewal` | connector/solarwindsentityconnector/internal/storage/internal_storage.go:139-169 | for every policy and relationship, a run in which the event is sent on the very tick of an update of its key |
| `ExpiryEvents.SentAfterDeletion` | connector/solarwindsentityconnector/internal/storage/internal_storage.go:139-206 | for every policy and relationship, a run in which the event is sent after an update and an effective deletion of its key |
| `ExpiryBatcher.BatchesLoseNothing` | connector/solarwindsentityconnector/internal/storage/storage_manager.go:82-115 | for every schedule, the batches followed by the open window are exactly the expiries received, in order, and no batch is empty |
| `ExpiryBatcher.BatchesAreWindows` | connector/solarwindsentityconnector/internal/storage/storage_manager.go:82-115 | each batch is what was received between two firings with none in between, and after a firing nothing is pending |
| `ExpiryBatcher.ReceiveExpired` | connector/solarwindsentityconnector/internal/storage/storage_manager.go:82-115 | up to cancellation, sent batches and pending batch are the expiries received in order, each batch is one window between firings, a firing leaves none pending, a timer is armed exactly while a batch is pending, and neither is ever empty |
| `AttributeSplit.IdentifyAttributes` | connector/solarwindsentityconnector/internal/attributes.go:31-53 | whatever the map order, each attribute is in the bucket of its prefix, source before destination, without the prefix and with its value; the sizes add up and rejoining rebuilds the input |
| `AttributeSplit.SplitIsLossless` | connector/solarwindsentityconnector/internal/attributes.go:31-53 | putting the prefixes back onto any such split gives exactly the original map, a key with both prefixes counting as source |
| `EventDetection.GetRequiredAttributes` | connector/solarwindsentityconnector/internal/attribute_mapper.go:93-108 | the required attributes, or a failure exactly when none is required or one is missing |
| `EventDetection.DetectedByLast` | connector/solarwindsentityconnector/internal/event_detector.go:153-173 | a key is detected exactly when some event makes an entity with it of the common attributes, and the last such event decides entity and action |
| `EventDetection.GetEntityEvents` | connector/solarwindsentityconnector/internal/event_detector.go:153-173 | the loop yields, for every key, the entity that the last event to detect it makes, with the configured IDs and attributes of the common attributes and the action of the event, and no other entries |
| `EventDetection.MakesIff` | connector/solarwindsentityconnector/internal/attribute_mapper.go:50-129 | an event makes a relationship exactly when both types are configured with IDs, all of them prefixed or common attributes, the action is update or delete, and it is not of one type with no prefixed attribute at either end; source IDs and attributes then come from the source prefix before the common ones, destination ones likewise, and type, action and own attributes are the event's |
| `EventDetection.GetRelationshipEvents` | connector/solarwindsentityconnector/internal/event_detector.go:179-196 | each relationship is the one its event calls for, ends, IDs and attributes told from the prefixed and common attributes, at ascending places, and every event that makes one is among them |
| `EventDetection.InferredProperly` | connector/solarwindsentityconnector/internal/event_detector.go:88-150 | every inferred entity is an end of a relationship, has no detected key, and carries the action of the first event of its type |
| `EventDetection.InferredCompletely` | connector/solarwindsentityconnector/internal/event_detector.go:88-150 | every end that may be inferred is, unless the source of its relationship has no key |
| `EventDetection.InferredExactly` | connector/solarwindsentityconnector/internal/event_detector.go:88-150 | what is inferred is, relationship after relationship, the source and then the destination, each once if its source and itself have keys, its own is not detected and an event of its type fired, with the action of the first such event |
| `EventDetection.UnprefixedEndIsSuppressed` | connector/solarwindsentityconnector/internal/attribute_mapper.go:35-129 | once an event of its type fired, an end of a relationship event whose IDs no prefixed attribute overrides has a detected key, if any, and none of the entities inferred from any relationships shares its key |
| `EventDetection.CollectEvents` | connector/solarwindsentityconnector/internal/event_detector.go:57-83 | detected entities sit under their own keys as the last event makes them, relationships are those their events call for, in order, inferred entities are exactly the ends that qualify, in particular none has a detected key, and no end with unprefixed IDs whose own event fired is inferred besides being detected |
| `Hostname.ParseInvertsPrint` | processor/swok8sworkloadtypeprocessor/internal/lookup.go:293-326 | for dot-free labels parsing inverts printing of all five host name forms, the trailing dot included |
| `Hostname.ParsedIsAPrint` | processor/swok8sworkloadtypeprocessor/internal/lookup.go:293-326 | a host with any result is exactly a print of that result, so a type is reported only where it is spelled out |
| `WorkloadLookup.ReachShrinks` | processor/swok8sworkloadtypeprocessor/internal/lookup.go:116-140 | when no ReplicaSet above an object is above itself, the ReplicaSets above strictly shrink along an owner, which is why the mutual recursion ends |
| `WorkloadLookup.CycleNeverEnds` | processor/swok8sworkloadtypeprocessor/internal/lookup.go:116-140 | above a ReplicaSet that owns itself through others the chain of owners has no end |
| `WorkloadLookup.EndsIffAcyclicAbove` | processor/swok8sworkloadtypeprocessor/internal/lookup.go:116-140 | object by object, the chain of owners ends exactly when no ReplicaSet above the object is above itself |
| `WorkloadLookup.SelfOwnedNeverEnds` | processor/swok8sworkloadtypeprocessor/internal/lookup.go:116-140 | a ReplicaSet that names itself as its owner has a chain of owners without end |
| `WorkloadLookup.OwnerIsEndOfChain` | processor/swok8sworkloadtypeprocessor/internal/lookup.go:116-140 | resolution returns the end of the chain of first owners with a kind, in the namespace of the start, empty exactly without such an owner, and never a cached ReplicaSet that has one |
| `WorkloadLookup.SameNamespace` | processor/swok8sworkloadtypeprocessor/internal/lookup.go:160-210 | an object found by an unambiguous key is in the namespace asked for |
| `WorkloadLookup.IndexServiceIps` | processor/swok8sworkloadtypeprocessor/internal/cache.go:152-175 | a service is indexed under exactly its cluster and external addresses that are neither empty nor None |
| `WorkloadLookup.GatherOwners` | processor/swok8sworkloadtypeprocessor/internal/otel_instrumentation_lookup.go:93-100 | in any order, the non-empty owners of the pods found |
| `WorkloadLookup.NoteLeads` | processor/swok8sworkloadtypeprocessor/internal/otel_instrumentation_lookup.go:61-116 | a lookup by label or by annotation finds a workload exactly when one pod carries the note and stands for it, or owners are preferred, several pods carry it, and it is the owner of every one of them that has an owner |
| `WorkloadLookup.DocumentedOrderIff` | processor/swok8sworkloadtypeprocessor/internal/otel_instrumentation_lookup.go:33-48 | looking at labels first gives what the documented order would exactly unless, in that sense, the labelled pods lead to one workload and the annotated pods to another |
| `WorkloadLookup.LabelWins` | processor/swok8sworkloadtypeprocessor/internal/otel_instrumentation_lookup.go:118-134 | with one pod labelled and another annotated with the service name, the labelled one is found where the annotated one is documented |
| `LookupAnswers.OwnerAnswers` | processor/swok8sworkloadtypeprocessor/internal/lookup.go:116-140 | the owner of an object is the last of its first owner with a kind, the first owner of the cached ReplicaSet that one names in its namespace, and so on while that ReplicaSet has an owner; none without an owner that has a kind |
| `LookupAnswers.ByNameFinds` | processor/swok8sworkloadtypeprocessor/internal/lookup.go:160-238 | the object under namespace/name in the first expected type that has one answers, a pod with its owner where owners are preferred and it has one; without an object there is no answer |
| `LookupAnswers.ByNameOne` | processor/swok8sworkloadtypeprocessor/internal/lookup.go:160-238 | that answer is the only one |
| `LookupAnswers.ServiceHostAnswers` | processor/swok8sworkloadtypeprocessor/internal/lookup.go:375-389 | a host name.namespace.svc, with .cluster.local and a dot or without, answers name, namespace and Service whatever is cached, and nothing if a label is empty |
| `LookupAnswers.PodHostAnswers` | processor/swok8sworkloadtypeprocessor/internal/lookup.go:351-374 | a host name.namespace.pod in those forms answers the owner of the cached pod where owners are preferred and it has one, else name, namespace and Pod |
| `LookupAnswers.PodHostAnswersOwner` | processor/swok8sworkloadtypeprocessor/internal/lookup.go:351-374 | that owner is the end of the chain of owners of the cached pod |
| `LookupAnswers.UntypedHostAnswers` | processor/swok8sworkloadtypeprocessor/internal/lookup.go:390-403 | any other host answers with the first expected type that has its name in its own namespace, or for want of one in that of the attribute, else the whole host in that of the attribute |
| `LookupAnswers.ByIpFinds` | processor/swok8sworkloadtypeprocessor/internal/lookup.go:254-286 | the first expected type with a single object of the address answers: a pod off the host network with it among its addresses, a service with it among its cluster or external ones, if it is neither empty nor None |
| `LookupAnswers.OtelAnswers` | processor/swok8sworkloadtypeprocessor/internal/otel_instrumentation_lookup.go:33-138 | a service name answers with what the pods labelled with it, and with its namespace unless that is the attribute's, lead to, else with what the annotated ones lead to; neither without pods among informers and expected types |
| `LookupAnswers.AddressAnswers` | processor/swok8sworkloadtypeprocessor/processor.go:197-228 | an IP address is looked up as one; a host without a namespace has no answer where one is required and the attribute has none; any other is a host name first and a service name second |
| `InformerTransforms.CopyReferences` | processor/swok8sworkloadtypeprocessor/internal/cache.go:113-123 | as many references, each with the kind and name of the one in its place and nothing else |
| `InformerTransforms.FilterKeys` | processor/swok8sworkloadtypeprocessor/internal/cache.go:212-224 | in any order, exactly the entries whose key is to be kept |
| `InformerTransforms.PodStripsIff` | processor/swok8sworkloadtypeprocessor/internal/cache.go:27-123 | two pods are the same once stripped exactly when they agree on name, namespace, the two labels and two annotations looked up, host network, addresses and, where copied, kinds and names of owners |
| `InformerTransforms.OthersStripIff` | processor/swok8sworkloadtypeprocessor/internal/cache.go:27-123 | of a service are left name, namespace and addresses, of a ReplicaSet name, namespace and copied owners, of anything else name and namespace |
| `InformerTransforms.TransformKeepsAcyclic` | processor/swok8sworkloadtypeprocessor/internal/cache.go:86-123 | stripping adds no ownership, so an acyclic store stays acyclic |
| `InformerTransforms.TransformKeepsOwner` | processor/swok8sworkloadtypeprocessor/internal/cache.go:27-123 | owner resolution on stripped stores with copied owners equals that on the full ones, along the whole chain |
| `InformerTransforms.NameLookupSurvives` | processor/swok8sworkloadtypeprocessor/internal/lookup.go:215-238 | lookup by name and namespace is the same on stripped stores |
| `InformerTransforms.IpLookupSurvives` | processor/swok8sworkloadtypeprocessor/internal/lookup.go:254-286 | lookup by address is the same on stripped stores |
| `InformerTransforms.HostnameLookupSurvives` | processor/swok8sworkloadtypeprocessor/internal/lookup.go:335-403 | lookup by host name is the same on stripped stores |
| `InformerTransforms.OtelLookupSurvives` | processor/swok8sworkloadtypeprocessor/internal/otel_instrumentation_lookup.go:49-138 | lookup by OTel service name is the same on stripped stores |
| `InformerTransforms.StrippingIsInvisible` | processor/swok8sworkloadtypeprocessor/processor.go:180-309 | with the owner copying decided at start, every lookup of a mapping that does not prefer owners, or does and expects pods, answers from stripped stores as from full ones |
| `InformerTransforms.StrippingShowsIff` | processor/swok8sworkloadtypeprocessor/processor.go:180-309 | for a mapping that prefers owners without expecting pods, every name and address lookup answers alike exactly unless no other mapping has owners copied and the text is the host name of a cached pod whose owners hold one with a kind and whose chain of owners does not end at the pod itself |
| `InformerTransforms.OwnerIsLost` | processor/swok8sworkloadtypeprocessor/processor.go:273-309 | a pod of a deployment and two mappings for which the full caches answer with the deployment, the stripped ones with the pod |
| `ManifestPipeline.ObservedAlwaysTaken` | processor/k8seventgenerationprocessor/processor.go:191-203 | for all 64-bit timestamps the observed one is taken, which is as documented exactly when it is set or nothing else is |
| `ManifestPipeline.WrittenTimeIgnored` | processor/k8seventgenerationprocessor/processor.go:191-203 | a record with a written but no observed time gets time zero |
| `ManifestPipeline.RecordAdds` | processor/k8seventgenerationprocessor/processor.go:81-203 | for every record: a Pod adds its records to the entity state events, a VulnerabilityReport of API aquasecurity.github.io/v1alpha1 too, Endpoints and EndpointSlice add theirs to the service mappings, each at the observed time with the cluster UID; those four kinds are an error if malformed, and every other kind, API version or record without a kind adds nothing |
| `ManifestPipeline.FindingsTellOutcome` | processor/k8seventgenerationprocessor/processor.go:50-145 | the return of a sequential pass is the concatenation of those contributions over resource, scope and record |
| `ManifestPipeline.StepKeepsInv` | processor/k8seventgenerationprocessor/processor.go:50-145 | every step of any goroutine keeps what was built equal to a sequential pass over what was scanned, and the caller's return right |
| `ManifestPipeline.NeverStuck` | processor/k8seventgenerationprocessor/processor.go:50-145 | in every such state some goroutine can move exactly until all three have finished |
| `ManifestPipeline.EveryInterleaving` | processor/k8seventgenerationprocessor/processor.go:50-145 | every interleaving has bounded length, goes on until all goroutines have finished, also after an error, and a caller that returned has the logs with what the records add, or the first error |
| `ManifestPipeline.ProcessLogs` | processor/k8seventgenerationprocessor/processor.go:50-79 | on success the logs received, untouched, followed by one log of all entity records and one of all mapping records, each if there is any, the contributions of the records in order of resource, scope and record; with a malformed record, the first error and the logs as received |
| `Digest.ExtractSha256Digest` | processor/k8seventgenerationprocessor/vulnerability_log_constructor.go:29-60 | the loop over prefixes computes the normal form the lemmas below are about |
| `Digest.FixedIff` | processor/k8seventgenerationprocessor/vulnerability_log_constructor.go:29-60 | exactly which texts normalisation leaves alone |
| `Digest.IdempotentIff` | processor/k8seventgenerationprocessor/vulnerability_log_constructor.go:29-60 | normalising twice equals normalising once exactly when, past the prefixes and the first at sign, no at sign is left and the rest neither starts with a prefix once lower-cased nor, lacking an algorithm, has capitals |
| `Digest.CapitalsTakeTwoPasses` | processor/k8seventgenerationprocessor/vulnerability_log_constructor.go:29-60 | ABC becomes sha256:ABC and then sha256:abc |
| `Digest.IdempotentOnValid` | processor/k8seventgenerationprocessor/log_constructor.go:231-233 | idempotent whenever the result is a valid OCI digest |
| `Digest.ReferenceYieldsRest` | processor/k8seventgenerationprocessor/vulnerability_log_constructor.go:29-60 | what follows the first at sign is returned, lower-cased if it has a colon and otherwise with sha256: before it |
| `Digest.ReferenceYieldsDigest` | processor/k8seventgenerationprocessor/vulnerability_log_constructor.go:29-60 | a valid digest is returned from any text without an at sign, an at sign and the digest |
| `Digest.RuntimePrefixYieldsRest` | processor/k8seventgenerationprocessor/vulnerability_log_constructor.go:29-60 | after docker://, containerd://, cri-o:// or docker-pullable:// the same is returned of a text that is no reference |
| `Digest.RuntimePrefixYieldsDigest` | processor/k8seventgenerationprocessor/vulnerability_log_constructor.go:29-60 | a valid digest is returned from docker://, containerd://, cri-o:// or docker-pullable:// followed by it |
| `Digest.ValidDigestIff` | processor/k8seventgenerationprocessor/log_constructor.go:231-233 | valid are exactly sha256, sha384 and sha512 with a colon and 64, 96 or 128 lower-case hexadecimal digits |
| `ImageEntities.EmitOnce` | processor/k8seventgenerationprocessor/log_constructor.go:238-275 | in any map order, one record per identity and none besides |
| `ImageEntities.TransformPod` | processor/k8seventgenerationprocessor/log_constructor.go:80-332 | a pod's records hold no identity twice and are exactly those its containers give: the container, the image and its relation if the image ID has a valid digest, the cluster's image if there is an image ID, and its use, the last three with a cluster UID; every RelatesTo record has both its ends among them |
| `ImageEntities.RelatesResolve` | processor/k8seventgenerationprocessor/log_constructor.go:280-332 | both ends of every RelatesTo identity are identities of entities of the same pod |
| `ImageEntities.UsesResolveIff` | processor/k8seventgenerationprocessor/log_constructor.go:189-203 | the container end of a uses-image record is always emitted, its image end exactly when the container has an image ID |
| `AttributeFanIn.ReceiveKeepsOutcome` | receiver/swohostmetricsreceiver/internal/attributes/shared/attributes_processing.go:24-45 | receiving from any open source leaves the final outcome as it was, when messages of different sources commute |
| `AttributeFanIn.CloseKeepsOutcome` | receiver/swohostmetricsreceiver/internal/attributes/shared/attributes_processing.go:24-37 | setting a drained channel to nil loses nothing and takes one off the number of open ones |
| `AttributeFanIn.EverySchedule` | receiver/swohostmetricsreceiver/internal/attributes/hostdetails/hostdetails.go:51-82 | after every schedule the count equals the number of channels not nil, a running loop can go on, and a loop that was left has every source closed and drained and the one possible result; schedules are bounded |
| `AttributeFanIn.SomeStepEnabled` | receiver/swohostmetricsreceiver/internal/synchronization/synchronizing_routine.go:23-30 | loop and supervising goroutine never wait for each other |
| `AttributeFanIn.FanIn` | receiver/swohostmetricsreceiver/internal/attributes/hostdetails/hostdetails.go:51-82 | the loop terminates with the result of reading the sources one after the other |
| `AttributeFanIn.GenerateHostDetails` | receiver/swohostmetricsreceiver/internal/attributes/hostdetails/hostdetails.go:51-82 | under every schedule the attributes have exactly the keys of all messages of domain, model and time zone, each with the value its own source sent last |
| `AttributeFanIn.GetMetricData` | receiver/swohostmetricsreceiver/internal/scraper/hostinfoscraper/metrics/uptime/emitter.go:142-222 | the attributes likewise of host and operating system; the last reading decides the uptime: its seconds, or zero and an error if it is missing or exceeds 9223372036854775807 |
| `FanOut.StepKeepsInv` | receiver/swohostmetricsreceiver/internal/scraper/framework/scope/emitter.go:97-144 | every step of a worker or the caller keeps each result in exactly one place and the count equal to the workers not yet counted off |
| `FanOut.EveryInterleaving` | receiver/swohostmetricsreceiver/internal/scraper/framework/scope/emitter.go:97-144 | every interleaving of sends, count-offs, close and reads is bounded, and a caller that has finished has read a permutation of the results |
| `FanOut.NeverStuckIff` | receiver/swohostmetricsreceiver/internal/scraper/framework/scraper/manager.go:212-238 | no interleaving gets stuck exactly when the channel has room for every result, since the caller reads nothing before all workers are counted off |
| `FanOut.Gather` | receiver/swohostmetricsreceiver/internal/scraper/framework/scraper/manager.go:212-264 | with a channel as wide as the workers are many, any scheduling ends with every result read once |
| `Scraping.TotalUnordered` | receiver/swohostmetricsreceiver/internal/scraper/framework/scope/emitter.go:97-130 | a total of metrics does not depend on the order in which goroutines deliver |
| `Scraping.EmitScope` | receiver/swohostmetricsreceiver/internal/scraper/framework/scope/emitter.go:82-203 | a scope succeeds exactly with some emitter and no failing one, and then carries exactly what its emitters delivered, under its own name |
| `Scraping.EmitAll` | receiver/swohostmetricsreceiver/internal/scraper/framework/scraper/manager.go:185-264 | a scrape has metrics exactly when every scope succeeds, and then the multiset union of all emitters' metrics, so exactly the metrics that some emitter of a scope of that name delivers |
| `Scraping.Manager.Start` | receiver/swohostmetricsreceiver/internal/scraper/framework/scraper/manager.go:267-308 | starts exactly with an open context, a runtime and every scope initialised; delayed processing counts from then |
| `Scraping.Manager.Scrape` | receiver/swohostmetricsreceiver/internal/scraper/framework/scraper/manager.go:130-183 | when a scrape is made, skipped (before the interval is over) or fails (no scope, a scope without emitters or with a failing one), started or not, what it contains, and that only a successful one moves the last processed time |
| `Scraping.SpacedSpans` | receiver/swohostmetricsreceiver/internal/scraper/framework/feature/features/delayed_processing.go:53-71 | times an interval apart span as many intervals as there are steps between them |
| `Scraping.SessionSpaced` | receiver/swohostmetricsreceiver/internal/scraper/framework/feature/features/delayed_processing.go:53-71 | for any clock readings and any failures, each successful scrape is an interval after the one before, the first an interval after the start |
| `Scraping.SessionSpans` | receiver/swohostmetricsreceiver/internal/scraper/framework/scraper/manager.go:130-308 | n successful scrapes span at least n minus one intervals |
| `Scraping.Session` | receiver/swohostmetricsreceiver/internal/scraper/framework/scraper/manager.go:130-308 | every outcome of any sequence of scrapes after a start is explained by the last successful one before it |
| `ServiceMatch.BestOf` | receiver/swok8sdiscovery/helpers.go:88-100 | no candidate comes before the one kept |
| `ServiceMatch.PortsExact` | receiver/swok8sdiscovery/helpers.go:50-83 | the matching ports are the numbers of the service ports, in order, whose target number, or last container port of the target's name, or for want of it own number, is a port of the pod |
| `ServiceMatch.LessIff` | receiver/swok8sdiscovery/helpers.go:94-94 | names are compared where they first differ: by character, or the one that ends there is smaller |
| `ServiceMatch.MatchServiceForPod` | receiver/swok8sdiscovery/helpers.go:27-101 | the first service that picks the pod with as many ports as it has, else one that no other undercuts in matching ports or, with as many, in name, else nothing; the choice has a selector that is not empty and on the pod, and exactly the ports that lead to it; there is none only where every service that picks the pod leads to no port of a pod that has ports |
| `ServiceMatch.BestMatchIffEquallyMany` | receiver/swok8sdiscovery/helpers.go:84-100 | without an exact match the choice has the fewest matching ports of all candidates, so it has the most exactly when all candidates have equally many |
| `ServiceMatch.FewerPortsWin` | receiver/swok8sdiscovery/helpers.go:90-98 | a pod with three ports and two services: the one that reaches one port is chosen over the one that reaches two |
| `ServiceMatch.OrderDoesNotMatter` | receiver/swok8sdiscovery/helpers.go:50-100 | uniquely named services with at most one exact match give the same choice in any order |
| `ServiceMatch.OrderIrrelevantIff` | receiver/swok8sdiscovery/helpers.go:50-100 | for uniquely named services the choice is independent of order exactly when at most one of them matches exactly |

## Left out

- The objects receiver's pull mode, failing saves, a crash between sending a log and saving, and several watchers sharing one storage key.
- What is removed from an object before hashing: `Sections` is what is left, and encoding fails for an object exactly when the parameter says so.
- An eviction callback looks up its two ends at one moment; the time its event then waits for the channel is modelled.
- Capacity eviction, write buffering and closing of the time-to-live caches; a write that the cache turns down is an update given up. Intervals are positive.
- Uniqueness among entities inferred from several relationships: the code compares them with detected ones only.
- Evaluation of the OTTL conditions that decide which configured events fired: the fired events are the input of `EventDetection`.
- Records of vulnerability reports and service mappings: functions of the decoded manifest given as parameters.
- Descriptive attributes and timestamps of records, logging, and observability reporting.
- Objects in a cache whose Go type is not the one its informer is for, and kinds derived from a Go type name other than Pod and Service.
- Splitting an address into host and port and recognising an IP address: `LookupByAddress` is given the host and whether it is one.
- Owner resolution above a cycle of ReplicaSets: the code recurses without end there, exactly as `EndsIffAcyclicAbove` says and `SelfOwnedNeverEnds` shows. The lookups built on it are stated for stores without any cycle.
- Letters outside ASCII in image IDs, which `strings.ToLower` also changes.
- Errors joined into one message: a failing scrape, scope or start is only known to have failed.
- CVSS and severity tables, CPU statistics, host attribute decoration, generated metadata and factories: tables and single branches.
- ManifestPipeline.ProcessLogs: updates of the log collection in place are modelled on sequences, so aliasing of its slices is not captured.
- ImageEntities.TransformPod: records are identities and image tags; which of several containers with the same image gives its tag is left to the map order, as in the code.
