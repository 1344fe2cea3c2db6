# Achilles mutation tracking: entity-manager guards, batch flush, entry-iterator wrapper

This project models two pieces of the Achilles object mapper for Cassandra
and proves properties of them in Dafny.

- **The Thrift entity manager** (`ThriftEntityManager`). Before they delegate,
  `persist`, `remove`, `refresh`, `startBatch` and `endBatch` check whether the
  entity is a proxy, that is, managed:
  - `persist` refuses managed entities;
  - `remove`, `refresh`, `startBatch` and `endBatch` refuse unmanaged ones.

  `merge` makes no such check and hands every valid entity to the merger.
  `find` checks only that its arguments are non-null. It returns `null`
  (`None`) when the loader finds nothing, and a fresh proxy otherwise.

  `startBatch` installs one base Hector mutator and a map with one mutator per
  join-column property on the proxy's interceptor. `endBatch` executes the
  base mutator if it is non-null, then every non-null join mutator. The
  unsupported JPA operations always throw.
- **The entry-iterator wrapper** (`EntryIteratorWrapper`). It decorates the
  iterator over a map property's entries. `hasNext` forwards. `next` forwards
  and re-wraps the entry with the wrapper's own dirty-tracking context.
  `remove` removes through the target and only then marks the property dirty.

The model is functional. A Java exception becomes `Fail`, `null` becomes
`None`, and a cglib proxy is an `Entity` with an attached `Interceptor`.
The helpers whose bodies are not modelled are function-valued fields of
`Helpers`: the validator, the loader's result, whether a helper call returns
normally, and `toString`. The calls to the persister, merger, loader and
refresher, and each `mutator.execute()`, are appended to a call log. So
"delegates nothing", "executes once" and "base before joins" are statements
about that log. The validator, the proxy builder and `buildMutator()` are
not logged. A mutator carries two fields that stand for its object identity: the
stamp of the `startBatch` call that built it (a parameter of the model) and
the slot it was built for (the base slot or one join property), so every
mutator a `startBatch` builds is a distinct value.
The HashMap iteration order of the mutator map is a parameter `order`. The
caller must pass an order that lists every key exactly once.

The wrapper's target is a cursor over the live map's entry sequence.
`remove` deletes the entry last returned from that sequence, so the live
map itself changes and no copy is made. The dirty map the wrapper shares with
its entity is threaded through `State`. An entry returned by `next` carries
the wrapper's own context (setter and property), so it records dirtiness in
that same map.

The model follows the code as written:
- `endBatch` does not detach the mutators afterwards (`EndBatchTwiceReexecutes`).
- `endBatch` has no failure aggregation: the first `execute()` that throws
  aborts the remaining flushes (`FlushedPrefix`).
- `startBatch` has no "batch already open" check. A second start replaces the
  open batch's mutators with new ones, which are never those of the open
  batch (`StartBatchTwiceReplaces`, `ReplacedMutatorsNeverExecuted`).
- There is one join mutator per join property, not one per distinct target
  entity type (`StartThenEndBatch`).
- Precondition violations are `IllegalStateException`s, not dedicated
  not-managed or already-managed errors.
- `find` signals "not found" with `null`.

## Model

| member | source | states |
|---|---|---|
| ThriftEntityManager.Persist | src/main/java/info/archinnov/achilles/entity/manager/ThriftEntityManager.java:71-86 | validation runs first; a proxy is refused with the "already in 'managed' state" IllegalState and nothing is delegated; the persister is called, once, exactly for a valid non-proxy entity, with its class's metadata |
| ThriftEntityManager.Merge | src/main/java/info/archinnov/achilles/entity/manager/ThriftEntityManager.java:88-118 | a valid entity goes to the merger with its base class's metadata; on success a managed input comes back as the same entity and a transient one as a new proxy of the same class and key |
| ThriftEntityManager.Remove | src/main/java/info/archinnov/achilles/entity/manager/ThriftEntityManager.java:120-149 | validation first; a non-proxy is refused with the "not in 'managed' state" IllegalState and nothing is delegated; otherwise exactly one remove call, for the entity itself |
| ThriftEntityManager.Find | src/main/java/info/archinnov/achilles/entity/manager/ThriftEntityManager.java:151-179 | a null class, then a null key, is refused before anything is loaded; otherwise one load call; the result is null iff the loader returned null, else a proxy with a fresh interceptor around the loaded entity |
| ThriftEntityManager.GetReference | src/main/java/info/archinnov/achilles/entity/manager/ThriftEntityManager.java:181-195 | behaves exactly as find for every argument |
| ThriftEntityManager.Refresh | src/main/java/info/archinnov/achilles/entity/manager/ThriftEntityManager.java:235-255 | no validation; a non-proxy is refused with an IllegalState naming the entity and nothing is delegated; a proxy goes to the refresher once |
| ThriftEntityManager.InvokeStub | src/main/java/info/archinnov/achilles/entity/manager/ThriftEntityManager.java:197-377 | each unsupported JPA operation (flush, setFlushMode, lock, clear, contains, the query factories, joinTransaction, close, isOpen, getTransaction) throws UnsupportedOperation and calls nothing |
| ThriftEntityManager.GetFlushMode | src/main/java/info/archinnov/achilles/entity/manager/ThriftEntityManager.java:216-223 | the flush mode is always AUTO |
| ThriftEntityManager.GetDelegate | src/main/java/info/archinnov/achilles/entity/manager/ThriftEntityManager.java:339-346 | the delegate is the manager itself |
| ThriftEntityManager.StartBatch | src/main/java/info/archinnov/achilles/entity/manager/ThriftEntityManager.java:379-428 | a non-proxy is refused with an IllegalState; for a proxy of a registered class it succeeds and installs a base mutator for the entity's row group and a map whose key set is exactly the join-column property names, each mapped to a mutator for that property's join target; every installed mutator carries the call's stamp, and no two installed mutators are equal, even when two join targets, or a join target and the entity, share a row group |
| ThriftEntityManager.JoinExecutions | src/main/java/info/archinnov/achilles/entity/manager/ThriftEntityManager.java:453-459 | the join loop only ever executes a mutator that is the non-null entry of its own property in the mutator map |
| ThriftEntityManager.FlushJoins | src/main/java/info/archinnov/achilles/entity/manager/ThriftEntityManager.java:453-459 | the executions performed are a prefix of the planned ones (null entries skipped); it returns normally iff all were performed and returned; on an exception it stops at the first execution that threw |
| ThriftEntityManager.EndBatch | src/main/java/info/archinnov/achilles/entity/manager/ThriftEntityManager.java:430-461 | a non-proxy is refused and nothing is executed; otherwise the base mutator (if non-null) then the join mutators are executed as a prefix of that plan, the first exception aborting the rest; with no mutator map installed it fails with a null dereference after the base flush |
| ManagerProperties.PersistRemoveComplementary | src/main/java/info/archinnov/achilles/entity/manager/ThriftEntityManager.java:72-149 | for a valid entity exactly one of persist and remove reaches its helper: persist for transient entities, remove for managed ones |
| ManagerProperties.FoundEntityIsManaged | src/main/java/info/archinnov/achilles/entity/manager/ThriftEntityManager.java:163-179 | an entity returned by find is refused by persist and accepted by remove, refresh and startBatch |
| ManagerProperties.MergeResultIsManaged | src/main/java/info/archinnov/achilles/entity/manager/ThriftEntityManager.java:97-117 | whatever merge returns is managed, so persisting it is refused |
| ManagerProperties.RemoveNeverCascades | src/main/java/info/archinnov/achilles/entity/manager/ThriftEntityManager.java:120-141 | the manager's only delegate call on remove is persister.remove of the entity itself |
| ManagerProperties.JoinExecutionsOnce | src/main/java/info/archinnov/achilles/entity/manager/ThriftEntityManager.java:453-459 | with a duplicate-free iteration order, each non-null join mutator is executed exactly once and each null entry never |
| ManagerProperties.PlannedFlushShape | src/main/java/info/archinnov/achilles/entity/manager/ThriftEntityManager.java:447-459 | in the flush plan only the first execution can be the base one, exactly when the base mutator is non-null, and every execution is of the mutator found in its own slot |
| ManagerProperties.EndBatchPerformsPrefix | src/main/java/info/archinnov/achilles/entity/manager/ThriftEntityManager.java:436-461 | whatever endBatch performs on a proxy, also when it throws, is a prefix of its flush plan |
| ManagerProperties.EndBatchFlushesEachOnce | src/main/java/info/archinnov/achilles/entity/manager/ThriftEntityManager.java:447-459 | when no execution throws, endBatch succeeds, executes the base mutator first and exactly once (if non-null), each non-null join mutator exactly once, and nothing but mutators found in their own slot |
| ManagerProperties.PlannedFlushCounts | src/main/java/info/archinnov/achilles/entity/manager/ThriftEntityManager.java:447-459 | with the mutator map's iteration order, the flush plan holds the base execution exactly once when the base mutator is non-null and never otherwise, and each non-null join mutator's execution in its own slot exactly once |
| ManagerProperties.PlannedFlushMembers | src/main/java/info/archinnov/achilles/entity/manager/ThriftEntityManager.java:447-459 | every execution in the flush plan is of the mutator found in its own slot: the base slot or the join property's map entry |
| ManagerProperties.EndBatchBaseBeforeJoins | src/main/java/info/archinnov/achilles/entity/manager/ThriftEntityManager.java:447-459 | in every run, also one that throws, only the first execution can be the base one, it happens only when the base mutator is non-null, and it is that mutator; every join execution is of the mutator found in that property's map entry |
| ManagerProperties.EndBatchAllSucceed | src/main/java/info/archinnov/achilles/entity/manager/ThriftEntityManager.java:436-461 | when no execution throws, endBatch returns normally having performed exactly the planned executions |
| ManagerProperties.EndBatchTwiceReexecutes | src/main/java/info/archinnov/achilles/entity/manager/ThriftEntityManager.java:436-461 | the mutators are not detached: ending the same batch twice executes the same plan twice |
| ManagerProperties.StartBatchTwiceReplaces | src/main/java/info/archinnov/achilles/entity/manager/ThriftEntityManager.java:397-428 | starting a batch on an entity whose batch is open succeeds as a first start would, and installs new mutators disjoint from the open batch's |
| ManagerProperties.ReplacedMutatorsNeverExecuted | src/main/java/info/archinnov/achilles/entity/manager/ThriftEntityManager.java:410-459 | after a second start, ending the batch executes no mutator of the batch that was open |
| ManagerProperties.StartThenEndBatch | src/main/java/info/archinnov/achilles/entity/manager/ThriftEntityManager.java:410-459 | a started batch, ended with no exception, executes the entity's base mutator first and exactly once, exactly one mutator per join-column property, for that property's target, and nothing else |
| Entities.BuildProxy | src/main/java/info/archinnov/achilles/entity/manager/ThriftEntityManager.java:173-176 | the built proxy is managed, carries a fresh interceptor, and keeps the class and key of the loaded entity |
| EntryIteratorWrapper.HasNext | src/main/java/fr/doan/achilles/wrapper/EntryIteratorWrapper.java:24-28 | the answer is the target's hasNext; it returns only a bool, so it cannot change the dirty map |
| EntryIteratorWrapper.Next | src/main/java/fr/doan/achilles/wrapper/EntryIteratorWrapper.java:30-35 | succeeds iff hasNext; advances the target by exactly one and returns that entry wrapped with the wrapper's own context; the dirty map and the live map are unchanged; past the end it throws and nothing changes |
| EntryIteratorWrapper.Remove | src/main/java/fr/doan/achilles/wrapper/EntryIteratorWrapper.java:37-42 | removes the last returned entry from the live map through the target and then marks the property dirty; if the target throws, the dirty map and everything else are unchanged |
| EntryIteratorWrapper.MarkDirty | src/main/java/fr/doan/achilles/wrapper/EntryIteratorWrapper.java:41 | the owning property is recorded under its setter, and every other dirty entry is kept |
| EntryIteratorWrapper.NextThenRemove | src/main/java/fr/doan/achilles/wrapper/EntryIteratorWrapper.java:31-42 | next followed by remove deletes exactly the returned entry's key from the live map, keeps every other entry, and leaves the property dirty |
| EntryIteratorWrapper.RunDirty | src/main/java/fr/doan/achilles/wrapper/EntryIteratorWrapper.java:24-42 | after any sequence of calls the property is dirty exactly when some removal succeeded; reads never dirty it |
| EntryIteratorWrapper.RunShrinksBacking | src/main/java/fr/doan/achilles/wrapper/EntryIteratorWrapper.java:37-42 | each successful removal takes exactly one entry out of the live map, and nothing else changes its size |
| EntryIteratorWrapper.ReadOnlyRun | src/main/java/fr/doan/achilles/wrapper/EntryIteratorWrapper.java:24-35 | a call sequence of hasNext and next only changes neither the dirty map nor the live map |
| EntryIteratorWrapper.Drain | src/main/java/fr/doan/achilles/wrapper/EntryIteratorWrapper.java:24-35 | iterating to the end yields every remaining entry of the live map, in order, each with the wrapper's context, and leaves the dirty map untouched |

## Left out

- The bodies of EntityValidator, EntityLoader, EntityPersister, EntityMerger, EntityRefresher and EntityHelper are not part of this model. They appear as opaque `Helpers` fields or as logged calls. Cascading to join entities on persist, merge and refresh happens inside those helpers and is not modelled.
- A helper call that throws is modelled by one predicate `succeeds`. The kind of exception it throws is not distinguished.
- EntityProxyBuilder and JpaEntityInterceptor are not part of this model. A built proxy is taken to start with a null base mutator and a null mutator map. The writes an interceptor routes into the mutators during a batch are not modelled.
- Hector `Mutator` internals and Cassandra I/O are left out. A mutator is its row group plus the stamp of the `startBatch` call that built it and the slot it was built for, standing for object identity.
- ManagerProperties.StartBatchTwiceReplaces: the writes a mutator accumulates are not modelled, so the lemma shows only that the open batch's mutators are replaced and never executed; the consequence, that their pending writes are silently discarded, is not stated as such.
- ManagerProperties.RemoveNeverCascades: whether EntityPersister.remove itself touches join entities is decided inside the persister, whose body is not part of this model; the lemma states only the manager's own delegation.
- A join-column property is modelled together with its join target. The null dereference the code would hit for a join column without join properties is not modelled.
- Property metas are keyed by their own property name. This rules out a registry in which a map key differs from `getPropertyName()`.
- Java `null` entity arguments to persist, merge, remove, refresh, startBatch and endBatch are not modelled. Only find's null class and null key are.
- Merge: its result is modelled from the documented promise: the same reference for a managed entity and a new proxy for a transient one. The merger's own body is not part of this model.
- MapEntryWrapper and MapEntryWrapperBuilder are not part of this model, so neither is the entry's `setValue`. The returned entry only carries the context it would mark dirty with.
- AbstractWrapper is not part of this model. `markDirty` is taken to record the setter mapped to the property in the dirty map.
- The target iterator's ConcurrentModificationException is left out, together with logging, generics and casts.
- Thread safety is left out. Proxies are used single-threaded.
