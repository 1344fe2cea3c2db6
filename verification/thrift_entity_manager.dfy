/** The Thrift entity manager: lifecycle guards in front of the persistence
    helpers, and the batch coordinator that installs and flushes mutators.
    Calls into the persister, merger, loader and entity refresher and every
    `execute()` of a mutator are recorded in a call log; the validator, the
    proxy builder and the DAOs' `buildMutator` are not logged. Whether a
    logged call returns normally or throws is decided by the opaque
    `succeeds` predicate. */
module ThriftEntityManager {
  import opened Results
  import opened Entities

  /** A call into a helper the manager delegates to. */
  datatype Call =
    | PersistCall(entity: Entity, meta: Option<EntityMeta>)   // persister.persist
    | MergeCall(entity: Entity, meta: Option<EntityMeta>)     // merger.mergeEntity
    | RemoveCall(entity: Entity, meta: Option<EntityMeta>)    // persister.remove
    | RefreshCall(entity: Entity)                             // entityRefresher.refresh
    | LoadCall(cls: ClassName, key: Key, meta: Option<EntityMeta>) // loader.load
    | ExecuteCall(slot: Slot, mutator: Mutator)               // mutator.execute()

  datatype Error =
    | InvalidEntity(entity: Entity)   // rejected by the entity validator
    | IllegalState(message: string)   // IllegalStateException
    | NullArgument(message: string)   // Validator.validateNotNull
    | Unsupported(message: string)    // UnsupportedOperationException
    | NullPointer                     // dereference of a missing metadata or mutator map
    | DelegateFailed(call: Call)      // a helper call threw

  /** The helpers whose bodies are not part of this model. */
  datatype Helpers = Helpers(
    validates: Entity -> bool,                                  // EntityValidator.validateEntity passes
    load: (ClassName, Key, Option<EntityMeta>) -> Option<Entity>, // what EntityLoader.load returns
    succeeds: Call -> bool,                                     // the call returns normally
    describe: Entity -> string)                                 // entity.toString()

  datatype Manager = Manager(entityMetaMap: MetaMap, helpers: Helpers)

  /** The call log after an operation, and what the operation returned or threw. */
  datatype Step<+T> = Step(log: seq<Call>, result: Result<T, Error>)

  datatype FlushMode = Auto | Commit

  const PersistManagedMessage: string :=
    "Then entity is already in 'managed' state. Please use the merge() method instead of persist()"
  const RemoveNotManagedMessage: string :=
    "Then entity is not in 'managed' state. Please use the merge() or find() method to load it first"
  const NullClassMessage: string := "Entity class should not be null"
  const NullKeyMessage: string := "Entity primaryKey should not be null"
  const StartBatchNotManagedMessage: string :=
    "The entity is not in 'managed' state. Please merge it before starting a batch"
  const EndBatchNotManagedMessage: string := "The entity is not in 'managed' state."

  function RefreshNotManagedMessage(em: Manager, e: Entity): string
  {
    "The entity " + em.helpers.describe(e) + " is not in 'managed' state"
  }

  /** Performs one helper call: it is logged, then it returns or throws. */
  function Delegate(em: Manager, log: seq<Call>, c: Call): (s: Step<()>)
    ensures s.log == log + [c]
    ensures s.result.Ok? <==> em.helpers.succeeds(c)
    ensures s.result.Fail? ==> s.result.error == DelegateFailed(c)
  {
    if em.helpers.succeeds(c) then Step(log + [c], Ok(())) else Step(log + [c], Fail(DelegateFailed(c)))
  }

  // ---------------------------------------------------------------- lifecycle

  /** persist: validate, refuse a proxy, otherwise hand the entity and its
      metadata to the persister. */
  function Persist(em: Manager, log: seq<Call>, e: Entity): (s: Step<()>)
    ensures !em.helpers.validates(e) ==> s == Step(log, Fail(InvalidEntity(e)))
    ensures em.helpers.validates(e) && e.IsProxy() ==>
              s == Step(log, Fail(IllegalState(PersistManagedMessage)))
    ensures s.log != log <==> em.helpers.validates(e) && !e.IsProxy()
    ensures s.log != log ==>
              s.log == log + [PersistCall(e, Lookup(em.entityMetaMap, e.cls))]
              && (s.result.Ok? <==> em.helpers.succeeds(s.log[|log|]))
  {
    if !em.helpers.validates(e) then Step(log, Fail(InvalidEntity(e)))
    else if e.IsProxy() then Step(log, Fail(IllegalState(PersistManagedMessage)))
    else Delegate(em, log, PersistCall(e, Lookup(em.entityMetaMap, e.cls)))
  }

  /** merge: validate, then let the merger flush (or persist) the entity. As
      documented, a managed entity comes back as the same reference and a
      transient one as a new proxy. */
  function Merge(em: Manager, log: seq<Call>, e: Entity): (s: Step<Entity>)
    ensures !em.helpers.validates(e) ==> s == Step(log, Fail(InvalidEntity(e)))
    ensures em.helpers.validates(e) ==>
              s.log == log + [MergeCall(e, Lookup(em.entityMetaMap, e.cls))]
              && (s.result.Ok? <==> em.helpers.succeeds(s.log[|log|]))
    ensures s.result.Ok? && e.IsProxy() ==> s.result.value == e
    ensures s.result.Ok? && !e.IsProxy() ==>
              s.result.value.IsProxy() && s.result.value.cls == e.cls && s.result.value.key == e.key
  {
    if !em.helpers.validates(e) then Step(log, Fail(InvalidEntity(e)))
    else
      var d := Delegate(em, log, MergeCall(e, Lookup(em.entityMetaMap, e.cls)));
      if d.result.Fail? then Step(d.log, Fail(d.result.error))
      else if e.IsProxy() then Step(d.log, Ok(e))
      else Step(d.log, Ok(BuildProxy(e)))
  }

  /** remove: validate, refuse a non-proxy, otherwise hand only the entity
      itself to the persister; whether the persister cascades to join
      entities is not modelled. */
  function Remove(em: Manager, log: seq<Call>, e: Entity): (s: Step<()>)
    ensures !em.helpers.validates(e) ==> s == Step(log, Fail(InvalidEntity(e)))
    ensures em.helpers.validates(e) && !e.IsProxy() ==>
              s == Step(log, Fail(IllegalState(RemoveNotManagedMessage)))
    ensures s.log != log <==> em.helpers.validates(e) && e.IsProxy()
    ensures s.log != log ==>
              s.log == log + [RemoveCall(e, Lookup(em.entityMetaMap, e.cls))]
              && (s.result.Ok? <==> em.helpers.succeeds(s.log[|log|]))
  {
    if !em.helpers.validates(e) then Step(log, Fail(InvalidEntity(e)))
    else if e.IsProxy() then Delegate(em, log, RemoveCall(e, Lookup(em.entityMetaMap, e.cls)))
    else Step(log, Fail(IllegalState(RemoveNotManagedMessage)))
  }

  /** find: both arguments must be non-null; `null` when the loader finds
      nothing, otherwise a proxy around the loaded entity. */
  function Find(em: Manager, log: seq<Call>, cls: Option<ClassName>, key: Option<Key>): (s: Step<Option<Entity>>)
    ensures cls.None? ==> s == Step(log, Fail(NullArgument(NullClassMessage)))
    ensures cls.Some? && key.None? ==> s == Step(log, Fail(NullArgument(NullKeyMessage)))
    ensures cls.Some? && key.Some? ==>
              var meta := Lookup(em.entityMetaMap, cls.value);
              var loaded := em.helpers.load(cls.value, key.value, meta);
              && s.log == log + [LoadCall(cls.value, key.value, meta)]
              && (s.result.Ok? <==> em.helpers.succeeds(s.log[|log|]))
              && (s.result.Ok? ==>
                    (s.result.value.None? <==> loaded.None?)
                    && (s.result.value.Some? ==>
                          s.result.value.value.IsProxy()
                          && s.result.value.value.interceptor.value == FreshInterceptor
                          && s.result.value.value.cls == loaded.value.cls
                          && s.result.value.value.key == loaded.value.key))
  {
    if cls.None? then Step(log, Fail(NullArgument(NullClassMessage)))
    else if key.None? then Step(log, Fail(NullArgument(NullKeyMessage)))
    else
      var meta := Lookup(em.entityMetaMap, cls.value);
      var d := Delegate(em, log, LoadCall(cls.value, key.value, meta));
      if d.result.Fail? then Step(d.log, Fail(d.result.error))
      else
        var loaded := em.helpers.load(cls.value, key.value, meta);
        if loaded.None? then Step(d.log, Ok(None)) else Step(d.log, Ok(Some(BuildProxy(loaded.value))))
  }

  /** getReference: documented to work exactly as find. */
  function GetReference(em: Manager, log: seq<Call>, cls: Option<ClassName>, key: Option<Key>): (s: Step<Option<Entity>>)
    ensures s == Find(em, log, cls, key)
  {
    Find(em, log, cls, key)
  }

  /** refresh: no validation; a non-proxy is refused, a proxy goes to the refresher. */
  function Refresh(em: Manager, log: seq<Call>, e: Entity): (s: Step<()>)
    ensures !e.IsProxy() ==> s == Step(log, Fail(IllegalState(RefreshNotManagedMessage(em, e))))
    ensures s.log != log <==> e.IsProxy()
    ensures e.IsProxy() ==>
              s.log == log + [RefreshCall(e)] && (s.result.Ok? <==> em.helpers.succeeds(RefreshCall(e)))
  {
    if !e.IsProxy() then Step(log, Fail(IllegalState(RefreshNotManagedMessage(em, e))))
    else Delegate(em, log, RefreshCall(e))
  }

  // ---------------------------------------------------------------- JPA surface

  /** The JPA operations the manager does not support. */
  datatype StubOperation =
    | Flush | SetFlushMode | Lock | Clear | Contains
    | CreateQuery | CreateNamedQuery | CreateNativeQuery
    | CreateNativeQueryWithClass | CreateNativeQueryWithMapping
    | JoinTransaction | Close | IsOpen | GetTransaction

  function UnsupportedMessage(op: StubOperation): string
  {
    match op
    case Flush | SetFlushMode => "This operation is not supported for Cassandra"
    case CreateNamedQuery => "This operation is not supported for this Entity Manager"
    case _ => "This operation is not supported for this Cassandra"
  }

  /** Every unsupported operation throws and calls nothing. */
  function InvokeStub(log: seq<Call>, op: StubOperation): (s: Step<()>)
    ensures s.log == log
    ensures s.result.Fail? && s.result.error.Unsupported?
    ensures |s.result.error.message| > 0
  {
    Step(log, Fail(Unsupported(UnsupportedMessage(op))))
  }

  function GetFlushMode(em: Manager): (m: FlushMode)
    ensures m == Auto
  {
    Auto
  }

  function GetDelegate(em: Manager): (r: Manager)
    ensures r == em
  {
    em
  }

  // ---------------------------------------------------------------- batches

  /** One new mutator per property whose type is a join column, built by the
      DAO of the join target, keyed by property name. */
  function JoinMutators(meta: EntityMeta, stamp: nat): map<PropertyName, Option<Mutator>>
  {
    map p | p in meta.properties && meta.properties[p].IsJoinColumn() :: Some(Mutator(meta.properties[p].join.value, stamp, Join(p)))
  }

  /** startBatch: refuse a non-proxy; otherwise install a base mutator and the
      join mutator map on the interceptor, replacing whatever was there.
      `stamp` is the identity given to the mutators this call builds. */
  function StartBatch(em: Manager, e: Entity, stamp: nat): (r: Result<Entity, Error>)
    ensures !e.IsProxy() ==> r == Fail(IllegalState(StartBatchNotManagedMessage))
    ensures e.IsProxy() && e.cls !in em.entityMetaMap ==> r == Fail(NullPointer)
    ensures r.Ok? <==> e.IsProxy() && e.cls in em.entityMetaMap
    ensures r.Ok? ==> r.value.IsProxy() && forall mu | mu in Installed(r.value.interceptor.value) :: mu.built == stamp
    ensures r.Ok? ==>
              var meta := em.entityMetaMap[e.cls];
              && r.value.cls == e.cls && r.value.key == e.key && r.value.IsProxy()
              && var i := r.value.interceptor.value;
              && i.mutator == Some(Mutator(meta.rowGroup, stamp, Base))
              && i.mutatorMap.Some?
              && (forall p :: p in i.mutatorMap.value <==> p in meta.properties && meta.properties[p].IsJoinColumn())
              && (forall p | p in i.mutatorMap.value :: i.mutatorMap.value[p] == Some(Mutator(meta.properties[p].join.value, stamp, Join(p))))
    ensures r.Ok? ==>
              var i := r.value.interceptor.value;
              && (forall p, q | p in i.mutatorMap.value && q in i.mutatorMap.value && p != q ::
                    i.mutatorMap.value[p] != i.mutatorMap.value[q])
              && (forall p | p in i.mutatorMap.value :: i.mutatorMap.value[p] != i.mutator)
  {
    if !e.IsProxy() then Fail(IllegalState(StartBatchNotManagedMessage))
    else if e.cls !in em.entityMetaMap then Fail(NullPointer)
    else
      var meta := em.entityMetaMap[e.cls];
      Ok(e.(interceptor := Some(Interceptor(Some(Mutator(meta.rowGroup, stamp, Base)), Some(JoinMutators(meta, stamp))))))
  }

  predicate NoDuplicates<T(==)>(s: seq<T>)
  {
    forall i, j | 0 <= i < j < |s| :: s[i] != s[j]
  }

  /** `order` lists every key of `keys` exactly once: a HashMap's iteration order. */
  predicate IsEnumeration<T(==)>(order: seq<T>, keys: set<T>)
  {
    && (forall i | 0 <= i < |order| :: order[i] in keys)
    && (forall k | k in keys :: k in order)
    && NoDuplicates(order)
  }

  /** What `endBatch` needs of the iteration order of the entity's mutator map. */
  predicate EnumeratesJoinMutators(e: Entity, order: seq<PropertyName>)
  {
    e.IsProxy() && e.interceptor.value.mutatorMap.Some? ==>
      IsEnumeration(order, e.interceptor.value.mutatorMap.value.Keys)
  }

  /** The executions the join loop of `endBatch` would perform, in order:
      one per non-null entry, none for a null entry. */
  function JoinExecutions(m: map<PropertyName, Option<Mutator>>, order: seq<PropertyName>): (cs: seq<Call>)
    requires forall i | 0 <= i < |order| :: order[i] in m
    ensures |cs| <= |order|
    ensures forall c | c in cs ::
              c.ExecuteCall? && c.slot.Join? && c.slot.property in order
              && c.slot.property in m && m[c.slot.property] == Some(c.mutator)
    decreases |order|
  {
    if |order| == 0 then []
    else
      var rest := JoinExecutions(m, order[1..]);
      match m[order[0]]
      case None => rest
      case Some(mu) => [ExecuteCall(Join(order[0]), mu)] + rest
  }

  /** The executions `endBatch` would perform if none of them threw. */
  function PlannedFlush(i: Interceptor, order: seq<PropertyName>): seq<Call>
    requires i.mutatorMap.Some? ==> forall j | 0 <= j < |order| :: order[j] in i.mutatorMap.value
  {
    (if i.mutator.Some? then [ExecuteCall(Base, i.mutator.value)] else [])
    + (if i.mutatorMap.Some? then JoinExecutions(i.mutatorMap.value, order) else [])
  }

  predicate AllSucceed(em: Manager, cs: seq<Call>)
  {
    forall i | 0 <= i < |cs| :: em.helpers.succeeds(cs[i])
  }

  /** How a flush of the `planned` executions ended, seen from the log: the
      executions performed are a prefix of the plan; it returned normally
      exactly when all of them were performed and returned normally; it threw
      exactly at the first execution that threw, and performed nothing after it. */
  predicate FlushedPrefix(em: Manager, log: seq<Call>, s: Step<()>, planned: seq<Call>)
  {
    && log <= s.log
    && var done := s.log[|log|..];
    && done <= planned
    && (s.result.Ok? <==> done == planned && AllSucceed(em, done))
    && (s.result.Fail? ==>
          && |done| > 0
          && !em.helpers.succeeds(done[|done| - 1])
          && AllSucceed(em, done[..|done| - 1])
          && s.result.error == DelegateFailed(done[|done| - 1]))
  }

  /** Performing the executions `first`, all of which return normally, and then
      flushing `rest` is a flush of `first + rest`. */
  lemma FlushedAfter(em: Manager, log: seq<Call>, first: seq<Call>, s: Step<()>, rest: seq<Call>)
    requires AllSucceed(em, first)
    requires FlushedPrefix(em, log + first, s, rest)
    ensures FlushedPrefix(em, log, s, first + rest)
  {
    var done := s.log[|log|..];
    var later := s.log[|log + first|..];
    assert done == first + later;
    if s.result.Fail? {
      assert done[..|done| - 1] == first + later[..|later| - 1];
    }
  }

  /** An execution that throws straight away is a flush of any plan it heads. */
  lemma FlushedFailing(em: Manager, log: seq<Call>, c: Call, rest: seq<Call>)
    requires !em.helpers.succeeds(c)
    ensures FlushedPrefix(em, log, Step(log + [c], Fail(DelegateFailed(c))), [c] + rest)
  {
    assert (log + [c])[|log|..] == [c];
    assert !em.helpers.succeeds([c][0]);
  }

  /** The join loop of `endBatch`: null entries are skipped, each non-null
      mutator is executed, and the first exception aborts the loop. */
  function FlushJoins(em: Manager, log: seq<Call>, m: map<PropertyName, Option<Mutator>>, order: seq<PropertyName>): (s: Step<()>)
    requires forall i | 0 <= i < |order| :: order[i] in m
    ensures FlushedPrefix(em, log, s, JoinExecutions(m, order))
    decreases |order|
  {
    if |order| == 0 then Step(log, Ok(()))
    else
      match m[order[0]]
      case None => FlushJoins(em, log, m, order[1..])
      case Some(mu) =>
        var c := ExecuteCall(Join(order[0]), mu);
        if !em.helpers.succeeds(c) then
          FlushedFailing(em, log, c, JoinExecutions(m, order[1..]));
          Step(log + [c], Fail(DelegateFailed(c)))
        else
          var s := FlushJoins(em, log + [c], m, order[1..]);
          FlushedAfter(em, log, [c], s, JoinExecutions(m, order[1..]));
          s
  }

  /** endBatch: refuse a non-proxy; otherwise execute the base mutator if it
      is non-null, then every non-null join mutator. The mutators stay
      installed, and an exception aborts the remaining executions. */
  function EndBatch(em: Manager, log: seq<Call>, e: Entity, order: seq<PropertyName>): (s: Step<()>)
    requires EnumeratesJoinMutators(e, order)
    ensures !e.IsProxy() ==> s == Step(log, Fail(IllegalState(EndBatchNotManagedMessage)))
    ensures e.IsProxy() && e.interceptor.value.mutatorMap.Some? ==>
              FlushedPrefix(em, log, s, PlannedFlush(e.interceptor.value, order))
    ensures e.IsProxy() && e.interceptor.value.mutatorMap.None? ==>
              var planned := PlannedFlush(e.interceptor.value, order);
              if AllSucceed(em, planned) then s == Step(log + planned, Fail(NullPointer))
              else FlushedPrefix(em, log, s, planned)
  {
    if !e.IsProxy() then Step(log, Fail(IllegalState(EndBatchNotManagedMessage)))
    else
      var i := e.interceptor.value;
      var base := if i.mutator.Some? then [ExecuteCall(Base, i.mutator.value)] else [];
      var joins := if i.mutatorMap.Some? then JoinExecutions(i.mutatorMap.value, order) else [];
      assert PlannedFlush(i, order) == base + joins;
      if i.mutator.Some? && !em.helpers.succeeds(base[0]) then
        FlushedFailing(em, log, base[0], joins);
        Step(log + base, Fail(DelegateFailed(base[0])))
      else if i.mutatorMap.None? then
        assert joins == [];
        Step(log + base, Fail(NullPointer))
      else
        var s := FlushJoins(em, log + base, i.mutatorMap.value, order);
        FlushedAfter(em, log, base, s, joins);
        s
  }
}
