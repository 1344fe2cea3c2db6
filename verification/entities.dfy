/** The entities the entity manager works on: metadata, Hector mutators,
    the proxy interceptor and the entity itself. The cglib proxy is modelled
    directly as "an entity with an attached interceptor". */
module Entities {
  import opened Results

  type ClassName = string
  type PropertyName = string
  type Key = string

  /** The column family one entity type is stored in, reached through its DAO. */
  type RowGroup = string

  /** A mutator slot on the interceptor: the base slot or a join property's slot. */
  datatype Slot = Base | Join(property: PropertyName)

  /** A Hector mutator, built by the DAO of one row group. The last two fields
      stand for object identity: `built` is the stamp of the `startBatch`
      call that built the mutator and `builtFor` the slot it was built for,
      so no two mutators built by `startBatch` are equal values, even when
      they write to the same row group. */
  datatype Mutator = Mutator(rowGroup: RowGroup, built: nat, builtFor: Slot)

  /** One mapped property. `join` is the row group of the target entity's DAO
      when the property's type is a join column, and `None` otherwise. */
  datatype PropertyMeta = PropertyMeta(join: Option<RowGroup>) {
    predicate IsJoinColumn() { join.Some? }
  }

  /** Per-class metadata: the entity's own row group and its properties keyed by name. */
  datatype EntityMeta = EntityMeta(rowGroup: RowGroup, properties: map<PropertyName, PropertyMeta>)

  type MetaMap = map<ClassName, EntityMeta>

  /** The batch part of the proxy's interceptor: the base mutator and the
      map of join mutators, each of which may be `null` (`None`). */
  datatype Interceptor = Interceptor(
    mutator: Option<Mutator>,
    mutatorMap: Option<map<PropertyName, Option<Mutator>>>)

  /** Every mutator installed on an interceptor: the base one and the non-null join ones. */
  function Installed(i: Interceptor): set<Mutator>
  {
    (if i.mutator.Some? then {i.mutator.value} else {})
    + (if i.mutatorMap.Some? then set p | p in i.mutatorMap.value && i.mutatorMap.value[p].Some? :: i.mutatorMap.value[p].value else {})
  }

  /** The interceptor of a freshly built proxy: no batch has been started on it. */
  const FreshInterceptor: Interceptor := Interceptor(None, None)

  /** An application entity of base class `cls`; it is a proxy (managed) exactly
      when an interceptor is attached. */
  datatype Entity = Entity(cls: ClassName, key: Key, interceptor: Option<Interceptor>) {
    predicate IsProxy() { interceptor.Some? }
  }

  /** The proxy builder: wraps an entity with a fresh interceptor. */
  function BuildProxy(e: Entity): (p: Entity)
    ensures p.IsProxy() && p.interceptor.value == FreshInterceptor
    ensures p.cls == e.cls && p.key == e.key
  {
    e.(interceptor := Some(FreshInterceptor))
  }

  /** `Map.get` on the metadata registry: `None` stands for `null`. */
  function Lookup(metas: MetaMap, cls: ClassName): (r: Option<EntityMeta>)
    ensures r.Some? <==> cls in metas
    ensures r.Some? ==> r.value == metas[cls]
  {
    if cls in metas then Some(metas[cls]) else None
  }
}
