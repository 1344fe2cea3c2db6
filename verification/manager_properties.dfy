/** Properties relating several entity-manager operations: the lifecycle
    state machine (managed versus transient) and the batch flush. */
module ManagerProperties {
  import opened Results
  import opened Entities
  import opened ThriftEntityManager

  // ---------------------------------------------------------------- lifecycle

  /** For a valid entity exactly one of persist and remove reaches its helper:
      persist the transient ones, remove the managed ones. */
  lemma PersistRemoveComplementary(em: Manager, log: seq<Call>, e: Entity)
    requires em.helpers.validates(e)
    ensures (Persist(em, log, e).log != log) != (Remove(em, log, e).log != log)
    ensures Persist(em, log, e).log != log <==> !e.IsProxy()
  {
  }

  /** An entity returned by find is managed: persist refuses it, while remove,
      refresh and startBatch accept it. */
  lemma FoundEntityIsManaged(em: Manager, log: seq<Call>, cls: ClassName, key: Key, log': seq<Call>, stamp: nat)
    requires Find(em, log, Some(cls), Some(key)).result.Ok?
    requires Find(em, log, Some(cls), Some(key)).result.value.Some?
    ensures var p := Find(em, log, Some(cls), Some(key)).result.value.value;
            && (em.helpers.validates(p) ==> Persist(em, log', p) == Step(log', Fail(IllegalState(PersistManagedMessage))))
            && (em.helpers.validates(p) ==> Remove(em, log', p).log == log' + [RemoveCall(p, Lookup(em.entityMetaMap, p.cls))])
            && Refresh(em, log', p).log == log' + [RefreshCall(p)]
            && (p.cls in em.entityMetaMap ==> StartBatch(em, p, stamp).Ok?)
  {
  }

  /** Whatever merge returns is managed, so persisting it again is refused. */
  lemma MergeResultIsManaged(em: Manager, log: seq<Call>, e: Entity, log': seq<Call>)
    requires Merge(em, log, e).result.Ok?
    ensures Merge(em, log, e).result.value.IsProxy()
    ensures var r := Merge(em, log, e).result.value;
            em.helpers.validates(r) ==> Persist(em, log', r) == Step(log', Fail(IllegalState(PersistManagedMessage)))
  {
  }

  /** remove never cascades: the only helper call it makes names the entity itself. */
  lemma RemoveNeverCascades(em: Manager, log: seq<Call>, e: Entity)
    ensures forall c | c in Remove(em, log, e).log[|log|..] :: c.RemoveCall? && c.entity == e
  {
    var s := Remove(em, log, e);
    if s.log != log {
      assert s.log[|log|..] == [RemoveCall(e, Lookup(em.entityMetaMap, e.cls))];
    } else {
      assert s.log[|log|..] == [];
    }
  }

  // ---------------------------------------------------------------- batches

  /** With a duplicate-free iteration order, the join loop executes each
      non-null join mutator exactly once and nothing else. */
  lemma {:induction false} JoinExecutionsOnce(m: map<PropertyName, Option<Mutator>>, order: seq<PropertyName>, k: PropertyName, mu: Mutator)
    requires forall i | 0 <= i < |order| :: order[i] in m
    requires NoDuplicates(order)
    ensures multiset(JoinExecutions(m, order))[ExecuteCall(Join(k), mu)]
            == if k in m && k in order && m[k] == Some(mu) then 1 else 0
    decreases |order|
  {
    if |order| > 0 {
      var rest := order[1..];
      JoinExecutionsOnce(m, rest, k, mu);
      assert k in order <==> k == order[0] || k in rest;
      assert order[0] !in rest by {
        forall j | 0 <= j < |rest| ensures rest[j] != order[0] {
          assert rest[j] == order[j + 1];
        }
      }
    }
  }

  /** The shape of the plan endBatch flushes: only its first execution can be
      the base one, exactly when the base mutator is non-null, and every
      execution is of a mutator found in its own slot on the interceptor. */
  lemma PlannedFlushShape(i: Interceptor, order: seq<PropertyName>, j: int)
    requires i.mutatorMap.Some? ==> forall k | 0 <= k < |order| :: order[k] in i.mutatorMap.value
    requires 0 <= j < |PlannedFlush(i, order)|
    ensures var c := PlannedFlush(i, order)[j];
            && c.ExecuteCall?
            && (c.slot.Base? <==> j == 0 && i.mutator.Some?)
            && (c.slot.Base? ==> i.mutator == Some(c.mutator))
            && (c.slot.Join? ==>
                  i.mutatorMap.Some? && c.slot.property in i.mutatorMap.value
                  && i.mutatorMap.value[c.slot.property] == Some(c.mutator))
  {
    var base := if i.mutator.Some? then [ExecuteCall(Base, i.mutator.value)] else [];
    var joins := if i.mutatorMap.Some? then JoinExecutions(i.mutatorMap.value, order) else [];
    assert PlannedFlush(i, order) == base + joins;
    if j >= |base| {
      assert PlannedFlush(i, order)[j] == joins[j - |base|];
      assert joins[j - |base|] in joins;
    }
  }

  /** Whatever endBatch performs, also when it throws, is a prefix of its plan. */
  lemma EndBatchPerformsPrefix(em: Manager, log: seq<Call>, e: Entity, order: seq<PropertyName>)
    requires e.IsProxy()
    requires EnumeratesJoinMutators(e, order)
    ensures var s := EndBatch(em, log, e, order);
            log <= s.log && s.log[|log|..] <= PlannedFlush(e.interceptor.value, order)
  {
    var s := EndBatch(em, log, e, order);
    var planned := PlannedFlush(e.interceptor.value, order);
    if e.interceptor.value.mutatorMap.None? && AllSucceed(em, planned) {
      assert s.log[|log|..] == planned;
    }
  }

  /** With a HashMap iteration order over the mutator map, the plan holds the
      base execution exactly once when the base mutator is non-null, and the
      execution of each non-null join mutator in its own slot exactly once. */
  lemma PlannedFlushCounts(i: Interceptor, order: seq<PropertyName>)
    requires i.mutatorMap.Some? && IsEnumeration(order, i.mutatorMap.value.Keys)
    ensures forall mu :: multiset(PlannedFlush(i, order))[ExecuteCall(Base, mu)]
                         == if i.mutator == Some(mu) then 1 else 0
    ensures forall k, mu :: multiset(PlannedFlush(i, order))[ExecuteCall(Join(k), mu)]
                            == if k in i.mutatorMap.value && i.mutatorMap.value[k] == Some(mu) then 1 else 0
  {
    var m := i.mutatorMap.value;
    var base := if i.mutator.Some? then [ExecuteCall(Base, i.mutator.value)] else [];
    var joins := JoinExecutions(m, order);
    assert PlannedFlush(i, order) == base + joins;
    forall k, mu ensures multiset(base + joins)[ExecuteCall(Join(k), mu)]
                         == if k in m && m[k] == Some(mu) then 1 else 0 {
      JoinExecutionsOnce(m, order, k, mu);
      assert k in m ==> k in order;
    }
    forall mu ensures multiset(base + joins)[ExecuteCall(Base, mu)] == if i.mutator == Some(mu) then 1 else 0 {
      assert ExecuteCall(Base, mu) !in joins;
    }
  }

  /** Every execution in the plan is of a mutator found in its own slot on
      the interceptor. */
  lemma PlannedFlushMembers(i: Interceptor, order: seq<PropertyName>)
    requires i.mutatorMap.Some? ==> forall k | 0 <= k < |order| :: order[k] in i.mutatorMap.value
    ensures forall c | c in PlannedFlush(i, order) ::
              c.ExecuteCall?
              && ((c.slot.Base? && i.mutator == Some(c.mutator))
                  || (c.slot.Join? && i.mutatorMap.Some? && c.slot.property in i.mutatorMap.value
                      && i.mutatorMap.value[c.slot.property] == Some(c.mutator)))
  {
    forall c | c in PlannedFlush(i, order)
      ensures c.ExecuteCall?
      ensures (c.slot.Base? && i.mutator == Some(c.mutator))
              || (c.slot.Join? && i.mutatorMap.Some? && c.slot.property in i.mutatorMap.value
                  && i.mutatorMap.value[c.slot.property] == Some(c.mutator))
    {
      var j :| 0 <= j < |PlannedFlush(i, order)| && PlannedFlush(i, order)[j] == c;
      PlannedFlushShape(i, order, j);
    }
  }

  /** When every execution returns normally, endBatch executes the base
      mutator (if non-null) first and exactly once, then each non-null join
      mutator exactly once, and nothing else. */
  lemma EndBatchFlushesEachOnce(em: Manager, log: seq<Call>, e: Entity, order: seq<PropertyName>)
    requires e.IsProxy() && e.interceptor.value.mutatorMap.Some?
    requires EnumeratesJoinMutators(e, order)
    requires AllSucceed(em, PlannedFlush(e.interceptor.value, order))
    ensures var s := EndBatch(em, log, e, order);
            var i := e.interceptor.value;
            var done := s.log[|log|..];
            && s.result.Ok?
            && log <= s.log
            && (i.mutator.Some? ==> |done| > 0 && done[0] == ExecuteCall(Base, i.mutator.value))
            && (forall mu :: multiset(done)[ExecuteCall(Base, mu)] == if i.mutator == Some(mu) then 1 else 0)
            && (forall k, mu :: multiset(done)[ExecuteCall(Join(k), mu)]
                  == if k in i.mutatorMap.value && i.mutatorMap.value[k] == Some(mu) then 1 else 0)
            && (forall c | c in done ::
                  c.ExecuteCall?
                  && ((c.slot.Base? && i.mutator == Some(c.mutator))
                      || (c.slot.Join? && c.slot.property in i.mutatorMap.value
                          && i.mutatorMap.value[c.slot.property] == Some(c.mutator))))
  {
    var s := EndBatch(em, log, e, order);
    var i := e.interceptor.value;
    EndBatchAllSucceed(em, log, e, order);
    var done := s.log[|log|..];
    assert done == PlannedFlush(i, order);
    PlannedFlushCounts(i, order);
    PlannedFlushMembers(i, order);
  }

  /** In every run, also one that throws, the base mutator is executed at most
      once and before any join mutator, and only mutators found on the
      interceptor are executed. */
  lemma EndBatchBaseBeforeJoins(em: Manager, log: seq<Call>, e: Entity, order: seq<PropertyName>)
    requires e.IsProxy()
    requires EnumeratesJoinMutators(e, order)
    ensures var s := EndBatch(em, log, e, order);
            var i := e.interceptor.value;
            var done := s.log[|log|..];
            && log <= s.log
            && (forall j | 0 <= j < |done| ::
                  done[j].ExecuteCall? && (done[j].slot.Base? <==> j == 0 && i.mutator.Some?))
            && (forall j | 0 <= j < |done| && done[j].slot.Base? :: i.mutator == Some(done[j].mutator))
            && (forall j | 0 <= j < |done| && done[j].slot.Join? ::
                  i.mutatorMap.Some? && done[j].slot.property in i.mutatorMap.value
                  && i.mutatorMap.value[done[j].slot.property] == Some(done[j].mutator))
  {
    var s := EndBatch(em, log, e, order);
    var i := e.interceptor.value;
    EndBatchPerformsPrefix(em, log, e, order);
    var done := s.log[|log|..];
    forall j | 0 <= j < |done|
      ensures done[j].ExecuteCall? && (done[j].slot.Base? <==> j == 0 && i.mutator.Some?)
      ensures done[j].slot.Base? ==> i.mutator == Some(done[j].mutator)
      ensures done[j].slot.Join? ==>
                i.mutatorMap.Some? && done[j].slot.property in i.mutatorMap.value
                && i.mutatorMap.value[done[j].slot.property] == Some(done[j].mutator)
    {
      assert done[j] == PlannedFlush(i, order)[j];
      PlannedFlushShape(i, order, j);
    }
  }

  /** A flush of a plan whose executions all return normally performs the
      whole plan and returns normally. */
  lemma FlushedAllSucceed(em: Manager, log: seq<Call>, s: Step<()>, planned: seq<Call>)
    requires FlushedPrefix(em, log, s, planned)
    requires AllSucceed(em, planned)
    ensures s == Step(log + planned, Ok(()))
  {
    var done := s.log[|log|..];
    assert s.log == log + done;
    assert s.result.Ok?;
    assert s.result.value == ();
  }

  /** When every execution returns normally, endBatch returns normally having
      performed exactly the planned executions. */
  lemma EndBatchAllSucceed(em: Manager, log: seq<Call>, e: Entity, order: seq<PropertyName>)
    requires e.IsProxy() && e.interceptor.value.mutatorMap.Some?
    requires EnumeratesJoinMutators(e, order)
    requires AllSucceed(em, PlannedFlush(e.interceptor.value, order))
    ensures EndBatch(em, log, e, order) == Step(log + PlannedFlush(e.interceptor.value, order), Ok(()))
  {
    FlushedAllSucceed(em, log, EndBatch(em, log, e, order), PlannedFlush(e.interceptor.value, order));
  }

  /** endBatch does not detach the mutators: ending the same batch twice
      executes the same mutators again. */
  lemma EndBatchTwiceReexecutes(em: Manager, log: seq<Call>, e: Entity, order: seq<PropertyName>)
    requires e.IsProxy() && e.interceptor.value.mutatorMap.Some?
    requires EnumeratesJoinMutators(e, order)
    requires AllSucceed(em, PlannedFlush(e.interceptor.value, order))
    ensures var planned := PlannedFlush(e.interceptor.value, order);
            var s1 := EndBatch(em, log, e, order);
            var s2 := EndBatch(em, s1.log, e, order);
            s2 == Step(log + planned + planned, Ok(()))
  {
    EndBatchAllSucceed(em, log, e, order);
    EndBatchAllSucceed(em, log + PlannedFlush(e.interceptor.value, order), e, order);
  }

  /** startBatch has no "batch already open" check: starting again on an
      entity whose batch is open succeeds exactly as a first start would, and
      the mutators it installs are new ones, none of them the open batch's. */
  lemma StartBatchTwiceReplaces(em: Manager, e: Entity, first: nat, second: nat)
    requires StartBatch(em, e, first).Ok?
    requires first != second
    ensures var open := StartBatch(em, e, first).value;
            var again := StartBatch(em, open, second);
            && again == StartBatch(em, e, second)
            && Installed(again.value.interceptor.value) !! Installed(open.interceptor.value)
  {
  }

  /** So after a second start, ending the batch never executes any mutator of
      the batch that was open: whatever those had accumulated is dropped. */
  lemma ReplacedMutatorsNeverExecuted(em: Manager, log: seq<Call>, e: Entity, first: nat, second: nat, order: seq<PropertyName>)
    requires StartBatch(em, e, first).Ok?
    requires first != second
    requires EnumeratesJoinMutators(StartBatch(em, e, second).value, order)
    ensures var open := StartBatch(em, e, first).value;
            var again := StartBatch(em, open, second).value;
            forall c | c in EndBatch(em, log, again, order).log[|log|..] ::
              c.ExecuteCall? && c.mutator !in Installed(open.interceptor.value)
  {
    var open := StartBatch(em, e, first).value;
    StartBatchTwiceReplaces(em, e, first, second);
    var again := StartBatch(em, open, second).value;
    var i := again.interceptor.value;
    EndBatchPerformsPrefix(em, log, again, order);
    var done := EndBatch(em, log, again, order).log[|log|..];
    forall c | c in done
      ensures c.ExecuteCall? && c.mutator !in Installed(open.interceptor.value)
    {
      var j :| 0 <= j < |done| && done[j] == c;
      assert c == PlannedFlush(i, order)[j];
      PlannedFlushShape(i, order, j);
      assert c.mutator in Installed(i);
    }
  }

  /** A batch started and then ended with every execution returning normally
      executes the entity's base mutator first and once, then exactly one
      mutator per join-column property, built for that property's target,
      whether or not two properties share a target, and nothing else. */
  lemma StartThenEndBatch(em: Manager, log: seq<Call>, e: Entity, stamp: nat, order: seq<PropertyName>)
    requires StartBatch(em, e, stamp).Ok?
    requires EnumeratesJoinMutators(StartBatch(em, e, stamp).value, order)
    requires AllSucceed(em, PlannedFlush(StartBatch(em, e, stamp).value.interceptor.value, order))
    ensures var meta := em.entityMetaMap[e.cls];
            var base := ExecuteCall(Base, Mutator(meta.rowGroup, stamp, Base));
            var s := EndBatch(em, log, StartBatch(em, e, stamp).value, order);
            var done := s.log[|log|..];
            && s.result.Ok?
            && |done| > 0 && done[0] == base
            && multiset(done)[base] == 1
            && (forall p | p in meta.properties && meta.properties[p].IsJoinColumn() ::
                  multiset(done)[ExecuteCall(Join(p), Mutator(meta.properties[p].join.value, stamp, Join(p)))] == 1)
            && (forall c | c in done ::
                  c == base
                  || (c.ExecuteCall? && c.slot.Join? && c.slot.property in meta.properties
                      && meta.properties[c.slot.property].IsJoinColumn()
                      && c.mutator == Mutator(meta.properties[c.slot.property].join.value, stamp, c.slot)))
  {
    var b := StartBatch(em, e, stamp).value;
    EndBatchFlushesEachOnce(em, log, b, order);
  }
}
