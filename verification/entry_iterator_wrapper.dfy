/** The iterator decorator handed out for a map property's entry set. It
    forwards to the target iterator over the live map, re-wraps every entry
    it returns with its own dirty-tracking context, and marks the property
    dirty after a removal through the target. */
module EntryIteratorWrapper {
  import opened Results
  import Entities

  type SetterName = string

  datatype Entry<K, V> = Entry(key: K, value: V)

  /** The target iterator over the live map's entries. `backing` is the map's
      content in iteration order, `cursor` the index of the entry the next
      `next` returns, and `canRemove` whether an entry has been returned and
      not yet removed. */
  datatype Target<K, V> = Target(backing: seq<Entry<K, V>>, cursor: nat, canRemove: bool)

  predicate ValidTarget<K, V>(t: Target<K, V>)
  {
    t.cursor <= |t.backing| && (t.canRemove ==> t.cursor > 0)
  }

  /** NoSuchElementException, and the IllegalStateException of a removal with no entry to remove. */
  datatype IteratorError = NoSuchElement | NothingToRemove

  /** java.util.Iterator.hasNext of the target. */
  function TargetHasNext<K, V>(t: Target<K, V>): bool
  {
    t.cursor < |t.backing|
  }

  /** java.util.Iterator.next of the target: the entry under the cursor, or
      NoSuchElementException past the end. */
  function TargetNext<K, V>(t: Target<K, V>): Result<(Entry<K, V>, Target<K, V>), IteratorError>
    requires ValidTarget(t)
  {
    if t.cursor < |t.backing| then Ok((t.backing[t.cursor], Target(t.backing, t.cursor + 1, true)))
    else Fail(NoSuchElement)
  }

  /** java.util.Iterator.remove of the target: deletes the entry last
      returned from the live map, or IllegalStateException when there is none. */
  function TargetRemove<K, V>(t: Target<K, V>): Result<Target<K, V>, IteratorError>
    requires ValidTarget(t)
  {
    if t.canRemove then Ok(Target(t.backing[..t.cursor - 1] + t.backing[t.cursor..], t.cursor - 1, false))
    else Fail(NothingToRemove)
  }

  /** The dirty-tracking context every wrapper inherits: the setter of the
      owning property and the property itself. The dirty map they write to
      is shared, and lives in `State`. */
  datatype DirtyContext = DirtyContext(setter: SetterName, property: Entities.PropertyName)

  /** The entity's dirty map: setter to property meta. */
  type DirtyMap = map<SetterName, Entities.PropertyName>

  /** markDirty: record the owning property in the shared dirty map. */
  function MarkDirty(dirty: DirtyMap, ctx: DirtyContext): (d: DirtyMap)
    ensures ctx.setter in d && d[ctx.setter] == ctx.property
    ensures forall s | s in dirty && s != ctx.setter :: s in d && d[s] == dirty[s]
    ensures d.Keys == dirty.Keys + {ctx.setter}
  {
    dirty[ctx.setter := ctx.property]
  }

  /** A map entry wrapped with a dirty-tracking context. */
  datatype EntryWrapper<K, V> = EntryWrapper(target: Entry<K, V>, context: DirtyContext)

  datatype Wrapper<K, V> = Wrapper(target: Target<K, V>, context: DirtyContext)

  /** The wrapper together with the dirty map it shares with its entity. */
  datatype State<K, V> = State(wrapper: Wrapper<K, V>, dirty: DirtyMap)

  predicate Valid<K, V>(s: State<K, V>)
  {
    ValidTarget(s.wrapper.target)
  }

  /** The state after an operation, and what it returned or threw. */
  datatype IterationStep<K, V, T> = IterationStep(state: State<K, V>, result: Result<T, IteratorError>)

  function HasNext<K, V>(s: State<K, V>): (r: bool)
    ensures r <==> TargetHasNext(s.wrapper.target)
  {
    TargetHasNext(s.wrapper.target)
  }

  /** next: advance the target by one and wrap the entry it returns with this
      wrapper's context; the dirty map is untouched. */
  function Next<K, V>(s: State<K, V>): (r: IterationStep<K, V, EntryWrapper<K, V>>)
    requires Valid(s)
    ensures Valid(r.state)
    ensures r.result.Ok? <==> HasNext(s)
    ensures r.state.dirty == s.dirty
    ensures r.state.wrapper.context == s.wrapper.context
    ensures r.state.wrapper.target.backing == s.wrapper.target.backing
    ensures r.result.Fail? ==> r.state == s && r.result.error == NoSuchElement
    ensures r.result.Ok? ==>
              && r.result.value.target == s.wrapper.target.backing[s.wrapper.target.cursor]
              && r.result.value.context == s.wrapper.context
              && r.state.wrapper.target.cursor == s.wrapper.target.cursor + 1
              && r.state.wrapper.target.canRemove
  {
    match TargetNext(s.wrapper.target)
    case Fail(err) => IterationStep(s, Fail(err))
    case Ok((entry, t)) =>
      IterationStep(State(Wrapper(t, s.wrapper.context), s.dirty), Ok(EntryWrapper(entry, s.wrapper.context)))
  }

  /** remove: remove through the target first; only once that has returned
      normally, mark the property dirty. */
  function Remove<K, V>(s: State<K, V>): (r: IterationStep<K, V, ()>)
    requires Valid(s)
    ensures Valid(r.state)
    ensures r.result.Ok? <==> s.wrapper.target.canRemove
    ensures r.state.wrapper.context == s.wrapper.context
    ensures r.result.Fail? ==> r.state == s && r.result.error == NothingToRemove
    ensures r.result.Ok? ==>
              var t := s.wrapper.target;
              && r.state.dirty == MarkDirty(s.dirty, s.wrapper.context)
              && r.state.wrapper.target.backing == t.backing[..t.cursor - 1] + t.backing[t.cursor..]
              && r.state.wrapper.target.cursor == t.cursor - 1
              && !r.state.wrapper.target.canRemove
  {
    match TargetRemove(s.wrapper.target)
    case Fail(err) => IterationStep(s, Fail(err))
    case Ok(t) => IterationStep(State(Wrapper(t, s.wrapper.context), MarkDirty(s.dirty, s.wrapper.context)), Ok(()))
  }

  // ---------------------------------------------------------------- the live map

  predicate DistinctKeys<K(==), V>(es: seq<Entry<K, V>>)
  {
    forall i, j | 0 <= i < j < |es| :: es[i].key != es[j].key
  }

  /** The map whose entries, in iteration order, are `es`. */
  function AsMap<K(==), V>(es: seq<Entry<K, V>>): (m: map<K, V>)
    ensures forall i | 0 <= i < |es| :: es[i].key in m
  {
    if |es| == 0 then map[] else AsMap(es[1..])[es[0].key := es[0].value]
  }

  lemma DistinctKeysRemoveAt<K, V>(es: seq<Entry<K, V>>, i: nat)
    requires DistinctKeys(es)
    requires i < |es|
    ensures DistinctKeys(es[..i] + es[i + 1..])
  {
    var rest := es[..i] + es[i + 1..];
    forall a, b | 0 <= a < b < |rest| ensures rest[a].key != rest[b].key {
      var a' := if a < i then a else a + 1;
      var b' := if b < i then b else b + 1;
      assert rest[a] == es[a'] && rest[b] == es[b'];
    }
  }

  /** A key that no entry carries is not in the map. */
  lemma {:induction false} KeyNotInAsMap<K, V>(es: seq<Entry<K, V>>, k: K)
    requires forall i | 0 <= i < |es| :: es[i].key != k
    ensures k !in AsMap(es)
    decreases |es|
  {
    if |es| > 0 {
      assert forall i | 0 <= i < |es[1..]| :: es[1..][i] == es[i + 1];
      KeyNotInAsMap(es[1..], k);
    }
  }

  lemma {:induction false} AsMapRemoveAt<K, V>(es: seq<Entry<K, V>>, i: nat)
    requires DistinctKeys(es)
    requires i < |es|
    ensures AsMap(es[..i] + es[i + 1..]) == AsMap(es) - {es[i].key}
    decreases |es|
  {
    var rest := es[..i] + es[i + 1..];
    if i == 0 {
      assert rest == es[1..];
      assert forall j | 0 <= j < |es[1..]| :: es[1..][j] == es[j + 1];
      KeyNotInAsMap(es[1..], es[0].key);
    } else {
      var tail := es[1..];
      assert DistinctKeys(tail) by {
        forall a, b | 0 <= a < b < |tail| ensures tail[a].key != tail[b].key {
          assert tail[a] == es[a + 1] && tail[b] == es[b + 1];
        }
      }
      AsMapRemoveAt(tail, i - 1);
      assert rest[0] == es[0];
      assert rest[1..] == tail[..i - 1] + tail[i..];
      assert tail[i - 1] == es[i];
      var k0, ki := es[0].key, es[i].key;
      assert k0 != ki;
      calc {
        AsMap(rest);
        AsMap(rest[1..])[k0 := es[0].value];
        (AsMap(tail) - {ki})[k0 := es[0].value];
        { assert (AsMap(tail) - {ki})[k0 := es[0].value] == AsMap(tail)[k0 := es[0].value] - {ki}; }
        AsMap(tail)[k0 := es[0].value] - {ki};
        AsMap(es) - {ki};
      }
    }
  }

  /** The wrapper's removal deletes exactly the entry `next` last returned from
      the live map, keeps every other entry, and marks the property dirty. */
  lemma NextThenRemove<K, V>(s: State<K, V>)
    requires Valid(s) && HasNext(s)
    requires DistinctKeys(s.wrapper.target.backing)
    ensures var n := Next(s);
            var r := Remove(n.state);
            && r.result.Ok?
            && AsMap(r.state.wrapper.target.backing)
               == AsMap(s.wrapper.target.backing) - {n.result.value.target.key}
            && DistinctKeys(r.state.wrapper.target.backing)
            && r.state.dirty == MarkDirty(s.dirty, s.wrapper.context)
  {
    var t := s.wrapper.target;
    AsMapRemoveAt(t.backing, t.cursor);
    DistinctKeysRemoveAt(t.backing, t.cursor);
    assert (t.cursor + 1) - 1 == t.cursor;
  }

  // ---------------------------------------------------------------- call sequences

  datatype Op = HasNextOp | NextOp | RemoveOp

  /** The state after one call; a call that throws leaves the state as it was. */
  function Apply<K, V>(s: State<K, V>, op: Op): (s': State<K, V>)
    requires Valid(s)
    ensures Valid(s')
    ensures s'.wrapper.context == s.wrapper.context
  {
    match op
    case HasNextOp => s
    case NextOp => Next(s).state
    case RemoveOp => Remove(s).state
  }

  function Run<K, V>(s: State<K, V>, ops: seq<Op>): (s': State<K, V>)
    requires Valid(s)
    ensures Valid(s')
    ensures s'.wrapper.context == s.wrapper.context
    decreases |ops|
  {
    if |ops| == 0 then s else Run(Apply(s, ops[0]), ops[1..])
  }

  /** How many calls of `ops` were removals that returned normally. */
  function Removals<K, V>(s: State<K, V>, ops: seq<Op>): nat
    requires Valid(s)
    decreases |ops|
  {
    if |ops| == 0 then 0
    else (if ops[0] == RemoveOp && s.wrapper.target.canRemove then 1 else 0) + Removals(Apply(s, ops[0]), ops[1..])
  }

  /** After any sequence of calls the property is dirty exactly when some
      removal returned normally; reads never dirty it, and nothing but the
      owning property is ever recorded. */
  lemma {:induction false} RunDirty<K, V>(s: State<K, V>, ops: seq<Op>)
    requires Valid(s)
    ensures Run(s, ops).dirty == if Removals(s, ops) > 0 then MarkDirty(s.dirty, s.wrapper.context) else s.dirty
    decreases |ops|
  {
    if |ops| > 0 {
      var s1 := Apply(s, ops[0]);
      RunDirty(s1, ops[1..]);
      if ops[0] == RemoveOp && s.wrapper.target.canRemove {
        assert s1.dirty == MarkDirty(s.dirty, s.wrapper.context);
        assert MarkDirty(s1.dirty, s1.wrapper.context) == s1.dirty;
      }
    }
  }

  /** Each removal that returns normally takes exactly one entry out of the
      live map, and nothing else changes its size. */
  lemma {:induction false} RunShrinksBacking<K, V>(s: State<K, V>, ops: seq<Op>)
    requires Valid(s)
    ensures |Run(s, ops).wrapper.target.backing| + Removals(s, ops) == |s.wrapper.target.backing|
    decreases |ops|
  {
    if |ops| > 0 {
      RunShrinksBacking(Apply(s, ops[0]), ops[1..]);
    }
  }

  /** A call sequence without removals changes neither the dirty map nor the live map. */
  lemma {:induction false} ReadOnlyRun<K, V>(s: State<K, V>, ops: seq<Op>)
    requires Valid(s)
    requires forall i | 0 <= i < |ops| :: ops[i] != RemoveOp
    ensures Removals(s, ops) == 0
    ensures Run(s, ops).dirty == s.dirty
    ensures Run(s, ops).wrapper.target.backing == s.wrapper.target.backing
    decreases |ops|
  {
    if |ops| > 0 {
      assert forall i | 0 <= i < |ops[1..]| :: ops[1..][i] == ops[i + 1];
      ReadOnlyRun(Apply(s, ops[0]), ops[1..]);
    }
  }

  /** Iterating to the end (the for-each loop over the entry set) yields every
      remaining entry of the live map in order, each carrying the wrapper's
      context, and leaves the dirty map and the live map as they were. */
  function Drain<K, V>(s: State<K, V>): (r: (seq<EntryWrapper<K, V>>, State<K, V>))
    requires Valid(s)
    ensures Valid(r.1) && !HasNext(r.1)
    ensures |r.0| == |s.wrapper.target.backing| - s.wrapper.target.cursor
    ensures forall i | 0 <= i < |r.0| ::
              r.0[i].target == s.wrapper.target.backing[s.wrapper.target.cursor + i]
              && r.0[i].context == s.wrapper.context
    ensures r.1.dirty == s.dirty
    ensures r.1.wrapper.target.backing == s.wrapper.target.backing
    decreases |s.wrapper.target.backing| - s.wrapper.target.cursor
  {
    if !HasNext(s) then ([], s)
    else
      var n := Next(s);
      var rest := Drain(n.state);
      ([n.result.value] + rest.0, rest.1)
  }
}
