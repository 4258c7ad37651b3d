/**
 * The action semantics of the world model, as values.
 *
 * A `State` holds what `WorldModel::Execute` reads and writes: the id counter,
 * the entity registry, the metadata store, the action history, the recorded
 * errors, and the current `id` field of every entity object a batch mentions
 * (those fields are changed in place by CREATE and DELETE, so a later action
 * on the same object sees the new id). `Step` is one iteration of Execute's
 * loop, `ApplyAll` the whole loop; the class in module World is proved to
 * follow them.
 */
module WorldActions {
  import opened MetaDataStore

  type ID = nat

  /** The id of an entity that no world model has registered. */
  const NoID: ID := 0

  class WorldEntity {
    var id: ID
    const entityType: string

    constructor (entityType: string)
      ensures id == NoID && this.entityType == entityType
    {
      id := NoID;
      this.entityType := entityType;
    }
  }

  /** `Unrecognized` stands for any other value cast to the enumeration. */
  datatype WorldActionType = CREATE | DELETE | UPDATE | KEEP | Unrecognized(code: int)

  /** The entity pointer may be empty: `ChangeMetaData` on an unknown id builds such an action. */
  datatype WorldModelAction = WorldModelAction(actionType: WorldActionType, entity: WorldEntity?, metaData: MetaData)

  /** What `Execute` reports for an action it skips. */
  datatype ExecError =
    | EntityNotFound(id: ID, entityType: string)
    | AlreadyHasId(id: ID)
    | IllegalActionType(code: int)

  datatype State = State(
    idGenerator: ID,
    entities: map<ID, WorldEntity>,
    metaData: map<ID, MetaData>,
    history: seq<WorldModelAction>,
    errors: seq<ExecError>,
    ids: map<WorldEntity, ID>)

  /** Whether `id` names a registered entity; NoID never does. */
  predicate HasEntityWithId(entities: map<ID, WorldEntity>, id: ID): (r: bool)
    ensures r ==> id in entities
    ensures id == NoID ==> !r
  {
    id != NoID && id in entities
  }

  /** The stored metadata of `id`, or an empty one; never inserts. */
  function MetaDataOf(store: map<ID, MetaData>, id: ID): MetaData
  {
    if id in store then store[id] else map[]
  }

  /**
   * The store after merging `delta` into the metadata of `id`. An empty delta
   * leaves the store as it is (no entry is created for `id`).
   */
  function UpdatedMetaData(store: map<ID, MetaData>, id: ID, delta: MetaData): (r: map<ID, MetaData>)
    ensures r.Keys == if delta == map[] then store.Keys else store.Keys + {id}
    ensures forall k | k in store && k != id :: r[k] == store[k]
    ensures MetaDataOf(r, id) == Merge(MetaDataOf(store, id), delta)
  {
    if delta == map[] then store else store[id := Merge(MetaDataOf(store, id), delta)]
  }

  /** The entity objects a sequence of actions refers to. */
  function EntitiesOf(actions: seq<WorldModelAction>): set<WorldEntity>
  {
    set a | a in actions && a.entity != null :: a.entity as WorldEntity
  }

  predicate NoEmptyEntity(actions: seq<WorldModelAction>)
  {
    forall a | a in actions :: a.entity != null
  }

  /** Every entity of `actions` has its id recorded in `s`. */
  predicate Covers(s: State, actions: seq<WorldModelAction>)
  {
    forall a | a in actions :: a.entity != null && a.entity in s.ids
  }

  /** Whether `Execute` applies `a` in state `s` rather than skipping it with an error. */
  predicate Accepted(s: State, a: WorldModelAction)
    requires a.entity != null && a.entity in s.ids
  {
    var id := s.ids[a.entity];
    match a.actionType
    case CREATE => id == NoID
    case Unrecognized(_) => false
    case _ => HasEntityWithId(s.entities, id)
  }

  /** One iteration of Execute's loop. */
  function Step(s: State, a: WorldModelAction): (t: State)
    requires a.entity != null && a.entity in s.ids
    ensures t.ids.Keys == s.ids.Keys
  {
    var id := s.ids[a.entity];
    if !HasEntityWithId(s.entities, id) && !a.actionType.CREATE? then
      s.(errors := s.errors + [EntityNotFound(id, a.entity.entityType)])
    else
      match a.actionType
      case KEEP => s
      case CREATE =>
        if id != NoID then s.(errors := s.errors + [AlreadyHasId(id)])
        else
          var newId := s.idGenerator + 1;
          s.(idGenerator := newId,
             ids := s.ids[a.entity := newId],
             entities := s.entities[newId := a.entity],
             metaData := UpdatedMetaData(s.metaData, newId, a.metaData),
             history := s.history + [a])
      case DELETE =>
        s.(ids := s.ids[a.entity := NoID],
           entities := s.entities - {id},
           history := s.history + [a])
      case UPDATE =>
        s.(metaData := UpdatedMetaData(s.metaData, id, a.metaData),
           history := s.history + [a])
      case Unrecognized(code) => s.(errors := s.errors + [IllegalActionType(code)])
  }

  /** Execute's loop over a batch, in order. */
  function ApplyAll(s: State, actions: seq<WorldModelAction>): (t: State)
    requires Covers(s, actions)
    ensures t.ids.Keys == s.ids.Keys
    decreases |actions|
  {
    if actions == [] then s
    else
      var last := actions[|actions| - 1];
      assert last in actions;
      Step(ApplyAll(s, actions[..|actions| - 1]), last)
  }

  /**
   * The registry invariant: ids lie in 1..idGenerator, and every registered
   * entity object whose id is tracked carries the id it is registered under.
   */
  ghost predicate Inv(s: State)
  {
    && (forall k | k in s.entities :: 1 <= k <= s.idGenerator)
    && (forall k | k in s.metaData :: 1 <= k <= s.idGenerator)
    && (forall k | k in s.entities && s.entities[k] in s.ids :: s.ids[s.entities[k]] == k)
  }

  /** Under the registry invariant the NoID test is redundant: an id names an entity exactly when it is registered. */
  lemma RegisteredIdIsKnown(s: State, id: ID)
    requires Inv(s)
    ensures HasEntityWithId(s.entities, id) <==> id in s.entities
  {
  }

  /** `xs` is `ys` with some elements left out, the rest in their order. */
  ghost predicate IsSubsequence<T>(xs: seq<T>, ys: seq<T>)
    decreases |ys|
  {
    if ys == [] then xs == []
    else
      || IsSubsequence(xs, ys[..|ys| - 1])
      || (xs != [] && xs[|xs| - 1] == ys[|ys| - 1] && IsSubsequence(xs[..|xs| - 1], ys[..|ys| - 1]))
  }

  // ---------------------------------------------------------------------------
  // One action

  /**
   * An accepted action records no error; a skipped one changes nothing but the
   * error log, which grows by one. Exactly the accepted actions other than KEEP
   * are appended to the history.
   */
  lemma StepOutcome(s: State, a: WorldModelAction)
    requires a.entity != null && a.entity in s.ids
    ensures var t := Step(s, a);
      && (Accepted(s, a) ==> t.errors == s.errors)
      && (!Accepted(s, a) ==> t.(errors := s.errors) == s && |t.errors| == |s.errors| + 1)
      && t.history == if Accepted(s, a) && !a.actionType.KEEP? then s.history + [a] else s.history
  {
  }

  /** Every step keeps the registry invariant. */
  lemma StepKeepsInv(s: State, a: WorldModelAction)
    requires Inv(s) && a.entity != null && a.entity in s.ids
    ensures Inv(Step(s, a))
    ensures s.idGenerator <= Step(s, a).idGenerator
  {
    var t := Step(s, a);
    var id := s.ids[a.entity];
    if Accepted(s, a) && a.actionType.CREATE? {
      forall k | k in t.entities && t.entities[k] in t.ids
        ensures t.ids[t.entities[k]] == k
      {
        if k != t.idGenerator {
          assert t.entities[k] == s.entities[k];
          assert s.entities[k] != a.entity;
        }
      }
    } else if Accepted(s, a) && a.actionType.DELETE? {
      forall k | k in t.entities && t.entities[k] in t.ids
        ensures t.ids[t.entities[k]] == k
      {
        assert k != id;
        assert s.entities[k] != a.entity;
      }
    }
  }

  /** A step registers at most the one id it has just handed out, and changes no other entry. */
  lemma StepEntities(s: State, a: WorldModelAction)
    requires a.entity != null && a.entity in s.ids
    ensures var t := Step(s, a);
      forall k | k in t.entities ::
        (k in s.entities && t.entities[k] == s.entities[k]) || (k == t.idGenerator && s.idGenerator < k)
  {
  }

  /**
   * A successful CREATE gives its entity the id `idGenerator + 1`: never NoID,
   * above every registered id and every id with metadata, so the entity's
   * metadata is exactly the action's.
   */
  lemma CreateAssignsFreshId(s: State, a: WorldModelAction)
    requires Inv(s) && a.entity != null && a.entity in s.ids
    requires a.actionType == CREATE && s.ids[a.entity] == NoID
    ensures var t := Step(s, a); var newId := t.ids[a.entity];
      && newId == s.idGenerator + 1 == t.idGenerator
      && newId != NoID
      && (forall k | k in s.entities :: k < newId)
      && newId !in s.metaData
      && t.entities == s.entities[newId := a.entity]
      && t.ids == s.ids[a.entity := newId]
      && MetaDataOf(t.metaData, newId) == a.metaData
      && (forall k | k != newId :: MetaDataOf(t.metaData, k) == MetaDataOf(s.metaData, k))
  {
    var newId := s.idGenerator + 1;
    assert MetaDataOf(s.metaData, newId) == map[];
    assert Merge(map[], a.metaData) == a.metaData;
  }

  /**
   * CREATE on an entity that already has an id is skipped: the state is left
   * as it was but for one `AlreadyHasId` error. In particular executing the
   * same CREATE a second time fails.
   */
  lemma CreateTwiceRejected(s: State, a: WorldModelAction)
    requires Inv(s) && a.entity != null && a.entity in s.ids
    requires a.actionType == CREATE && s.ids[a.entity] == NoID
    ensures var t := Step(s, a); var newId := t.ids[a.entity];
      Step(t, a) == t.(errors := t.errors + [AlreadyHasId(newId)])
  {
  }

  /** A non-CREATE action on an entity that is not registered is skipped with an error. */
  lemma UnregisteredRejected(s: State, a: WorldModelAction)
    requires a.entity != null && a.entity in s.ids
    requires !a.actionType.CREATE? && !HasEntityWithId(s.entities, s.ids[a.entity])
    ensures Step(s, a) == s.(errors := s.errors + [EntityNotFound(s.ids[a.entity], a.entity.entityType)])
  {
  }

  /**
   * UPDATE merges its delta key by key into the entity's metadata and touches
   * nothing else: no other entity's metadata, no registration, no id.
   * An empty delta leaves the whole store unchanged.
   */
  lemma UpdateMerges(s: State, a: WorldModelAction)
    requires a.entity != null && a.entity in s.ids
    requires a.actionType == UPDATE && HasEntityWithId(s.entities, s.ids[a.entity])
    ensures var t := Step(s, a); var id := s.ids[a.entity];
      && (forall k | k in a.metaData :: GetValue(MetaDataOf(t.metaData, id), k) == a.metaData[k])
      && (forall k | k !in a.metaData :: GetValue(MetaDataOf(t.metaData, id), k) == GetValue(MetaDataOf(s.metaData, id), k))
      && (forall other | other != id :: MetaDataOf(t.metaData, other) == MetaDataOf(s.metaData, other))
      && t.entities == s.entities && t.ids == s.ids && t.idGenerator == s.idGenerator
      && (a.metaData == map[] ==> t.metaData == s.metaData)
  {
  }

  /**
   * DELETE unregisters the entity and resets its object's id to NoID, but keeps
   * the metadata stored under the old id (a tombstone). Nothing else changes.
   */
  lemma DeleteLeavesTombstone(s: State, a: WorldModelAction)
    requires a.entity != null && a.entity in s.ids
    requires a.actionType == DELETE && HasEntityWithId(s.entities, s.ids[a.entity])
    ensures var t := Step(s, a); var id := s.ids[a.entity];
      && !HasEntityWithId(t.entities, id)
      && t.entities == s.entities - {id}
      && t.ids == s.ids[a.entity := NoID]
      && t.idGenerator == s.idGenerator
      && t.errors == s.errors
      && t.metaData == s.metaData
      && t.history == s.history + [a]
  {
  }

  /** KEEP changes no state and is not logged, whether or not it is accepted. */
  lemma KeepChangesNothing(s: State, a: WorldModelAction)
    requires a.entity != null && a.entity in s.ids && a.actionType == KEEP
    ensures var t := Step(s, a);
      t.(errors := s.errors) == s && t.history == s.history
  {
  }

  // ---------------------------------------------------------------------------
  // Whole batches

  /** A batch applied after another is the same as their concatenation applied at once. */
  lemma {:induction false} ApplyAllConcat(s: State, xs: seq<WorldModelAction>, ys: seq<WorldModelAction>)
    requires Covers(s, xs + ys)
    ensures Covers(s, xs) && Covers(ApplyAll(s, xs), ys)
    ensures ApplyAll(s, xs + ys) == ApplyAll(ApplyAll(s, xs), ys)
    decreases |ys|
  {
    assert forall a | a in xs :: a in xs + ys;
    assert forall a | a in ys :: a in xs + ys;
    if ys != [] {
      var ys' := ys[..|ys| - 1];
      assert (xs + ys)[..|xs + ys| - 1] == xs + ys';
      assert forall a | a in xs + ys' :: a in xs + ys;
      ApplyAllConcat(s, xs, ys');
    } else {
      assert xs + ys == xs;
    }
  }

  /**
   * The registry invariant holds after any batch; the id counter never goes
   * down; an id at or below the old counter is never registered anew (ids are
   * not reused), and every newly registered id lies above the old counter.
   */
  lemma {:induction false} BatchKeepsIdentity(s: State, actions: seq<WorldModelAction>)
    requires Inv(s) && Covers(s, actions)
    ensures var t := ApplyAll(s, actions);
      && Inv(t)
      && s.idGenerator <= t.idGenerator
      && (forall k | k in t.entities && k <= s.idGenerator :: k in s.entities && t.entities[k] == s.entities[k])
      && (forall k | k in t.entities && k !in s.entities :: s.idGenerator < k <= t.idGenerator)
    decreases |actions|
  {
    if actions != [] {
      var prefix := actions[..|actions| - 1];
      var last := actions[|actions| - 1];
      assert forall a | a in prefix :: a in actions;
      assert last in actions;
      BatchKeepsIdentity(s, prefix);
      var mid := ApplyAll(s, prefix);
      StepKeepsInv(mid, last);
      StepEntities(mid, last);
    }
  }

  /**
   * The history is append-only: a batch leaves the old history as a prefix and
   * appends a subsequence of its own actions, in batch order, none of them KEEP.
   */
  lemma {:induction false} BatchHistory(s: State, actions: seq<WorldModelAction>)
    requires Covers(s, actions)
    ensures var t := ApplyAll(s, actions);
      && |s.history| <= |t.history|
      && t.history[..|s.history|] == s.history
      && IsSubsequence(t.history[|s.history|..], actions)
      && (forall j | |s.history| <= j < |t.history| :: !t.history[j].actionType.KEEP?)
    decreases |actions|
  {
    var t := ApplyAll(s, actions);
    if actions == [] {
      assert t.history[|s.history|..] == [];
    } else {
      var prefix := actions[..|actions| - 1];
      var last := actions[|actions| - 1];
      assert forall a | a in prefix :: a in actions;
      assert last in actions;
      BatchHistory(s, prefix);
      var mid := ApplyAll(s, prefix);
      StepOutcome(mid, last);
      var added := mid.history[|s.history|..];
      if t.history == mid.history {
        assert IsSubsequence(added, actions);
      } else {
        assert t.history == mid.history + [last];
        assert t.history[|s.history|..] == added + [last];
        assert (added + [last])[..|added|] == added;
      }
    }
  }

  // ---------------------------------------------------------------------------
  // Scenarios

  /**
   * CREATE then UPDATE of the same entity object in one batch: both apply, the
   * UPDATE finds the entity under the id CREATE wrote into it, and the stored
   * metadata is the UPDATE's delta merged onto the CREATE's.
   */
  lemma CreateThenUpdate(s: State, e: WorldEntity, created: MetaData, delta: MetaData)
    requires Inv(s) && e in s.ids && s.ids[e] == NoID
    ensures var batch := [WorldModelAction(CREATE, e, created), WorldModelAction(UPDATE, e, delta)];
      var t := ApplyAll(s, batch);
      && t.ids[e] == s.idGenerator + 1
      && t.entities == s.entities[s.idGenerator + 1 := e]
      && MetaDataOf(t.metaData, s.idGenerator + 1) == Merge(created, delta)
      && t.history == s.history + batch
      && t.errors == s.errors
  {
    var c := WorldModelAction(CREATE, e, created);
    var u := WorldModelAction(UPDATE, e, delta);
    var batch := [c, u];
    assert batch[..1] == [c];
    assert [c][..0] == [];
    CreateAssignsFreshId(s, c);
    var t1 := Step(s, c);
    assert ApplyAll(s, [c]) == t1;
    assert ApplyAll(s, batch) == Step(t1, u);
    assert t1.ids[e] == s.idGenerator + 1;
    assert HasEntityWithId(t1.entities, t1.ids[e]);
  }

  /**
   * An unrecognized action type on an entity a CREATE earlier in the batch
   * registered is reported as illegal; the CREATE stays applied.
   */
  lemma CreateThenIllegal(s: State, e: WorldEntity, code: int)
    requires Inv(s) && e in s.ids && s.ids[e] == NoID
    ensures var c := WorldModelAction(CREATE, e, map[]);
      var t := ApplyAll(s, [c, WorldModelAction(Unrecognized(code), e, map[])]);
      && t.history == s.history + [c]
      && t.errors == s.errors + [IllegalActionType(code)]
      && HasEntityWithId(t.entities, t.ids[e])
  {
    var c := WorldModelAction(CREATE, e, map[]);
    var x := WorldModelAction(Unrecognized(code), e, map[]);
    var batch := [c, x];
    assert batch[..1] == [c];
    assert [c][..0] == [];
    var t1 := Step(s, c);
    assert ApplyAll(s, [c]) == t1;
    assert ApplyAll(s, batch) == Step(t1, x);
    assert HasEntityWithId(t1.entities, t1.ids[e]);
  }

  /** A model with no entities skips every non-CREATE action, whatever id its entity carries. */
  lemma EmptyRegistryRejects(s: State, a: WorldModelAction)
    requires s.entities == map[] && a.entity != null && a.entity in s.ids && !a.actionType.CREATE?
    ensures !Accepted(s, a)
    ensures Step(s, a).(errors := s.errors) == s
  {
  }

  // ---------------------------------------------------------------------------
  // Queries over the history

  /** A CREATE or UPDATE with a non-empty delta whose entity object now has id `id`. */
  predicate CarriesMetaData(a: WorldModelAction, id: ID)
    requires a.entity != null
    reads a.entity
  {
    a.entity.id == id && (a.actionType.CREATE? || a.actionType.UPDATE?) && a.metaData != map[]
  }

  /**
   * The history entries of `id` that carry metadata, in history order and as
   * often as they occur there. Deleted entities have id NoID, so their entries
   * are found under NoID.
   */
  function MetaDataHistory(history: seq<WorldModelAction>, id: ID): (r: seq<WorldModelAction>)
    requires NoEmptyEntity(history)
    reads EntitiesOf(history)
    ensures IsSubsequence(r, history)
    ensures forall a | a in r :: a in history && CarriesMetaData(a, id)
    ensures forall a | a in history && CarriesMetaData(a, id) :: multiset(r)[a] == multiset(history)[a]
    decreases |history|
  {
    if history == [] then []
    else
      var prefix := history[..|history| - 1];
      var last := history[|history| - 1];
      assert forall a | a in prefix :: a in history;
      assert EntitiesOf(prefix) <= EntitiesOf(history);
      var kept := MetaDataHistory(prefix, id);
      assert history == prefix + [last];
      assert multiset(history) == multiset(prefix) + multiset{last};
      if CarriesMetaData(last, id) then
        assert (kept + [last])[..|kept|] == kept;
        assert multiset(kept + [last]) == multiset(kept) + multiset{last};
        kept + [last]
      else kept
  }
}
