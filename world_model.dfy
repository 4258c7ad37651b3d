/**
 * The transactional world-state engine: a registry of entities keyed by id,
 * a separate per-id metadata store, an append-only action history, and a set
 * of listeners told once about every non-empty batch.
 *
 * `Execute` follows the code's reading of a rejected action: it is skipped,
 * an error is recorded in `errorLog`, and the batch goes on.
 */
module World {
  import opened Wrappers
  import opened MetaDataStore
  import opened WorldActions

  /** A registered listener, identified by a handle; its callback is modelled as a log entry. */
  type ListenerId = nat

  datatype Notification = Notification(listener: ListenerId, actions: seq<WorldModelAction>)

  /** One notification per listener, in registration order, each with the whole batch. */
  function NotifyAll(listeners: seq<ListenerId>, actions: seq<WorldModelAction>): (r: seq<Notification>)
    ensures |r| == |listeners|
    ensures forall i | 0 <= i < |r| :: r[i] == Notification(listeners[i], actions)
  {
    seq(|listeners|, i requires 0 <= i < |listeners| => Notification(listeners[i], actions))
  }

  /** The entities of type `t` with ids 1..n, in ascending id order. */
  function OfTypeUpTo(entities: map<ID, WorldEntity>, t: string, n: nat): seq<WorldEntity>
  {
    if n == 0 then []
    else OfTypeUpTo(entities, t, n - 1) + (if n in entities && entities[n].entityType == t then [entities[n]] else [])
  }

  /** Exactly the registered entities of type `t` among ids 1..n, and nothing else. */
  lemma {:induction false} OfTypeUpToSpec(entities: map<ID, WorldEntity>, t: string, n: nat)
    ensures forall e | e in OfTypeUpTo(entities, t, n) :: e.entityType == t
    ensures forall k | 1 <= k <= n && k in entities && entities[k].entityType == t :: entities[k] in OfTypeUpTo(entities, t, n)
    ensures forall e | e in OfTypeUpTo(entities, t, n) :: exists k :: 1 <= k <= n && k in entities && entities[k] == e
  {
    if n > 0 {
      OfTypeUpToSpec(entities, t, n - 1);
    }
  }

  class WorldModel {
    var idGenerator: ID
    var entities: map<ID, WorldEntity>
    var metaData: map<ID, MetaData>
    var actionHistory: seq<WorldModelAction>
    var errorLog: seq<ExecError>
    var entityTypeCache: map<string, seq<WorldEntity>>
    var listeners: seq<ListenerId>
    var notifications: seq<Notification>

    /** Every registered entity object carries its own id; ids lie in 1..idGenerator. */
    ghost predicate Registered()
      reads this`idGenerator, this`entities, this`metaData, this`actionHistory, entities.Values
    {
      && (forall k | k in entities :: 1 <= k <= idGenerator && entities[k].id == k)
      && (forall k | k in metaData :: 1 <= k <= idGenerator)
      && NoEmptyEntity(actionHistory)
    }

    /** The registered entities of type `t`, in ascending id order. */
    function OfType(t: string): seq<WorldEntity>
      reads this
    {
      OfTypeUpTo(entities, t, idGenerator)
    }

    /**
     * The type cache is either empty (to be rebuilt) or agrees with the
     * registry on every type it holds and is complete for the others.
     */
    ghost predicate CacheConsistent()
      reads this
    {
      && (forall t | t in entityTypeCache :: entityTypeCache[t] == OfType(t))
      && (entityTypeCache != map[] ==> forall t | t !in entityTypeCache :: OfType(t) == [])
    }

    ghost predicate Valid()
      reads this, entities.Values
    {
      Registered() && CacheConsistent()
    }

    /** The engine's state as a value, with the current ids of the entity objects in `E`. */
    ghost function Snap(E: set<WorldEntity>): State
      reads this`idGenerator, this`entities, this`metaData, this`actionHistory, this`errorLog, E
    {
      State(idGenerator, entities, metaData, actionHistory, errorLog, map e | e in E :: e.id)
    }

    lemma SnapInv(E: set<WorldEntity>)
      requires Registered()
      ensures Inv(Snap(E))
    {
    }

    constructor ()
      ensures Valid()
      ensures idGenerator == 0 && entities == map[] && metaData == map[]
      ensures actionHistory == [] && errorLog == [] && entityTypeCache == map[]
      ensures listeners == [] && notifications == []
    {
      idGenerator := 0;
      entities := map[];
      metaData := map[];
      actionHistory := [];
      errorLog := [];
      entityTypeCache := map[];
      listeners := [];
      notifications := [];
    }

    /** The counter is pre-incremented: the first id handed out is 1. */
    method NewId() returns (id: ID)
      modifies this`idGenerator
      ensures idGenerator == old(idGenerator) + 1 && id == idGenerator
    {
      idGenerator := idGenerator + 1;
      id := idGenerator;
    }

    function GetEntityById(id: ID): (r: WorldEntity?)
      reads this
      ensures r != null <==> HasEntityWithId(entities, id)
      ensures r != null ==> r == entities[id]
    {
      if HasEntityWithId(entities, id) then entities[id] else null
    }

    /** A detached copy of the metadata of `entityId`; empty for an unknown id. */
    function GetMetaData(entityId: ID): (r: MetaData)
      reads this
      ensures entityId in metaData ==> r == metaData[entityId]
      ensures entityId !in metaData ==> r == map[]
    {
      MetaDataOf(metaData, entityId)
    }

    /** The actions executed so far, in execution order. */
    function GetHistory(): (r: seq<WorldModelAction>)
      reads this
      ensures r == actionHistory
    {
      actionHistory
    }

    /**
     * Builds, without executing it, an UPDATE of `key` to `updater` applied to
     * the current value (0 when absent). The entity is empty for an unknown id.
     */
    function ChangeMetaData(entityId: ID, key: string, updater: int -> int): (r: WorldModelAction)
      reads this
      ensures r.actionType == UPDATE
      ensures r.entity == GetEntityById(entityId)
      ensures r.metaData.Keys == {key}
      ensures r.metaData[key] == updater(if key in MetaDataOf(metaData, entityId) then MetaDataOf(metaData, entityId)[key] else 0)
    {
      WorldModelAction(UPDATE, GetEntityById(entityId), map[key := updater(GetValue(GetMetaData(entityId), key))])
    }

    /** Merges `newData` into the metadata of `newId`, one name at a time. */
    method UpdateMetaDataForId(newId: ID, newData: MetaData)
      modifies this`metaData
      ensures metaData == UpdatedMetaData(old(metaData), newId, newData)
    {
      var names := newData.Keys;
      ghost var done: set<string> := {};
      ghost var applied: MetaData := map[];
      ghost var base := MetaDataOf(old(metaData), newId);
      while names != {}
        invariant names + done == newData.Keys && names !! done
        invariant applied == map k | k in done :: newData[k]
        invariant metaData == if done == {} then old(metaData) else old(metaData)[newId := Merge(base, applied)]
        decreases names
      {
        var name :| name in names;
        var current := MetaDataOf(metaData, newId);
        assert current == Merge(base, applied);
        MergeThenSet(base, applied, name, newData[name]);
        metaData := metaData[newId := current[name := newData[name]]];
        names := names - {name};
        done := done + {name};
        applied := applied[name := newData[name]];
      }
      assert applied == newData;
    }

    /** One iteration of Execute's loop; a rejected action only records an error. */
    method ExecuteAction(action: WorldModelAction, ghost E: set<WorldEntity>)
      requires Registered()
      requires action.entity != null && action.entity in E
      modifies this`idGenerator, this`entities, this`metaData, this`actionHistory, this`errorLog, action.entity
      ensures Registered()
      ensures Snap(E) == Step(old(Snap(E)), action)
    {
      var e: WorldEntity := action.entity;
      var id := e.id;
      var entity := GetEntityById(id);
      if entity == null && !action.actionType.CREATE? {
        errorLog := errorLog + [EntityNotFound(id, e.entityType)];
        return;
      }
      match action.actionType {
        case KEEP =>
        case CREATE =>
          if id != NoID {
            errorLog := errorLog + [AlreadyHasId(id)];
            return;
          }
          Create(action, E);
        case DELETE =>
          Delete(action, E);
        case UPDATE =>
          UpdateMetaDataForId(id, action.metaData);
          actionHistory := actionHistory + [action];
        case Unrecognized(code) =>
          errorLog := errorLog + [IllegalActionType(code)];
      }
    }

    /** The applied branch of CREATE: a fresh id, written into the entity object. */
    method Create(action: WorldModelAction, ghost E: set<WorldEntity>)
      requires Registered()
      requires action.entity != null && action.entity in E
      requires action.actionType == CREATE && action.entity.id == NoID
      modifies this`idGenerator, this`entities, this`metaData, this`actionHistory, action.entity
      ensures Registered() && errorLog == old(errorLog)
      ensures Snap(E) == Step(old(Snap(E)), action)
    {
      var e: WorldEntity := action.entity;
      ghost var s := Snap(E);
      assert forall k | k in entities :: entities[k] != e;
      var newId := NewId();
      e.id := newId;
      entities := entities[newId := e];
      UpdateMetaDataForId(newId, action.metaData);
      actionHistory := actionHistory + [action];
      assert (map x | x in E :: x.id) == s.ids[e := newId];
    }

    /** The applied branch of DELETE: unregister, reset the object's id, keep the metadata. */
    method Delete(action: WorldModelAction, ghost E: set<WorldEntity>)
      requires Registered()
      requires action.entity != null && action.entity in E
      requires action.actionType == DELETE && HasEntityWithId(entities, action.entity.id)
      modifies this`entities, this`actionHistory, action.entity
      ensures Registered() && errorLog == old(errorLog)
      ensures Snap(E) == Step(old(Snap(E)), action)
    {
      var e: WorldEntity := action.entity;
      var id := e.id;
      ghost var s := Snap(E);
      assert forall k | k in entities && k != id :: entities[k] != e;
      e.id := NoID;
      entities := entities - {id};
      actionHistory := actionHistory + [action];
      assert (map x | x in E :: x.id) == s.ids[e := NoID];
    }

    /** Execute's loop: the actions one after another, in order. */
    method ExecuteActions(actions: seq<WorldModelAction>, ghost E: set<WorldEntity>)
      requires Registered()
      requires Covers(Snap(E), actions)
      modifies this`idGenerator, this`entities, this`metaData, this`actionHistory, this`errorLog, E
      ensures Registered()
      ensures Snap(E) == ApplyAll(old(Snap(E)), actions)
    {
      ghost var s0 := Snap(E);
      for i := 0 to |actions|
        invariant Registered()
        invariant Snap(E) == ApplyAll(s0, actions[..i])
      {
        assert actions[i] in actions && actions[..i + 1][..i] == actions[..i];
        ExecuteAction(actions[i], E);
      }
      assert actions[..|actions|] == actions;
    }

    /**
     * Executes a batch in order. The state afterwards is `ApplyAll` of the
     * state before; a non-empty batch then clears the type cache and notifies
     * every listener once with the whole batch; an empty batch changes nothing.
     */
    method Execute(actions: seq<WorldModelAction>)
      requires Valid()
      requires NoEmptyEntity(actions)
      modifies this, EntitiesOf(actions)
      ensures Valid()
      ensures Snap(EntitiesOf(actions)) == ApplyAll(old(Snap(EntitiesOf(actions))), actions)
      ensures listeners == old(listeners)
      ensures actions != [] ==> entityTypeCache == map[] && notifications == old(notifications) + NotifyAll(listeners, actions)
      ensures actions == [] ==> entityTypeCache == old(entityTypeCache) && notifications == old(notifications)
    {
      ghost var E := EntitiesOf(actions);
      assert Covers(Snap(E), actions);
      ExecuteActions(actions, E);
      FinishBatch(actions);
    }

    /** After a non-empty batch: the type cache is cleared and every listener is told. */
    method FinishBatch(actions: seq<WorldModelAction>)
      modifies this`entityTypeCache, this`notifications
      ensures actions != [] ==> entityTypeCache == map[] && notifications == old(notifications) + NotifyAll(listeners, actions)
      ensures actions == [] ==> entityTypeCache == old(entityTypeCache) && notifications == old(notifications)
    {
      if actions != [] {
        entityTypeCache := map[];
        InformListeners(actions);
      }
    }

    method InformListeners(actions: seq<WorldModelAction>)
      modifies this`notifications
      ensures notifications == old(notifications) + NotifyAll(listeners, actions)
    {
      for i := 0 to |listeners|
        invariant notifications == old(notifications) + NotifyAll(listeners[..i], actions)
      {
        notifications := notifications + [Notification(listeners[i], actions)];
        assert NotifyAll(listeners[..i + 1], actions) == NotifyAll(listeners[..i], actions) + [Notification(listeners[i], actions)];
      }
      assert listeners[..|listeners|] == listeners;
    }

    /** An empty listener pointer is ignored. */
    method AddListener(listener: Option<ListenerId>)
      modifies this`listeners
      ensures listeners == old(listeners) + (if listener.Some? then [listener.value] else [])
    {
      if listener.Some? {
        listeners := listeners + [listener.value];
      }
    }

    /** Fills the cache from the whole registry, one id after another in ascending order. */
    method RebuildTypeCache()
      requires entityTypeCache == map[]
      modifies this`entityTypeCache
      ensures forall tp | tp in entityTypeCache :: entityTypeCache[tp] == OfType(tp)
      ensures forall tp | tp !in entityTypeCache :: OfType(tp) == []
    {
      for k := 0 to idGenerator
        invariant forall tp | tp in entityTypeCache :: entityTypeCache[tp] == OfTypeUpTo(entities, tp, k)
        invariant forall tp | tp !in entityTypeCache :: OfTypeUpTo(entities, tp, k) == []
      {
        var id := k + 1;
        if id in entities {
          var entity := entities[id];
          var tp := entity.entityType;
          var sofar := if tp in entityTypeCache then entityTypeCache[tp] else [];
          entityTypeCache := entityTypeCache[tp := sofar + [entity]];
        }
      }
    }

    /**
     * The registered entities of type `t`, in ascending id order. An empty cache
     * is first rebuilt from the whole registry; looking up a type the cache
     * lacks stores an empty entry for it.
     */
    method GetEntitiesWithType(t: string) returns (r: seq<WorldEntity>)
      requires Valid()
      modifies this`entityTypeCache
      ensures Valid()
      ensures r == OfType(t)
      ensures t in entityTypeCache
    {
      if entityTypeCache == map[] {
        RebuildTypeCache();
      }
      if t !in entityTypeCache {
        entityTypeCache := entityTypeCache[t := []];
      }
      r := entityTypeCache[t];
    }

    /**
     * The history entries of `id` that carry metadata (CREATE and UPDATE with a
     * non-empty delta), matched on the entity object's id as it is now.
     */
    method GetMetaDataHistoryForId(id: ID) returns (r: seq<WorldModelAction>)
      requires Registered()
      ensures r == MetaDataHistory(actionHistory, id)
    {
      r := [];
      for i := 0 to |actionHistory|
        invariant r == MetaDataHistory(actionHistory[..i], id)
      {
        var action := actionHistory[i];
        assert actionHistory[..i + 1][..i] == actionHistory[..i];
        if action.entity.id == id && (action.actionType.CREATE? || action.actionType.UPDATE?) && action.metaData != map[] {
          r := r + [action];
        }
      }
      assert actionHistory[..|actionHistory|] == actionHistory;
    }
  }
}
