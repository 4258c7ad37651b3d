/**
 * Quests and their per-tick decisions. A tick only reads the world model:
 * the world actions it wants are returned, together with the lifecycle
 * action for the quest itself (KEEP it running or mark it SUCCEEDed), and
 * the caller decides when to execute them.
 *
 * `HuntAndKill` is the space quest "destroy the target ship": while the
 * target lives it is steered into the quest's solar system; once it is
 * destroyed the quest succeeds and the sponsor's relation to the player rises.
 */
module QuestModel {
  import opened MetaDataStore
  import WorldActions
  import World

  type ID = WorldActions.ID

  /** The lifecycle actions a tick of these quests can ask for. */
  datatype QuestActionType = KEEP | SUCCEED

  datatype QuestModelAction = QuestModelAction(actionType: QuestActionType, questId: ID)

  /** What one tick asks for: world actions, then the quest's own lifecycle action. */
  datatype QuestTickResult = QuestTickResult(worldChanges: seq<WorldActions.WorldModelAction>, questChanges: QuestModelAction)
  {
    function GetWorldChanges(): seq<WorldActions.WorldModelAction>
    {
      worldChanges
    }

    function GetQuestChange(): QuestModelAction
    {
      questChanges
    }
  }

  /** A result asking for nothing: no world changes, and KEEP for the quest. */
  function KeepResult(questId: ID): (r: QuestTickResult)
    ensures r.GetWorldChanges() == []
    ensures r.GetQuestChange().actionType == KEEP && r.GetQuestChange().questId == questId
  {
    QuestTickResult([], QuestModelAction(KEEP, questId))
  }

  /** A result with the given lifecycle action and no world changes. */
  function ChangeOnlyResult(questChanges: QuestModelAction): (r: QuestTickResult)
    ensures r.GetWorldChanges() == [] && r.GetQuestChange() == questChanges
  {
    QuestTickResult([], questChanges)
  }

  /** A result with the given world changes that keeps the quest running. */
  function KeepResultWith(questId: ID, worldChanges: seq<WorldActions.WorldModelAction>): (r: QuestTickResult)
    ensures r.GetWorldChanges() == worldChanges
    ensures r.GetQuestChange().actionType == KEEP && r.GetQuestChange().questId == questId
  {
    QuestTickResult(worldChanges, QuestModelAction(KEEP, questId))
  }

  /** The getters give back exactly what the result was built from. */
  lemma TickResultGetters(worldChanges: seq<WorldActions.WorldModelAction>, questChanges: QuestModelAction)
    ensures QuestTickResult(worldChanges, questChanges).GetWorldChanges() == worldChanges
    ensures QuestTickResult(worldChanges, questChanges).GetQuestChange() == questChanges
  {
  }

  /** The three ways of building a KEEP result agree when there are no world changes. */
  lemma KeepResultsAgree(questId: ID)
    ensures KeepResultWith(questId, []) == KeepResult(questId)
    ensures ChangeOnlyResult(QuestModelAction(KEEP, questId)) == KeepResult(questId)
  {
  }

  datatype QuestKind =
    | Basic
    | HuntAndKill(targetShip: ID, solarSystem: ID, sponsor: ID)

  datatype Quest = Quest(id: ID, title: string, description: string, story: string, kind: QuestKind)
  {
    function GetId(): ID
    {
      id
    }

    function GetTitle(): string
    {
      title
    }

    function GetDescription(): string
    {
      description
    }

    function GetStory(): string
    {
      story
    }

    function GetType(): (r: string)
      requires kind.HuntAndKill?
      ensures r == "Space::HuntAndKill"
    {
      "Space::HuntAndKill"
    }
  }

  /** A quest not yet registered: it has no id and no story. */
  function NewQuest(title: string, description: string): (q: Quest)
    ensures q.GetId() == WorldActions.NoID && q.GetStory() == ""
    ensures q.GetTitle() == title && q.GetDescription() == description && q.kind.Basic?
  {
    Quest(WorldActions.NoID, title, description, "", Basic)
  }

  /** A quest not yet registered, with its story. */
  function NewQuestWithStory(title: string, description: string, story: string): (q: Quest)
    ensures q.GetId() == WorldActions.NoID
    ensures q.GetTitle() == title && q.GetDescription() == description && q.GetStory() == story && q.kind.Basic?
  {
    Quest(WorldActions.NoID, title, description, story, Basic)
  }

  /** A hunt-and-kill quest not yet registered. */
  function NewHuntAndKill(title: string, description: string, story: string,
                          targetShip: ID, solarSystem: ID, sponsor: ID): (q: Quest)
    ensures q.GetId() == WorldActions.NoID
    ensures q.GetTitle() == title && q.GetDescription() == description && q.GetStory() == story
    ensures q.kind == HuntAndKill(targetShip, solarSystem, sponsor)
  {
    Quest(WorldActions.NoID, title, description, story, HuntAndKill(targetShip, solarSystem, sponsor))
  }

  /** The getters give back exactly what the quest was built from. */
  lemma QuestGetters(id: ID, title: string, description: string, story: string, kind: QuestKind)
    ensures var q := Quest(id, title, description, story, kind);
      q.GetId() == id && q.GetTitle() == title && q.GetDescription() == description && q.GetStory() == story
  {
  }

  /** The metadata markers a hunt reads and writes. */
  const Destroyed := "Destroyed"
  const RelationToPlayer := "RelationToPlayer"
  const CurrentLocation := "CurrentLocation"

  const TwoTo31: int := 0x8000_0000
  const TwoTo32: int := 0x1_0000_0000
  const TwoTo64: int := 0x1_0000_0000_0000_0000

  /** An id stored as a metadata value: conversion to a 32-bit signed int, wrapping around. */
  function ToInt32(v: int): (r: int)
    ensures -TwoTo31 <= r < TwoTo31
    ensures (r - v) % TwoTo32 == 0
  {
    (v + TwoTo31) % TwoTo32 - TwoTo31
  }

  /** A metadata value read as an id: conversion to an unsigned 64-bit integer, wrapping around. */
  function ToID(v: int): (r: ID)
    ensures r < TwoTo64
    ensures (r - v) % TwoTo64 == 0
  {
    v % TwoTo64
  }

  /** An id below 2^31 survives being stored as a metadata value and read back. */
  lemma StoredIdRoundTrip(id: ID)
    requires id < TwoTo31
    ensures ToID(ToInt32(id)) == id
  {
  }

  /** Larger ids do not: the stored value is negative and reads back as a huge id. */
  lemma StoredIdWraps()
    ensures ToID(ToInt32(TwoTo31)) == TwoTo64 - TwoTo31
  {
  }

  /** The sponsor's relation after the hunt: raised by `relationAdd`, capped at 100. */
  function RaisedRelation(relationAdd: int, oldVal: int): (r: int)
    ensures r <= 100
    ensures r <= relationAdd + oldVal
    ensures r == relationAdd + oldVal || r == 100
  {
    var newRelation := relationAdd + oldVal;
    if newRelation > 100 then 100 else newRelation
  }

  /** A positive bonus never lowers a relation that is not already above the cap. */
  lemma RaisedRelationMonotone(relationAdd: int, oldVal: int)
    requires relationAdd >= 0 && oldVal <= 100
    ensures oldVal <= RaisedRelation(relationAdd, oldVal) <= 100
  {
  }

  /** Whether the target ship is marked destroyed in `world`. */
  predicate TargetDestroyed(world: World.WorldModel, targetShip: ID)
    reads world
  {
    GetValue(world.GetMetaData(targetShip), Destroyed) != 0
  }

  /** Whether the target ship is registered and located outside `solarSystem`. */
  predicate TargetElsewhere(world: World.WorldModel, targetShip: ID, solarSystem: ID)
    reads world
  {
    world.GetEntityById(targetShip) != null
    && ToID(GetValue(world.GetMetaData(targetShip), CurrentLocation)) != solarSystem
  }

  /** The default tick: nothing changes and the quest keeps running. */
  function DefaultTick(q: Quest): (r: QuestTickResult)
    ensures r.GetWorldChanges() == [] && r.GetQuestChange() == QuestModelAction(KEEP, q.GetId())
  {
    QuestTickResult([], QuestModelAction(KEEP, q.GetId()))
  }

  /**
   * One tick of `q` against `world`. `relationAdd` is the hunt's relation
   * bonus. The quest action always carries the quest's own id; a basic quest
   * asks for nothing; a hunt succeeds exactly when its target is destroyed,
   * and asks for at most one world change, always a one-key UPDATE.
   */
  function Tick(q: Quest, world: World.WorldModel, relationAdd: int): (r: QuestTickResult)
    reads world
    ensures r.GetQuestChange().questId == q.GetId()
    ensures r.GetQuestChange().actionType == SUCCEED <==> q.kind.HuntAndKill? && TargetDestroyed(world, q.kind.targetShip)
    ensures q.kind.Basic? ==> r.GetWorldChanges() == []
    ensures q.kind.HuntAndKill? ==>
      (|r.GetWorldChanges()| == 1 <==>
         if TargetDestroyed(world, q.kind.targetShip) then q.kind.sponsor != WorldActions.NoID
         else TargetElsewhere(world, q.kind.targetShip, q.kind.solarSystem))
    ensures |r.GetWorldChanges()| <= 1
    ensures forall a | a in r.GetWorldChanges() :: a.actionType == WorldActions.UPDATE && |a.metaData.Keys| == 1
  {
    match q.kind
    case Basic => DefaultTick(q)
    case HuntAndKill(targetShip, solarSystem, sponsor) =>
      if TargetDestroyed(world, targetShip) then
        var changes :=
          if sponsor != WorldActions.NoID then
            [world.ChangeMetaData(sponsor, RelationToPlayer, oldVal => RaisedRelation(relationAdd, oldVal))]
          else [];
        QuestTickResult(changes, QuestModelAction(SUCCEED, q.GetId()))
      else if TargetElsewhere(world, targetShip, solarSystem) then
        var updated := map[CurrentLocation := ToInt32(solarSystem)];
        KeepResultWith(q.GetId(), [WorldActions.WorldModelAction(WorldActions.UPDATE, world.GetEntityById(targetShip), updated)])
      else KeepResultWith(q.GetId(), [])
  }

  /** A successful hunt with a sponsor raises the sponsor's relation to the player, capped at 100. */
  lemma SponsorRewarded(q: Quest, world: World.WorldModel, relationAdd: int)
    requires q.kind.HuntAndKill? && TargetDestroyed(world, q.kind.targetShip) && q.kind.sponsor != WorldActions.NoID
    ensures var r := Tick(q, world, relationAdd); var sponsor := q.kind.sponsor;
      && |r.GetWorldChanges()| == 1
      && r.GetWorldChanges()[0].entity == world.GetEntityById(sponsor)
      && r.GetWorldChanges()[0].metaData ==
           map[RelationToPlayer := RaisedRelation(relationAdd, GetValue(world.GetMetaData(sponsor), RelationToPlayer))]
  {
  }

  /** A live target outside the quest's system is moved there, and the quest keeps running. */
  lemma TargetMoved(q: Quest, world: World.WorldModel, relationAdd: int)
    requires q.kind.HuntAndKill? && !TargetDestroyed(world, q.kind.targetShip)
    requires TargetElsewhere(world, q.kind.targetShip, q.kind.solarSystem)
    ensures var r := Tick(q, world, relationAdd);
      && r.GetQuestChange() == QuestModelAction(KEEP, q.GetId())
      && r.GetWorldChanges() == [WorldActions.WorldModelAction(WorldActions.UPDATE, world.GetEntityById(q.kind.targetShip),
                                                               map[CurrentLocation := ToInt32(q.kind.solarSystem)])]
  {
  }

  /**
   * Moving settles: once the move a tick asked for has been executed (the
   * world `after` is the world `before` stepped by that action), the next
   * tick asks for nothing. Holds for solar-system ids below 2^31, which
   * survive being stored as a metadata value.
   */
  lemma MoveSettles(q: Quest, before: World.WorldModel, after: World.WorldModel, E: set<WorldActions.WorldEntity>, relationAdd: int)
    requires q.kind.HuntAndKill? && q.kind.solarSystem < TwoTo31
    requires before.Registered()
    requires !TargetDestroyed(before, q.kind.targetShip) && TargetElsewhere(before, q.kind.targetShip, q.kind.solarSystem)
    requires before.GetEntityById(q.kind.targetShip) in E
    requires after.Snap(E) == WorldActions.Step(before.Snap(E), Tick(q, before, relationAdd).GetWorldChanges()[0])
    ensures Tick(q, after, relationAdd) == KeepResult(q.GetId())
  {
    var target := q.kind.targetShip;
    var e := before.GetEntityById(target);
    var move := Tick(q, before, relationAdd).GetWorldChanges()[0];
    TargetMoved(q, before, relationAdd);
    assert move.entity == e && e == before.entities[target] && e.id == target;
    var s := before.Snap(E);
    assert s.ids[e] == target;
    var t := WorldActions.Step(s, move);
    assert t.metaData == WorldActions.UpdatedMetaData(s.metaData, target, map[CurrentLocation := ToInt32(q.kind.solarSystem)]);
    assert t.entities == s.entities;
    assert after.metaData == t.metaData && after.entities == t.entities;
    var md := after.GetMetaData(target);
    assert md == Merge(before.GetMetaData(target), map[CurrentLocation := ToInt32(q.kind.solarSystem)]);
    assert GetValue(md, Destroyed) == GetValue(before.GetMetaData(target), Destroyed);
    StoredIdRoundTrip(q.kind.solarSystem);
    assert !TargetElsewhere(after, target, q.kind.solarSystem);
  }
}
