/**
 * A simple story template: it needs one entity per required type, drawn at
 * random among the candidates that satisfy the template's metadata
 * conditions, and it produces a token map ("1", "2", ... to entity ids) and,
 * for once-per-entity stories, actions that mark the chosen entities as used.
 */
module Story {
  import opened Wrappers
  import opened MetaDataStore
  import opened WorldActions
  import opened World
  import opened Random
  import opened Decimal

  datatype StoryCondition = OncePerEntity | WithoutProperty | WithProperty | GreaterThan | SmallerThan

  /** Candidate entities offered for each entity type. */
  type EntityMap = map<string, seq<WorldEntity>>

  /** Story token to the ids of the entities it stands for. */
  type TokenToEntityMap = map<string, seq<ID>>

  datatype SimpleStoryTemplate = SimpleStoryTemplate(
    rawText: string,
    requiredEntities: seq<string>,
    conditions: map<StoryCondition, seq<string>>,
    key: string)

  datatype StoryTemplateResult = StoryTemplateResult(
    worldActions: seq<WorldModelAction>,
    tokenMap: TokenToEntityMap,
    rawText: string)

  /**
   * What one condition, with its arguments, demands of an entity's metadata.
   * A property condition without arguments, and a comparison without exactly
   * two, demand nothing; comparisons are strict and need the property present.
   */
  predicate ConditionHolds(c: StoryCondition, args: seq<string>, key: string, md: MetaData)
  {
    match c
    case OncePerEntity => !HasValue(md, key)
    case WithoutProperty => args == [] || !HasValue(md, args[0])
    case WithProperty => args == [] || HasValue(md, args[0])
    case GreaterThan => |args| != 2 || (HasValue(md, args[0]) && GetValue(md, args[0]) > Atoi(args[1]))
    case SmallerThan => |args| != 2 || (HasValue(md, args[0]) && GetValue(md, args[0]) < Atoi(args[1]))
  }

  /** An entity with metadata `md` is a valid candidate when every condition of the template holds. */
  predicate PassesConditions(t: SimpleStoryTemplate, md: MetaData)
  {
    forall c | c in t.conditions :: ConditionHolds(c, t.conditions[c], t.key, md)
  }

  /** The candidates that pass the template's conditions, in their original order. */
  function ValidCandidates(t: SimpleStoryTemplate, candidates: seq<WorldEntity>, world: WorldModel): (r: seq<WorldEntity>)
    reads world, candidates
    ensures |r| <= |candidates|
    decreases |candidates|
  {
    if candidates == [] then []
    else
      var prefix := candidates[..|candidates| - 1];
      var last := candidates[|candidates| - 1];
      assert forall e | e in prefix :: e in candidates;
      ValidCandidates(t, prefix, world) + (if PassesConditions(t, world.GetMetaData(last.id)) then [last] else [])
  }

  /** Exactly the candidates that pass are kept. */
  lemma {:induction false} ValidCandidatesSpec(t: SimpleStoryTemplate, candidates: seq<WorldEntity>, world: WorldModel)
    ensures var r := ValidCandidates(t, candidates, world);
      && (forall e | e in r :: e in candidates && PassesConditions(t, world.GetMetaData(e.id)))
      && (forall e | e in candidates && PassesConditions(t, world.GetMetaData(e.id)) :: e in r)
    decreases |candidates|
  {
    if candidates != [] {
      var prefix := candidates[..|candidates| - 1];
      ValidCandidatesSpec(t, prefix, world);
      assert candidates == prefix + [candidates[|candidates| - 1]];
    }
  }

  /** Filtering one more candidate keeps the earlier result and adds the candidate if it passes. */
  lemma ValidCandidatesSnoc(t: SimpleStoryTemplate, candidates: seq<WorldEntity>, e: WorldEntity, world: WorldModel)
    ensures ValidCandidates(t, candidates + [e], world) ==
      ValidCandidates(t, candidates, world) + (if PassesConditions(t, world.GetMetaData(e.id)) then [e] else [])
  {
    assert (candidates + [e])[..|candidates|] == candidates;
  }

  /** Every entity any type of the map offers. */
  function MapEntities(em: EntityMap): (r: set<WorldEntity>)
    ensures forall tp, e | tp in em && e in em[tp] :: e in r
  {
    set tp, e | tp in em && e in em[tp] :: e
  }

  /** Every type of `types` is offered and has at least one valid candidate. */
  predicate Offered(t: SimpleStoryTemplate, em: EntityMap, world: WorldModel, types: seq<string>)
    reads world, MapEntities(em)
  {
    forall i | 0 <= i < |types| :: types[i] in em && ValidCandidates(t, em[types[i]], world) != []
  }

  /** The template can be told: it needs something, and every required type has a valid candidate. */
  predicate Satisfiable(t: SimpleStoryTemplate, em: EntityMap, world: WorldModel)
    reads world, MapEntities(em)
  {
    |t.requiredEntities| > 0 && Offered(t, em, world, t.requiredEntities)
  }

  /** The valid candidates of each type of `types` in turn; none for a type the map does not offer. */
  function ValidLists(t: SimpleStoryTemplate, em: EntityMap, world: WorldModel, types: seq<string>): (r: seq<seq<WorldEntity>>)
    reads world, MapEntities(em)
    ensures |r| == |types|
    decreases |types|
  {
    if types == [] then []
    else
      var n := |types| - 1;
      ValidLists(t, em, world, types[..n]) + [if types[n] in em then ValidCandidates(t, em[types[n]], world) else []]
  }

  lemma {:induction false} ValidListsAt(t: SimpleStoryTemplate, em: EntityMap, world: WorldModel, types: seq<string>, i: nat)
    requires i < |types|
    ensures ValidLists(t, em, world, types)[i] == if types[i] in em then ValidCandidates(t, em[types[i]], world) else []
    decreases |types|
  {
    var n := |types| - 1;
    if i < n {
      ValidListsAt(t, em, world, types[..n], i);
    }
  }

  /** A type is offered exactly when its list of valid candidates is not empty. */
  lemma OfferedByLists(t: SimpleStoryTemplate, em: EntityMap, world: WorldModel, types: seq<string>)
    ensures Offered(t, em, world, types) ==> NonEmpty(ValidLists(t, em, world, types))
    ensures NonEmpty(ValidLists(t, em, world, types)) ==> Offered(t, em, world, types)
  {
    forall k | 0 <= k < |types|
      ensures ValidLists(t, em, world, types)[k] != [] <==> types[k] in em && ValidCandidates(t, em[types[k]], world) != []
    {
      ValidListsAt(t, em, world, types, k);
    }
  }

  /** Every list has at least one candidate. */
  predicate NonEmpty(valids: seq<seq<WorldEntity>>)
  {
    forall k | 0 <= k < |valids| :: valids[k] != []
  }

  /** One pick per list of valid candidates, the i-th chosen by draw number `base + i`. */
  function PickAll(valids: seq<seq<WorldEntity>>, source: nat -> nat, base: nat): (r: seq<WorldEntity>)
    requires NonEmpty(valids)
    ensures |r| == |valids|
    decreases |valids|
  {
    if valids == [] then []
    else
      var n := |valids| - 1;
      PickAll(valids[..n], source, base) + [valids[n][source(base + n) % |valids[n]|]]
  }

  /** Each pick comes from its own list. */
  lemma {:induction false} PickAllIn(valids: seq<seq<WorldEntity>>, source: nat -> nat, base: nat)
    requires NonEmpty(valids)
    ensures forall i | 0 <= i < |valids| :: PickAll(valids, source, base)[i] in valids[i]
    decreases |valids|
  {
    if valids != [] {
      var n := |valids| - 1;
      PickAllIn(valids[..n], source, base);
      var r := PickAll(valids, source, base);
      assert r[..n] == PickAll(valids[..n], source, base);
      forall i | 0 <= i < n ensures r[i] in valids[i] {
        assert r[i] == r[..n][i];
      }
    }
  }

  /** The pick of one more list of valid candidates is the one its draw selects. */
  lemma PickAllNext(valids: seq<seq<WorldEntity>>, i: nat, index: nat, source: nat -> nat, base: nat)
    requires i < |valids| && NonEmpty(valids[..i]) && valids[i] != []
    requires index == source(base + i) % |valids[i]|
    ensures NonEmpty(valids[..i + 1])
    ensures PickAll(valids[..i + 1], source, base) == PickAll(valids[..i], source, base) + [valids[i][index]]
  {
    assert valids[..i + 1][..i] == valids[..i];
  }

  /**
   * The entities picked for `types`: for the i-th type, the valid candidate
   * at the index the random source's draw number `base + i` selects.
   */
  function Picks(t: SimpleStoryTemplate, em: EntityMap, world: WorldModel, types: seq<string>,
                 source: nat -> nat, base: nat): (r: seq<WorldEntity>)
    requires Offered(t, em, world, types)
    reads world, MapEntities(em)
    ensures |r| == |types|
  {
    OfferedByLists(t, em, world, types);
    PickAll(ValidLists(t, em, world, types), source, base)
  }

  lemma NotOfferedAt(t: SimpleStoryTemplate, em: EntityMap, world: WorldModel, types: seq<string>, i: nat)
    requires i < |types| && !(types[i] in em && ValidCandidates(t, em[types[i]], world) != [])
    ensures !Offered(t, em, world, types)
  {
  }

  /** One more offered type adds the candidate its draw selects, and changes no earlier pick. */
  lemma PicksSnoc(t: SimpleStoryTemplate, em: EntityMap, world: WorldModel, types: seq<string>, tp: string,
                  source: nat -> nat, base: nat)
    requires Offered(t, em, world, types + [tp])
    ensures Offered(t, em, world, types) && tp in em && ValidCandidates(t, em[tp], world) != []
    ensures var valid := ValidCandidates(t, em[tp], world);
      Picks(t, em, world, types + [tp], source, base) ==
        Picks(t, em, world, types, source, base) + [valid[source(base + |types|) % |valid|]]
  {
    var ext := types + [tp];
    assert forall i | 0 <= i < |types| :: ext[i] == types[i];
    assert ext[|types|] == tp;
    assert ext[..|types|] == types;
    OfferedByLists(t, em, world, types);
    OfferedByLists(t, em, world, ext);
  }

  /** Each pick is one of the candidates offered for its type and passes every condition. */
  lemma PicksSpec(t: SimpleStoryTemplate, em: EntityMap, world: WorldModel, types: seq<string>,
                  source: nat -> nat, base: nat)
    requires Offered(t, em, world, types)
    ensures var r := Picks(t, em, world, types, source, base);
      forall i | 0 <= i < |r| :: r[i] in em[types[i]] && PassesConditions(t, world.GetMetaData(r[i].id))
  {
    var valids := ValidLists(t, em, world, types);
    OfferedByLists(t, em, world, types);
    PickAllIn(valids, source, base);
    forall i | 0 <= i < |types|
      ensures valids[i] == ValidCandidates(t, em[types[i]], world)
    {
      ValidListsAt(t, em, world, types, i);
    }
    forall i | 0 <= i < |types| {
      ValidCandidatesSpec(t, em[types[i]], world);
    }
  }

  /** A story that marks its entities as used makes them ineligible for the next one. */
  lemma MarkedEntityIsExcluded(t: SimpleStoryTemplate, md: MetaData)
    requires OncePerEntity in t.conditions
    ensures PassesConditions(t, md) ==> !PassesConditions(t, Merge(md, map[t.key := 1]))
  {
    assert !ConditionHolds(OncePerEntity, t.conditions[OncePerEntity], t.key, Merge(md, map[t.key := 1]));
  }

  lemma FailedCheckRejects(t: SimpleStoryTemplate, md: MetaData, c: StoryCondition)
    requires c in t.conditions && !ConditionHolds(c, t.conditions[c], t.key, md)
    ensures !PassesConditions(t, md)
  {
  }

  /** A failed comparison, as the filter evaluates it, fails its condition. */
  lemma FailedComparisonRejects(t: SimpleStoryTemplate, md: MetaData, c: StoryCondition, property: string, value: int)
    requires c == GreaterThan || c == SmallerThan
    requires c in t.conditions && |t.conditions[c]| == 2
    requires property == t.conditions[c][0] && value == Atoi(t.conditions[c][1])
    requires !HasValue(md, property) || (if c == GreaterThan then GetValue(md, property) <= value else GetValue(md, property) >= value)
    ensures !PassesConditions(t, md)
  {
    assert !ConditionHolds(c, t.conditions[c], t.key, md);
  }

  /** Surviving the five checks of the filter, in the filter's own terms, is passing every condition. */
  lemma PassedChecksAccept(t: SimpleStoryTemplate, md: MetaData)
    requires !(OncePerEntity in t.conditions && HasValue(md, t.key))
    requires !(WithoutProperty in t.conditions && t.conditions[WithoutProperty] != []
               && HasValue(md, t.conditions[WithoutProperty][0]))
    requires !(WithProperty in t.conditions && t.conditions[WithProperty] != []
               && !HasValue(md, t.conditions[WithProperty][0]))
    requires GreaterThan in t.conditions && |t.conditions[GreaterThan]| == 2 ==>
      HasValue(md, t.conditions[GreaterThan][0]) && GetValue(md, t.conditions[GreaterThan][0]) > Atoi(t.conditions[GreaterThan][1])
    requires SmallerThan in t.conditions && |t.conditions[SmallerThan]| == 2 ==>
      HasValue(md, t.conditions[SmallerThan][0]) && GetValue(md, t.conditions[SmallerThan][0]) < Atoi(t.conditions[SmallerThan][1])
    ensures PassesConditions(t, md)
  {
  }

  /** The candidates passing every condition, checked one condition after the other. */
  method FilterCandidates(t: SimpleStoryTemplate, candidates: seq<WorldEntity>, world: WorldModel)
    returns (validEntities: seq<WorldEntity>)
    ensures validEntities == ValidCandidates(t, candidates, world)
  {
    validEntities := [];
    for j := 0 to |candidates|
      invariant validEntities == ValidCandidates(t, candidates[..j], world)
    {
      var entity := candidates[j];
      assert candidates[..j + 1] == candidates[..j] + [entity];
      ValidCandidatesSnoc(t, candidates[..j], entity, world);
      var metaData := world.GetMetaData(entity.id);
      if OncePerEntity in t.conditions && HasValue(metaData, t.key) {
        FailedCheckRejects(t, metaData, OncePerEntity);
        continue;
      }
      if WithoutProperty in t.conditions && t.conditions[WithoutProperty] != []
         && HasValue(metaData, t.conditions[WithoutProperty][0]) {
        FailedCheckRejects(t, metaData, WithoutProperty);
        continue;
      }
      if WithProperty in t.conditions && t.conditions[WithProperty] != []
         && !HasValue(metaData, t.conditions[WithProperty][0]) {
        FailedCheckRejects(t, metaData, WithProperty);
        continue;
      }
      if GreaterThan in t.conditions && |t.conditions[GreaterThan]| == 2 {
        var property := t.conditions[GreaterThan][0];
        var value := Atoi(t.conditions[GreaterThan][1]);
        if !HasValue(metaData, property) || GetValue(metaData, property) <= value {
          FailedComparisonRejects(t, metaData, GreaterThan, property, value);
          continue;
        }
      }
      if SmallerThan in t.conditions && |t.conditions[SmallerThan]| == 2 {
        var property := t.conditions[SmallerThan][0];
        var value := Atoi(t.conditions[SmallerThan][1]);
        if !HasValue(metaData, property) || GetValue(metaData, property) >= value {
          FailedComparisonRejects(t, metaData, SmallerThan, property, value);
          continue;
        }
      }
      PassedChecksAccept(t, metaData);
      validEntities := validEntities + [entity];
    }
    assert candidates[..|candidates|] == candidates;
  }

  /**
   * One round of the per-type loop, for the `i`-th required type: its valid
   * candidates (none when the map does not offer the type) and, when there
   * are some, one draw among them. No draw is made otherwise, and nothing the
   * candidate lists depend on changes.
   */
  method PickCandidate(t: SimpleStoryTemplate, entityMap: EntityMap, world: WorldModel, rs: RandomStream, i: nat)
    returns (validEntities: seq<WorldEntity>, index: nat)
    requires i < |t.requiredEntities|
    modifies rs
    ensures validEntities == old(ValidLists(t, entityMap, world, t.requiredEntities)[i])
    ensures ValidLists(t, entityMap, world, t.requiredEntities) == old(ValidLists(t, entityMap, world, t.requiredEntities))
    ensures validEntities == [] ==> rs.draws == old(rs.draws)
    ensures validEntities != [] ==>
      && index == rs.source(|old(rs.draws)|) % |validEntities|
      && rs.draws == old(rs.draws) + [index]
  {
    var tp := t.requiredEntities[i];
    ValidListsAt(t, entityMap, world, t.requiredEntities, i);
    if tp !in entityMap {
      return [], 0;
    }
    validEntities := FilterCandidates(t, entityMap[tp], world);
    if validEntities == [] {
      assert unchanged(world) && unchanged(MapEntities(entityMap));
      return validEntities, 0;
    }
    index := rs.GetRandomIndex(|validEntities|);
    assert unchanged(world) && unchanged(MapEntities(entityMap));
  }

  /**
   * The per-type loop: filter the candidates of each required type in turn and
   * draw one of them, stopping with nothing at the first type without any.
   * `expected` names the lists of valid candidates the rounds will meet.
   */
  method PickRounds(t: SimpleStoryTemplate, entityMap: EntityMap, world: WorldModel, rs: RandomStream,
                    ghost expected: seq<seq<WorldEntity>>)
    returns (result: seq<WorldEntity>)
    requires expected == ValidLists(t, entityMap, world, t.requiredEntities)
    modifies rs
    ensures |old(rs.draws)| <= |rs.draws| && rs.draws[..|old(rs.draws)|] == old(rs.draws)
    ensures NonEmpty(expected) ==>
      && |rs.draws| == |old(rs.draws)| + |expected|
      && result == PickAll(expected, rs.source, |old(rs.draws)|)
    ensures !NonEmpty(expected) ==> result == []
  {
    var required := t.requiredEntities;
    ghost var base := |rs.draws|;
    ghost var source := rs.source;
    result := [];
    for i := 0 to |required|
      invariant |rs.draws| == base + i && rs.draws[..base] == old(rs.draws)
      invariant expected == ValidLists(t, entityMap, world, required)
      invariant NonEmpty(expected[..i])
      invariant result == PickAll(expected[..i], source, base)
    {
      var validEntities, index := PickCandidate(t, entityMap, world, rs, i);
      if validEntities == [] {
        return validEntities;
      }
      PickAllNext(expected, i, index, source, base);
      result := result + [validEntities[index]];
    }
    assert expected[..|required|] == expected;
  }

  /**
   * Picks one entity per required type, in order, or returns nothing as soon
   * as a type is missing from the map or has no valid candidate. One random
   * draw is made per type whose candidates were filtered successfully.
   */
  method GetValidEntities(t: SimpleStoryTemplate, entityMap: EntityMap, world: WorldModel, rs: RandomStream)
    returns (result: seq<WorldEntity>)
    modifies rs
    ensures |old(rs.draws)| <= |rs.draws| && rs.draws[..|old(rs.draws)|] == old(rs.draws)
    ensures Offered(t, entityMap, world, t.requiredEntities) ==>
      && |rs.draws| == |old(rs.draws)| + |t.requiredEntities|
      && result == Picks(t, entityMap, world, t.requiredEntities, rs.source, |old(rs.draws)|)
    ensures !Offered(t, entityMap, world, t.requiredEntities) ==> result == []
  {
    ghost var expected := ValidLists(t, entityMap, world, t.requiredEntities);
    OfferedByLists(t, entityMap, world, t.requiredEntities);
    result := PickRounds(t, entityMap, world, rs, expected);
    assert unchanged(world) && unchanged(MapEntities(entityMap));
  }

  /** Whether the template can be told with these candidates; the random source plays no part. */
  method IsValid(t: SimpleStoryTemplate, entityMap: EntityMap, world: WorldModel) returns (valid: bool)
    ensures valid <==> Satisfiable(t, entityMap, world)
  {
    var rs := new RandomStream(k => 0);
    var entities := GetValidEntities(t, entityMap, world, rs);
    valid := |entities| > 0;
  }

  /** The ids of the entities, in order. */
  function Ids(es: seq<WorldEntity>): (r: seq<ID>)
    reads set e | e in es
    ensures |r| == |es| && forall k | 0 <= k < |es| :: r[k] == es[k].id
  {
    seq(|es|, k requires 0 <= k < |es| reads set e | e in es => es[k].id)
  }

  /** Token "i" stands for the i-th id, counting from 1. */
  function TokenMap(ids: seq<ID>): TokenToEntityMap
    decreases |ids|
  {
    if ids == [] then map[]
    else TokenMap(ids[..|ids| - 1])[NatToString(|ids|) := [ids[|ids| - 1]]]
  }

  /** The tokens are exactly "1" .. "n". */
  lemma {:induction false} TokenMapKeys(ids: seq<ID>)
    ensures TokenMap(ids).Keys == (set i | 1 <= i <= |ids| :: NatToString(i))
    decreases |ids|
  {
    if ids != [] {
      var n := |ids|;
      TokenMapKeys(ids[..n - 1]);
      var earlier := set i | 1 <= i <= n - 1 :: NatToString(i);
      var all := set i | 1 <= i <= n :: NatToString(i);
      assert all == earlier + {NatToString(n)} by {
        forall s | s in all ensures s in earlier + {NatToString(n)} {
          var i :| 1 <= i <= n && s == NatToString(i);
          if i < n {
            assert s in earlier;
          }
        }
        assert NatToString(n) in all;
      }
      assert TokenMap(ids).Keys == TokenMap(ids[..n - 1]).Keys + {NatToString(n)};
    }
  }

  /** Token "i" holds the i-th id alone: a later token never overwrites an earlier one. */
  lemma {:induction false} TokenMapValues(ids: seq<ID>)
    ensures forall i | 1 <= i <= |ids| :: NatToString(i) in TokenMap(ids) && TokenMap(ids)[NatToString(i)] == [ids[i - 1]]
    decreases |ids|
  {
    if ids != [] {
      var n := |ids|;
      var prefix := ids[..n - 1];
      TokenMapValues(prefix);
      forall i | 1 <= i <= n
        ensures NatToString(i) in TokenMap(ids) && TokenMap(ids)[NatToString(i)] == [ids[i - 1]]
      {
        if i < n {
          NatToStringInjective(i, n);
          assert prefix[i - 1] == ids[i - 1];
        }
      }
    }
  }

  /** The UPDATE actions marking each entity as used by the story with this key. */
  function UsageMarks(es: seq<WorldEntity>, key: string): (r: seq<WorldModelAction>)
    ensures |r| == |es|
    ensures forall k | 0 <= k < |es| :: r[k] == WorldModelAction(UPDATE, es[k], map[key := 1])
  {
    seq(|es|, k requires 0 <= k < |es| => WorldModelAction(UPDATE, es[k], map[key := 1]))
  }

  /** The token map and the usage marks of the picked entities, built in one pass. */
  method TellEntities(entities: seq<WorldEntity>, once: bool, key: string)
    returns (tokenEntityMap: TokenToEntityMap, worldActions: seq<WorldModelAction>)
    ensures tokenEntityMap == TokenMap(Ids(entities))
    ensures worldActions == (if once then UsageMarks(entities, key) else [])
  {
    ghost var ids := Ids(entities);
    tokenEntityMap := map[];
    worldActions := [];
    for i := 1 to |entities| + 1
      invariant tokenEntityMap == TokenMap(ids[..i - 1])
      invariant worldActions == (if once then UsageMarks(entities[..i - 1], key) else [])
    {
      var entity := entities[i - 1];
      assert ids[..i][..i - 1] == ids[..i - 1];
      tokenEntityMap := tokenEntityMap[NatToString(i) := [entity.id]];
      if once {
        assert entities[..i] == entities[..i - 1] + [entity];
        worldActions := worldActions + [WorldModelAction(UPDATE, entity, map[key := 1])];
      }
    }
    assert ids[..|entities|] == ids;
    assert entities[..|entities|] == entities;
  }

  /**
   * Tells the story: token "i" stands for the i-th picked entity, and with
   * the once-per-entity condition every picked entity gets an UPDATE setting
   * the template's key to 1, in pick order. Without valid entities the call
   * fails.
   */
  method CreateStory(t: SimpleStoryTemplate, entityMap: EntityMap, world: WorldModel, rs: RandomStream)
    returns (r: Result<StoryTemplateResult, string>)
    modifies rs
    ensures r.Success? <==> Satisfiable(t, entityMap, world)
    ensures r.Success? ==>
      && |rs.draws| == |old(rs.draws)| + |t.requiredEntities|
      && var chosen := Picks(t, entityMap, world, t.requiredEntities, rs.source, |old(rs.draws)|);
      && r.value.rawText == t.rawText
      && r.value.tokenMap == TokenMap(Ids(chosen))
      && r.value.worldActions == (if OncePerEntity in t.conditions then UsageMarks(chosen, t.key) else [])
  {
    var entities := GetValidEntities(t, entityMap, world, rs);
    if entities == [] {
      return Failure("Invalid template call, not all required entities were found!");
    }
    label Picked:
    var tokenEntityMap, worldActions := TellEntities(entities, OncePerEntity in t.conditions, t.key);
    r := Success(StoryTemplateResult(worldActions, tokenEntityMap, t.rawText));
    assert unchanged@Picked(world) && unchanged@Picked(MapEntities(entityMap));
  }
}
