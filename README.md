# QuestWeaver core, modelled in Dafny

QuestWeaver generates quests for a game world. This project models the part of
it that can be stated exactly, and proves properties of that model:

- **The world model** (`World/WorldModel.cpp`). This is a transactional store:
  - a registry of entities keyed by id;
  - a separate per-id metadata store (property name to integer);
  - an id counter;
  - an append-only action history;
  - a type cache;
  - listeners that are told about every non-empty batch.

  `Execute` runs a batch of CREATE / DELETE / UPDATE / KEEP actions. It writes
  ids into the caller's entity objects in place.
  - `world_actions.dfy` gives the meaning of one action (`Step`) and of a batch
    (`ApplyAll`) as functions on a `State` value. The lemmas about the action
    types are stated there.
  - `world_model.dfy` holds the class `WorldModel`. Its fields are updated in
    place. Every action a batch executes is proved against that meaning:
    `Snap(E) == ApplyAll(old(Snap(E)), actions)`. The other operations have
    their own contracts.
- **Graph solving** (`Core/GraphAnalyzer.cpp`, `graph_analyzer.dfy`). One random
  node is activated per mandatory group. The active nodes are then collected
  into a map from group name to node.
- **Story entity selection** (`Story/SimpleStoryTemplate.cpp`, `story.dfy`).
  - Candidate entities are filtered against the template's metadata conditions.
  - One entity is drawn per required type.
  - A token map is built: token "1", "2", ... maps to the id of each picked entity.
  - For once-per-entity stories, UPDATE actions are built that mark the picked
    entities as used.
- **Quests** (`QuestModel/Quest.cpp`, `QuestModel/Space/HuntAndKillQuest.cpp`,
  `quest.dfy`).
  - Quest values with their constructors and getters.
  - Tick results.
  - The default tick.
  - The hunt-and-kill tick. It only reads the world model, and returns at most
    one world action and the quest's lifecycle action.
- **String helpers** (`Core/WeaverUtils.cpp`, `weaver_utils.dfy`): replace-all,
  replace-first, and HTML tag enclosure with a class list.

Supporting modules:
- `metadata.dfy`: metadata values and their key-by-key merge.
- `random_stream.dfy`: the random source as an oracle with a log of draws.
- `decimal.dfy`: `std::to_string` of the story tokens and `atoi` of condition
  thresholds.
- `wrappers.dfy`: `Option` and `Result`.

A rejected world action is handled as the code handles it. `Execute` skips the
action, records an `ExecError` in `errorLog`, and goes on with the batch
(`continue` at World/WorldModel.cpp:28, 36, 54). The tests in
`Test/Space/ModelTest.cpp` expect a throw instead.

Two behaviours follow the code as written:
- `Core/GraphAnalyzer.cpp` never deactivates a node. When a group has several
  active nodes, the last of them wins in the result map.
- A story template without valid entities reaches `Logger::Fatal`
  (Story/SimpleStoryTemplate.cpp:13-16). The model returns `Failure` there.

## Model

| member | source | states |
|---|---|---|
| World.WorldModel.constructor | World/WorldModel.cpp:15-18 | A new world model has no entities, metadata, history, listeners or cache, and its counter is 0 |
| World.WorldModel.NewId | World/WorldModel.cpp:10-13 | The counter is pre-incremented and the new value is returned, so the first id is 1 |
| World.WorldModel.GetEntityById | World/WorldModel.cpp:74-76 | An entity is returned exactly when its id is not NoID and is registered (hasEntityWithId, :88-90), and then it is the registered object; otherwise the pointer is empty |
| WorldActions.HasEntityWithId | World/WorldModel.cpp:88-90 | An id names an entity only if it is registered, and NoID never does |
| WorldActions.RegisteredIdIsKnown | World/WorldModel.cpp:88-90 | Under the registry invariant, an id names an entity exactly when it is registered |
| World.WorldModel.GetMetaData | World/WorldModel.cpp:100-103 | The stored metadata of a known id, and an empty value for an unknown one, without creating an entry |
| World.WorldModel.GetHistory | World/WorldModel.cpp:117-119 | The recorded action history. It is append-only by `BatchHistory` |
| World.WorldModel.ChangeMetaData | World/WorldModel.cpp:133-137 | Builds an action without executing it: an UPDATE of the entity looked up by id (empty for an unknown id), whose only key is `key`, with value `updater(current value or 0)` |
| MetaDataStore.Merge | World/WorldModel.cpp:68-72 | Merging a delta keeps every stored key, overwrites the delta's keys with its values, and leaves the other keys as they were |
| MetaDataStore.MergeEmpty | World/WorldModel.cpp:68-72 | Merging an empty delta changes nothing |
| MetaDataStore.MergeThenSet | World/WorldModel.cpp:69-71 | Setting one more value after a merge is the same as merging a delta that also holds that value (one round of the per-name loop) |
| WorldActions.UpdatedMetaData | World/WorldModel.cpp:68-72 | Only the entry of `id` changes; it becomes the merge of the old entry (or an empty one) with the delta; an empty delta creates no entry |
| World.WorldModel.UpdateMetaDataForId | World/WorldModel.cpp:68-72 | The loop that sets one name at a time leaves the store equal to `UpdatedMetaData` of the old store |
| WorldActions.Step | World/WorldModel.cpp:21-60 | One iteration of Execute's loop; it keeps the set of tracked entity objects. The effect of each branch is stated by the lemmas below |
| WorldActions.StepOutcome | World/WorldModel.cpp:21-60 | An accepted action records no error. A skipped action changes only the error log, which grows by one. Exactly the accepted actions other than KEEP are appended to the history |
| WorldActions.StepKeepsInv | World/WorldModel.cpp:39-48 | Every step keeps the registry invariant (ids lie in 1..counter; a registered object carries its own id), and the counter never decreases |
| WorldActions.StepEntities | World/WorldModel.cpp:39-48 | A step changes no registry entry except that it may register the one id it has just handed out, which lies above the old counter |
| WorldActions.CreateAssignsFreshId | World/WorldModel.cpp:32-42 | A successful CREATE gives its entity the id counter+1. That id is never NoID, lies above every registered id and has no stored metadata. The registry gains exactly that entry, and only that object's id changes. The entity's metadata is exactly the action's, and no other id's metadata changes |
| WorldActions.CreateTwiceRejected | World/WorldModel.cpp:32-37 | Executing the same CREATE again is skipped with an AlreadyHasId error, and nothing else changes |
| WorldActions.UnregisteredRejected | World/WorldModel.cpp:22-29 | A non-CREATE action on an entity whose id is NoID or not registered is skipped with an EntityNotFound error, and nothing else changes |
| WorldActions.EmptyRegistryRejects | World/WorldModel.cpp:22-29 | In a model without entities every non-CREATE action is rejected and changes nothing but the error log |
| WorldActions.UpdateMerges | World/WorldModel.cpp:49-51 | UPDATE overwrites the delta's keys, keeps the other keys, and leaves other entities' metadata, the registry, the ids and the counter alone; an empty delta leaves the store unchanged |
| WorldActions.DeleteLeavesTombstone | World/WorldModel.cpp:45-48 | DELETE unregisters the entity and resets the object's id to NoID, keeps the metadata under the old id, and is logged. No other registry entry, object id, counter value or error changes |
| WorldActions.KeepChangesNothing | World/WorldModel.cpp:30-31 | KEEP changes no state and is never logged |
| WorldActions.ApplyAll | World/WorldModel.cpp:20-61 | Execute's loop over a batch, in input order; it keeps the set of tracked entity objects |
| WorldActions.ApplyAllConcat | World/WorldModel.cpp:20-61 | Executing two batches one after the other is executing their concatenation |
| WorldActions.BatchKeepsIdentity | World/WorldModel.cpp:10-13 | After any batch the registry invariant holds and the counter has not gone down. No id at or below the old counter is registered anew, so ids are never reused. Every new registration lies above the old counter |
| WorldActions.BatchHistory | World/WorldModel.cpp:57-60 | The history is append-only: the old history is a prefix, and what is appended is a subsequence of the batch, in batch order, with no KEEP |
| WorldActions.CreateThenUpdate | World/WorldModel.cpp:39-51 | CREATE then UPDATE of the same object in one batch: the UPDATE finds the id CREATE wrote into the object, and the stored metadata is the UPDATE's delta merged onto the CREATE's |
| WorldActions.CreateThenIllegal | World/WorldModel.cpp:52-55 | An unrecognized action type is reported as illegal and skipped, and an earlier CREATE in the batch stays applied |
| World.WorldModel.ExecuteAction | World/WorldModel.cpp:21-60 | One iteration on the mutable model takes `Snap` to `Step` of the old `Snap`, keeping the registry invariant |
| World.WorldModel.Create | World/WorldModel.cpp:39-42 | The applied CREATE branch: new id, id written into the object, entity registered, metadata merged, action logged |
| World.WorldModel.Delete | World/WorldModel.cpp:45-48 | The applied DELETE branch: entity unregistered, object id reset, metadata kept, action logged |
| World.WorldModel.ExecuteActions | World/WorldModel.cpp:21-61 | The loop over the batch takes `Snap` to `ApplyAll` of the old `Snap` |
| World.WorldModel.Execute | World/WorldModel.cpp:20-66 | The state after a batch is `ApplyAll` of the state before. A non-empty batch then clears the type cache and notifies every listener once with the whole batch. An empty batch changes nothing more |
| World.WorldModel.FinishBatch | World/WorldModel.cpp:62-65 | Only a non-empty batch clears the cache and informs the listeners |
| World.NotifyAll | World/WorldModel.cpp:127-131 | One notification per listener, in registration order, each carrying the whole batch |
| World.WorldModel.InformListeners | World/WorldModel.cpp:127-131 | The notification log grows by exactly `NotifyAll` of the listeners |
| World.WorldModel.AddListener | World/WorldModel.cpp:121-125 | A listener is appended; an empty pointer is ignored |
| World.OfTypeUpToSpec | World/WorldModel.cpp:78-86 | The entities listed for a type are exactly the registered entities of that type |
| World.WorldModel.RebuildTypeCache | World/WorldModel.cpp:79-84 | Rebuilding the empty cache from the registry stores, for every type, exactly the registered entities of that type in ascending id order; types it does not store have none |
| World.WorldModel.GetEntitiesWithType | World/WorldModel.cpp:78-86 | Returns the registered entities of the type, in ascending id order, and keeps the cache consistent with the registry; the looked-up type gets a cache entry |
| WorldActions.MetaDataHistory | World/WorldModel.cpp:105-115 | The history entries of an id that carry metadata are exactly the CREATE and UPDATE actions with a non-empty delta whose entity now has that id. They keep history order, and each appears as often as in the history |
| World.WorldModel.GetMetaDataHistoryForId | World/WorldModel.cpp:105-115 | The loop over the history returns `MetaDataHistory` |
| Random.RandomStream.GetRandomIndex | Core/GraphAnalyzer.cpp:15 | A draw returns an index in [0, n), taken from the oracle's next value, and logs it |
| GraphAnalyzer.MandatoryGroups | Core/GraphAnalyzer.cpp:13 | The groups listed are exactly the mandatory groups of the graph: every name listed belongs to a mandatory group, and every mandatory group is listed |
| GraphAnalyzer.NodesOfBelongToGroup | Core/GraphAnalyzer.cpp:14 | In a well-formed graph, the nodes of a group all name that group |
| GraphAnalyzer.WeaverGraph.constructor | Core/GraphAnalyzer.cpp:10-11 | A graph is built from its groups with no node active |
| GraphAnalyzer.WeaverGraph.ActivateNode | Core/GraphAnalyzer.cpp:16 | Activating a node appends it to the active list unless it is already there |
| GraphAnalyzer.ActivateAllSpec | Core/GraphAnalyzer.cpp:13-17 | Activation never deactivates: the old active list stays a prefix, every chosen node becomes active, and nothing else does |
| GraphAnalyzer.Chosen | Core/GraphAnalyzer.cpp:14-16 | The node chosen for the i-th mandatory group is the node at the i-th draw in that group's list |
| GraphAnalyzer.ChosenSnoc | Core/GraphAnalyzer.cpp:13-16 | One more draw within range chooses one more node, the one at the drawn index |
| GraphAnalyzer.SolveGraph | Core/GraphAnalyzer.cpp:10-26 | Exactly one in-range draw per mandatory group, in order. The active list becomes the old one with the chosen nodes activated. The result is `Collect` of the active nodes |
| GraphAnalyzer.CollectNodes | Core/GraphAnalyzer.cpp:21-24 | The loop over the active nodes builds `Collect` of them |
| GraphAnalyzer.CollectSpec | Core/GraphAnalyzer.cpp:21-24 | Every entry maps a group name to an active node of that group, and every active node's group has an entry |
| GraphAnalyzer.CollectLastWins | Core/GraphAnalyzer.cpp:22-24 | When several active nodes share a group, the entry is the last of them |
| GraphAnalyzer.MandatoryGroupsCovered | Core/GraphAnalyzer.cpp:13-24 | In a well-formed graph whose draws fit, every mandatory group has an entry in the result |
| Story.ValidCandidates | Story/SimpleStoryTemplate.cpp:50-91 | The filtered candidates are never more than the candidates |
| Story.ValidCandidatesSpec | Story/SimpleStoryTemplate.cpp:50-91 | Exactly the candidates whose metadata passes every condition are kept |
| Story.ValidCandidatesSnoc | Story/SimpleStoryTemplate.cpp:50-91 | Filtering one more candidate keeps the earlier result and adds the candidate exactly when it passes |
| Story.FailedCheckRejects | Story/SimpleStoryTemplate.cpp:55-69 | A candidate failing the once-per-entity, without-property or with-property check fails the conditions |
| Story.FailedComparisonRejects | Story/SimpleStoryTemplate.cpp:71-89 | A candidate lacking the property, or not strictly above (greater-than) or below (smaller-than) the `atoi` threshold, fails the conditions when the condition has exactly two arguments |
| Story.PassedChecksAccept | Story/SimpleStoryTemplate.cpp:54-90 | A candidate surviving all five checks passes every condition |
| Story.MarkedEntityIsExcluded | Story/SimpleStoryTemplate.cpp:55-57 | Under once-per-entity, an entity marked with the story's key (as CreateStory marks it, :24-26) no longer passes the conditions |
| Story.FilterCandidates | Story/SimpleStoryTemplate.cpp:50-91 | The per-candidate loop with its five checks returns exactly `ValidCandidates` |
| Story.ValidLists | Story/SimpleStoryTemplate.cpp:45-94 | One list of valid candidates per required type, in order |
| Story.ValidListsAt | Story/SimpleStoryTemplate.cpp:45-94 | The list of a type is its valid candidates when the map offers the type, and empty otherwise |
| Story.OfferedByLists | Story/SimpleStoryTemplate.cpp:45-94 | Every required type is offered with a valid candidate exactly when no list is empty |
| Story.PickAll | Story/SimpleStoryTemplate.cpp:95 | One pick per list |
| Story.PickAllIn | Story/SimpleStoryTemplate.cpp:95 | Each pick comes from its own list |
| Story.PickAllNext | Story/SimpleStoryTemplate.cpp:95 | The pick for one more list is the candidate at that round's drawn index |
| Story.Picks | Story/SimpleStoryTemplate.cpp:43-97 | The entities picked for the required types: one per type |
| Story.PicksSnoc | Story/SimpleStoryTemplate.cpp:43-97 | One more offered type adds the candidate its draw selects, and changes no earlier pick |
| Story.PicksSpec | Story/SimpleStoryTemplate.cpp:50-95 | Each pick is one of the candidates offered for its type and passes every condition |
| Story.NotOfferedAt | Story/SimpleStoryTemplate.cpp:92-94 | A required type that is missing, or has no valid candidate, makes the template not offered |
| Story.PickCandidate | Story/SimpleStoryTemplate.cpp:44-95 | One round: the valid candidates of the type (none for a missing type). Exactly one draw is made when there are some, and none otherwise |
| Story.PickRounds | Story/SimpleStoryTemplate.cpp:43-97 | The per-type loop picks `PickAll` of the lists, with one draw per type, when no list is empty, and returns nothing otherwise |
| Story.GetValidEntities | Story/SimpleStoryTemplate.cpp:39-98 | If every required type is offered: one draw per type, and the result is `Picks` (one entity per type, in order). Otherwise the result is empty. Earlier draws are never changed |
| Story.IsValid | Story/SimpleStoryTemplate.cpp:34-37 | True exactly when the template needs at least one entity and every required type has a valid candidate; the random source plays no part |
| Story.TokenMapKeys | Story/SimpleStoryTemplate.cpp:20-22 | The tokens are exactly "1" .. "n" |
| Story.TokenMapValues | Story/SimpleStoryTemplate.cpp:20-22 | Token "i" holds the id of the i-th entity alone |
| Story.UsageMarks | Story/SimpleStoryTemplate.cpp:24-26 | One UPDATE per entity, in order, setting the template's key to 1 |
| Story.TellEntities | Story/SimpleStoryTemplate.cpp:20-27 | The token loop builds `TokenMap` of the ids, and the usage marks under once-per-entity, else no actions |
| Story.CreateStory | Story/SimpleStoryTemplate.cpp:10-32 | Success exactly when the template is satisfiable. On success: one draw per required type; token "i" maps to the id of the i-th pick; the usage marks are emitted under once-per-entity; the raw text is kept |
| Decimal.NatToString | Story/SimpleStoryTemplate.cpp:22 | A token is a non-empty run of digits without a leading zero |
| Decimal.NatToStringRoundTrip | Story/SimpleStoryTemplate.cpp:22 | `atoi` reads back what `to_string` writes |
| Decimal.NatToStringInjective | Story/SimpleStoryTemplate.cpp:22 | Distinct numbers give distinct tokens |
| Decimal.Atoi | Story/SimpleStoryTemplate.cpp:73 | `atoi` after leading blanks: nothing left reads as 0; a minus sign gives a value at most 0, otherwise at least 0; text not starting with a sign or a digit reads as 0 |
| Decimal.AtoiOfDigits | Story/SimpleStoryTemplate.cpp:73 | A threshold written as digits is read as the number they denote |
| Decimal.NegativeRoundTrip | Story/SimpleStoryTemplate.cpp:73 | A negative threshold, also after leading blanks, is read back as written |
| QuestModel.KeepResult | QuestModel/Quest.cpp:41-42 | A result for an id has no world changes and a KEEP for that id |
| QuestModel.ChangeOnlyResult | QuestModel/Quest.cpp:47-48 | A result from an action alone has no world changes and that action |
| QuestModel.KeepResultWith | QuestModel/Quest.cpp:50-51 | A result from an id and changes has those changes and a KEEP for that id |
| QuestModel.TickResultGetters | QuestModel/Quest.cpp:44-59 | The getters return exactly the changes and the action the result was built from |
| QuestModel.KeepResultsAgree | QuestModel/Quest.cpp:41-51 | The three ways of building a KEEP result without changes agree |
| QuestModel.NewQuest | QuestModel/Quest.cpp:18-20 | The two-argument constructor gives NoID and an empty story |
| QuestModel.NewQuestWithStory | QuestModel/Quest.cpp:27-29 | The three-argument constructor gives NoID and keeps title, description and story |
| QuestModel.QuestGetters | QuestModel/Quest.cpp:10-63 | The getters return exactly the id, title, description and story given at construction |
| QuestModel.DefaultTick | QuestModel/Quest.cpp:35-39 | The default tick has no world changes and a KEEP carrying the quest's own id |
| QuestModel.Quest.GetType | QuestModel/Space/HuntAndKillQuest.cpp:16-18 | The type is the constant "Space::HuntAndKill" |
| QuestModel.NewHuntAndKill | QuestModel/Space/HuntAndKillQuest.cpp:20-23 | The constructor without an id gives NoID and keeps target, system and sponsor |
| QuestModel.RaisedRelation | QuestModel/Space/HuntAndKillQuest.cpp:30-33 | The new relation is old + bonus, capped at 100 |
| QuestModel.RaisedRelationMonotone | QuestModel/Space/HuntAndKillQuest.cpp:30-33 | A non-negative bonus never lowers a relation at or below the cap |
| QuestModel.ToInt32 | QuestModel/Space/HuntAndKillQuest.cpp:44 | Storing an id as a metadata value wraps it into the 32-bit signed range |
| QuestModel.ToID | QuestModel/Space/HuntAndKillQuest.cpp:42 | Reading a metadata value as an id wraps it into the 64-bit unsigned range |
| QuestModel.StoredIdRoundTrip | QuestModel/Space/HuntAndKillQuest.cpp:42-44 | An id below 2^31 survives being stored and read back |
| QuestModel.StoredIdWraps | QuestModel/Space/HuntAndKillQuest.cpp:42-44 | The id 2^31 does not: it reads back as 2^64 - 2^31 |
| QuestModel.Tick | QuestModel/Space/HuntAndKillQuest.cpp:25-48 | The quest action carries the quest's id. A hunt succeeds exactly when the target is marked destroyed. A basic quest asks for nothing. A hunt emits exactly one change iff (destroyed and a sponsor is set) or (not destroyed and the target is registered outside the quest's system). Every change is a one-key UPDATE |
| QuestModel.SponsorRewarded | QuestModel/Space/HuntAndKillQuest.cpp:28-37 | On success with a sponsor, the one change updates the sponsor's RelationToPlayer to min(old + bonus, 100) |
| QuestModel.TargetMoved | QuestModel/Space/HuntAndKillQuest.cpp:41-47 | A live target outside the system gets one UPDATE setting CurrentLocation to the system, and the quest keeps running |
| QuestModel.MoveSettles | QuestModel/Space/HuntAndKillQuest.cpp:41-47 | Once the requested move has been executed, the next tick asks for nothing and keeps the quest running |
| WeaverUtils.Find | Core/WeaverUtils.cpp:18 | `find` returns the first occurrence at or after the start, or none when there is none |
| WeaverUtils.ReplaceStep | Core/WeaverUtils.cpp:18-21 | One round of the loop keeps the text before the resume position final and the rest still to be replaced |
| WeaverUtils.ReplaceDone | Core/WeaverUtils.cpp:18-21 | With no occurrence left after the resume position, the text is final |
| WeaverUtils.ReplaceAll | Core/WeaverUtils.cpp:13-22 | An empty `from` changes nothing. Otherwise every non-overlapping occurrence is replaced, left to right, and inserted text is never searched again |
| WeaverUtils.ReplaceAllAbsent | Core/WeaverUtils.cpp:18-21 | Without an occurrence the string is unchanged |
| WeaverUtils.ReplaceAllSelf | Core/WeaverUtils.cpp:13-22 | Replacing a string by itself changes nothing |
| WeaverUtils.ReplaceAllKeepsLength | Core/WeaverUtils.cpp:13-22 | Equal-length replacement keeps the length |
| WeaverUtils.Replace | Core/WeaverUtils.cpp:24-31 | Returns true exactly when `from` occurs. Otherwise the string is unchanged. Only the first occurrence is replaced, with the prefix and suffix kept. An empty `from` puts `to` in front |
| WeaverUtils.HtmlEncloseWithTagAndClasses | Core/WeaverUtils.cpp:37-56 | An empty tag returns the text. Otherwise the result is `<tag class="c1 c2 ...">text</tag>`, with the attribute left out when there are no classes |
| WeaverUtils.HtmlEncloseWithTag | Core/WeaverUtils.cpp:33-35 | Equal to the three-argument form with no classes |
| WeaverUtils.EnclosedShape | Core/WeaverUtils.cpp:37-56 | The element opens with `<tag`, holds the text, and closes with `</tag>` |
| WeaverUtils.SplitJoin | Core/WeaverUtils.cpp:43-51 | Class names without blanks can be read back from the attribute value |

## Left out

- The random generator's algorithm. `RandomStream` is an oracle `source` with a log of the indices drawn. The default stream `IsValid` creates is any such oracle; the result does not depend on it.
- Logging. `Logger::Debug` is dropped. `Logger::Error` in `Execute` becomes an `ExecError` entry in `errorLog`.
- World.WorldModel.Execute: the code's `continue` is modelled. The tests in `Test/Space/ModelTest.cpp` expect a throw, which would stop the batch.
- World.WorldModel.Execute: requires every action to carry an entity. The code dereferences the pointer unchecked.
- Listener callbacks are not re-entrant calls. Each call becomes an entry in a notification log, and a listener is a handle.
- `WorldModel::GetEntities` (World/WorldModel.cpp:92-98) is not modelled. `GetEntitiesWithType` and the registry map cover what it returns.
- `WorldEntity` and `MetaData` are not among the modelled files. An entity is an object with a mutable id and a fixed type. Metadata is a map from name to unbounded integer.
- Integer widths. Metadata values and ids are unbounded, and the id counter is not bounded. The two places where `HuntAndKillQuest::Tick` casts between an id and a metadata value are written out: `ToInt32` and `ToID`.
- Decimal.Atoi: overflow of C's `atoi` (undefined behaviour) is not modelled.
- QuestModel.RaisedRelation: the 32-bit overflow of `relationAdd + oldVal` is not modelled.
- QuestModel.Tick: `relationAdd` is a static member declared outside the modelled files, so it is a parameter. The marker names `Destroyed`, `RelationToPlayer` and `CurrentLocation` are declared outside them too, and are assumed to be those strings.
- QuestModel.Tick: the unused `float delta` parameter is dropped.
- QuestModel.Tick: it is a function that reads the world model, because the code only reads it.
- QuestModel.MoveSettles: stated only for solar-system ids below 2^31. A larger id does not survive being stored as a 32-bit metadata value (`StoredIdWraps`), so such a target would be moved on every tick.
- Story.CreateStory: the fatal logger call without valid entities is modelled as `Failure`.
- Story.CreateStory: the unused graph parameter is dropped.
- Story.CreateStory: `createTokenMapping` is defined outside the modelled files and is taken as the identity on the token map.
- Story.TellEntities: it loops over the picked entities. The code loops up to the number of required types. On success the two counts are equal.
- Story.IsValid and Story.CreateStory: the world model is only read. Its metadata lookups do not insert.
- WeaverUtils.ReplaceAll and WeaverUtils.Replace: they take the old string and return the new one, instead of changing it through a pointer.
- `readJsonFromFile` is file and JSON input, so it is left out.
- Template loading (`Template/Space/SpaceQuestTemplateFactory.cpp`) is left out. It is JSON-driven and relies on classes outside the modelled files.
- The engine's orchestration and serialization (`QuestWeaver.cpp`) is left out. It relies on collaborators outside the modelled files.
- Random world building in the space world model is left out.
- Quest candidate scoring and selection is left out. No modelled file implements it.
- The quest lifecycle (which quests are active, and what SUCCEED does to a quest) is left out. It lives outside the modelled files. A tick only returns the requested action.
- GraphAnalyzer.SolveGraph: the graph's own `ActivateNode`, `GetMandatoryGroups` and `GetNodes` are outside the modelled files. They are modelled as follows:
  - the graph is a sequence of groups;
  - activation appends to an ordered active list unless the node is already active.
- GraphAnalyzer.SolveGraph: the unused `score` variable is dropped.
- GraphAnalyzer.SolveGraph: `unordered_map` iteration order plays no part. The result is a map.
