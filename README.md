# Enactive agents: valuation, memory and environment rules in Dafny

This project models the core of the enactive-agents simulator: how an agent
values an interaction and how the basic experiments' environment reacts when
an agent enacts one.

- **Interactions** (`interaction.dfy`): primitive (action, result) pairs,
  composite (pre, post) pairs and perception interactions wrapping a
  primitive; `unwrap` flattens a composite tree into its leaves.
- **Interaction memory** (`memory.dfy`): a class with the primitive and
  composite lists, the valence map and the weight map, updated in place by
  add_interaction, increment_weight, set_weight and set_valence; get_valence
  sums a composite's leaves with a left fold.
- **Boredom handlers** (`boredom.dfy`): passthrough, the hierarchical-weight
  discount, the repetition discount (counts of primitive names in the last 15
  history entries, compared with the proposed interaction by cosine
  similarity) and their mean. The loops of count_interactions and similarity
  are methods proved equal to the functions that specify them.
- **World** (`world.dfy`): the entities the enactment rules see, with
  get_entities_at, add_entity and remove_entity given the meaning the rules
  rely on.
- **Enactment rules** (`enactment.dfy`, `collaborative.dfy`): step, turn,
  feel, cuddle, eat, destroy and push for one agent, and the collaborative
  destroy resolver, whose three nested loops are specified by one function
  each and whose effect is proved for a lone agent, agents sharing a cell and
  a pair of agents on one block.
- **Agent event history** (`agentevents.dfy`): two windows of the 20 most
  recent preparation and enaction events per agent.
- **Experiments** (`experiment.dfy`, `basic.dfy`): parsing a world from its
  text form, the default symbol mapper, and the eight basic experiments'
  primitive lists, registered rules, motivation tables and controllers as
  data.

Math.sqrt is a parameter `sqrt` of which only the defining property of a
square root is assumed (`SqrtSpec`). The interaction naming (get_name),
whether an agent can step and the displacement of one step are parameters
too. So are the memory's total weight and interaction history, which the
memory class does not define.

## Model

| member | source | states |
|---|---|---|
| Interactions.Unwrap | enactiveagents/model/interactionmemory.py:82 | unwrap yields at least one interaction, only leaves (no composites), and a leaf unwraps to itself |
| Interactions.NodesOfFullTree | enactiveagents/model/boredomhandler.py:43-61 | the composite hierarchy the weight handler walks is a full binary tree: nodes = 2 * leaves - 1 |
| Interactions.LeavesAreNodes | enactiveagents/model/boredomhandler.py:43-61 | every leaf that unwrap yields is a node of the hierarchy the weight handler sums over |
| Interactions.UnwrapNested | enactiveagents/model/interactionmemory.py:82 | unwrap of ((p1, p2), p3) is [p1, p2, p3]: depth first, left to right |
| InteractionMemories.SumOfConcat | enactiveagents/model/interactionmemory.py:83 | the sum of stored valences over a concatenation is the sum of the two parts |
| InteractionMemories.FoldValences | enactiveagents/model/interactionmemory.py:83 | the reduce with start value acc yields acc plus the sum of the valences of the sequence |
| InteractionMemories.InteractionMemory.constructor | enactiveagents/model/interactionmemory.py:11-15 | a new memory has empty lists and maps and satisfies the invariant |
| InteractionMemories.InteractionMemory.AddInteraction | enactiveagents/model/interactionmemory.py:17-34 | a primitive is appended to the primitive list with its valence and weight set; a composite is appended to the composite list with its weight set and the valences untouched; anything else is a TypeError that changes nothing; the invariant is kept |
| InteractionMemories.InteractionMemory.IncrementWeight | enactiveagents/model/interactionmemory.py:36-42 | the weight of that interaction goes up by 1; every other weight, the key set, the lists and the valences are unchanged |
| InteractionMemories.InteractionMemory.SetWeight | enactiveagents/model/interactionmemory.py:44-59 | after set_weight(i, w), get_weight(i) is w; the lists and valences are unchanged |
| InteractionMemories.InteractionMemory.SetValence | enactiveagents/model/interactionmemory.py:61-71 | succeeds exactly for a primitive and then sets its valence; otherwise a TypeError with the valences unchanged; lists and weights never change |
| InteractionMemories.InteractionMemory.GetValence | enactiveagents/model/interactionmemory.py:73-86 | a TypeError exactly for a perception interaction; a primitive's stored valence; a composite's sum of the valences of its unwrapped primitives |
| InteractionMemories.InteractionMemory.GetWeight | enactiveagents/model/interactionmemory.py:53-59 | the result is one of the stored weights; an unweighed interaction is excluded by the precondition, as the source raises KeyError; SetWeight and IncrementWeight state what it reads after each update |
| InteractionMemories.InteractionMemory.AllInteractions | enactiveagents/model/interactionmemory.py:94-95 | the primitive list followed by the composite list; under the invariant every element is weighed |
| InteractionMemories.CompositeValenceSplits | enactiveagents/model/interactionmemory.py:79-84 | a composite's valence is the valence of its pre plus the valence of its post |
| InteractionMemories.SingleValence | enactiveagents/model/interactionmemory.py:79-80 | for a primitive, the sum over its unwrapped leaves is its stored valence |
| Boredom.PassthroughBoredom | enactiveagents/model/boredomhandler.py:32-33 | the raw valence comes back unchanged |
| Boredom.HierarchicalWeight | enactiveagents/model/boredomhandler.py:43-61 | with non-negative weights, the hierarchical weight is at least the interaction's own weight |
| Boredom.HierarchicalWeightIsNodeSum | enactiveagents/model/boredomhandler.py:43-61 | the hierarchical weight is the sum of the weights of every node of the composite tree |
| Boredom.WeightBoredom | enactiveagents/model/boredomhandler.py:63-70 | a non-positive raw valence passes unchanged; a positive one is scaled by 1 - hierarchical weight / total weight, and then lies in [0, raw] when that weight is within [0, total] |
| Boredom.Recent | enactiveagents/model/boredomhandler.py:125 | the last min(15, length) entries of the history |
| Boredom.Counts | enactiveagents/model/boredomhandler.py:82-97 | the counts add up to the length of the sequence, and every interaction is counted under its name (a perception under its primitive's) |
| Boredom.CountInteractions | enactiveagents/model/boredomhandler.py:82-97 | the counting loop computes exactly Counts |
| Boredom.DotOverRemove | enactiveagents/model/boredomhandler.py:112-114 | the accumulated sum does not depend on the order in which the Counter's keys are visited |
| Boredom.LengthSquaredZero | enactiveagents/model/boredomhandler.py:119 | a count's squared length is zero exactly when the count is empty |
| Boredom.CauchySchwarz | enactiveagents/model/boredomhandler.py:112-119 | over any set of keys, the squared dot product of two counts is at most the product of their squared lengths |
| Boredom.DotOverAtMostLength | enactiveagents/model/boredomhandler.py:116-119 | summing a count's squares over the first count's keys gives at most its squared length over its own keys |
| Boredom.DotSquaredBound | enactiveagents/model/boredomhandler.py:108-122 | the dot product the first loop accumulates, squared, is at most the product of the two squared lengths |
| Boredom.Similarity | enactiveagents/model/boredomhandler.py:99-122 | -1 for an empty first count; otherwise a cosine in [0, 1], and 1 for a count against itself |
| Boredom.CosineBounds | enactiveagents/model/boredomhandler.py:119-122 | for positive lengths and a non-negative dot product the cosine is non-negative, 1 when all three sums agree, and at most 1 when the squared dot product is at most the product of the lengths |
| Boredom.CosineFacts | enactiveagents/model/boredomhandler.py:119-122 | for non-empty counts the lengths are positive, the cosine lies in [0, 1], and it is 1 for a count against itself |
| Boredom.ComputeSimilarity | enactiveagents/model/boredomhandler.py:99-122 | the two accumulation loops compute exactly Similarity |
| Boredom.RepetitiveBoredom | enactiveagents/model/boredomhandler.py:124-132 | with an empty history the raw valence is doubled; otherwise the result lies between 0 and the raw valence: boredom shrinks a valence but never flips its sign |
| Boredom.OnlyRecentHistoryMatters | enactiveagents/model/boredomhandler.py:125 | entries older than the last 15 can be anything without changing the repetitive handler's result |
| Boredom.SameRecentSameBoredom | enactiveagents/model/boredomhandler.py:124-132 | two non-empty histories with the same last 15 entries give the same result |
| Boredom.DiscountBounds | enactiveagents/model/boredomhandler.py:129-132 | scaling by 1 - similarity, for a similarity in [0, 1], keeps a valence between 0 and itself |
| Boredom.CountsOfOneName | enactiveagents/model/boredomhandler.py:82-97 | a sequence whose interactions all share one name counts that name as often as the sequence is long |
| Boredom.RepeatedPrimitiveIsBoring | enactiveagents/model/boredomhandler.py:124-132 | proposing the primitive that fills the whole recent history gives similarity 1 and valence 0 |
| Boredom.CosineOfParallelCounts | enactiveagents/model/boredomhandler.py:119-122 | n occurrences of one name against one occurrence of it have cosine 1 |
| Boredom.WeightRepetitiveBoredom | enactiveagents/model/boredomhandler.py:144-149 | twice the result is the sum of the weight and repetitive handlers on the same raw valence, so it lies between them |
| Boredom.ColdStartCombined | enactiveagents/model/boredomhandler.py:144-149 | with an empty history a non-positive raw valence is scaled by 3/2 |
| Boredom.WeightRepetitiveBoredomAsWritten | enactiveagents/model/boredomhandler.py:144-149 | the handler as written for an int raw valence: on a cold start with a non-positive valence the result is the mean 3/2 * raw floored, so within 1/2 below it |
| Boredom.CombinedFloorsOddValences | enactiveagents/model/boredomhandler.py:144-149 | on a cold start with an integer valence the handler as written agrees with the mean exactly for even valences; -1 gives -2 |
| Worlds.EntitiesAt | enactiveagents/experiment/basic.py:249 | an entity is in the result exactly when it is in the world and covers the cell, and the result is no longer than the world (the definition keeps the world's order; no ensures states it) |
| Worlds.Remove | enactiveagents/experiment/basic.py:422 | an entity stays exactly when it was there and is not the removed one, and the result is no longer than the input (the definition keeps the order; no ensures states it) |
| Worlds.RemoveOne | enactiveagents/experiment/basic.py:715-722 | with unique ids, removing a present entity takes out exactly one occurrence |
| Worlds.RemoveKeepsUniqueIds | enactiveagents/experiment/basic.py:422 | removing an entity keeps ids unique |
| Worlds.FirstOfKind | enactiveagents/experiment/basic.py:716-720 | the least index of an entity of the kind, or the length when there is none |
| Worlds.World.constructor | enactiveagents/experiment/experiment.py:22 | a new world is empty, 0 x 0, and valid |
| Worlds.World.AddEntity | enactiveagents/experiment/experiment.py:33 | the new entity gets the next fresh id and goes to the end; nothing else changes and ids stay unique |
| Worlds.World.RemoveEntity | enactiveagents/experiment/basic.py:422 | the entity list becomes Remove of the old one, so it loses exactly that entity; the ids, dimensions and invariant are kept |
| Enactment.FoundAt | enactiveagents/experiment/basic.py:419-426 | the scan of the entities at a cell finds one of a kind exactly when one covers that cell |
| Enactment.Step | enactiveagents/experiment/basic.py:45-50 | step succeeds exactly when the agent can step and then moves only that agent by the step's displacement; otherwise nothing changes |
| Enactment.TurnRight | enactiveagents/experiment/basic.py:52-54 | always succeeds and turns only the acting agent by -90 degrees |
| Enactment.TurnLeft | enactiveagents/experiment/basic.py:56-58 | always succeeds and turns only the acting agent by +90 degrees |
| Enactment.Feel | enactiveagents/experiment/basic.py:60-64 | feel succeeds exactly when the agent cannot step, and fails exactly when it can |
| Enactment.Cuddle | enactiveagents/experiment/basic.py:248-254 | succeeds exactly when some other agent covers the agent's cell; the world is not modified |
| Enactment.FindFirst | enactiveagents/experiment/basic.py:419-421 | the scanning loop stops at exactly the first entity of the kind |
| Enactment.FirstOfKindIsLeast | enactiveagents/experiment/basic.py:419-421 | the least index holding the kind is the one FirstOfKind gives |
| Enactment.Eat | enactiveagents/experiment/basic.py:715-722 | succeeds exactly when food covers the agent's cell, and then removes exactly one such food, the first; otherwise nothing changes |
| Enactment.Destroy | enactiveagents/experiment/basic.py:428-438 | succeeds exactly when a block covers the agent's cell; then the first such block is replaced by a new food at its position; otherwise nothing changes |
| Enactment.Relocate | enactiveagents/experiment/basic.py:542 | only the moved entity changes, and only its position |
| Enactment.RelocateKeepsIds | enactiveagents/experiment/basic.py:542 | moving an entity keeps ids unique, fresh and heights positive |
| Enactment.Push | enactiveagents/experiment/basic.py:536-544 | succeeds exactly when the agent can step and a block covers its cell; then the first such block moves by the step's displacement; otherwise nothing changes |
| CollaborativeDestroy.Shatter | enactiveagents/experiment/basic.py:745-760 | the block is gone, the id counter advances by two and both agents get an entry |
| CollaborativeDestroy.Partners | enactiveagents/experiment/basic.py:737-760 | the innermost loop as a function; it only adds entries to the enacted map and takes fresh ids two at a time |
| CollaborativeDestroy.Blocks | enactiveagents/experiment/basic.py:733-760 | the loop over the entities at the first agent's cell as a function; it only adds entries and takes ids two at a time |
| CollaborativeDestroy.Resolve | enactiveagents/experiment/basic.py:726-761 | the outer loop from agent i on as a function; it only adds entries and takes ids two at a time |
| CollaborativeDestroy.Resolved | enactiveagents/experiment/basic.py:724-761 | the resolver's result from an empty enacted map; the id counter advances by an even number, two per destroyed block |
| CollaborativeDestroy.Collaborate | enactiveagents/experiment/basic.py:724-761 | the resolver's loops leave exactly the world and enacted map that Resolved describes, and keep the world's invariant |
| CollaborativeDestroy.TryBlocks | enactiveagents/experiment/basic.py:733-760 | the loop over the blocks at the first agent's cell computes exactly Blocks |
| CollaborativeDestroy.TryPartners | enactiveagents/experiment/basic.py:737-760 | the loop over candidate partners computes exactly Partners |
| CollaborativeDestroy.ResolveReports | enactiveagents/experiment/basic.py:725-761 | once all earlier agents have entries, the resolver gives every attempting agent an entry, each success or failure |
| CollaborativeDestroy.EnactedCoversTheAgents | enactiveagents/experiment/basic.py:725-761 | the enacted map's keys are exactly the attempting agents and each value is the success or the failure variant |
| CollaborativeDestroy.PartnersIdle | enactiveagents/experiment/basic.py:737-743 | with every agent on the first agent's cell, no partner is ever found |
| CollaborativeDestroy.SharedPositionFails | enactiveagents/experiment/basic.py:737-743 | agents that all share one position all fail and the world is unchanged |
| CollaborativeDestroy.LoneAgentFails | enactiveagents/experiment/basic.py:737-739 | a lone agent fails and the world is unchanged |
| CollaborativeDestroy.PartnersOfPair | enactiveagents/experiment/basic.py:737-760 | for two agents on different cells, the second is a partner exactly when it touches the block |
| CollaborativeDestroy.BlocksOfPair | enactiveagents/experiment/basic.py:734-760 | with one block at the first agent's cell, the pair's destroy happens at most once |
| CollaborativeDestroy.PairDestroysBlock | enactiveagents/experiment/basic.py:745-760 | two agents on different cells touching the only block at the first one's cell remove it, add food at its position and one row below, and both succeed |
| AgentEventHistory.Push | enactiveagents/view/agentevents.py:30-33 | the window ends with the new entry, and a window of at most 20 becomes the last 20 of window + [entry] |
| AgentEventHistory.PushAllKeepsLast | enactiveagents/view/agentevents.py:30-33 | pushing entries one at a time keeps the last 20 of everything pushed |
| AgentEventHistory.Created | enactiveagents/view/agentevents.py:17-24 | afterwards the agent is present, every existing agent keeps its windows, and no other agent is added |
| AgentEventHistory.CreatedIdempotent | enactiveagents/view/agentevents.py:17-24 | creating twice is creating once |
| AgentEventHistory.Notified | enactiveagents/view/agentevents.py:26-40 | an event of another kind leaves the history as it is; a preparation or enaction adds its agent if it is missing and no other key |
| AgentEventHistory.PreparationRecorded | enactiveagents/view/agentevents.py:26-33 | a preparation event makes that agent's preparation window the last 20 of the old one plus the event, ending with the event; its enaction window is unchanged |
| AgentEventHistory.EnactionRecorded | enactiveagents/view/agentevents.py:34-40 | an enaction event makes that agent's enaction window the last 20 of the old one plus the event, ending with the event; its preparation window is unchanged |
| AgentEventHistory.NotifiedBounded | enactiveagents/view/agentevents.py:26-40 | no window ever grows past 20 entries |
| AgentEventHistory.NotifiedFrame | enactiveagents/view/agentevents.py:26-40 | other agents' windows are untouched, and any other kind of event changes nothing, not even by creating an entry |
| AgentEventHistory.AgentEvents.constructor | enactiveagents/view/agentevents.py:14-15 | a new view has an empty history, which is bounded |
| AgentEventHistory.AgentEvents.CreateIfNotExists | enactiveagents/view/agentevents.py:17-24 | the history becomes exactly Created of the old history |
| AgentEventHistory.AgentEvents.Notify | enactiveagents/view/agentevents.py:26-40 | the history becomes exactly Notified of the old history, and stays bounded |
| Experiments.Mapper | enactiveagents/experiment/experiment.py:44-64 | a symbol maps to an entity exactly when it is one of w, b, a, h, p |
| Experiments.MapperInvertsSymbolOf | enactiveagents/experiment/experiment.py:51-64 | the mapper sends w, b, a, h and p to wall, block, constructive, homeostatic and perceiving agent, and nothing else to a kind |
| Experiments.MaxLen | enactiveagents/experiment/experiment.py:29-39 | no line is longer than the width, and for non-empty input some line has exactly that length |
| Experiments.RowPlacementsExact | enactiveagents/experiment/experiment.py:29-34 | a line yields a placement exactly at each column whose symbol the mapper knows, with that kind |
| Experiments.PlacementsExact | enactiveagents/experiment/experiment.py:27-35 | each mapped symbol at column x of line y yields a placement at (x, y), and nothing else does |
| Experiments.RowPlacementsOrdered | enactiveagents/experiment/experiment.py:29-34 | a line's placements lie on that line, strictly left to right |
| Experiments.PlacementsOrdered | enactiveagents/experiment/experiment.py:27-35 | placements come in row-major order, so no cell gets two entities |
| Experiments.Spawned | enactiveagents/experiment/experiment.py:30-33 | one entity per placement, in order, with consecutive fresh ids |
| Experiments.ParseWorld | enactiveagents/experiment/experiment.py:11-42 | the parsed world holds exactly the entities of the placements in row-major order, its width is the longest line and its height the number of lines |
| Experiments.NextLine | enactiveagents/experiment/experiment.py:27-37 | scanning one more line appends exactly that line's entities and updates the width by max |
| Experiments.ScanLine | enactiveagents/experiment/experiment.py:29-35 | the scan of one line appends exactly that line's entities with fresh ids and updates the width |
| Experiments.EmptyRepresentation | enactiveagents/experiment/experiment.py:22-26 | an empty representation gives no placements and width 0 |
| Experiments.HasController | enactiveagents/experiment/experiment.py:75-76 | true exactly when a controller is present |
| BasicExperiments.Value | enactiveagents/experiment/basic.py:174-181 | the motivation an agent with the given energy receives; InitialStepMotivation and SuccessIsPreferred state its values |
| BasicExperiments.Primitives | enactiveagents/experiment/basic.py:73-80 | the primitives each experiment sets, in order; MotivationPerPrimitive, RegisteredAreKnownSuccesses and SuccessIsPreferred state their properties |
| BasicExperiments.Registered | enactiveagents/experiment/basic.py:66-71 | the names under which each experiment registers a rule; RegisteredAreKnownSuccesses states that each is a known success variant |
| BasicExperiments.Motivations | enactiveagents/experiment/basic.py:82-89 | each experiment's motivation table; MotivationPerPrimitive, AgentDependentExactlyWhenHomeostatic and SuccessIsPreferred state its properties |
| BasicExperiments.ControllerOf | enactiveagents/experiment/basic.py:483-492 | the controller each experiment installs; ControllersPresent states which have one |
| BasicExperiments.MotivationPerPrimitive | enactiveagents/experiment/basic.py:773-792 | in each experiment every known primitive has exactly one motivation, nothing else has one, and no primitive is listed twice |
| BasicExperiments.RegisteredAreKnownSuccesses | enactiveagents/experiment/basic.py:66-80 | every rule is registered under a known primitive's success variant |
| BasicExperiments.AgentDependentExactlyWhenHomeostatic | enactiveagents/experiment/basic.py:174-181 | motivations depend on the agent exactly in the two homeostatic experiments |
| BasicExperiments.SuccessIsPreferred | enactiveagents/experiment/basic.py:459-468 | every failing primitive has its success variant, which is worth more than the failure for energies strictly between -100 and 300 |
| BasicExperiments.InitialStepMotivation | enactiveagents/experiment/basic.py:174-189 | a homeostatic agent with its initial energy of 100 values a step at 10 |
| BasicExperiments.ControllersPresent | enactiveagents/experiment/basic.py:483-492 | exactly the homeostatic vision and the collaborative destroy experiments have a controller |

## Left out

- Interactions are compared structurally. The source keys its dictionaries by object, and its equality depends on the interaction module, which is not part of this model.
- The interaction module (get_name, unwrap, the perception interaction class) is not part of this model. Names are a parameter, unwrap follows its documented flattening, and a perception interaction counts as neither primitive nor composite in the memory's type checks.
- The world, agent and structure modules are not part of this model. can_step and get_move_delta are parameters, and get_entities_at, add_entity and remove_entity are specified by what the rules rely on. Entities are identified by an id.
- The memory's get_total_weight and get_interaction_history are not defined by the memory class. The boredom handlers receive their values in a `MemoryView`.
- Boredom.WeightBoredom: a positive raw valence requires a positive total weight and a weight for every node. In the source, a zero total is a division error and a missing weight a KeyError.
- Boredom.ComputeSimilarity: when the first count is non-empty the second must be too. The source divides by zero on an empty second count. Its callers never reach that case, because the proposed interaction unwraps to at least one leaf. Boredom.Similarity carries the same precondition.
- InteractionMemories.InteractionMemory.IncrementWeight: a missing key is a precondition, because the source raises KeyError. The same holds for GetWeight and for the valences GetValence reads.
- Floating point is modelled as exact reals. math.sqrt is a parameter that satisfies the square-root property, so rounding is not modelled.
- Python 2 integer division in the combined handler is modelled only in the row under Findings, because the type of the raw valence comes from agent code that is not part of this model.
- Enactment.Step: the energy cost of 0.1 per step in the homeostatic experiments (basic.py:139, 405) is not modelled, because homeostatic values live in agent code that is not part of this model.
- Enactment.Eat: the energy gain of 10 in the homeostatic vision experiment (basic.py:423) is not modelled, for the same reason.
- The homeostatic experiments' initial energy (basic.py:189, 476) is not modelled as agent state; it is only the constant `InitialEnergy`. Installing a perception handler (basic.py:477) is not modelled either.
- Motivations that are functions of the agent are modelled as affine functions of its energy, which every such table entry is.
- Registering enact logic with the world (add_enact_logic, add_complex_enact_logic), set_primitives and set_motivation are modelled only as the per-experiment data they install.
- The order in which _collaborative_destroy visits the agents depends on dictionary iteration. It is taken as the given sequence.
- Enactment.Push: the block's position object is mutated in place in the source. Here the block's position is replaced, so aliasing of position objects is not modelled.
- Rotations are plain integers and are not normalised modulo 360.
- New food, blocks and parsed entities are assumed to have height 1 and rotation 0. The controller's block of height 2 is covered by `Occupies`, but the controller is not modelled.
- The pygame key controllers (basic.py:483-492, 804-814) are modelled only by their presence, because they handle user input.
- parse_world's default mapper argument is not modelled: callers pass `Mapper` explicitly. The perceiving agent's perception handler (experiment.py:60-62) is modelled only as a separate kind.
- AgentEvents.write (JSON output to a stream) and the browser front end in webroot/scripts/main.js are I/O.
- get_primitive_interactions and get_composite_interactions are plain field reads.

## Findings

| source | as written | input that shows it | evidently intended | confidence | as-written member | corrected member |
|---|---|---|---|---|---|---|
| enactiveagents/model/boredomhandler.py:144-149 | the sum of the two handlers' results is divided by the int 2; when both results are Python 2 ints the division floors | an empty interaction history and an int raw valence of -1: the weight handler returns -1, the repetitive handler -2, and the combined result is -3 / 2 = -2 | the mean, -1.5 | medium; not executed; it needs the raw valence to reach the handler as an int, which the agent code, outside this model, decides | Boredom.CombinedFloorsOddValences | Boredom.ColdStartCombined |
