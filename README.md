# Foraging simulation tick: a Dafny model

This project models the rule engine at the centre of the agent-based foraging simulation.
Agents move in a walled arena. They bump into each other, and they harvest resource patches
that drift slowly across the arena. Only the part that changes state is modelled:

- `Rescource`: a patch that is depleted by the agents on it, and that drifts and reflects
  from the walls.
- `Simulation`: agent-agent collisions; the per-tick pass over the patches and the agents
  standing on them; killing and regenerating exhausted patches; placing new patches without
  overlap; creating the agents and the patches.

Files:

- `angles.dfy`, module `Angles`:
  - the value of pi the simulation uses;
  - `prove_orientation`, the wrap of a heading into one turn;
  - the quarter turns a patch makes at each wall.
- `resource.dfy`, module `Resources`:
  - the `Resource` class, with the fields `rescource.py` updates in place (`resc_left`,
    position, centre, velocity, orientation);
  - the pure functions that specify its methods: `Depleted` for `deplete`, `Reflect` for
    `reflect_from_walls`, `Advanced` for `update`.
- `agent.dfy`, module `Agents`:
  - the agent record, with the fields the tick reads and writes;
  - `Bumped`, the effect of `agent_agent_collision` on the agent that was hit.
- `tick.dfy`, module `Tick`: each phase of one tick (sims.py:303-383) as a fold over the
  overlap dictionary, with lemmas on what each phase changes and what it keeps. The phases
  are:
  - the agent-agent pass;
  - the demotion of stale `collide` modes;
  - the agent-resource pass;
  - the "no resource here" signal.
- `simulation.dfy`, module `Sims`: the `Simulation` class.
  - Its fields are the agents, the live patch group and the clock `t`.
  - Each loop of `start` becomes a method proved against the matching `Tick` function.
  - `kill_resource`, `add_new_resource_patch`, `proove_resource`, `create_agents` and
    `create_resources` operate on the live group.
  - The class invariant is that live patch ids increase along the group, so they are unique.

The overlap dictionaries that pygame builds (`groupcollide`) are inputs to a tick:
- a list of `CollisionPair` (key agent, first agent it hit, bearing);
- a list of `PatchContact` (patch, indices of the agents on it).

The random draws are inputs too:
- the heading change of each patch;
- the candidate corners and unit counts for new patches;
- the start positions of the agents.

`cos` and `sin` are function parameters.

One behaviour of the code is kept as written. At sims.py:321 and sims.py:324 the tick appends
the whole list `agent2` to `collided_agents`, not the agent inside it. A list never equals an
agent, so a later `agent in collided_agents` test matches only key agents.
- `Tick.Appended` records both kinds of entry.
- `Tick.CollidedAreKeys` proves the consequence: an agent is excluded from the resource pass
  exactly when it is a key of the collision dictionary and, with teleporting on, it was not
  exploiting.

Patches collide as pygame's `collide_circle` decides: two discs collide when the squared
distance of their centres is at most the squared sum of their radii (`Sims.Overlap`), so
discs that only touch count as colliding.

Some members exist to split the proofs into pieces the verifier handles quickly. What
they state is stated again, whole, by the member that uses them:
- `Sims.Reached`, `Sims.Simulation.PhaseReached` and `Sims.Simulation.StillLive` are the loop
  invariants of the resource loop, packaged as predicates.
- `Sims.Simulation.LiveAfter`, `Sims.Simulation.LiveFrom`, `Sims.Simulation.NewSince` and
  `Sims.Simulation.Interacted` package facts about the live group and the outcome of a tick;
  `Sims.Simulation.InteractedFrom` assembles `Interacted` from its parts.
- `Sims.Simulation.KillRound` is one entry of the resource loop as the live group sees it, and
  `Sims.Simulation.KillChain`, `Sims.Simulation.ChainRound` and `Sims.Simulation.ChainAt` chain
  one such round per dictionary entry. `Sims.Simulation.Regen` gives the draws of entry `k`,
  `Sims.Simulation.PlacedIn`, `Sims.Simulation.Replaced` and `Sims.Simulation.SizedRound` count
  the rounds that placed a replacement, `Sims.Simulation.PlacedAt` and
  `Sims.Simulation.ChainOrigins` say where a new patch came from, and
  `Sims.Simulation.ReplacedPrefix` and `Sims.KilledPrefix` extend the counts by one round.
- `Sims.Disc` and `Sims.Discs` are the patches as the overlap test sees them;
  `Sims.Simulation.SpawnedFrom` and `Sims.Simulation.Drawn` are a patch as a draw built it;
  `Sims.Simulation.DiscsAgree` says a patch has one disc wherever it appears.
- `Sims.Patches`, `Sims.PatchesWithin`, `Sims.States`, `Sims.SnapshotDiscs` and
  `Sims.SnapshotNew` name the dictionary's patches and the patches' states at the start of the
  drift.
- `Sims.Simulation.ExploitEntry`, `Sims.Simulation.ExploitStep`, `Sims.Simulation.Retire` and
  `Sims.Simulation.KillIfExhausted` are one iteration of that loop, and
  `Sims.Simulation.PlaceRound` is one iteration of `create_resources`;
  `Sims.Simulation.Rounds` records its rounds.
- `Sims.Simulation.CollideAndDemote`, `Sims.Simulation.CollideAndExploit` and
  `Sims.Simulation.Resolve` are the parts of `Sims.Simulation.Interact`;
  `Sims.Simulation.SearchDraws` is the draw loop of `Sims.Simulation.AddNewResourcePatch`.
- `Sims.Simulation.Drift` and `Sims.Simulation.MovePatches` are the end of a tick, used by
  `Sims.Simulation.Step`.
- `Tick.TotalCollected`, `Tick.TotalLeft`, `Tick.TotalStock` and `Tick.TotalCollectedUpdate`
  are the sums the conservation lemmas are stated with.

## Model

| member | source | states |
|---|---|---|
| Angles.Wrapped | abm/environment/rescource.py:100-105 | a heading within one turn of [0, 2π] is brought into [0, 2π]; a heading already there is unchanged; the result always differs from the input by zero or one full turn |
| Angles.LeftWallTurn | abm/environment/rescource.py:120-124 | a heading in [0, 2π] stays in [0, 2π] and afterwards does not point further out through the left wall: it lies in [0, π/2) or [3π/2, 2π], so its x component is not negative |
| Angles.RightWallTurn | abm/environment/rescource.py:131-135 | a heading in [0, 2π] stays in [0, 2π] and afterwards does not point further out through the right wall: it lies in [π/2, 3π/2), so its x component is not positive; the single exception is a heading of exactly 2π, which is kept |
| Angles.TopWallTurn | abm/environment/rescource.py:141-145 | a heading in [0, 2π] stays in [0, 2π] and afterwards does not point further out through the upper wall: it lies in [π, 2π], so it does not move the patch up the screen |
| Angles.BottomWallTurn | abm/environment/rescource.py:150-154 | a heading in [0, 2π] stays in [0, 2π] and afterwards does not point further out through the lower wall: it lies in [0, π] or is exactly 2π, so it does not move the patch down the screen |
| Resources.Depleted | abm/environment/rescource.py:196-211 | the units granted are the request capped by the quality and then by what is left; granted plus left-over equals what was there; the patch never goes negative; exhaustion is reported exactly when nothing positive is left; an empty patch grants nothing and reports exhaustion |
| Resources.Resource.Deplete | abm/environment/rescource.py:196-211 | the returned pair and the new `resc_left` are those `Depleted` gives for the old `resc_left` and the patch quality |
| Resources.Resource.ProveOrientation | abm/environment/rescource.py:100-105 | the new orientation is the old one wrapped by `Wrapped` |
| Resources.Resource.TurnAtLeftWall | abm/environment/rescource.py:120-124 | the new orientation is `LeftWallTurn` of the old one |
| Resources.Resource.TurnAtRightWall | abm/environment/rescource.py:131-135 | the new orientation is `RightWallTurn` of the old one |
| Resources.Resource.TurnAtTopWall | abm/environment/rescource.py:141-145 | the new orientation is `TopWallTurn` of the old one |
| Resources.Resource.TurnAtBottomWall | abm/environment/rescource.py:150-154 | the new orientation is `BottomWallTurn` of the old one |
| Resources.Min | abm/environment/rescource.py:199-208 | the smaller of two amounts: it bounds both and is one of them |
| Resources.Clamped | abm/environment/rescource.py:116-154 | on one axis: a centre between the walls is kept; in an arena at least one unit wide the result lies between the walls |
| Resources.Reflect | abm/environment/rescource.py:107-156 | on each axis the centre is put back onto the wall it crossed (one unit inside on the right and lower walls; the right or lower wall wins when both fire); an axis inside the walls keeps its position; in an arena at least one unit wide the centre ends inside the walls; speed is unchanged; centre = position + radius; a heading in [0, 2π] stays there |
| Resources.ReflectTurnsAway | abm/environment/rescource.py:116-154 | after crossing the left, upper or lower wall the new heading does not point further out through that wall (its component towards the wall is zero or points back inside); after crossing the right wall the same holds unless the heading is exactly 2π |
| Resources.RightWallKeepsFullTurn | abm/environment/rescource.py:131-135 | a patch heading at exactly 2π that crosses only the right wall keeps heading 2π, so it is not turned back into the arena |
| Resources.Resource.ReflectFromWalls | abm/environment/rescource.py:107-156 | the new position, centre and orientation are `Reflect` of the old ones, and the speed is unchanged |
| Resources.Advanced | abm/environment/rescource.py:158-171 | after one drift step the speed is the desired speed and centre = position + radius; a heading in [0, 2π] turned by at most one turn stays in [0, 2π] |
| Resources.Moved | abm/environment/rescource.py:162-169 | before the reflection, the speed is the desired speed, the heading is the old one turned and wrapped by `Wrapped`, the position moves by the speed times the cosine of the new heading along x and by minus the speed times its sine along y, and the centre is the position plus the radius |
| Resources.Resource.Update | abm/environment/rescource.py:158-171 | the new kinematic state is `Advanced` of the old one, for the drawn turn |
| Resources.Resource.constructor | abm/environment/rescource.py:17-66 | the unit count defaults to the radius; `resc_left` starts full; the centre is the corner plus the radius; velocity and orientation start at 0 |
| Agents.Bumped | abm/simulation/sims.py:195-218 | the agent that was hit enters `collide` unless it is exploiting; it turns by −π/8 for a bearing in (0, π) and by +π/8 for one in (π, 2π), and not at all for 0 or π; its speed toggles between 1 and 1.5 (any speed other than 1 becomes 1); nothing else about it changes |
| Tick.Appends | abm/simulation/sims.py:317-324 | one resolved pair appends at most two entries, and exactly two (the key agent and the list of agents it hit) when teleporting is off |
| Tick.CollisionPass | abm/simulation/sims.py:315-324 | the agent-agent pass keeps the number of agents; what it changes is stated by `CollisionPassEffect` and `CollidedAreKeys` |
| Tick.CollisionPassEffect | abm/simulation/sims.py:313-324 | the collision pass changes only mode, orientation and speed; it never moves an agent into or out of `exploit`; every non-exploiting agent that was hit ends in `collide`; an agent that was never hit is untouched |
| Tick.CollidedAreKeys | abm/simulation/sims.py:313-324 | an agent is in `collided_agents` exactly when it is a key of the collision dictionary and, with teleporting on, it was not exploiting |
| Tick.Demoted | abm/simulation/sims.py:326-328 | only modes change; an agent is in `collide` afterwards exactly when it was in `collide` and is in `collided_agents`; every change is from `collide` to `explore` |
| Tick.VisitAgent | abm/simulation/sims.py:345-362 | one agent's visit keeps the number of agents; what it changes is stated by `VisitAgentEffect`, `VisitAgentOutcome` and `VisitAfterExhaustion` |
| Tick.PatchPass | abm/simulation/sims.py:345-362 | the pass over one patch keeps the number of agents; the units are stated by `PatchPassUnits` and `PatchPassConserves` (the agents receive in total exactly what the patch loses), each agent's grant and signals by `VisitAgentOutcome`, and the effects and listed agents by `PatchPassKeeps`, `PatchPassLists` and `PatchPassGrows` |
| Tick.VisitAgentEffect | abm/simulation/sims.py:346-362 | one agent's visit changes only that agent, and only its status, pooling flag, position and harvest; an agent in `collided_agents` is skipped and not listed, any other agent is listed; for non-negative stock, quality and consumption the harvest never shrinks |
| Tick.VisitAgentOutcome | abm/simulation/sims.py:346-362 | for an agent not in `collided_agents`: its harvest grows by exactly the units its visit takes from the patch; a non-exploiting agent takes nothing and leaves the stock and the destroy flag alone; an exploiting one takes what `Depleted` grants and sets the flag exactly when that exhausts the patch; on a patch not yet exhausted, an agent whose pooling just finished loses its pooling flag, gets status 1 (or −1 when its own harvest exhausted the patch) and, with teleporting on, is moved so that its centre is the patch's centre (otherwise it stays); any other agent keeps its position, pooling flag and status unless its harvest exhausted the patch |
| Tick.PatchPassUnits | abm/simulation/sims.py:343-362 | over all agents on a patch, the units handed out plus the units left equal the units there at the start; the patch never goes negative; a patch marked for destruction has nothing left |
| Tick.PatchPassConserves | abm/simulation/sims.py:345-362 | on one patch, the agents' total harvest grows by exactly the units handed out, and the units handed out plus the units left equal the stock at the start |
| Tick.PatchPassKeeps | abm/simulation/sims.py:345-362 | the pass over one patch changes only status, pooling flag, position and harvest, and leaves agents in `collided_agents` or not on the patch untouched |
| Tick.PatchPassLists | abm/simulation/sims.py:345-362 | an agent is listed on resources by this patch exactly when it is on the patch and not in `collided_agents` |
| Tick.PatchPassGrows | abm/simulation/sims.py:357-359 | with non-negative consumption and stock, no agent's harvest shrinks and the units handed out are non-negative |
| Tick.DestroyPersists | abm/simulation/sims.py:344-361 | once a patch is marked for destruction in the agent loop, it is still marked at the end of the loop |
| Tick.VisitAfterExhaustion | abm/simulation/sims.py:346-361 | an agent that visits an exhausted patch harvests nothing; its pooling flag is cleared; its status is 1 exactly when it is not exploiting and its pooling time is 0, otherwise −1 |
| Tick.LateVisitorsFindNothing | abm/simulation/sims.py:345-361 | every agent visited after the patch was exhausted harvests nothing, loses its pooling flag, and is told "no resource" unless it is a non-exploiting agent with pooling time 0 |
| Tick.ResourcePhase | abm/simulation/sims.py:343-364 | the agent-resource pass keeps the number of agents and gives one remaining stock and one destroy flag per dictionary patch; its effects are stated by `ResourcePhaseKeeps`, `ResourcePhaseOnResc`, `ResourcePhaseStock` and `ResourcePhaseConserves` (the agents' total harvest grows by exactly what the dictionary's patches lose) |
| Tick.ResourcePhaseKeeps | abm/simulation/sims.py:343-364 | the whole resource pass changes only status, pooling flag, position and harvest, and never touches agents in `collided_agents` |
| Tick.ResourcePhaseOnResc | abm/simulation/sims.py:341-362 | an agent is in `agents_on_rescs` exactly when it stands on some patch of the dictionary and is not in `collided_agents` |
| Tick.ResourcePhaseStock | abm/simulation/sims.py:343-364 | with non-negative consumption and stock, no harvest shrinks; every patch ends between zero and its starting stock; every patch marked for destruction is empty |
| Tick.ResourcePhaseConserves | abm/simulation/sims.py:343-364 | over the whole agent-resource pass, the agents' total harvest plus what the dictionary's patches hold afterwards equals the same sum at the start |
| Tick.Signalled | abm/simulation/sims.py:366-374 | only status and pooling flag change; agents on resources, agents in `collided_agents` and agents neither done pooling nor exploiting are untouched; every other agent gets status −1 and loses its pooling flag |
| Tick.TickAgents | abm/simulation/sims.py:313-374 | the agents after a tick's interaction phases, as many as before; their properties are stated by `TickEffect` |
| Tick.TickEffect | abm/simulation/sims.py:313-374 | after a tick's interaction phases, an agent is in `collide` only if it is in `collided_agents`, and such an agent keeps exactly its state from the collision pass; with non-negative consumption and stock, no harvest shrinks |
| Sims.ConcentricOverlap | abm/simulation/sims.py:101-117 | two discs with the same centre always collide, whatever their radii |
| Sims.ApartNoOverlap | abm/simulation/sims.py:101-117 | discs with non-negative radii whose centres lie further apart along x than the sum of the radii do not collide |
| Sims.OverlapSymmetric | abm/simulation/sims.py:101-117 | the collision test gives the same answer with the two discs swapped |
| Sims.TouchingPatchesCollide | abm/simulation/sims.py:101-117 | any two discs whose centres are exactly the sum of their radii apart collide: the test is "distance squared at most the squared sum of radii", so touching discs count as colliding |
| Sims.FitsApartFromLive | abm/simulation/sims.py:101-117 | an accepted disc shares its centre with no live patch |
| Sims.FitsSnoc | abm/simulation/sims.py:101-117 | a disc fits a group with one more patch exactly when it fits the group and does not collide with that patch |
| Sims.Simulation.ProoveResource | abm/simulation/sims.py:101-117 | with no live patch every candidate is accepted; what acceptance means is stated by `FitsApartFromLive`, `FitsSnoc` and `ProovedIsNew` |
| Sims.Simulation.ProovedIsNew | abm/simulation/sims.py:101-117 | an accepted candidate is not one of the live patches |
| Sims.FirstFit | abm/simulation/sims.py:186-192 | the accepted draw is the first one whose disc overlaps no live patch: every earlier draw overlaps one, and the accepted one overlaps none |
| Sims.MaxId | abm/simulation/sims.py:182-185 | the result bounds every live id and is one of them; with no live patch it is 0 |
| Sims.Without | abm/simulation/sims.py:176 | the group after a kill is no longer than before; which patches remain is stated by `WithoutMembers` and `WithoutKeepsIds` |
| Sims.WithoutKeepsIds | abm/simulation/sims.py:176 | removing a patch from a group with increasing ids keeps ids increasing and shortens the group by one exactly when the patch was in it |
| Sims.WithoutMembers | abm/simulation/sims.py:176 | removing a patch removes exactly that patch: every other member stays and nothing new appears |
| Sims.KillFacts | abm/simulation/sims.py:172-176 | after a kill (with or without regeneration) ids still increase; the killed patch is gone; every other patch stays; a regenerated patch sits at the end with the next id, which is above the killed patch's id; without regeneration the group shrinks by one |
| Sims.KillSurvivor | abm/simulation/sims.py:172-176 | after a kill, every patch of the group except a replacement was live before it |
| Sims.MaxIdAfterKill | abm/simulation/sims.py:172-185 | after a kill with a replacement the largest live id is one more than before; after a kill without one it is not larger, and it falls when the killed patch held it, so a later patch can be given an id used before (see "## Left out") |
| Sims.Killed | abm/simulation/sims.py:363-364 | no more patches are killed in one tick than there are dictionary entries; which ones is stated by `KilledExhausted` and `KilledOnce` |
| Sims.KilledExhausted | abm/simulation/sims.py:363-364 | every patch killed during the resource pass is a dictionary patch that was marked for destruction |
| Sims.KilledOnce | abm/simulation/sims.py:343-364 | since the dictionary lists each patch once, no patch is killed twice in one tick |
| Sims.Simulation.constructor | abm/simulation/sims.py:16-81 | the arena, agent and patch parameters are stored; the clock starts at 0; there are no agents or patches yet |
| Sims.Simulation.AddNewResourcePatch | abm/simulation/sims.py:178-193 | a patch is added exactly when some draw fits. The added patch is the first draw that fits, with id (largest live id) + 1, `resc_left` full, default quality, speed and turn bound, at rest with heading 0, and is appended to the group. With no fit the group is unchanged. Ids keep increasing, and every patch of the group is either an old one or a new one at rest and full |
| Sims.Simulation.DrawCandidate | abm/simulation/sims.py:187-192 | builds the patch a draw describes and reports whether it overlaps no live patch |
| Sims.Simulation.SearchDraws | abm/simulation/sims.py:185-193 | a candidate is produced exactly when some draw fits the live group, and it is then a new patch `Drawn` from the first fitting draw with the given id |
| Sims.Simulation.DrawnDisc | abm/simulation/sims.py:185-192 | a patch built from a draw covers exactly the disc the draw describes, the one the overlap test checked |
| Sims.Simulation.Regenerate | abm/simulation/sims.py:172-175 | a patch is added only when regeneration is on, and then exactly when some draw fits the live group; it is appended, is `Drawn` from the first fitting draw (that draw's corner, centre and units), takes id (largest live id) + 1, and is at rest and full; otherwise the group is unchanged |
| Sims.Simulation.KillResource | abm/simulation/sims.py:172-176 | the group afterwards is `KilledFrom` the old one: the patch is gone, the others stay, and at most one patch is appended, only with regeneration on and exactly when a draw fits the group before the kill; that patch is `Drawn` from the first fitting draw, with id (largest live id) + 1, at rest and full; ids keep increasing |
| Sims.Simulation.AgentAgentCollision | abm/simulation/sims.py:195-218 | only the agent that was hit changes, and it becomes `Bumped` |
| Sims.Simulation.RecordPair | abm/simulation/sims.py:317-324 | `collided_agents` grows by exactly the entries `Appends` gives for the resolved pair |
| Sims.Simulation.CollideAgents | abm/simulation/sims.py:313-324 | the agents and `collided_agents` afterwards are those of the collision pass `CollisionPass` |
| Sims.Simulation.DemoteCollided | abm/simulation/sims.py:326-328 | the agents afterwards are `Demoted` |
| Sims.Simulation.CollideAndDemote | abm/simulation/sims.py:313-328 | the agents and `collided_agents` afterwards are those of the collision pass followed by `Demoted` |
| Sims.Simulation.VisitOne | abm/simulation/sims.py:346-362 | the agents, the patch stock, the destroy flag and the list of visited agents are updated as `VisitAgent` prescribes |
| Sims.Simulation.ExploitPatch | abm/simulation/sims.py:344-362 | the agents, the patch stock, the destroy flag and the visited agents are those of `PatchPass` over the patch's agents |
| Sims.Simulation.Retire | abm/simulation/sims.py:363-364 | killing an exhausted live patch is one `KillRound` of the live group: the patch is gone, the others stay with their discs, and with regeneration on exactly one patch is appended when some draw fits, with the next id and the disc and units of the first fitting draw, and none otherwise; the record of the killed patches grows by this one |
| Sims.Simulation.KillRoundFrom | abm/simulation/sims.py:172-176 | a kill as `KillResource` describes it, with the patch's disc kept and the replacement's disc from its draw, is one `KillRound` |
| Sims.Simulation.KillIfExhausted | abm/simulation/sims.py:363-364 | the patch is killed exactly when it was marked for destruction, and the chain of the live group grows by that round; the other patches stay and anything new is fresh |
| Sims.Simulation.KillChainSnoc | abm/simulation/sims.py:343-364 | a chain of rounds followed by one more round for the next dictionary entry is a chain |
| Sims.Simulation.RoundCount | abm/simulation/sims.py:172-176 | one round loses one patch when it kills and gains one exactly when regeneration is on and some draw of the round fits |
| Sims.Simulation.ChainCount | abm/simulation/sims.py:343-364 | after the first n rounds of the resource loop, the size of the live group plus the number of patches killed equals the starting size plus the number of rounds that placed a replacement |
| Sims.Simulation.CountFrom | abm/simulation/sims.py:343-364 | the same count as `ChainCount`, by induction over the rounds from their sizes alone |
| Sims.Simulation.ChainOrigin | abm/simulation/sims.py:172-193 | every patch of the group after n rounds that was not live at the start was placed by one of those rounds: that round killed, regeneration is on, the patch is the last of the round's group, its id is one more than the largest id before the round, and it has the units and the disc of the round's first fitting draw |
| Sims.Simulation.ChainOriginsHold | abm/simulation/sims.py:343-364 | `ChainOrigin` for every new patch of the chain's last group |
| Sims.Simulation.ChainTotals | abm/simulation/sims.py:343-364 | over a whole tick's resource loop: the final group size plus the kills equals the starting size plus the replacements, and every new patch came from the first fitting draw of one round with that round's next id and that draw's disc |
| Sims.Simulation.ExploitEntry | abm/simulation/sims.py:344-364 | one dictionary entry updates the agents and the stock as `PatchPass` does and extends the chain of the live group (`ChainAt`) by one `KillRound`: a kill exactly when the patch was marked, with at most one replacement, placed exactly when a draw of the entry fits, from the first such draw and with the next id; every other dictionary patch is left as it was |
| Sims.Simulation.ExploitStep | abm/simulation/sims.py:343-364 | one more dictionary entry extends the prefix of `ResourcePhase` and the list of killed patches by one |
| Sims.Simulation.ExploitPatches | abm/simulation/sims.py:341-364 | agents, `agents_on_rescs` and each patch's stock are those of `ResourcePhase`; the killed patches are those marked for destruction, in order; the live group went through one `KillRound` per dictionary entry (`ChainAt`), so by `ChainTotals` it lost one patch per kill and gained one per kill whose draws held a fitting one, each gained patch from the first fitting draw of its round with the next id; killed patches are gone, all other live patches stay, and ids keep increasing |
| Sims.Simulation.SignalNoResource | abm/simulation/sims.py:366-374 | the agents afterwards are `Signalled` |
| Sims.Simulation.UpdateOne | abm/simulation/sims.py:378 | one patch drifts by `Advanced`, and no other live patch moves |
| Sims.Simulation.UpdateResources | abm/simulation/sims.py:378 | every live patch drifts by `Advanced` with its own turn draw, and its stock is unchanged |
| Sims.Simulation.Interact | abm/simulation/sims.py:313-374 | `Interacted`: the agents afterwards are `TickAgents` of the agents before; `collided_agents` is that of the collision pass; `agents_on_rescs`, every dictionary patch's stock and the killed patches (those marked for destruction, in order) are those of `ResourcePhase`; the live group lost exactly the killed patches and went through one `KillRound` per dictionary entry (`KillChain`), so by `ChainTotals` its size is the old size minus the kills plus the replacements, and each replacement came from the first fitting draw of its round, with that round's next id and that draw's disc; every patch added is new, at rest and full; ids keep increasing; no patch that was live before moves |
| Sims.Simulation.CollideAndExploit | abm/simulation/sims.py:313-374 | the same outcome as `Interact` (`Interacted`, the stocks, the chain of the live group), without the statement that no patch moves |
| Sims.Simulation.Resolve | abm/simulation/sims.py:343-374 | from the agents after the collision pass and the demotion, the resource loop and the signal loop give the outcome `Interacted` states |
| Sims.Simulation.Step | abm/simulation/sims.py:303-383 | one unpaused tick: the interaction exactly as `Interacted` states (with its `KillChain`); patches not in the dictionary keep their stock; then every patch of the group, regenerated ones included, drifts by `Advanced` from its state `mid` after the interaction: an old patch from its state at the start of the tick, a new one from rest with full stock, and every patch from the disc the chain recorded for it, so a replacement drifts from the disc of its draw; drifting leaves every stock as the interaction left it; the clock advances by one |
| Sims.Simulation.Drift | abm/simulation/sims.py:378-383 | every live patch drifts by `Advanced` from its state before, with its own turn draw; patches not in the given older group start from rest and full; stocks and the group are unchanged; the clock advances by one |
| Sims.Simulation.MovePatches | abm/simulation/sims.py:378 | every live patch drifts by `Advanced` from its state before, with its own turn draw; the recorded discs are those of the states before; patches not in the given older group start from rest and full |
| Sims.Simulation.CreateAgents | abm/simulation/sims.py:220-240 | `N` agents are appended, agent `i` with id `i`, the drawn position, the configured radius, pooling time and consumption, heading 0 and mode `explore` |
| Sims.Simulation.CreateResources | abm/simulation/sims.py:242-245 | `N_resc` rounds: round `i` appends the first draw of its list that fits the group so far, with id (largest id so far) + 1, or adds nothing when none fits; when every round has a fitting draw exactly `N_resc` patches are placed; existing patches stay, new ones are at rest and full, and ids keep increasing |
| Sims.Simulation.PlaceRound | abm/simulation/sims.py:243-245 | one round of `create_resources` extends the record of rounds by one `add_new_resource_patch` and reports whether it placed a patch |
| Sims.Simulation.RoundsSnoc | abm/simulation/sims.py:243-245 | a record of rounds followed by one more round is a record of rounds, and every group stays a prefix of the last |

## Left out

- Drawing, the pygame window, events, the pause switch, the framerate and the main `while`
  loop of `start` (`Step` is one unpaused tick).
- InfluxDB and CSV logging, the dotenv configuration, the replay and plotting tools, and the
  other simulation variants.
- `Agent.update` and everything an agent does on its own: sensing, decision making, pooling
  timers, movement. These live in the agent's own class and are not part of this model.
- `pygame.sprite.groupcollide`: its two dictionaries are inputs. Their order is taken as
  given, and each patch appears in the resource dictionary at most once, as a dictionary key
  does.
- `atan2` and the bearing at sims.py:208 are an input: `Bumped` receives the bearing already
  reduced to [0, 2π).
- Floating point: all quantities are exact reals, so rounding in the wall tests, in `%` and in
  the trigonometry is not modelled. `cos` and `sin` are uninterpreted function parameters.
- Pygame rectangle centres are integers; the model keeps the real centre.
- `Sims.Simulation.AddNewResourcePatch`: the source draws candidates until one fits and
  never gives up. The model takes a finite list of draws, and when none fits it adds nothing.
- `Sims.Simulation.KillResource`: for the same reason, a kill with regeneration on but no
  fitting draw places no replacement. When the killed patch held the largest id, the largest
  live id then falls, and the next patch placed is given an id that was used before
  (`Sims.MaxIdAfterKill` states this). The source retries until a draw fits, so there the
  replacement always takes the next id and ids are never reused; the model does not promise
  that.
- `Sims.Simulation.CreateResources`: for the same reason it promises exactly `N_resc` new
  patches only when every round's list of draws holds one that fits; otherwise that round
  adds nothing.
- `Sims.Simulation.AddNewResourcePatch`: the ranges of the random draws (corner within the
  arena, units between the minimum and maximum) are not enforced on the draws given.
- `Sims.Simulation.CreateAgents`: start positions are a parameter. The model does not
  enforce that they lie in the middle third of the arena. Agent fields outside the tick
  (vision, colour, pooling probability) are left out.
- `Resources.Advanced`: the heading change is a parameter; it is not required to lie within
  ±0.2 rad.
- `Sims.Simulation.Step`: its contract describes the agents before `Agent.update`, which is
  not modelled.
- Patch recolouring by stock (`draw_update`) and mouse dragging of patches.
