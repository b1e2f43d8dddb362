/** The unpaused branch of the main loop in abm/simulation/sims.py (lines 303-383) as
    functions on values: the agent-agent pass, the demotion of stale collisions, the
    agent-resource pass and the "no resource here" pass. The overlap dictionaries that
    pygame computes are inputs. Each pass over a list is a fold written on prefixes, so
    that the loops of the Simulation class can be proved against it step by step. */
module Tick {
  import opened Angles
  import opened Agents
  import opened Resources

  /** One entry of the agent-agent collision dictionary: the key agent `first`, the first
      agent of its collision list `second`, and the bearing computed with atan2. */
  datatype CollisionPair = CollisionPair(first: nat, second: nat, theta: real)

  /** What sims.py:319-324 append to `collided_agents`: the key agent itself, or the whole
      list of agents it collided with. A list never equals an agent, so membership tests
      against `collided_agents` only ever match `AgentEntry`. */
  datatype Appended = AgentEntry(agent: nat) | ListEntry(head: nat)

  /** `agent in collided_agents` for the agent with index `i`. */
  predicate Excluded(collided: seq<Appended>, i: nat) {
    AgentEntry(i) in collided
  }

  predicate PairsIn(pairs: seq<CollisionPair>, n: nat) {
    forall k :: 0 <= k < |pairs| ==> pairs[k].first < n && pairs[k].second < n
  }

  predicate IsFirst(pairs: seq<CollisionPair>, i: nat) {
    exists k :: 0 <= k < |pairs| && pairs[k].first == i
  }

  predicate IsSecond(pairs: seq<CollisionPair>, i: nat) {
    exists k :: 0 <= k < |pairs| && pairs[k].second == i
  }

  datatype Collisions = Collisions(agents: seq<Agent>, collided: seq<Appended>)

  /** The entries one pair appends (sims.py:317-324), read after the pair was resolved. */
  function Appends(after: seq<Agent>, p: CollisionPair, teleport: bool): (es: seq<Appended>)
    requires p.first < |after| && p.second < |after|
    ensures |es| <= 2 && (!teleport ==> |es| == 2)
  {
    if teleport then
      (if after[p.first].mode != Exploit then [AgentEntry(p.first)] else []) +
      (if after[p.second].mode != Exploit then [ListEntry(p.second)] else [])
    else
      [AgentEntry(p.first), ListEntry(p.second)]
  }

  /** The loop at sims.py:315-324 over the first `|pairs|` dictionary entries. */
  function CollisionPass(agents: seq<Agent>, pairs: seq<CollisionPair>, teleport: bool): (r: Collisions)
    requires PairsIn(pairs, |agents|)
    ensures |r.agents| == |agents|
    decreases |pairs|
  {
    if pairs == [] then Collisions(agents, [])
    else
      var r := CollisionPass(agents, pairs[..|pairs| - 1], teleport);
      var p := pairs[|pairs| - 1];
      var after := r.agents[p.second := Bumped(r.agents[p.second], p.theta)];
      Collisions(after, r.collided + Appends(after, p, teleport))
  }

  /** One more dictionary entry extends the agent-agent pass by one collision. */
  lemma CollisionSnoc(agents: seq<Agent>, pairs: seq<CollisionPair>, k: nat, teleport: bool)
    requires PairsIn(pairs, |agents|) && k < |pairs|
    ensures var r := CollisionPass(agents, pairs[..k], teleport);
      var p := pairs[k];
      var after := r.agents[p.second := Bumped(r.agents[p.second], p.theta)];
      CollisionPass(agents, pairs[..k + 1], teleport) == Collisions(after, r.collided + Appends(after, p, teleport))
  {
    assert pairs[..k + 1][..k] == pairs[..k];
  }

  /** `b` differs from `a` at most in what a collision changes. */
  predicate OnlyBumped(a: Agent, b: Agent) {
    b == a.(mode := b.mode, orientation := b.orientation, velocity := b.velocity)
  }

  /** The agent-agent pass: an agent that is never the second of a pair is not touched at
      all (in particular a key agent is never modified by its own entry); an agent that is
      hit ends in collide unless it was exploiting, and exploiting agents stay exploiting. */
  lemma {:induction false} CollisionPassEffect(agents: seq<Agent>, pairs: seq<CollisionPair>, teleport: bool)
    requires PairsIn(pairs, |agents|)
    ensures var r := CollisionPass(agents, pairs, teleport);
      forall i :: 0 <= i < |agents| ==>
        && OnlyBumped(agents[i], r.agents[i])
        && (r.agents[i].mode == Exploit <==> agents[i].mode == Exploit)
        && (IsSecond(pairs, i) && agents[i].mode != Exploit ==> r.agents[i].mode == Collide)
        && (!IsSecond(pairs, i) ==> r.agents[i] == agents[i])
    decreases |pairs|
  {
    if pairs != [] {
      var front := pairs[..|pairs| - 1];
      var p := pairs[|pairs| - 1];
      CollisionPassEffect(agents, front, teleport);
      var r0 := CollisionPass(agents, front, teleport);
      var r := CollisionPass(agents, pairs, teleport);
      forall i | 0 <= i < |agents|
        ensures OnlyBumped(agents[i], r.agents[i])
        ensures r.agents[i].mode == Exploit <==> agents[i].mode == Exploit
        ensures IsSecond(pairs, i) && agents[i].mode != Exploit ==> r.agents[i].mode == Collide
        ensures !IsSecond(pairs, i) ==> r.agents[i] == agents[i]
      {
        if IsSecond(front, i) {
          var k :| 0 <= k < |front| && front[k].second == i;
          assert pairs[k] == front[k];
        }
        if IsSecond(pairs, i) && i != p.second {
          var k :| 0 <= k < |pairs| && pairs[k].second == i;
          assert k < |front| && front[k] == pairs[k];
        }
        if !IsSecond(pairs, i) {
          assert pairs[|pairs| - 1].second != i;
        }
      }
    }
  }

  lemma IsFirstSnoc(pairs: seq<CollisionPair>, i: nat)
    requires pairs != []
    ensures IsFirst(pairs, i) <==> IsFirst(pairs[..|pairs| - 1], i) || pairs[|pairs| - 1].first == i
  {
    var front := pairs[..|pairs| - 1];
    if IsFirst(front, i) {
      var k :| 0 <= k < |front| && front[k].first == i;
      assert pairs[k] == front[k];
    }
    if IsFirst(pairs, i) && pairs[|pairs| - 1].first != i {
      var k :| 0 <= k < |pairs| && pairs[k].first == i;
      assert k < |front| && front[k] == pairs[k];
    }
  }

  /** Who ends up excluded from the resource passes: exactly the key agents, and with
      teleport-on-exploit only those key agents that were not exploiting. An agent that is
      only ever the second of a pair is never excluded, because the list holding it is what
      was appended. */
  lemma {:induction false} CollidedAreKeys(agents: seq<Agent>, pairs: seq<CollisionPair>, teleport: bool)
    requires PairsIn(pairs, |agents|)
    ensures var r := CollisionPass(agents, pairs, teleport);
      forall i :: 0 <= i < |agents| ==>
        (Excluded(r.collided, i) <==> IsFirst(pairs, i) && (teleport ==> agents[i].mode != Exploit))
    decreases |pairs|
  {
    if pairs != [] {
      var front := pairs[..|pairs| - 1];
      var p := pairs[|pairs| - 1];
      CollidedAreKeys(agents, front, teleport);
      CollisionPassEffect(agents, front, teleport);
      var r0 := CollisionPass(agents, front, teleport);
      var after := r0.agents[p.second := Bumped(r0.agents[p.second], p.theta)];
      var r := CollisionPass(agents, pairs, teleport);
      assert r.collided == r0.collided + Appends(after, p, teleport);
      forall i | 0 <= i < |agents|
        ensures Excluded(r.collided, i) <==> IsFirst(pairs, i) && (teleport ==> agents[i].mode != Exploit)
      {
        IsFirstSnoc(pairs, i);
        assert after[i].mode == Exploit <==> agents[i].mode == Exploit;
        assert AgentEntry(i) in Appends(after, p, teleport) <==>
               i == p.first && (teleport ==> after[i].mode != Exploit);
      }
    }
  }

  /** The loop at sims.py:326-328: agents left in collide that were not excluded this tick
      go back to explore. Only that mode changes. */
  function Demoted(agents: seq<Agent>, collided: seq<Appended>): (r: seq<Agent>)
    ensures |r| == |agents|
    ensures forall i :: 0 <= i < |r| ==> r[i] == agents[i].(mode := r[i].mode)
    ensures forall i :: 0 <= i < |r| ==>
      (r[i].mode == Collide <==> agents[i].mode == Collide && Excluded(collided, i))
    ensures forall i :: 0 <= i < |r| && r[i].mode != agents[i].mode ==>
      agents[i].mode == Collide && r[i].mode == Explore
  {
    seq(|agents|, i requires 0 <= i < |agents| =>
      if !Excluded(collided, i) && agents[i].mode == Collide then agents[i].(mode := Explore)
      else agents[i])
  }

  /** What the resource loop reads of a patch at the start of the pass. */
  datatype PatchView = PatchView(x: real, y: real, radius: real, left: real, quality: real)

  /** One entry of the patch-agent dictionary: a patch and the agents overlapping it. */
  datatype Contact = Contact(patch: PatchView, onPatch: seq<nat>)

  /** The state of the loop over one patch's agents: the agents, the units left in the
      patch, the flag `destroy_resc`, the agents appended to `agents_on_rescs`, and the
      total handed out so far (an account the source does not keep). */
  datatype Visit = Visit(agents: seq<Agent>, left: real, destroy: bool, onPatch: seq<nat>, granted: real)

  predicate IdsIn(ids: seq<nat>, n: nat) {
    forall k :: 0 <= k < |ids| ==> ids[k] < n
  }

  /** The body of the loop at sims.py:345-362 for the agent with index `i`. */
  function VisitAgent(s: Visit, p: PatchView, i: nat, collided: seq<Appended>, teleport: bool): (r: Visit)
    requires i < |s.agents|
    ensures |r.agents| == |s.agents|
  {
    if Excluded(collided, i) then s
    else
      var a0 := s.agents[i];
      var a1 := if s.destroy then a0.(envStatus := -1, poolSuccess := false) else a0;
      var a2 :=
        if !PoolingDone(a1) then a1
        else if teleport then
          a1.(poolSuccess := false, envStatus := 1,
              x := p.x + p.radius - a1.radius, y := p.y + p.radius - a1.radius)
        else a1.(poolSuccess := false, envStatus := 1);
      if a2.mode == Exploit then
        var d := Depleted(s.left, p.quality, a2.consumption);
        var a3 := a2.(collected := a2.collected + d.granted,
                      envStatus := if d.exhausted then -1 else a2.envStatus);
        Visit(s.agents[i := a3], d.left, d.exhausted, s.onPatch + [i], s.granted + d.granted)
      else
        Visit(s.agents[i := a2], s.left, s.destroy, s.onPatch + [i], s.granted)
  }

  /** The loop over the first `|ids|` agents on one patch, starting with `destroy_resc = 0`. */
  function PatchPass(agents: seq<Agent>, p: PatchView, ids: seq<nat>, collided: seq<Appended>, teleport: bool): (s: Visit)
    requires IdsIn(ids, |agents|)
    ensures |s.agents| == |agents|
    decreases |ids|
  {
    if ids == [] then Visit(agents, p.left, false, [], 0.0)
    else VisitAgent(PatchPass(agents, p, ids[..|ids| - 1], collided, teleport), p, ids[|ids| - 1], collided, teleport)
  }

  /** Units are conserved on a patch within one pass: what is left plus what was handed
      out is what the patch held at the start, nothing is left negative (so the pass never
      hands out more than the patch held), and a destroyed patch holds nothing. */
  lemma {:induction false} PatchPassUnits(agents: seq<Agent>, p: PatchView, ids: seq<nat>, collided: seq<Appended>, teleport: bool)
    requires IdsIn(ids, |agents|)
    requires p.left >= 0.0
    ensures var s := PatchPass(agents, p, ids, collided, teleport);
      s.left >= 0.0 && s.left + s.granted == p.left && s.granted <= p.left && (s.destroy ==> s.left == 0.0)
    decreases |ids|
  {
    if ids != [] {
      PatchPassUnits(agents, p, ids[..|ids| - 1], collided, teleport);
    }
  }

  /** `b` differs from `a` at most in what the resource passes change. */
  predicate OnlyHarvested(a: Agent, b: Agent) {
    b == a.(x := b.x, y := b.y, envStatus := b.envStatus, poolSuccess := b.poolSuccess, collected := b.collected)
  }

  predicate Consuming(agents: seq<Agent>) {
    forall i :: 0 <= i < |agents| ==> agents[i].consumption >= 0.0
  }

  predicate Stocked(p: PatchView) {
    p.left >= 0.0 && p.quality >= 0.0
  }

  /** One visit changes at most the visited agent, and only in what the resource passes
      change; an excluded agent's visit changes nothing. */
  lemma VisitAgentEffect(s: Visit, p: PatchView, i: nat, collided: seq<Appended>, teleport: bool)
    requires i < |s.agents|
    ensures var r := VisitAgent(s, p, i, collided, teleport);
      && OnlyHarvested(s.agents[i], r.agents[i])
      && (forall j :: 0 <= j < |s.agents| && j != i ==> r.agents[j] == s.agents[j])
      && (Excluded(collided, i) ==> r == s)
      && r.onPatch == s.onPatch + (if Excluded(collided, i) then [] else [i])
      && (s.left >= 0.0 && p.quality >= 0.0 && s.agents[i].consumption >= 0.0 ==>
            r.agents[i].collected >= s.agents[i].collected && r.granted >= s.granted)
  {
  }

  /** What one visit of a non-excluded agent does (sims.py:347-362). The agent receives
      exactly what the visit hands out, and the patch loses exactly that. A non-exploiting
      agent takes nothing and leaves the patch and `destroy_resc` alone; an exploiting one
      takes what `Depleted` grants and sets `destroy_resc` when the patch is exhausted. On
      a patch not yet exhausted, an agent whose pooling just finished has its pooling flag
      cleared, is told "resource here" (1) unless its own harvest exhausted the patch (-1),
      and with teleport-on-exploit is moved so that its centre is the patch's centre; any
      other agent keeps its position, pooling flag and signal unless its harvest exhausted
      the patch. */
  lemma VisitAgentOutcome(s: Visit, p: PatchView, i: nat, collided: seq<Appended>, teleport: bool)
    requires i < |s.agents| && !Excluded(collided, i)
    ensures var r := VisitAgent(s, p, i, collided, teleport);
      var a := s.agents[i];
      var b := r.agents[i];
      && b.collected - a.collected == r.granted - s.granted
      && r.left + r.granted == s.left + s.granted
      && (a.mode != Exploit ==> r.granted == s.granted && r.left == s.left && r.destroy == s.destroy)
      && (a.mode == Exploit ==>
            var d := Depleted(s.left, p.quality, a.consumption);
            r.granted == s.granted + d.granted && r.left == d.left && r.destroy == d.exhausted)
      && (!s.destroy && PoolingDone(a) ==>
            && !b.poolSuccess
            && b.envStatus == (if r.destroy then -1 else 1)
            && (teleport ==> b.x == p.x + p.radius - a.radius && b.y == p.y + p.radius - a.radius)
            && (!teleport ==> b.x == a.x && b.y == a.y))
      && (!s.destroy && !PoolingDone(a) ==>
            && b.poolSuccess == a.poolSuccess && b.x == a.x && b.y == a.y
            && b.envStatus == (if r.destroy then -1 else a.envStatus))
  {
  }

  /** The total of `collected_r` over a list of agents. */
  function TotalCollected(agents: seq<Agent>): real
    decreases |agents|
  {
    if agents == [] then 0.0 else TotalCollected(agents[..|agents| - 1]) + agents[|agents| - 1].collected
  }

  /** Replacing one agent changes the total by the change in that agent's `collected_r`. */
  lemma {:induction false} TotalCollectedUpdate(agents: seq<Agent>, i: nat, b: Agent)
    requires i < |agents|
    ensures TotalCollected(agents[i := b]) == TotalCollected(agents) - agents[i].collected + b.collected
    decreases |agents|
  {
    var n := |agents| - 1;
    var u := agents[i := b];
    assert u[..n] == if i < n then agents[..n][i := b] else agents[..n];
    if i < n {
      TotalCollectedUpdate(agents[..n], i, b);
    }
  }

  /** Units are conserved on one patch's loop: what the agents on it received in total is
      exactly what was handed out, which is what the patch lost. */
  lemma {:induction false} PatchPassConserves(agents: seq<Agent>, p: PatchView, ids: seq<nat>, collided: seq<Appended>, teleport: bool)
    requires IdsIn(ids, |agents|)
    ensures var s := PatchPass(agents, p, ids, collided, teleport);
      && TotalCollected(s.agents) == TotalCollected(agents) + s.granted
      && s.left + s.granted == p.left
    decreases |ids|
  {
    if ids != [] {
      var front := ids[..|ids| - 1];
      var j := ids[|ids| - 1];
      PatchPassConserves(agents, p, front, collided, teleport);
      var s0 := PatchPass(agents, p, front, collided, teleport);
      var s := VisitAgent(s0, p, j, collided, teleport);
      if !Excluded(collided, j) {
        VisitAgentOutcome(s0, p, j, collided, teleport);
        assert s.agents == s0.agents[j := s.agents[j]];
        TotalCollectedUpdate(s0.agents, j, s.agents[j]);
      }
    }
  }

  /** The loop over one patch's agents changes no mode, heading or speed, and leaves
      excluded agents and agents not on the patch alone. */
  lemma {:induction false} PatchPassKeeps(agents: seq<Agent>, p: PatchView, ids: seq<nat>, collided: seq<Appended>, teleport: bool)
    requires IdsIn(ids, |agents|)
    ensures var s := PatchPass(agents, p, ids, collided, teleport);
      && (forall i :: 0 <= i < |agents| ==> OnlyHarvested(agents[i], s.agents[i]))
      && (forall i :: 0 <= i < |agents| && (Excluded(collided, i) || i !in ids) ==> s.agents[i] == agents[i])
    decreases |ids|
  {
    if ids != [] {
      var front := ids[..|ids| - 1];
      var j := ids[|ids| - 1];
      PatchPassKeeps(agents, p, front, collided, teleport);
      var s0 := PatchPass(agents, p, front, collided, teleport);
      VisitAgentEffect(s0, p, j, collided, teleport);
      assert forall i :: i in ids <==> i in front || i == j;
    }
  }

  /** The agents a patch's loop appends to `agents_on_rescs` are exactly its non-excluded
      agents. */
  lemma {:induction false} PatchPassLists(agents: seq<Agent>, p: PatchView, ids: seq<nat>, collided: seq<Appended>, teleport: bool)
    requires IdsIn(ids, |agents|)
    ensures var s := PatchPass(agents, p, ids, collided, teleport);
      forall i :: i in s.onPatch <==> i in ids && !Excluded(collided, i)
    decreases |ids|
  {
    if ids != [] {
      var front := ids[..|ids| - 1];
      var j := ids[|ids| - 1];
      PatchPassLists(agents, p, front, collided, teleport);
      var s0 := PatchPass(agents, p, front, collided, teleport);
      VisitAgentEffect(s0, p, j, collided, teleport);
      assert forall i :: i in ids <==> i in front || i == j;
    }
  }

  /** With non-negative stock and consumption, a patch's loop hands out a non-negative
      amount and no agent's `collected_r` drops. */
  lemma {:induction false} PatchPassGrows(agents: seq<Agent>, p: PatchView, ids: seq<nat>, collided: seq<Appended>, teleport: bool)
    requires IdsIn(ids, |agents|) && Consuming(agents) && Stocked(p)
    ensures var s := PatchPass(agents, p, ids, collided, teleport);
      && s.granted >= 0.0
      && forall i :: 0 <= i < |agents| ==> s.agents[i].collected >= agents[i].collected
    decreases |ids|
  {
    if ids != [] {
      var front := ids[..|ids| - 1];
      var j := ids[|ids| - 1];
      PatchPassGrows(agents, p, front, collided, teleport);
      PatchPassKeeps(agents, p, front, collided, teleport);
      PatchPassUnits(agents, p, front, collided, teleport);
      var s0 := PatchPass(agents, p, front, collided, teleport);
      assert s0.agents[j].consumption == agents[j].consumption;
      VisitAgentEffect(s0, p, j, collided, teleport);
    }
  }

  /** Once a patch has been exhausted in the pass, `destroy_resc` stays set. */
  lemma {:induction false} DestroyPersists(agents: seq<Agent>, p: PatchView, ids: seq<nat>, collided: seq<Appended>, teleport: bool, j: nat)
    requires IdsIn(ids, |agents|) && Consuming(agents) && Stocked(p)
    requires j <= |ids|
    requires PatchPass(agents, p, ids[..j], collided, teleport).destroy
    ensures PatchPass(agents, p, ids, collided, teleport).destroy
    decreases |ids|
  {
    if j == |ids| {
      assert ids[..j] == ids;
    } else {
      var front := ids[..|ids| - 1];
      assert front[..j] == ids[..j];
      DestroyPersists(agents, p, front, collided, teleport, j);
      PatchPassUnits(agents, p, front, collided, teleport);
      PatchPassKeeps(agents, p, front, collided, teleport);
      var s0 := PatchPass(agents, p, front, collided, teleport);
      assert s0.agents[ids[|ids| - 1]].consumption == agents[ids[|ids| - 1]].consumption;
    }
  }

  /** One visit of a non-excluded agent to a patch already exhausted in this pass. */
  lemma {:induction false} VisitAfterExhaustion(s: Visit, p: PatchView, i: nat, collided: seq<Appended>, teleport: bool)
    requires i < |s.agents| && !Excluded(collided, i)
    requires s.destroy && s.left == 0.0 && p.quality >= 0.0 && s.agents[i].consumption >= 0.0
    ensures var r := VisitAgent(s, p, i, collided, teleport);
      var a := s.agents[i];
      && r.destroy && r.left == 0.0
      && !r.agents[i].poolSuccess
      && r.agents[i].envStatus == (if a.mode != Exploit && a.poolingTime == 0 then 1 else -1)
      && r.agents[i].collected == a.collected
  {
    var a := s.agents[i];
    if a.mode == Exploit {
      assert Depleted(0.0, p.quality, a.consumption) == Depletion(0.0, 0.0, true);
    }
  }

  /** After the first exhaustion, every later non-excluded agent on that patch gets nothing,
      has its pooling flag cleared and is told "no resource here" (env_status -1), except a
      non-exploiting agent whose pooling timer reads zero: the pooling test that follows
      the reset tells it "resource here" (1). */
  lemma {:induction false} LateVisitorsFindNothing(agents: seq<Agent>, p: PatchView, ids: seq<nat>, collided: seq<Appended>, teleport: bool, j: nat, k: nat)
    requires IdsIn(ids, |agents|) && Consuming(agents) && Stocked(p)
    requires j <= k < |ids|
    requires PatchPass(agents, p, ids[..j], collided, teleport).destroy
    requires !Excluded(collided, ids[k])
    ensures var before := PatchPass(agents, p, ids[..k], collided, teleport);
      var after := PatchPass(agents, p, ids[..k + 1], collided, teleport);
      var a := before.agents[ids[k]];
      var b := after.agents[ids[k]];
      && after.destroy && after.left == 0.0
      && !b.poolSuccess
      && b.envStatus == (if a.mode != Exploit && a.poolingTime == 0 then 1 else -1)
      && b.collected == a.collected
  {
    var front := ids[..k];
    assert front[..j] == ids[..j];
    DestroyPersists(agents, p, front, collided, teleport, j);
    PatchPassUnits(agents, p, front, collided, teleport);
    var before := PatchPass(agents, p, front, collided, teleport);
    assert before.agents[ids[k]].consumption == agents[ids[k]].consumption by {
      PatchPassKeeps(agents, p, front, collided, teleport);
      assert OnlyHarvested(agents[ids[k]], before.agents[ids[k]]);
    }
    assert ids[..k + 1][..k] == front && ids[..k + 1][k] == ids[k];
    assert PatchPass(agents, p, ids[..k + 1], collided, teleport) == VisitAgent(before, p, ids[k], collided, teleport);
    VisitAfterExhaustion(before, p, ids[k], collided, teleport);
  }

  predicate ContactsIn(contacts: seq<Contact>, n: nat) {
    forall k :: 0 <= k < |contacts| ==> IdsIn(contacts[k].onPatch, n)
  }

  /** The state after the loop at sims.py:343-364: the agents, `agents_on_rescs`, and for each
      patch of the dictionary the units it is left with and whether it was destroyed. */
  datatype Phase = Phase(agents: seq<Agent>, onResc: seq<nat>, lefts: seq<real>, destroyed: seq<bool>)

  /** The agent-resource pass over the first `|contacts|` dictionary entries. */
  function ResourcePhase(agents: seq<Agent>, contacts: seq<Contact>, collided: seq<Appended>, teleport: bool): (r: Phase)
    requires ContactsIn(contacts, |agents|)
    ensures |r.agents| == |agents| && |r.lefts| == |contacts| && |r.destroyed| == |contacts|
    decreases |contacts|
  {
    if contacts == [] then Phase(agents, [], [], [])
    else
      var r := ResourcePhase(agents, contacts[..|contacts| - 1], collided, teleport);
      var c := contacts[|contacts| - 1];
      var v := PatchPass(r.agents, c.patch, c.onPatch, collided, teleport);
      Phase(v.agents, r.onResc + v.onPatch, r.lefts + [v.left], r.destroyed + [v.destroy])
  }

  predicate OnSomePatch(contacts: seq<Contact>, i: nat) {
    exists k :: 0 <= k < |contacts| && i in contacts[k].onPatch
  }

  /** The agent-resource pass changes no mode, heading or speed and leaves excluded agents
      untouched. */
  lemma {:induction false} ResourcePhaseKeeps(agents: seq<Agent>, contacts: seq<Contact>, collided: seq<Appended>, teleport: bool)
    requires ContactsIn(contacts, |agents|)
    ensures var r := ResourcePhase(agents, contacts, collided, teleport);
      && (forall i :: 0 <= i < |agents| ==> OnlyHarvested(agents[i], r.agents[i]))
      && (forall i :: 0 <= i < |agents| && Excluded(collided, i) ==> r.agents[i] == agents[i])
    decreases |contacts|
  {
    if contacts != [] {
      var front := contacts[..|contacts| - 1];
      var c := contacts[|contacts| - 1];
      ResourcePhaseKeeps(agents, front, collided, teleport);
      var r0 := ResourcePhase(agents, front, collided, teleport);
      PatchPassKeeps(r0.agents, c.patch, c.onPatch, collided, teleport);
    }
  }

  /** `agents_on_rescs` lists exactly the non-excluded agents that are on some patch. */
  lemma {:induction false} ResourcePhaseOnResc(agents: seq<Agent>, contacts: seq<Contact>, collided: seq<Appended>, teleport: bool)
    requires ContactsIn(contacts, |agents|)
    ensures var r := ResourcePhase(agents, contacts, collided, teleport);
      forall i :: i in r.onResc <==> OnSomePatch(contacts, i) && !Excluded(collided, i)
    decreases |contacts|
  {
    if contacts != [] {
      var front := contacts[..|contacts| - 1];
      var c := contacts[|contacts| - 1];
      ResourcePhaseOnResc(agents, front, collided, teleport);
      var r0 := ResourcePhase(agents, front, collided, teleport);
      PatchPassLists(r0.agents, c.patch, c.onPatch, collided, teleport);
      var v := PatchPass(r0.agents, c.patch, c.onPatch, collided, teleport);
      var r := ResourcePhase(agents, contacts, collided, teleport);
      assert r.onResc == r0.onResc + v.onPatch;
      forall i | true
        ensures i in r.onResc <==> OnSomePatch(contacts, i) && !Excluded(collided, i)
      {
        if OnSomePatch(front, i) {
          var k :| 0 <= k < |front| && i in front[k].onPatch;
          assert contacts[k] == front[k];
        }
        if OnSomePatch(contacts, i) && !OnSomePatch(front, i) {
          var k :| 0 <= k < |contacts| && i in contacts[k].onPatch;
          assert k == |contacts| - 1;
        }
      }
    }
  }

  predicate AllStocked(contacts: seq<Contact>) {
    forall k :: 0 <= k < |contacts| ==> Stocked(contacts[k].patch)
  }

  /** With non-negative stock and consumption: no agent's `collected_r` drops, every patch
      ends the pass with a stock in [0, its stock at the start], and a destroyed patch is
      empty. */
  lemma {:induction false} ResourcePhaseStock(agents: seq<Agent>, contacts: seq<Contact>, collided: seq<Appended>, teleport: bool)
    requires ContactsIn(contacts, |agents|)
    requires Consuming(agents) && AllStocked(contacts)
    ensures var r := ResourcePhase(agents, contacts, collided, teleport);
      && (forall i :: 0 <= i < |agents| ==> r.agents[i].collected >= agents[i].collected)
      && (forall k :: 0 <= k < |contacts| ==>
            0.0 <= r.lefts[k] <= contacts[k].patch.left && (r.destroyed[k] ==> r.lefts[k] == 0.0))
    decreases |contacts|
  {
    if contacts != [] {
      var front := contacts[..|contacts| - 1];
      var c := contacts[|contacts| - 1];
      assert AllStocked(front) && Stocked(c.patch);
      ResourcePhaseStock(agents, front, collided, teleport);
      ResourcePhaseKeeps(agents, front, collided, teleport);
      var r0 := ResourcePhase(agents, front, collided, teleport);
      assert Consuming(r0.agents) by {
        forall i | 0 <= i < |agents| ensures r0.agents[i].consumption >= 0.0 {
          assert OnlyHarvested(agents[i], r0.agents[i]);
        }
      }
      PatchPassGrows(r0.agents, c.patch, c.onPatch, collided, teleport);
      PatchPassUnits(r0.agents, c.patch, c.onPatch, collided, teleport);
      var r := ResourcePhase(agents, contacts, collided, teleport);
      forall k | 0 <= k < |contacts|
        ensures 0.0 <= r.lefts[k] <= contacts[k].patch.left && (r.destroyed[k] ==> r.lefts[k] == 0.0)
      {
        if k < |front| {
          assert contacts[k] == front[k] && r.lefts[k] == r0.lefts[k] && r.destroyed[k] == r0.destroyed[k];
        }
      }
    }
  }

  function TotalLeft(lefts: seq<real>): real
    decreases |lefts|
  {
    if lefts == [] then 0.0 else TotalLeft(lefts[..|lefts| - 1]) + lefts[|lefts| - 1]
  }

  function TotalStock(contacts: seq<Contact>): real
    decreases |contacts|
  {
    if contacts == [] then 0.0 else TotalStock(contacts[..|contacts| - 1]) + contacts[|contacts| - 1].patch.left
  }

  /** Units are conserved over the whole agent-resource pass: the agents' total
      `collected_r` plus what the dictionary's patches hold afterwards equals the same sum
      at the start, so the agents receive exactly what the patches lose. */
  lemma {:induction false} ResourcePhaseConserves(agents: seq<Agent>, contacts: seq<Contact>, collided: seq<Appended>, teleport: bool)
    requires ContactsIn(contacts, |agents|)
    ensures var r := ResourcePhase(agents, contacts, collided, teleport);
      TotalCollected(r.agents) + TotalLeft(r.lefts) == TotalCollected(agents) + TotalStock(contacts)
    decreases |contacts|
  {
    if contacts != [] {
      var front := contacts[..|contacts| - 1];
      var c := contacts[|contacts| - 1];
      ResourcePhaseConserves(agents, front, collided, teleport);
      var r0 := ResourcePhase(agents, front, collided, teleport);
      PatchPassConserves(r0.agents, c.patch, c.onPatch, collided, teleport);
      var r := ResourcePhase(agents, contacts, collided, teleport);
      assert r.lefts[..|r.lefts| - 1] == r0.lefts;
    }
  }

  /** Pooling just finished, or the agent is exploiting (sims.py:369 and sims.py:372). */
  predicate AwaitsSignal(a: Agent) {
    PoolingDone(a) || a.mode == Exploit
  }

  /** The loop at sims.py:366-374: agents on no patch and not excluded whose pooling just
      finished, or who are exploiting, are told "no resource here" and have their pooling
      flag cleared; everybody else is left as they are. */
  function Signalled(agents: seq<Agent>, onResc: seq<nat>, collided: seq<Appended>): (r: seq<Agent>)
    ensures |r| == |agents|
    ensures forall i :: 0 <= i < |r| ==>
      r[i] == agents[i].(envStatus := r[i].envStatus, poolSuccess := r[i].poolSuccess)
    ensures forall i :: 0 <= i < |r| && (i in onResc || Excluded(collided, i)) ==> r[i] == agents[i]
    ensures forall i :: 0 <= i < |r| && !AwaitsSignal(agents[i]) ==> r[i] == agents[i]
    ensures forall i :: 0 <= i < |r| && i !in onResc && !Excluded(collided, i) && AwaitsSignal(agents[i]) ==>
      r[i].envStatus == -1 && !r[i].poolSuccess
  {
    seq(|agents|, i requires 0 <= i < |agents| =>
      if i !in onResc && !Excluded(collided, i) && AwaitsSignal(agents[i])
      then agents[i].(poolSuccess := false, envStatus := -1)
      else agents[i])
  }

  /** The agents after one unpaused tick, before their own (external) update. */
  function TickAgents(agents: seq<Agent>, pairs: seq<CollisionPair>, contacts: seq<Contact>, teleport: bool): (r: seq<Agent>)
    requires PairsIn(pairs, |agents|) && ContactsIn(contacts, |agents|)
    ensures |r| == |agents|
  {
    var c := CollisionPass(agents, pairs, teleport);
    var d := Demoted(c.agents, c.collided);
    var r := ResourcePhase(d, contacts, c.collided, teleport);
    Signalled(r.agents, r.onResc, c.collided)
  }

  /** Across a whole tick: with non-negative stock and consumption no agent's `collected_r`
      drops; an agent is in collide afterwards only if it is excluded this tick; and an
      excluded agent is exactly as the collision pass left it (not demoted, depleted,
      teleported or signalled). */
  lemma {:induction false} TickEffect(agents: seq<Agent>, pairs: seq<CollisionPair>, contacts: seq<Contact>, teleport: bool)
    requires PairsIn(pairs, |agents|) && ContactsIn(contacts, |agents|)
    ensures var c := CollisionPass(agents, pairs, teleport);
      var t := TickAgents(agents, pairs, contacts, teleport);
      && |t| == |agents|
      && (forall i :: 0 <= i < |agents| ==> (t[i].mode == Collide ==> Excluded(c.collided, i)))
      && (forall i :: 0 <= i < |agents| && Excluded(c.collided, i) ==> t[i] == c.agents[i])
      && (Consuming(agents) && AllStocked(contacts) ==>
            forall i :: 0 <= i < |agents| ==> t[i].collected >= agents[i].collected)
  {
    var c := CollisionPass(agents, pairs, teleport);
    CollisionPassEffect(agents, pairs, teleport);
    var d := Demoted(c.agents, c.collided);
    ResourcePhaseKeeps(d, contacts, c.collided, teleport);
    if Consuming(agents) && AllStocked(contacts) {
      assert Consuming(d) by {
        forall i | 0 <= i < |agents| ensures d[i].consumption >= 0.0 {
          assert OnlyBumped(agents[i], c.agents[i]);
        }
      }
      ResourcePhaseStock(d, contacts, c.collided, teleport);
    }
    var r := ResourcePhase(d, contacts, c.collided, teleport);
    var t := TickAgents(agents, pairs, contacts, teleport);
    assert t == Signalled(r.agents, r.onResc, c.collided);
    forall i | 0 <= i < |agents| ensures agents[i].consumption == d[i].consumption && agents[i].collected == d[i].collected {
      assert OnlyBumped(agents[i], c.agents[i]);
    }
    forall i | 0 <= i < |agents| ensures t[i].mode == d[i].mode {
      assert OnlyHarvested(d[i], r.agents[i]);
    }
  }
}
