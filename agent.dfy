/** The part of an agent that the simulation tick reads and writes (abm/simulation/sims.py).
    The agent's own sensing and decision update is not part of this model. */
module Agents {
  import opened Angles

  /** The mode strings "explore", "collide", "pool", "relocate" and "exploit". */
  datatype Mode = Explore | Collide | Pool | Relocate | Exploit

  datatype Agent = Agent(
    id: int,
    x: real,
    y: real,
    radius: real,
    orientation: real,
    velocity: real,
    mode: Mode,
    envStatus: int,      // -1: no resource here, 0: unknown, 1: resource here
    poolSuccess: bool,
    poolingTime: int,
    collected: real,     // collected_r
    consumption: real)

  /** The test at sims.py:351 and sims.py:369: pooling has just finished. */
  predicate PoolingDone(a: Agent) {
    ((a.mode == Pool || a.mode == Relocate) && a.poolSuccess) || a.poolingTime == 0
  }

  /** What `agent_agent_collision` does to the second agent of a colliding pair. `theta` is
      the bearing `(atan2(dy, dx) + orientation) % 2*PI`, computed outside the model.
      Exploiting agents keep their mode, every other agent is forced into collide; the
      heading is nudged by PI/8 away from the first agent; the speed becomes 1.5 after
      exactly 1 and 1 otherwise. Nothing else about the agent changes. */
  function Bumped(a: Agent, theta: real): (b: Agent)
    ensures b.mode == Exploit <==> a.mode == Exploit
    ensures b.mode == Collide || b.mode == Exploit
    ensures 0.0 < theta < PI ==> b.orientation == a.orientation - PI / 8.0
    ensures PI < theta < TWO_PI ==> b.orientation == a.orientation + PI / 8.0
    ensures theta == 0.0 || theta == PI ==> b.orientation == a.orientation
    ensures b.velocity == 1.5 <==> a.velocity == 1.0
    ensures b.velocity == 1.0 <==> a.velocity != 1.0
    ensures b == a.(mode := b.mode, orientation := b.orientation, velocity := b.velocity)
  {
    var mode := if a.mode != Exploit then Collide else a.mode;
    var orientation :=
      if 0.0 < theta < PI then a.orientation - PI / 8.0
      else if PI < theta < TWO_PI then a.orientation + PI / 8.0
      else a.orientation;
    var velocity := if a.velocity == 1.0 then a.velocity + 0.5 else 1.0;
    a.(mode := mode, orientation := orientation, velocity := velocity)
  }

  /** An agent as `create_agents` places it. The `Agent` constructor is not part of this
      model: it is taken to start at rest, exploring, with nothing collected and no signal. */
  function Spawned(id: int, x: real, y: real, radius: real, poolingTime: int, consumption: real): Agent {
    Agent(id, x, y, radius, 0.0, 0.0, Explore, 0, false, poolingTime, 0.0, consumption)
  }
}
