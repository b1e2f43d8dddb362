/** The simulation object of abm/simulation/sims.py: it owns the agents and the live resource
    patches, resolves one unpaused tick, kills exhausted patches and places new ones. Every
    loop is proved against the functions of module Tick, whose properties are proved there. */
module Sims {
  import opened Angles
  import opened Resources
  import opened Agents
  import opened Tick

  /** One round of the three `np.random.randint` draws in `add_new_resource_patch`. */
  datatype PatchDraw = PatchDraw(x: int, y: int, units: int)

  /** One entry of the patch-agent dictionary computed by `pygame.sprite.groupcollide`. */
  datatype PatchContact = PatchContact(patch: Resource, onPatch: seq<nat>)

  /** What one tick reports: `collided_agents`, `agents_on_rescs`, and the patches killed. */
  datatype TickReport = TickReport(collided: seq<Appended>, onResc: seq<nat>, killed: seq<Resource>)

  /** `pygame.sprite.collide_circle` on two discs given by centre and radius: they collide
      when the centres are at most the sum of the radii apart, so discs that only touch
      collide too. */
  predicate Overlap(x1: real, y1: real, r1: real, x2: real, y2: real, r2: real) {
    (x1 - x2) * (x1 - x2) + (y1 - y2) * (y1 - y2) <= (r1 + r2) * (r1 + r2)
  }

  lemma SquareNonNegative(a: real)
    ensures a * a >= 0.0
  {
    if a < 0.0 {
      assert a * a == (-a) * (-a);
    }
  }

  lemma PositiveProduct(x: real, y: real)
    requires x > 0.0 && y > 0.0
    ensures x * y > 0.0
  {
  }

  lemma SquareGrows(a: real, b: real)
    requires a > b >= 0.0
    ensures a * a > b * b
  {
    PositiveProduct(a - b, a + b);
    assert a * a - b * b == (a - b) * (a + b);
  }

  /** Concentric discs always collide. */
  lemma ConcentricOverlap(x: real, y: real, r1: real, r2: real)
    ensures Overlap(x, y, r1, x, y, r2)
  {
    SquareNonNegative(r1 + r2);
  }

  /** Discs with non-negative radii whose centres are further apart than the sum of the
      radii along one axis never collide. */
  lemma ApartNoOverlap(x1: real, y1: real, r1: real, x2: real, y2: real, r2: real)
    requires r1 >= 0.0 && r2 >= 0.0
    requires x1 - x2 > r1 + r2 || x2 - x1 > r1 + r2
    ensures !Overlap(x1, y1, r1, x2, y2, r2)
  {
    if x1 - x2 > r1 + r2 {
      SquareGrows(x1 - x2, r1 + r2);
    } else {
      SquareGrows(x2 - x1, r1 + r2);
      assert (x1 - x2) * (x1 - x2) == (x2 - x1) * (x2 - x1);
    }
    SquareNonNegative(y1 - y2);
  }

  /** Collision is symmetric: which disc is the candidate does not matter. */
  lemma OverlapSymmetric(x1: real, y1: real, r1: real, x2: real, y2: real, r2: real)
    ensures Overlap(x1, y1, r1, x2, y2, r2) <==> Overlap(x2, y2, r2, x1, y1, r1)
  {
    assert (x1 - x2) * (x1 - x2) == (x2 - x1) * (x2 - x1);
    assert (y1 - y2) * (y1 - y2) == (y2 - y1) * (y2 - y1);
  }

  /** Discs whose centres are exactly the sum of the radii apart (they touch) collide. */
  lemma TouchingPatchesCollide(x1: real, y1: real, r1: real, x2: real, y2: real, r2: real)
    requires (x1 - x2) * (x1 - x2) + (y1 - y2) * (y1 - y2) == (r1 + r2) * (r1 + r2)
    ensures Overlap(x1, y1, r1, x2, y2, r2)
  {
  }

  /** A patch as the collision test sees it: its centre and its radius. */
  datatype Disc = Disc(cx: real, cy: real, radius: real)

  function DiscOf(q: Resource): Disc
    reads q`cx, q`cy
  {
    Disc(q.cx, q.cy, q.radius)
  }

  /** The discs of a group of patches, in the group's order. */
  function Discs(rs: seq<Resource>): (ds: seq<Disc>)
    reads rs`cx, rs`cy
    ensures |ds| == |rs|
    ensures forall i :: 0 <= i < |rs| ==> ds[i] == DiscOf(rs[i])
    decreases |rs|
  {
    if rs == [] then [] else Discs(rs[..|rs| - 1]) + [DiscOf(rs[|rs| - 1])]
  }

  /** The kinematic states of a group of patches, in the group's order. */
  function States(rs: seq<Resource>): (ss: seq<Kinematics>)
    reads rs`x, rs`y, rs`cx, rs`cy, rs`velocity, rs`orientation
    ensures |ss| == |rs|
    ensures forall i :: 0 <= i < |rs| ==> ss[i] == rs[i].State()
    decreases |rs|
  {
    if rs == [] then [] else States(rs[..|rs| - 1]) + [rs[|rs| - 1].State()]
  }

  /** A snapshot of a group's discs and one of its states agree patch by patch. */
  lemma SnapshotDiscs(rs: seq<Resource>, live: seq<Disc>, mid: seq<Kinematics>)
    requires live == Discs(rs) && mid == States(rs)
    ensures forall k :: 0 <= k < |rs| ==> live[k] == Disc(mid[k].cx, mid[k].cy, rs[k].radius)
  {
  }

  /** In a snapshot of the group's states, a patch that is not among `res0` is at rest. */
  lemma SnapshotNew(rs: seq<Resource>, res0: seq<Resource>, mid: seq<Kinematics>)
    requires mid == States(rs) && forall q :: q in rs ==> q in res0 || NewPatch(q)
    ensures forall k :: 0 <= k < |rs| && rs[k] !in res0 ==>
      AtRest(mid[k], rs[k].radius) && rs[k].rescLeft == rs[k].rescUnits
  {
  }

  /** `proove_resource`: a disc is accepted when it overlaps no live patch. */
  predicate Fits(c: Disc, live: seq<Disc>) {
    forall k :: 0 <= k < |live| ==> !Overlap(live[k].cx, live[k].cy, live[k].radius, c.cx, c.cy, c.radius)
  }

  /** No accepted disc shares its centre with a live patch. */
  lemma FitsApartFromLive(c: Disc, live: seq<Disc>)
    requires Fits(c, live)
    ensures forall k :: 0 <= k < |live| ==> live[k].cx != c.cx || live[k].cy != c.cy
  {
    forall k | 0 <= k < |live|
      ensures live[k].cx != c.cx || live[k].cy != c.cy
    {
      if live[k].cx == c.cx && live[k].cy == c.cy {
        ConcentricOverlap(c.cx, c.cy, live[k].radius, c.radius);
      }
    }
  }

  /** Adding a patch to the group can only reject more discs: a disc fits the grown group
      exactly when it fits the old one and misses the new patch. */
  lemma FitsSnoc(c: Disc, live: seq<Disc>, q: Disc)
    ensures Fits(c, live + [q]) <==> Fits(c, live) && !Overlap(q.cx, q.cy, q.radius, c.cx, c.cy, c.radius)
  {
    assert forall k :: 0 <= k < |live| ==> (live + [q])[k] == live[k];
    assert (live + [q])[|live|] == q;
  }

  /** The disc of the patch a draw would create: its centre is the drawn corner plus the radius. */
  function DrawDisc(d: PatchDraw, radius: real): Disc {
    Disc(d.x as real + radius, d.y as real + radius, radius)
  }

  predicate DrawFits(d: PatchDraw, radius: real, live: seq<Disc>) {
    Fits(DrawDisc(d, radius), live)
  }

  /** The index of the first draw that the acceptance loop accepts, or `|draws|` if none. */
  function FirstFit(draws: seq<PatchDraw>, radius: real, live: seq<Disc>): (k: nat)
    ensures k <= |draws|
    ensures forall j :: 0 <= j < k ==> !DrawFits(draws[j], radius, live)
    ensures k < |draws| ==> DrawFits(draws[k], radius, live)
    decreases |draws|
  {
    if draws == [] then 0
    else if DrawFits(draws[0], radius, live) then 0
    else 1 + FirstFit(draws[1..], radius, live)
  }

  /** `max([resc.id for resc in self.rescources])`, or 0 when there are no patches. */
  function MaxId(rs: seq<Resource>): (m: int)
    ensures forall k :: 0 <= k < |rs| ==> rs[k].id <= m
    ensures rs == [] ==> m == 0
    ensures rs != [] ==> exists k :: 0 <= k < |rs| && rs[k].id == m
    decreases |rs|
  {
    if rs == [] then 0
    else if |rs| == 1 then rs[0].id
    else
      var m := MaxId(rs[..|rs| - 1]);
      if rs[|rs| - 1].id > m then rs[|rs| - 1].id else m
  }

  /** Patch ids increase along the group's insertion order, so they are unique. */
  predicate IdsIncreasing(rs: seq<Resource>) {
    forall i, j :: 0 <= i < j < |rs| ==> rs[i].id < rs[j].id
  }

  predicate Distinct(rs: seq<Resource>) {
    forall i, j :: 0 <= i < j < |rs| ==> rs[i] != rs[j]
  }

  /** The group after `resource.kill()`: the patch is gone, the others keep their order. */
  function Without(rs: seq<Resource>, r: Resource): (w: seq<Resource>)
    ensures |w| <= |rs|
    decreases |rs|
  {
    if rs == [] then []
    else (if rs[0] == r then [] else [rs[0]]) + Without(rs[1..], r)
  }

  /** Killing keeps ids increasing and removes exactly one patch when it was live. */
  lemma {:induction false} WithoutKeepsIds(rs: seq<Resource>, r: Resource)
    requires IdsIncreasing(rs)
    ensures IdsIncreasing(Without(rs, r))
    ensures |Without(rs, r)| == if r in rs then |rs| - 1 else |rs|
    decreases |rs|
  {
    if rs != [] {
      var tail := rs[1..];
      IdsTail(rs);
      WithoutKeepsIds(tail, r);
      WithoutMembers(tail, r);
      var w := Without(tail, r);
      assert rs == [rs[0]] + tail;
      assert r in rs <==> r == rs[0] || r in tail;
      if rs[0] == r {
        assert Without(rs, r) == w;
        assert r !in tail;
      } else {
        assert Without(rs, r) == [rs[0]] + w;
        forall k | 0 <= k < |w| ensures rs[0].id < w[k].id {
          assert w[k] in tail;
        }
        IdsCons(rs[0], w);
      }
    }
  }

  /** The patches after the first of an increasing group are increasing and outrank it. */
  lemma IdsTail(rs: seq<Resource>)
    requires IdsIncreasing(rs) && rs != []
    ensures IdsIncreasing(rs[1..])
    ensures forall q :: q in rs[1..] ==> rs[0].id < q.id
  {
    forall q | q in rs[1..] ensures rs[0].id < q.id {
      var j :| 0 <= j < |rs[1..]| && rs[1..][j] == q;
      assert rs[j + 1] == q;
    }
  }

  /** A patch outranked by every patch of an increasing group can go in front of it. */
  lemma IdsCons(x: Resource, w: seq<Resource>)
    requires IdsIncreasing(w) && forall k :: 0 <= k < |w| ==> x.id < w[k].id
    ensures IdsIncreasing([x] + w)
  {
    var s := [x] + w;
    forall i, j | 0 <= i < j < |s| ensures s[i].id < s[j].id {
      assert s[j] == w[j - 1];
      if i > 0 {
        assert s[i] == w[i - 1];
      }
    }
  }

  /** Removing a patch commutes with appending a different one. */
  lemma {:induction false} WithoutAppend(rs: seq<Resource>, x: Resource, r: Resource)
    requires x != r
    ensures Without(rs + [x], r) == Without(rs, r) + [x]
    decreases |rs|
  {
    if rs == [] {
      assert Without([x], r) == [x] + Without([], r);
    } else {
      assert (rs + [x])[1..] == rs[1..] + [x];
      WithoutAppend(rs[1..], x, r);
    }
  }

  /** Killing `r` removes exactly `r`: every other patch stays and none is added. */
  lemma {:induction false} WithoutMembers(rs: seq<Resource>, r: Resource)
    ensures r !in Without(rs, r)
    ensures forall q :: q in rs && q != r ==> q in Without(rs, r)
    ensures forall q :: q in Without(rs, r) ==> q in rs
    decreases |rs|
  {
    if rs != [] {
      WithoutMembers(rs[1..], r);
      assert rs == [rs[0]] + rs[1..];
      assert Without(rs, r) == (if rs[0] == r then [] else [rs[0]]) + Without(rs[1..], r);
    }
  }

  /** What killing `r` does to the group, after an optional regenerated patch was appended:
      its shape, its ids and its size. */
  lemma KillShape(rs: seq<Resource>, grown: seq<Resource>, r: Resource, placed: bool)
    requires IdsIncreasing(rs) && IdsIncreasing(grown)
    requires !placed ==> grown == rs
    requires placed ==> |grown| == |rs| + 1 && grown[..|rs|] == rs && grown[|rs|] != r
    requires placed ==> grown[|rs|].id == MaxId(rs) + 1
    ensures IdsIncreasing(Without(grown, r))
    ensures !placed ==> Without(grown, r) == Without(rs, r)
    ensures placed ==> Without(grown, r) == Without(rs, r) + [grown[|rs|]]
    ensures placed && r in rs ==> grown[|rs|].id > r.id
    ensures r in rs ==> |Without(grown, r)| == |rs| - (if placed then 0 else 1)
  {
    WithoutKeepsIds(grown, r);
    WithoutKeepsIds(rs, r);
    if placed {
      assert grown == rs + [grown[|rs|]];
      WithoutAppend(rs, grown[|rs|], r);
    }
  }

  /** Which patches are live after killing `r`. */
  lemma KillMembers(rs: seq<Resource>, grown: seq<Resource>, r: Resource, placed: bool)
    requires !placed ==> grown == rs
    requires placed ==> |grown| == |rs| + 1 && grown[..|rs|] == rs
    ensures r !in Without(grown, r)
    ensures forall q :: q in rs && q != r ==> q in Without(grown, r)
    ensures forall q :: q in Without(grown, r) ==> q in rs || (placed && q == grown[|rs|])
  {
    WithoutMembers(grown, r);
    if placed {
      assert grown == rs + [grown[|rs|]];
    }
  }

  /** `after` is the group `before` once `r` was killed, with the regenerated patch (if
      one was placed) at its end: ids stay increasing, the new patch takes the next id and
      outranks the killed one, and exactly `r` is gone. */
  predicate KilledFrom(after: seq<Resource>, before: seq<Resource>, r: Resource, placed: bool) {
    && IdsIncreasing(after)
    && (!placed ==> after == Without(before, r))
    && (placed ==>
          && |after| > 0
          && after == Without(before, r) + [after[|after| - 1]]
          && after[|after| - 1].id == MaxId(before) + 1
          && (r in before ==> after[|after| - 1].id > r.id))
    && (r in before ==> |after| == |before| - (if placed then 0 else 1))
    && r !in after
  }

  /** After a kill, every patch but a replacement was already live before it. */
  lemma KillSurvivor(after: seq<Resource>, before: seq<Resource>, r: Resource, placed: bool, j: nat)
    requires KilledFrom(after, before, r, placed) && j < |after| && !(placed && j == |after| - 1)
    ensures after[j] in before
  {
    WithoutMembers(before, r);
    if placed {
      assert after[j] == Without(before, r)[j];
    }
  }

  lemma KillFacts(rs: seq<Resource>, grown: seq<Resource>, r: Resource, placed: bool)
    requires IdsIncreasing(rs) && IdsIncreasing(grown)
    requires !placed ==> grown == rs
    requires placed ==> |grown| == |rs| + 1 && grown[..|rs|] == rs && grown[|rs|] != r
    requires placed ==> grown[|rs|].id == MaxId(rs) + 1
    ensures KilledFrom(Without(grown, r), rs, r, placed)
    ensures placed ==> Without(grown, r)[|Without(grown, r)| - 1] == grown[|rs|]
    ensures forall q :: q in rs && q != r ==> q in Without(grown, r)
    ensures forall q :: q in Without(grown, r) ==> q in rs || (placed && q == grown[|rs|])
  {
    KillShape(rs, grown, r, placed);
    KillMembers(rs, grown, r, placed);
    if placed {
      var after := Without(grown, r);
      assert after[|after| - 1] == grown[|rs|];
    }
  }

  /** The largest live id after a kill: it rises by one when a replacement was placed, and
      otherwise does not rise (it falls when the killed patch held it, so that a later
      patch is given an id that was used before). */
  lemma MaxIdAfterKill(after: seq<Resource>, before: seq<Resource>, r: Resource, placed: bool)
    requires KilledFrom(after, before, r, placed)
    ensures placed ==> MaxId(after) == MaxId(before) + 1
    ensures !placed && after != [] ==> MaxId(after) <= MaxId(before)
  {
    WithoutMembers(before, r);
    var w := Without(before, r);
    forall q | q in w
      ensures q.id <= MaxId(before)
    {
      var i :| 0 <= i < |before| && before[i] == q;
    }
    if after != [] {
      var k :| 0 <= k < |after| && after[k].id == MaxId(after);
      if !placed || k < |after| - 1 {
        assert after[k] in w;
      }
    }
  }

  /** The draws the resource loop hands to `kill_resource` for dictionary entry `k`. */
  function Regen(regen: seq<seq<PatchDraw>>, k: nat): seq<PatchDraw> {
    if k < |regen| then regen[k] else []
  }

  lemma IdsIncreasingDistinct(rs: seq<Resource>)
    requires IdsIncreasing(rs)
    ensures Distinct(rs)
  {
  }

  /** The patches killed in the resource loop, in order. */
  function Killed(contacts: seq<PatchContact>, destroyed: seq<bool>): (ks: seq<Resource>)
    requires |destroyed| == |contacts|
    ensures |ks| <= |contacts|
    decreases |contacts|
  {
    if contacts == [] then []
    else
      Killed(contacts[..|contacts| - 1], destroyed[..|destroyed| - 1])
      + (if destroyed[|destroyed| - 1] then [contacts[|contacts| - 1].patch] else [])
  }

  /** Every killed patch is the patch of an exhausted dictionary entry. */
  lemma {:induction false} KilledExhausted(contacts: seq<PatchContact>, destroyed: seq<bool>)
    requires |destroyed| == |contacts|
    ensures forall i :: 0 <= i < |Killed(contacts, destroyed)| ==>
      exists k :: 0 <= k < |contacts| && contacts[k].patch == Killed(contacts, destroyed)[i] && destroyed[k]
    decreases |contacts|
  {
    if contacts == [] {
      assert Killed(contacts, destroyed) == [];
    } else {
      var n := |contacts| - 1;
      var front, dfront := contacts[..n], destroyed[..n];
      KilledExhausted(front, dfront);
      var ks0 := Killed(front, dfront);
      var ks := Killed(contacts, destroyed);
      assert ks == ks0 + (if destroyed[n] then [contacts[n].patch] else []);
      forall i | 0 <= i < |ks|
        ensures exists k :: 0 <= k < |contacts| && contacts[k].patch == ks[i] && destroyed[k]
      {
        if i < |ks0| {
          assert ks[i] == ks0[i];
          var k :| 0 <= k < |front| && front[k].patch == ks0[i] && dfront[k];
          assert contacts[k] == front[k] && destroyed[k] == dfront[k];
        } else {
          assert ks[i] == contacts[n].patch && destroyed[n];
        }
      }
    }
  }

  /** Each patch of the dictionary is killed at most once per tick: no patch appears twice
      among the killed ones. */
  lemma {:induction false} KilledOnce(contacts: seq<PatchContact>, destroyed: seq<bool>)
    requires |destroyed| == |contacts|
    requires forall k, l :: 0 <= k < l < |contacts| ==> contacts[k].patch != contacts[l].patch
    ensures forall i, j :: 0 <= i < j < |Killed(contacts, destroyed)| ==>
      Killed(contacts, destroyed)[i] != Killed(contacts, destroyed)[j]
    decreases |contacts|
  {
    if contacts == [] {
      assert Killed(contacts, destroyed) == [];
    } else {
      var n := |contacts| - 1;
      var front, dfront := contacts[..n], destroyed[..n];
      KilledOnce(front, dfront);
      KilledExhausted(front, dfront);
      var ks0 := Killed(front, dfront);
      var ks := Killed(contacts, destroyed);
      assert ks == ks0 + (if destroyed[n] then [contacts[n].patch] else []);
      forall i, j | 0 <= i < j < |ks| ensures ks[i] != ks[j] {
        if j < |ks0| {
          assert ks[i] == ks0[i] && ks[j] == ks0[j];
        } else {
          var k :| 0 <= k < |front| && front[k].patch == ks0[i] && dfront[k];
          assert contacts[k] == front[k];
          assert ks[i] == ks0[i] && ks[j] == contacts[n].patch;
        }
      }
    }
  }

  /** One more dictionary entry adds its patch to the killed ones exactly when it was exhausted. */
  lemma KilledSnoc(contacts: seq<PatchContact>, destroyed: seq<bool>, k: nat, d: bool)
    requires k < |contacts| && |destroyed| == k
    ensures Killed(contacts[..k + 1], destroyed + [d])
      == Killed(contacts[..k], destroyed) + (if d then [contacts[k].patch] else [])
  {
    assert contacts[..k + 1][..k] == contacts[..k];
    assert (destroyed + [d])[..k] == destroyed;
  }

  /** Extending the prefix of the entries by one adds that entry's patch if it was killed. */
  lemma KilledPrefix(contacts: seq<PatchContact>, destroyed: seq<bool>, n: nat)
    requires 0 < n <= |destroyed| <= |contacts|
    ensures |Killed(contacts[..n], destroyed[..n])| == |Killed(contacts[..n - 1], destroyed[..n - 1])| + (if destroyed[n - 1] then 1 else 0)
  {
    KilledSnoc(contacts, destroyed[..n - 1], n - 1, destroyed[n - 1]);
    assert destroyed[..n - 1] + [destroyed[n - 1]] == destroyed[..n];
  }

  /** One more dictionary entry extends the resource phase by one patch pass. */
  lemma PhaseSnoc(agents: seq<Agent>, contacts: seq<Contact>, k: nat, collided: seq<Appended>, teleport: bool)
    requires ContactsIn(contacts, |agents|) && k < |contacts|
    ensures var r := ResourcePhase(agents, contacts[..k], collided, teleport);
      var v := PatchPass(r.agents, contacts[k].patch, contacts[k].onPatch, collided, teleport);
      ResourcePhase(agents, contacts[..k + 1], collided, teleport)
        == Phase(v.agents, r.onResc + v.onPatch, r.lefts + [v.left], r.destroyed + [v.destroy])
  {
    assert contacts[..k + 1][..k] == contacts[..k];
  }

  /** The resource loop has passed its first `k` entries: `now` is what the patches look like
      and `agents` the agents, against the views `views` taken when the loop started. */
  ghost predicate Reached(now: seq<Contact>, agents: seq<Agent>, views: seq<Contact>, agents0: seq<Agent>,
                          collided: seq<Appended>, k: nat, ph: Phase, teleport: bool)
    requires |views| == |now| && k <= |views| && ContactsIn(views, |agents0|)
  {
    && ph == ResourcePhase(agents0, views[..k], collided, teleport)
    && agents == ph.agents
    && (forall l :: 0 <= l < k ==> now[l].patch.left == ph.lefts[l])
    && (forall l :: k <= l < |now| ==> now[l].patch == views[l].patch)
  }

  /** Processing entry `k` with one patch pass, changing no other patch, reaches entry `k + 1`. */
  lemma ReachedSnoc(now: seq<Contact>, now': seq<Contact>, views: seq<Contact>, agents0: seq<Agent>,
                    collided: seq<Appended>, k: nat, ph: Phase, s: Visit, ph': Phase, teleport: bool)
    requires k < |views| && |now| == |views| && |now'| == |views| && ContactsIn(views, |agents0|)
    requires Reached(now, ph.agents, views, agents0, collided, k, ph, teleport)
    requires forall l :: 0 <= l < |now| && l != k ==> now'[l] == now[l]
    requires s == PatchPass(ph.agents, views[k].patch, views[k].onPatch, collided, teleport)
    requires now'[k].patch.left == s.left
    requires ph' == Phase(s.agents, ph.onResc + s.onPatch, ph.lefts + [s.left], ph.destroyed + [s.destroy])
    ensures Reached(now', s.agents, views, agents0, collided, k + 1, ph', teleport)
  {
    PhaseSnoc(agents0, views, k, collided, teleport);
  }

  /** A patch as `add_new_resource_patch` leaves it: at rest, heading 0, and full. */
  ghost predicate NewPatch(q: Resource)
    reads q
  {
    AtRest(q.State(), q.radius) && q.rescLeft == q.rescUnits
  }

  function View(r: Resource): PatchView
    reads r`x, r`y, r`rescLeft
  {
    PatchView(r.x, r.y, r.radius, r.rescLeft, r.quality)
  }

  function Patches(contacts: seq<PatchContact>): (ps: set<Resource>)
    ensures forall k :: 0 <= k < |contacts| ==> contacts[k].patch in ps
    decreases |contacts|
  {
    if contacts == [] then {} else Patches(contacts[..|contacts| - 1]) + {contacts[|contacts| - 1].patch}
  }

  /** The patches of a dictionary whose entries all point into `rs` are all in `rs`. */
  lemma {:induction false} PatchesWithin(contacts: seq<PatchContact>, rs: seq<Resource>)
    requires forall k :: 0 <= k < |contacts| ==> contacts[k].patch in rs
    ensures forall q :: q in Patches(contacts) ==> q in rs
    decreases |contacts|
  {
    if contacts != [] {
      var init := contacts[..|contacts| - 1];
      assert forall k :: 0 <= k < |init| ==> init[k] == contacts[k];
      PatchesWithin(init, rs);
    }
  }


  /** The dictionary entries as the resource loop sees the patches at its start. */
  function Views(contacts: seq<PatchContact>): (v: seq<Contact>)
    reads Patches(contacts)
    ensures |v| == |contacts|
    ensures forall k :: 0 <= k < |contacts| ==> v[k] == Contact(View(contacts[k].patch), contacts[k].onPatch)
  {
    seq(|contacts|, k requires 0 <= k < |contacts| reads Patches(contacts) =>
      Contact(View(contacts[k].patch), contacts[k].onPatch))
  }

  class Simulation {
    // arena
    const width: real
    const height: real
    const pad: real
    // run
    const horizon: int
    // agents
    const nAgents: nat
    const agentRadius: real
    const poolingTime: int
    const agentConsumption: real
    const teleportExploit: bool
    // patches
    const nResc: nat
    const rescRadius: real
    const minUnits: int
    const maxUnits: int
    const regenerate: bool

    var t: int
    var agents: seq<Agent>
    var resources: seq<Resource>

    /** Live patch ids are increasing in the group's order, hence unique. */
    ghost predicate Valid()
      reads this`resources
    {
      IdsIncreasing(resources)
    }

    /** The constructor's simulation state (rendering, logging and the agents' sensing
        parameters are not part of this model). */
    constructor (nAgents: nat, horizon: int, width: real, height: real, pad: real, poolingTime: int,
                 agentRadius: real, nResc: nat, minUnits: int, maxUnits: int, patchRadius: real,
                 regenerate: bool, agentConsumption: real, teleportExploit: bool)
      ensures Valid() && t == 0 && agents == [] && resources == []
      ensures this.nAgents == nAgents && this.horizon == horizon
      ensures this.width == width && this.height == height && this.pad == pad
      ensures this.poolingTime == poolingTime && this.agentRadius == agentRadius
      ensures this.nResc == nResc && this.minUnits == minUnits && this.maxUnits == maxUnits
      ensures this.rescRadius == patchRadius && this.regenerate == regenerate
      ensures this.agentConsumption == agentConsumption && this.teleportExploit == teleportExploit
    {
      this.width := width;
      this.height := height;
      this.pad := pad;
      this.horizon := horizon;
      this.nAgents := nAgents;
      this.agentRadius := agentRadius;
      this.poolingTime := poolingTime;
      this.agentConsumption := agentConsumption;
      this.teleportExploit := teleportExploit;
      this.nResc := nResc;
      this.rescRadius := patchRadius;
      this.minUnits := minUnits;
      this.maxUnits := maxUnits;
      this.regenerate := regenerate;
      t := 0;
      agents := [];
      resources := [];
    }

    /** `proove_resource` for a candidate patch. */
    predicate ProoveResource(candidate: Resource)
      reads this, resources, candidate
      ensures resources == [] ==> ProoveResource(candidate)
    {
      Fits(DiscOf(candidate), Discs(resources))
    }

    /** A candidate that passes `proove_resource` is not already a live patch. */
    lemma ProovedIsNew(candidate: Resource)
      requires ProoveResource(candidate)
      ensures candidate !in resources
    {
      if candidate in resources {
        var k :| 0 <= k < |resources| && resources[k] == candidate;
        assert Discs(resources)[k] == DiscOf(candidate);
        FitsApartFromLive(DiscOf(candidate), Discs(resources));
      }
    }

    /** `add_new_resource_patch`: the new patch takes id (largest live id) + 1 and the first
        draw whose disc overlaps no live patch. The source redraws forever; here the draws
        are a finite supply, and when none fits nothing is added. */
    method AddNewResourcePatch(draws: seq<PatchDraw>) returns (placed: bool)
      requires Valid()
      modifies this`resources
      ensures Valid()
      ensures var k := old(FirstFit(draws, rescRadius, Discs(resources)));
        && (placed <==> k < |draws|)
        && (!placed ==> resources == old(resources))
        && (placed ==>
              && |resources| == |old(resources)| + 1
              && resources[..|old(resources)|] == old(resources)
              && fresh(resources[|old(resources)|])
              && Drawn(resources[|old(resources)|], draws[k], MaxId(old(resources)) + 1))
      ensures forall q :: q in resources ==> q in old(resources) || (fresh(q) && NewPatch(q))
    {
      var id := MaxId(resources);
      ghost var live := Discs(resources);
      var candidate;
      candidate, placed := SearchDraws(draws, id + 1, live);
      if placed {
        resources := resources + [candidate];
        assert resources[|old(resources)|] == candidate;
        assert NewPatch(candidate);
      }
    }

    /** The draw loop of `add_new_resource_patch` (sims.py:185-193): candidates are built
        from the draws in order until one fits, and the first one that fits is returned. */
    method SearchDraws(draws: seq<PatchDraw>, id: int, ghost live: seq<Disc>) returns (candidate: Resource?, placed: bool)
      requires live == Discs(resources)
      ensures placed <==> FirstFit(draws, rescRadius, live) < |draws|
      ensures placed ==> candidate != null && fresh(candidate) && Drawn(candidate, draws[FirstFit(draws, rescRadius, live)], id)
    {
      candidate := null;
      var k := 0;
      placed := false;
      while !placed && k < |draws|
        invariant 0 <= k <= |draws|
        invariant !placed ==> k <= FirstFit(draws, rescRadius, live)
        invariant placed ==>
          && 0 < k && k - 1 == FirstFit(draws, rescRadius, live)
          && candidate != null && fresh(candidate) && Drawn(candidate, draws[k - 1], id)
        decreases |draws| - k
      {
        candidate, placed := DrawCandidate(draws[k], id, live);
        k := k + 1;
      }
    }

    /** The patch a draw describes: the given id, the drawn corner and units, and the
        default quality, speed and turn bound of `add_new_resource_patch`, at rest and heading 0. */
    ghost predicate Drawn(p: Resource, d: PatchDraw, id: int)
      reads p
    {
      && p.id == id && SpawnedFrom(p, d)
      && p.x == d.x as real && p.y == d.y as real
      && p.cx == p.x + rescRadius && p.cy == p.y + rescRadius
      && p.rescLeft == p.rescUnits && p.velocity == 0.0 && p.orientation == 0.0
    }

    /** A patch built from draw `d` covers the disc the draw describes. */
    lemma DrawnDisc(p: Resource, d: PatchDraw, id: int)
      requires Drawn(p, d, id)
      ensures DiscOf(p) == DrawDisc(d, rescRadius)
    {
    }

    /** The fields of a patch built from draw `d` that never change afterwards: the
        simulation's radius and arena, the drawn units, and the default quality, speed and
        turn bound. */
    predicate SpawnedFrom(p: Resource, d: PatchDraw) {
      && p.radius == rescRadius && p.rescUnits == d.units as real
      && p.quality == DEFAULT_QUALITY && p.desVelocity == DEFAULT_DES_VELOCITY
      && p.thetaAbs == DEFAULT_THETA_ABS
      && p.width == width && p.height == height && p.pad == pad
    }

    /** One round of the acceptance loop: build the candidate and test it. */
    method DrawCandidate(d: PatchDraw, id: int, ghost live: seq<Disc>) returns (candidate: Resource, fits: bool)
      requires live == Discs(resources)
      ensures fresh(candidate) && Drawn(candidate, d, id)
      ensures fits <==> DrawFits(d, rescRadius, live)
    {
      candidate := new Resource(id, rescRadius, d.x as real, d.y as real, width, height, pad,
                                Some(d.units as real), DEFAULT_QUALITY, DEFAULT_DES_VELOCITY, DEFAULT_THETA_ABS);
      assert candidate.State() == Kinematics(d.x as real, d.y as real, d.x as real + rescRadius, d.y as real + rescRadius, 0.0, 0.0);
      fits := ProoveResource(candidate);
    }

    /** The regeneration branch of `kill_resource`. */
    method Regenerate(draws: seq<PatchDraw>) returns (placed: bool)
      requires Valid()
      modifies this`resources
      ensures Valid()
      ensures placed ==> regenerate
      ensures regenerate ==> (placed <==> old(FirstFit(draws, rescRadius, Discs(resources))) < |draws|)
      ensures !placed ==> resources == old(resources)
      ensures placed ==>
        && |resources| == |old(resources)| + 1
        && resources[..|old(resources)|] == old(resources)
        && fresh(resources[|old(resources)|])
        && Drawn(resources[|old(resources)|], draws[old(FirstFit(draws, rescRadius, Discs(resources)))], MaxId(old(resources)) + 1)
        && NewPatch(resources[|old(resources)|])
    {
      if regenerate {
        placed := AddNewResourcePatch(draws);
      } else {
        placed := false;
      }
    }

    /** `kill_resource`: with regeneration a new patch is added first (so its id exceeds the
        killed one's), then the patch is removed from the group. */
    method KillResource(r: Resource, draws: seq<PatchDraw>) returns (placed: bool)
      requires Valid()
      modifies this`resources
      ensures Valid()
      ensures placed ==> regenerate
      ensures regenerate ==> (placed <==> old(FirstFit(draws, rescRadius, Discs(resources))) < |draws|)
      ensures KilledFrom(resources, old(resources), r, placed)
      ensures placed ==> fresh(resources[|resources| - 1])
      ensures placed ==> Drawn(resources[|resources| - 1], draws[old(FirstFit(draws, rescRadius, Discs(resources)))], MaxId(old(resources)) + 1)
      ensures forall q :: q in old(resources) && q != r ==> q in resources
      ensures forall q :: q in resources ==> q in old(resources) || (fresh(q) && NewPatch(q))
    {
      ghost var f := FirstFit(draws, rescRadius, Discs(resources));
      ghost var n := |resources|;
      placed := Regenerate(draws);
      ghost var grown := resources;
      KillFacts(old(resources), grown, r, placed);
      resources := Without(resources, r);
      assert placed ==> resources[|resources| - 1] == grown[n];
    }

    /** The same patch has the same disc wherever it appears. */
    lemma DiscsAgree(rs: seq<Resource>, qs: seq<Resource>)
      ensures forall i, j :: 0 <= i < |rs| && 0 <= j < |qs| && rs[i] == qs[j] ==> Discs(rs)[i] == Discs(qs)[j]
    {
    }

    /** One entry of the resource loop as the live group sees it: `before`, whose discs are
        `dbefore`, becomes `after`, whose discs are `dafter`. An entry whose patch was not
        exhausted changes nothing. One whose live patch `r` was exhausted kills `r`; with
        regeneration it first places exactly one new patch when some draw of `ds` fits, from
        the first such draw, with the next id and where that draw put it, and none
        otherwise. The patches that stay keep their discs. */
    ghost predicate KillRound(before: seq<Resource>, dbefore: seq<Disc>, after: seq<Resource>, dafter: seq<Disc>,
                              r: Resource, destroyed: bool, ds: seq<PatchDraw>)
    {
      && |dbefore| == |before| && |dafter| == |after|
      && if !destroyed then after == before && dafter == dbefore
         else
           var f := FirstFit(ds, rescRadius, dbefore);
           var placed := regenerate && f < |ds|;
           && r in before
           && KilledFrom(after, before, r, placed)
           && (forall i, j :: 0 <= i < |before| && 0 <= j < |after| && before[i] == after[j] ==> dbefore[i] == dafter[j])
           && (placed ==> dafter[|after| - 1] == DrawDisc(ds[f], rescRadius) && SpawnedFrom(after[|after| - 1], ds[f]))
    }

    /** The live group through the resource loop: `groups[k]` (with discs `discs[k]`) is the
        group before dictionary entry `k`, and each entry is one `KillRound` with the draws
        `Regen(regen, k)`. */
    ghost predicate KillChain(groups: seq<seq<Resource>>, discs: seq<seq<Disc>>, contacts: seq<PatchContact>,
                              destroyed: seq<bool>, regen: seq<seq<PatchDraw>>)
    {
      && |groups| == |destroyed| + 1 && |discs| == |groups| && |destroyed| <= |contacts|
      && forall k :: 0 <= k < |destroyed| ==> ChainRound(groups, discs, contacts, destroyed, regen, k)
    }

    /** Round `k` of the chain. */
    ghost predicate ChainRound(groups: seq<seq<Resource>>, discs: seq<seq<Disc>>, contacts: seq<PatchContact>,
                               destroyed: seq<bool>, regen: seq<seq<PatchDraw>>, k: nat)
      requires k < |destroyed| && |groups| == |destroyed| + 1 && |discs| == |groups| && |destroyed| <= |contacts|
    {
      KillRound(groups[k], discs[k], groups[k + 1], discs[k + 1], contacts[k].patch, destroyed[k], Regen(regen, k))
    }

    /** The number of rounds of the chain that placed a replacement: an exhausted entry,
        regeneration on, and a fitting draw among its draws. */
    function Replaced(discs: seq<seq<Disc>>, destroyed: seq<bool>, regen: seq<seq<PatchDraw>>): nat
      requires |destroyed| <= |discs|
      decreases |destroyed|
    {
      if destroyed == [] then 0
      else
        var k := |destroyed| - 1;
        Replaced(discs, destroyed[..k], regen)
        + (if PlacedIn(discs, destroyed, regen, k) then 1 else 0)
    }

    /** One round of the chain loses the killed patch and gains the replacement, if any. */
    lemma RoundCount(before: seq<Resource>, dbefore: seq<Disc>, after: seq<Resource>, dafter: seq<Disc>,
                     r: Resource, destroyed: bool, ds: seq<PatchDraw>)
      requires KillRound(before, dbefore, after, dafter, r, destroyed, ds)
      ensures |after| + (if destroyed then 1 else 0)
        == |before| + (if destroyed && regenerate && FirstFit(ds, rescRadius, dbefore) < |ds| then 1 else 0)
    {
    }

    /** Round `k` of the chain placed a replacement: an exhausted entry, regeneration on, and
        a fitting draw among the round's draws. */
    predicate PlacedIn(discs: seq<seq<Disc>>, destroyed: seq<bool>, regen: seq<seq<PatchDraw>>, k: nat)
      requires k < |destroyed| && k < |discs|
    {
      destroyed[k] && regenerate && FirstFit(Regen(regen, k), rescRadius, discs[k]) < |Regen(regen, k)|
    }

    /** Round `k` of the chain lost the killed patch and gained the replacement, if any. */
    ghost predicate SizedRound(groups: seq<seq<Resource>>, discs: seq<seq<Disc>>, destroyed: seq<bool>,
                               regen: seq<seq<PatchDraw>>, k: nat)
      requires k + 1 < |groups| && k < |destroyed| && k < |discs|
    {
      |groups[k + 1]| + (if destroyed[k] then 1 else 0) == |groups[k]| + (if PlacedIn(discs, destroyed, regen, k) then 1 else 0)
    }

    /** After the first `n` rounds of the chain, the group has lost one patch per kill and
        gained one per replacement: |group| + |killed| == |start| + |replaced|. */
    lemma ChainCount(groups: seq<seq<Resource>>, discs: seq<seq<Disc>>, contacts: seq<PatchContact>,
                     destroyed: seq<bool>, regen: seq<seq<PatchDraw>>, n: nat)
      requires KillChain(groups, discs, contacts, destroyed, regen) && n <= |destroyed|
      ensures |groups[n]| + |Killed(contacts[..n], destroyed[..n])| == |groups[0]| + Replaced(discs, destroyed[..n], regen)
    {
      forall k | 0 <= k < n
        ensures SizedRound(groups, discs, destroyed, regen, k)
      {
        assert ChainRound(groups, discs, contacts, destroyed, regen, k);
        RoundCount(groups[k], discs[k], groups[k + 1], discs[k + 1], contacts[k].patch, destroyed[k], Regen(regen, k));
      }
      CountFrom(groups, discs, contacts, destroyed, regen, n);
    }

    /** `ChainCount` by induction on `n`, from the rounds' sizes alone. */
    lemma {:induction false} CountFrom(groups: seq<seq<Resource>>, discs: seq<seq<Disc>>, contacts: seq<PatchContact>,
                                       destroyed: seq<bool>, regen: seq<seq<PatchDraw>>, n: nat)
      requires |groups| == |destroyed| + 1 && |discs| == |groups| && |destroyed| <= |contacts| && n <= |destroyed|
      requires forall k :: 0 <= k < n ==> SizedRound(groups, discs, destroyed, regen, k)
      ensures |groups[n]| + |Killed(contacts[..n], destroyed[..n])| == |groups[0]| + Replaced(discs, destroyed[..n], regen)
      decreases n
    {
      if n == 0 {
        assert Killed(contacts[..0], destroyed[..0]) == [];
      } else {
        var k := n - 1;
        CountFrom(groups, discs, contacts, destroyed, regen, k);
        assert SizedRound(groups, discs, destroyed, regen, k);
        ReplacedPrefix(discs, destroyed, regen, n);
        KilledPrefix(contacts, destroyed, n);
      }
    }

    /** Extending the prefix of the rounds by one adds that round's replacement. */
    lemma ReplacedPrefix(discs: seq<seq<Disc>>, destroyed: seq<bool>, regen: seq<seq<PatchDraw>>, n: nat)
      requires 0 < n <= |destroyed| && |destroyed| < |discs|
      ensures Replaced(discs, destroyed[..n], regen)
        == Replaced(discs, destroyed[..n - 1], regen) + (if PlacedIn(discs, destroyed, regen, n - 1) then 1 else 0)
    {
      assert destroyed[..n][..n - 1] == destroyed[..n - 1];
    }

    /** Round `k` of the chain placed `q`, whose disc is `dq`: its patch was exhausted,
        regeneration is on, and `q` is the patch of the first fitting draw of the round, with
        the next id and that draw's disc. */
    ghost predicate PlacedAt(groups: seq<seq<Resource>>, discs: seq<seq<Disc>>, regen: seq<seq<PatchDraw>>,
                             k: nat, q: Resource, dq: Disc)
      requires k + 1 < |groups| && |discs| == |groups|
    {
      var ds := Regen(regen, k);
      var f := FirstFit(ds, rescRadius, discs[k]);
      && regenerate && f < |ds|
      && |groups[k + 1]| > 0 && groups[k + 1][|groups[k + 1]| - 1] == q
      && q.id == MaxId(groups[k]) + 1
      && SpawnedFrom(q, ds[f]) && dq == DrawDisc(ds[f], rescRadius)
    }

    /** Every patch of the group after `n` rounds that was not live at the start was placed
        by one of those rounds, and still has the disc its draw gave it. */
    lemma {:induction false} ChainOrigin(groups: seq<seq<Resource>>, discs: seq<seq<Disc>>, contacts: seq<PatchContact>,
                                         destroyed: seq<bool>, regen: seq<seq<PatchDraw>>, n: nat, j: nat)
      requires KillChain(groups, discs, contacts, destroyed, regen) && n <= |destroyed|
      requires j < |groups[n]| && |discs[n]| == |groups[n]| && groups[n][j] !in groups[0]
      ensures exists k :: 0 <= k < n && PlacedAt(groups, discs, regen, k, groups[n][j], discs[n][j])
      decreases n
    {
      if n > 0 {
        var k := n - 1;
        assert ChainRound(groups, discs, contacts, destroyed, regen, k);
        var before, after, q := groups[k], groups[n], groups[n][j];
        var r := contacts[k].patch;
        if !destroyed[k] {
          ChainOrigin(groups, discs, contacts, destroyed, regen, k, j);
        } else {
          var ds := Regen(regen, k);
          var f := FirstFit(ds, rescRadius, discs[k]);
          var placed := regenerate && f < |ds|;
          if placed && j == |after| - 1 {
            assert PlacedAt(groups, discs, regen, k, q, discs[n][j]);
          } else {
            KillSurvivor(after, before, r, placed, j);
            var i :| 0 <= i < |before| && before[i] == q;
            assert discs[k][i] == discs[n][j];
            ChainOrigin(groups, discs, contacts, destroyed, regen, k, i);
            var k' :| 0 <= k' < k && PlacedAt(groups, discs, regen, k', groups[k][i], discs[k][i]);
          }
        }
      }
    }

    /** Every patch of the chain's last group that was not in its first was placed by one of
        its rounds, with the disc of that round's fitting draw. */
    ghost predicate ChainOrigins(groups: seq<seq<Resource>>, discs: seq<seq<Disc>>, regen: seq<seq<PatchDraw>>) {
      && |groups| > 0 && |discs| == |groups| && |discs[|discs| - 1]| == |groups[|groups| - 1]|
      && var last, dlast := groups[|groups| - 1], discs[|discs| - 1];
         forall j :: 0 <= j < |last| && last[j] !in groups[0] ==>
           exists k :: 0 <= k < |groups| - 1 && PlacedAt(groups, discs, regen, k, last[j], dlast[j])
    }

    lemma ChainOriginsHold(groups: seq<seq<Resource>>, discs: seq<seq<Disc>>, contacts: seq<PatchContact>,
                           destroyed: seq<bool>, regen: seq<seq<PatchDraw>>)
      requires KillChain(groups, discs, contacts, destroyed, regen)
      requires |discs[|discs| - 1]| == |groups[|groups| - 1]|
      ensures ChainOrigins(groups, discs, regen)
    {
      var n := |destroyed|;
      forall j | 0 <= j < |groups[n]| && groups[n][j] !in groups[0]
        ensures exists k :: 0 <= k < n && PlacedAt(groups, discs, regen, k, groups[n][j], discs[n][j])
      {
        ChainOrigin(groups, discs, contacts, destroyed, regen, n, j);
      }
    }

    /** What a whole chain, one round per dictionary entry, adds up to: the count of
        `ChainCount` over all the rounds, and `ChainOrigins`. */
    lemma ChainTotals(groups: seq<seq<Resource>>, discs: seq<seq<Disc>>, contacts: seq<PatchContact>,
                      destroyed: seq<bool>, regen: seq<seq<PatchDraw>>)
      requires KillChain(groups, discs, contacts, destroyed, regen) && |destroyed| == |contacts|
      requires |discs[|discs| - 1]| == |groups[|groups| - 1]|
      ensures |groups[|groups| - 1]| + |Killed(contacts, destroyed)| == |groups[0]| + Replaced(discs, destroyed, regen)
      ensures ChainOrigins(groups, discs, regen)
    {
      ChainCount(groups, discs, contacts, destroyed, regen, |destroyed|);
      assert contacts[..|destroyed|] == contacts && destroyed[..|destroyed|] == destroyed;
      ChainOriginsHold(groups, discs, contacts, destroyed, regen);
    }

    /** The chain of rounds so far starts from `res0` (with discs `dres0`) and ends at the
        live group. */
    ghost predicate ChainAt(groups: seq<seq<Resource>>, discs: seq<seq<Disc>>, contacts: seq<PatchContact>,
                            destroyed: seq<bool>, regen: seq<seq<PatchDraw>>, res0: seq<Resource>, dres0: seq<Disc>)
      reads this`resources, resources`cx, resources`cy
    {
      && KillChain(groups, discs, contacts, destroyed, regen)
      && groups[0] == res0 && discs[0] == dres0
      && groups[|groups| - 1] == resources && discs[|discs| - 1] == Discs(resources)
    }

    /** One more entry of the resource loop extends the chain by one round. */
    lemma KillChainSnoc(groups: seq<seq<Resource>>, discs: seq<seq<Disc>>, contacts: seq<PatchContact>,
                        destroyed: seq<bool>, regen: seq<seq<PatchDraw>>, after: seq<Resource>, dafter: seq<Disc>, d: bool)
      requires KillChain(groups, discs, contacts, destroyed, regen) && |destroyed| < |contacts|
      requires KillRound(groups[|destroyed|], discs[|destroyed|], after, dafter, contacts[|destroyed|].patch, d, Regen(regen, |destroyed|))
      ensures KillChain(groups + [after], discs + [dafter], contacts, destroyed + [d], regen)
    {
      var g, ds, dd, n := groups + [after], discs + [dafter], destroyed + [d], |destroyed|;
      forall k | 0 <= k < n + 1
        ensures ChainRound(g, ds, contacts, dd, regen, k)
      {
        if k < n {
          assert ChainRound(groups, discs, contacts, destroyed, regen, k);
          assert g[k] == groups[k] && g[k + 1] == groups[k + 1] && ds[k] == discs[k] && ds[k + 1] == discs[k + 1];
        }
      }
    }

    /** `agent_agent_collision` on the agent with index `second`; `theta` is the bearing
        computed from the first agent's position. */
    method AgentAgentCollision(second: nat, theta: real)
      requires second < |agents|
      modifies this`agents
      ensures agents == old(agents)[second := Bumped(old(agents)[second], theta)]
    {
      var a := agents[second];
      if a.mode != Exploit {
        a := a.(mode := Collide);
      }
      if 0.0 < theta < PI {
        a := a.(orientation := a.orientation - PI / 8.0);
      } else if PI < theta < TWO_PI {
        a := a.(orientation := a.orientation + PI / 8.0);
      }
      if a.velocity == 1.0 {
        a := a.(velocity := a.velocity + 0.5);
      } else {
        a := a.(velocity := 1.0);
      }
      agents := agents[second := a];
    }

    /** The loop at sims.py:313-324. */
    method CollideAgents(pairs: seq<CollisionPair>) returns (collided: seq<Appended>)
      requires PairsIn(pairs, |agents|)
      modifies this`agents
      ensures Collisions(agents, collided) == CollisionPass(old(agents), pairs, teleportExploit)
    {
      collided := [];
      for k := 0 to |pairs|
        invariant Collisions(agents, collided) == CollisionPass(old(agents), pairs[..k], teleportExploit)
      {
        var p := pairs[k];
        CollisionSnoc(old(agents), pairs, k, teleportExploit);
        AgentAgentCollision(p.second, p.theta);
        collided := RecordPair(p, collided);
      }
      assert pairs[..|pairs|] == pairs;
    }

    /** The appends to `collided_agents` for one dictionary entry, after its collision. */
    method RecordPair(p: CollisionPair, collided: seq<Appended>) returns (collided': seq<Appended>)
      requires p.first < |agents| && p.second < |agents|
      ensures collided' == collided + Appends(agents, p, teleportExploit)
    {
      collided' := collided;
      if teleportExploit {
        if agents[p.first].mode != Exploit {
          collided' := collided' + [AgentEntry(p.first)];
        }
        if agents[p.second].mode != Exploit {
          collided' := collided' + [ListEntry(p.second)];
        }
      } else {
        collided' := collided' + [AgentEntry(p.first)];
        collided' := collided' + [ListEntry(p.second)];
      }
    }

    /** The collision pass followed by the demotion of the collided agents (sims.py:313-328). */
    method CollideAndDemote(pairs: seq<CollisionPair>) returns (collided: seq<Appended>)
      requires PairsIn(pairs, |agents|)
      modifies this`agents
      ensures var c := CollisionPass(old(agents), pairs, teleportExploit);
        collided == c.collided && agents == Demoted(c.agents, c.collided)
    {
      collided := CollideAgents(pairs);
      DemoteCollided(collided);
    }

    /** The loop at sims.py:326-328. */
    method DemoteCollided(collided: seq<Appended>)
      modifies this`agents
      ensures agents == Demoted(old(agents), collided)
    {
      for i := 0 to |agents|
        invariant |agents| == |old(agents)|
        invariant forall j :: 0 <= j < i ==> agents[j] == Demoted(old(agents), collided)[j]
        invariant forall j :: i <= j < |agents| ==> agents[j] == old(agents)[j]
      {
        if AgentEntry(i) !in collided && agents[i].mode == Collide {
          agents := agents[i := agents[i].(mode := Explore)];
        }
      }
    }

    /** The body of the loop at sims.py:345-362 for the agent with index `i`. */
    method VisitOne(patch: Resource, i: nat, collided: seq<Appended>, ghost start: PatchView,
                    destroy: bool, visited: seq<nat>, ghost granted: real)
      returns (destroy': bool, visited': seq<nat>, ghost granted': real)
      requires i < |agents|
      requires start == View(patch).(left := start.left)
      modifies this`agents, patch`rescLeft
      ensures Visit(agents, patch.rescLeft, destroy', visited', granted')
        == VisitAgent(Visit(old(agents), old(patch.rescLeft), destroy, visited, granted), start, i, collided, teleportExploit)
    {
      destroy', visited', granted' := destroy, visited, granted;
      if AgentEntry(i) !in collided {
        var a := agents[i];
        if destroy {
          a := a.(envStatus := -1, poolSuccess := false);
        }
        if PoolingDone(a) {
          a := a.(poolSuccess := false, envStatus := 1);
          if teleportExploit {
            a := a.(x := patch.x + patch.radius - a.radius, y := patch.y + patch.radius - a.radius);
          }
        }
        if a.mode == Exploit {
          var units;
          units, destroy' := patch.Deplete(a.consumption);
          a := a.(collected := a.collected + units);
          if destroy' {
            a := a.(envStatus := -1);
          }
          granted' := granted + units;
        }
        agents := agents[i := a];
        visited' := visited + [i];
      }
    }

    /** The loop at sims.py:345-362 over the agents on one patch. */
    method ExploitPatch(patch: Resource, onPatch: seq<nat>, collided: seq<Appended>)
      returns (destroy: bool, visited: seq<nat>)
      requires IdsIn(onPatch, |agents|)
      modifies this`agents, patch`rescLeft
      ensures var s := PatchPass(old(agents), old(View(patch)), onPatch, collided, teleportExploit);
        agents == s.agents && patch.rescLeft == s.left && destroy == s.destroy && visited == s.onPatch
    {
      ghost var start := View(patch);
      ghost var granted := 0.0;
      destroy := false;
      visited := [];
      for j := 0 to |onPatch|
        invariant Visit(agents, patch.rescLeft, destroy, visited, granted)
          == PatchPass(old(agents), start, onPatch[..j], collided, teleportExploit)
      {
        destroy, visited, granted := VisitOne(patch, onPatch[j], collided, start, destroy, visited, granted);
        assert onPatch[..j + 1][..j] == onPatch[..j];
      }
      assert onPatch[..|onPatch|] == onPatch;
    }

    /** The dictionary a tick receives: live patches, each at most once, listing agents. */
    ghost predicate ContactsLive(contacts: seq<PatchContact>)
      reads this
    {
      && (forall k :: 0 <= k < |contacts| ==> contacts[k].patch in resources)
      && (forall k, l :: 0 <= k < l < |contacts| ==> contacts[k].patch != contacts[l].patch)
      && (forall k :: 0 <= k < |contacts| ==> IdsIn(contacts[k].onPatch, |agents|))
    }

    /** `live` is a group the patches in `killed` were killed from, starting from `before`. */
    ghost predicate LiveFrom(live: seq<Resource>, before: seq<Resource>, killed: seq<Resource>) {
      && IdsIncreasing(live)
      && (forall i :: 0 <= i < |killed| ==> killed[i] !in live)
      && (forall q :: q in before && q !in killed ==> q in live)
      && (!regenerate ==> |live| == |before| - |killed|)
    }

    /** The live group after the patches in `killed` were killed, starting from `before`. */
    ghost predicate LiveAfter(before: seq<Resource>, killed: seq<Resource>)
      reads this`resources
    {
      LiveFrom(resources, before, killed)
    }

    /** Every patch of the group that was not in `before` is as `add_new_resource_patch`
        placed it. */
    ghost predicate NewSince(before: seq<Resource>)
      reads this`resources, resources
    {
      forall q :: q in resources && q !in before ==> NewPatch(q)
    }

    /** `kill_resource` as the resource loop calls it on a live, exhausted patch; `dbefore`
        and `dafter` are the discs of the group before and after. */
    method Retire(patch: Resource, draws: seq<PatchDraw>, ghost before: seq<Resource>, ghost killed: seq<Resource>,
                  ghost dbefore: seq<Disc>) returns (ghost dafter: seq<Disc>)
      requires LiveAfter(before, killed) && NewSince(before) && patch in resources && dbefore == Discs(resources)
      modifies this`resources
      ensures LiveAfter(before, killed + [patch]) && NewSince(before)
      ensures dafter == Discs(resources)
      ensures KillRound(old(resources), dbefore, resources, dafter, patch, true, draws)
      ensures forall q :: q in old(resources) && q != patch ==> q in resources
      ensures forall q :: q in resources ==> q in old(resources) || fresh(q)
    {
      var placed := KillResource(patch, draws);
      dafter := Discs(resources);
      DiscsAgree(old(resources), resources);
      ghost var f := FirstFit(draws, rescRadius, dbefore);
      if placed {
        DrawnDisc(resources[|resources| - 1], draws[f], MaxId(old(resources)) + 1);
      }
      KillRoundFrom(old(resources), dbefore, resources, dafter, patch, draws, placed);
    }

    /** A kill of `r`, as `KillResource` describes it, is a round of `KillRound`. */
    lemma KillRoundFrom(before: seq<Resource>, dbefore: seq<Disc>, after: seq<Resource>, dafter: seq<Disc>,
                        r: Resource, ds: seq<PatchDraw>, placed: bool)
      requires r in before && |dbefore| == |before| && |dafter| == |after|
      requires placed <==> regenerate && FirstFit(ds, rescRadius, dbefore) < |ds|
      requires KilledFrom(after, before, r, placed)
      requires forall i, j :: 0 <= i < |before| && 0 <= j < |after| && before[i] == after[j] ==> dbefore[i] == dafter[j]
      requires placed ==> var f := FirstFit(ds, rescRadius, dbefore);
        dafter[|after| - 1] == DrawDisc(ds[f], rescRadius) && SpawnedFrom(after[|after| - 1], ds[f])
      ensures KillRound(before, dbefore, after, dafter, r, true, ds)
    {
    }

    /** The dictionary's patches from entry `k` on are still live. */
    ghost predicate StillLive(contacts: seq<PatchContact>, k: nat)
      reads this
    {
      forall l :: k <= l < |contacts| ==> contacts[l].patch in resources
    }

    /** Entry `k` of the loop at sims.py:343-364: the agents on the patch, then the kill. */
    method ExploitEntry(contacts: seq<PatchContact>, k: nat, collided: seq<Appended>, regen: seq<seq<PatchDraw>>,
                        ghost before: seq<Resource>, ghost killed: seq<Resource>, ghost dbefore: seq<Disc>,
                        ghost destroyed: seq<bool>, ghost groups: seq<seq<Resource>>, ghost discs: seq<seq<Disc>>)
      returns (destroy: bool, visited: seq<nat>, ghost groups': seq<seq<Resource>>, ghost discs': seq<seq<Disc>>)
      requires k < |contacts| && IdsIn(contacts[k].onPatch, |agents|)
      requires forall l, m :: 0 <= l < m < |contacts| ==> contacts[l].patch != contacts[m].patch
      requires LiveAfter(before, killed) && NewSince(before) && StillLive(contacts, k)
      requires ChainAt(groups, discs, contacts, destroyed, regen, before, dbefore) && |destroyed| == k
      requires contacts[k].patch in before
      modifies this`agents, this`resources, contacts[k].patch`rescLeft
      ensures var s := PatchPass(old(agents), old(View(contacts[k].patch)), contacts[k].onPatch, collided, teleportExploit);
        && agents == s.agents && contacts[k].patch.rescLeft == s.left && destroy == s.destroy && visited == s.onPatch
      ensures LiveAfter(before, if destroy then killed + [contacts[k].patch] else killed)
      ensures ChainAt(groups', discs', contacts, destroyed + [destroy], regen, before, dbefore)
      ensures NewSince(before) && StillLive(contacts, k + 1)
      ensures forall q :: q in resources ==> q in old(resources) || fresh(q)
      ensures forall l :: 0 <= l < |contacts| && l != k ==> View(contacts[l].patch) == old(View(contacts[l].patch))
    {
      var c := contacts[k];
      destroy, visited := ExploitPatch(c.patch, c.onPatch, collided);
      groups', discs' := KillIfExhausted(contacts, k, destroy, regen, before, killed, dbefore, destroyed, groups, discs);
    }

    /** The end of one entry of the loop at sims.py:343-364: `kill_resource` when the
        patch was exhausted, recorded as one more round of the chain. */
    method KillIfExhausted(contacts: seq<PatchContact>, k: nat, destroy: bool, regen: seq<seq<PatchDraw>>,
                           ghost before: seq<Resource>, ghost killed: seq<Resource>, ghost dbefore: seq<Disc>,
                           ghost destroyed: seq<bool>, ghost groups: seq<seq<Resource>>, ghost discs: seq<seq<Disc>>)
      returns (ghost groups': seq<seq<Resource>>, ghost discs': seq<seq<Disc>>)
      requires k < |contacts| && contacts[k].patch in resources
      requires LiveAfter(before, killed) && NewSince(before)
      requires ChainAt(groups, discs, contacts, destroyed, regen, before, dbefore) && |destroyed| == k
      modifies this`resources
      ensures LiveAfter(before, if destroy then killed + [contacts[k].patch] else killed) && NewSince(before)
      ensures ChainAt(groups', discs', contacts, destroyed + [destroy], regen, before, dbefore)
      ensures forall q :: q in old(resources) && q != contacts[k].patch ==> q in resources
      ensures forall q :: q in resources ==> q in old(resources) || fresh(q)
    {
      ghost var dafter := discs[k];
      if destroy {
        dafter := Retire(contacts[k].patch, Regen(regen, k), before, killed, discs[k]);
      }
      KillChainSnoc(groups, discs, contacts, destroyed, regen, resources, dafter, destroy);
      groups', discs' := groups + [resources], discs + [dafter];
    }

    /** The agents and the visited patches after the first `k` dictionary entries. */
    ghost predicate PhaseReached(contacts: seq<PatchContact>, views: seq<Contact>, agents0: seq<Agent>,
                                 collided: seq<Appended>, k: nat, ph: Phase)
      requires |views| == |contacts| && k <= |contacts| && ContactsIn(views, |agents0|)
      reads this, Patches(contacts)
    {
      Reached(Views(contacts), agents, views, agents0, collided, k, ph, teleportExploit)
    }

    /** One pass of the loop at sims.py:343-364, with the bookkeeping that ties it to
        `ResourcePhase` and to the live group. */
    method ExploitStep(contacts: seq<PatchContact>, collided: seq<Appended>, regen: seq<seq<PatchDraw>>, k: nat,
                       ghost views: seq<Contact>, ghost agents0: seq<Agent>, ghost before: seq<Resource>,
                       ghost dbefore: seq<Disc>, ghost ph: Phase, onResc: seq<nat>, killed: seq<Resource>,
                       ghost groups: seq<seq<Resource>>, ghost discs: seq<seq<Disc>>)
      returns (ghost ph': Phase, onResc': seq<nat>, killed': seq<Resource>,
               ghost groups': seq<seq<Resource>>, ghost discs': seq<seq<Disc>>)
      requires k < |contacts| && |views| == |contacts| && ContactsIn(views, |agents0|)
      requires forall l :: 0 <= l < |contacts| ==> views[l].onPatch == contacts[l].onPatch
      requires forall l, m :: 0 <= l < m < |contacts| ==> contacts[l].patch != contacts[m].patch
      requires PhaseReached(contacts, views, agents0, collided, k, ph)
      requires onResc == ph.onResc && killed == Killed(contacts[..k], ph.destroyed)
      requires LiveAfter(before, killed) && NewSince(before) && StillLive(contacts, k)
      requires ChainAt(groups, discs, contacts, ph.destroyed, regen, before, dbefore)
      requires contacts[k].patch in before
      modifies this`agents, this`resources, contacts[k].patch`rescLeft
      ensures PhaseReached(contacts, views, agents0, collided, k + 1, ph')
      ensures onResc' == ph'.onResc && killed' == Killed(contacts[..k + 1], ph'.destroyed)
      ensures ChainAt(groups', discs', contacts, ph'.destroyed, regen, before, dbefore)
      ensures LiveAfter(before, killed') && NewSince(before) && StillLive(contacts, k + 1)
      ensures forall q :: q in resources ==> q in old(resources) || fresh(q)
    {
      ghost var now := Views(contacts);
      assert |ph.destroyed| == k;
      var destroy, visited;
      destroy, visited, groups', discs' := ExploitEntry(contacts, k, collided, regen, before, killed, dbefore, ph.destroyed, groups, discs);
      ghost var s := PatchPass(ph.agents, views[k].patch, views[k].onPatch, collided, teleportExploit);
      ph' := Phase(agents, ph.onResc + visited, ph.lefts + [contacts[k].patch.rescLeft], ph.destroyed + [destroy]);
      ReachedSnoc(now, Views(contacts), views, agents0, collided, k, ph, s, ph', teleportExploit);
      KilledSnoc(contacts, ph.destroyed, k, destroy);
      onResc' := onResc + visited;
      killed' := if destroy then killed + [contacts[k].patch] else killed;
    }

    /** The loop at sims.py:343-364: each patch's agents in turn, then the patch is killed
        (and, with regeneration, replaced using `regen[k]`) if it was exhausted. */
    method ExploitPatches(contacts: seq<PatchContact>, collided: seq<Appended>, regen: seq<seq<PatchDraw>>)
      returns (onResc: seq<nat>, killed: seq<Resource>, ghost ph: Phase,
               ghost groups: seq<seq<Resource>>, ghost discs: seq<seq<Disc>>)
      requires Valid() && ContactsLive(contacts)
      modifies this`agents, this`resources, Patches(contacts)`rescLeft
      ensures ContactsIn(old(Views(contacts)), |old(agents)|)
      ensures ph == ResourcePhase(old(agents), old(Views(contacts)), collided, teleportExploit)
      ensures agents == ph.agents && onResc == ph.onResc && killed == Killed(contacts, ph.destroyed)
      ensures forall k :: 0 <= k < |contacts| ==> contacts[k].patch.rescLeft == ph.lefts[k]
      ensures ChainAt(groups, discs, contacts, ph.destroyed, regen, old(resources), old(Discs(resources)))
      ensures LiveAfter(old(resources), killed) && NewSince(old(resources))
      ensures forall q :: q in resources ==> q in old(resources) || fresh(q)
    {
      ghost var agents0 := agents;
      ghost var views := Views(contacts);
      ph := Phase(agents, [], [], []);
      onResc := [];
      killed := [];
      groups := [resources];
      discs := [Discs(resources)];
      for k := 0 to |contacts|
        invariant LiveAfter(old(resources), killed) && NewSince(old(resources)) && StillLive(contacts, k)
        invariant forall q :: q in resources ==> q in old(resources) || fresh(q)
        invariant PhaseReached(contacts, views, agents0, collided, k, ph)
        invariant onResc == ph.onResc
        invariant killed == Killed(contacts[..k], ph.destroyed)
        invariant ChainAt(groups, discs, contacts, ph.destroyed, regen, old(resources), old(Discs(resources)))
      {
        assert contacts[k].patch in Patches(contacts);
        ph, onResc, killed, groups, discs :=
          ExploitStep(contacts, collided, regen, k, views, agents0, old(resources), old(Discs(resources)), ph, onResc, killed, groups, discs);
      }
      assert views[..|contacts|] == views;
      assert contacts[..|contacts|] == contacts;
    }

    /** The loop at sims.py:366-374. */
    method SignalNoResource(onResc: seq<nat>, collided: seq<Appended>)
      modifies this`agents
      ensures agents == Signalled(old(agents), onResc, collided)
    {
      for i := 0 to |agents|
        invariant |agents| == |old(agents)|
        invariant forall j :: 0 <= j < i ==> agents[j] == Signalled(old(agents), onResc, collided)[j]
        invariant forall j :: i <= j < |agents| ==> agents[j] == old(agents)[j]
      {
        if i !in onResc {
          if AgentEntry(i) !in collided {
            if PoolingDone(agents[i]) {
              agents := agents[i := agents[i].(poolSuccess := false, envStatus := -1)];
            } else if agents[i].mode == Exploit {
              agents := agents[i := agents[i].(poolSuccess := false, envStatus := -1)];
            }
          }
        }
      }
    }

    /** `self.rescources.update()`: patch `k` of the group turns by the draw `turn(k)`. */
    method UpdateResources(turn: nat -> real, cos: real -> real, sin: real -> real)
      requires Valid()
      modifies resources`x, resources`y, resources`cx, resources`cy, resources`velocity, resources`orientation
      ensures forall k :: 0 <= k < |resources| ==>
        var r := resources[k];
        r.Drifted(old(r.State()), turn(k), cos, sin) && r.rescLeft == old(r.rescLeft)
    {
      IdsIncreasingDistinct(resources);
      ghost var before := States(resources);
      for k := 0 to |resources|
        invariant forall l :: 0 <= l < k ==> resources[l].Drifted(before[l], turn(l), cos, sin)
        invariant forall l :: k <= l < |resources| ==> resources[l].State() == before[l]
      {
        UpdateOne(resources[k], k, turn(k), cos, sin);
      }
    }

    /** The update of patch `k` alone: no other patch of the group moves. */
    method UpdateOne(r: Resource, k: nat, turn: real, cos: real -> real, sin: real -> real)
      requires k < |resources| && r == resources[k] && Distinct(resources)
      modifies r`x, r`y, r`cx, r`cy, r`velocity, r`orientation
      ensures r.Drifted(old(r.State()), turn, cos, sin)
      ensures forall l :: 0 <= l < |resources| && l != k ==> resources[l].State() == old(resources[l].State())
    {
      r.Update(turn, cos, sin);
    }

    /** What the agent part of a tick leaves behind, given the agents `agents0`, the
        dictionary `views0` as the tick saw it and the live group `res0` at the start: the
        agents `agents1` are `TickAgents`; `collided_agents` is that of the collision pass;
        `ph` is the resource pass, whose list of agents on patches and killed patches the
        report holds; the live group went from `res0` (with discs `discs0`) through the rounds
        `groups` (with discs `discs`) of `KillChain`, one per dictionary entry, each killed
        patch replaced at most once from its entry's draws in `regen`, and its last group
        lost exactly the killed patches. */
    ghost predicate Interacted(report: TickReport, pairs: seq<CollisionPair>, contacts: seq<PatchContact>,
                               agents0: seq<Agent>, views0: seq<Contact>, res0: seq<Resource>, discs0: seq<Disc>,
                               regen: seq<seq<PatchDraw>>, groups: seq<seq<Resource>>, discs: seq<seq<Disc>>,
                               ph: Phase, agents1: seq<Agent>)
    {
      && PairsIn(pairs, |agents0|) && ContactsIn(views0, |agents0|) && |views0| == |contacts|
      && var c := CollisionPass(agents0, pairs, teleportExploit);
         && ph == ResourcePhase(Demoted(c.agents, c.collided), views0, c.collided, teleportExploit)
         && agents1 == TickAgents(agents0, pairs, views0, teleportExploit)
         && report.collided == c.collided
         && report.onResc == ph.onResc
         && report.killed == Killed(contacts, ph.destroyed)
         && KillChain(groups, discs, contacts, ph.destroyed, regen)
         && groups[0] == res0 && discs[0] == discs0
         && LiveFrom(groups[|groups| - 1], res0, report.killed)
    }

    /** `Interacted` from the results of the collision pass, the resource loop and the
        signal loop, with no reference to the heap. */
    lemma InteractedFrom(report: TickReport, pairs: seq<CollisionPair>, contacts: seq<PatchContact>,
                         agents0: seq<Agent>, views: seq<Contact>, res0: seq<Resource>, dres0: seq<Disc>,
                         regen: seq<seq<PatchDraw>>, groups: seq<seq<Resource>>, discs: seq<seq<Disc>>,
                         ph: Phase, agents1: seq<Agent>, demoted: seq<Agent>)
      requires PairsIn(pairs, |agents0|) && |views| == |contacts| && ContactsIn(views, |demoted|)
      requires var c := CollisionPass(agents0, pairs, teleportExploit);
        demoted == Demoted(c.agents, c.collided) && report.collided == c.collided
      requires ph == ResourcePhase(demoted, views, report.collided, teleportExploit)
      requires agents1 == Signalled(ph.agents, ph.onResc, report.collided)
      requires report.onResc == ph.onResc && report.killed == Killed(contacts, ph.destroyed)
      requires KillChain(groups, discs, contacts, ph.destroyed, regen) && groups[0] == res0 && discs[0] == dres0
      requires LiveFrom(groups[|groups| - 1], res0, report.killed)
      ensures Interacted(report, pairs, contacts, agents0, views, res0, dres0, regen, groups, discs, ph, agents1)
    {
    }

    /** The agent part of one unpaused tick (sims.py:313-374): collisions, demotion,
        depletion and kills, and the "no resource here" signal. Patches placed during the
        tick are new, at rest and full. */
    method Interact(pairs: seq<CollisionPair>, contacts: seq<PatchContact>, regen: seq<seq<PatchDraw>>)
      returns (report: TickReport, ghost groups: seq<seq<Resource>>, ghost discs: seq<seq<Disc>>, ghost ph: Phase)
      requires Valid() && PairsIn(pairs, |agents|) && ContactsLive(contacts)
      modifies this`agents, this`resources, Patches(contacts)`rescLeft
      ensures Valid()
      ensures Interacted(report, pairs, contacts, old(agents), old(Views(contacts)), old(resources),
                         old(Discs(resources)), regen, groups, discs, ph, agents)
      ensures resources == groups[|groups| - 1]
      ensures forall k :: 0 <= k < |contacts| ==> contacts[k].patch.rescLeft == ph.lefts[k]
      ensures discs[|discs| - 1] == Discs(resources)
      ensures forall k :: 0 <= k < |resources| ==> resources[k] in old(resources) || (fresh(resources[k]) && NewPatch(resources[k]))
      ensures forall q :: q in old(resources) ==> q.State() == old(q.State())
    {
      report, groups, discs, ph := CollideAndExploit(pairs, contacts, regen);
    }

    /** `Interact` but for the patches' kinematic states, which it leaves as they were. */
    method CollideAndExploit(pairs: seq<CollisionPair>, contacts: seq<PatchContact>, regen: seq<seq<PatchDraw>>)
      returns (report: TickReport, ghost groups: seq<seq<Resource>>, ghost discs: seq<seq<Disc>>, ghost ph: Phase)
      requires Valid() && PairsIn(pairs, |agents|) && ContactsLive(contacts)
      modifies this`agents, this`resources, Patches(contacts)`rescLeft
      ensures Valid()
      ensures Interacted(report, pairs, contacts, old(agents), old(Views(contacts)), old(resources),
                         old(Discs(resources)), regen, groups, discs, ph, agents)
      ensures resources == groups[|groups| - 1]
      ensures forall k :: 0 <= k < |contacts| ==> contacts[k].patch.rescLeft == ph.lefts[k]
      ensures discs[|discs| - 1] == Discs(resources)
      ensures forall k :: 0 <= k < |resources| ==> resources[k] in old(resources) || (fresh(resources[k]) && NewPatch(resources[k]))
    {
      ghost var views := Views(contacts);
      var collided := CollideAndDemote(pairs);
      assert Views(contacts) == views;
      report, groups, discs, ph := Resolve(pairs, contacts, regen, collided, old(agents), views);
    }

    /** The part of `Interact` after the collisions (sims.py:343-374): depletion and kills,
        then the "no resource here" signal, on the agents the collision pass and the
        demotion left. */
    method Resolve(pairs: seq<CollisionPair>, contacts: seq<PatchContact>, regen: seq<seq<PatchDraw>>,
                   collided: seq<Appended>, ghost agents0: seq<Agent>, ghost views: seq<Contact>)
      returns (report: TickReport, ghost groups: seq<seq<Resource>>, ghost discs: seq<seq<Disc>>, ghost ph: Phase)
      requires Valid() && PairsIn(pairs, |agents0|) && ContactsLive(contacts) && views == Views(contacts)
      requires var c := CollisionPass(agents0, pairs, teleportExploit);
        collided == c.collided && agents == Demoted(c.agents, c.collided)
      modifies this`agents, this`resources, Patches(contacts)`rescLeft
      ensures Valid()
      ensures Interacted(report, pairs, contacts, agents0, views, old(resources), old(Discs(resources)), regen, groups, discs, ph, agents)
      ensures resources == groups[|groups| - 1]
      ensures forall k :: 0 <= k < |contacts| ==> contacts[k].patch.rescLeft == ph.lefts[k]
      ensures discs[|discs| - 1] == Discs(resources)
      ensures forall k :: 0 <= k < |resources| ==> resources[k] in old(resources) || (fresh(resources[k]) && NewPatch(resources[k]))
    {
      ghost var demoted := agents;
      var onResc, killed;
      onResc, killed, ph, groups, discs := ExploitPatches(contacts, collided, regen);
      SignalNoResource(onResc, collided);
      report := TickReport(collided, onResc, killed);
      InteractedFrom(report, pairs, contacts, agents0, views, old(resources), old(Discs(resources)), regen,
                     groups, discs, ph, agents, demoted);
    }

    /** One unpaused tick (sims.py:303-383): `Interact`, then every patch of the group, the
        ones regenerated during the tick included, drifts from its state `mid` after the
        interaction, and `t` advances. The agents' own update that follows the patch drift is
        not part of this model. */
    method Step(pairs: seq<CollisionPair>, contacts: seq<PatchContact>, regen: seq<seq<PatchDraw>>,
                turn: nat -> real, cos: real -> real, sin: real -> real)
      returns (report: TickReport, ghost groups: seq<seq<Resource>>, ghost discs: seq<seq<Disc>>, ghost ph: Phase,
               ghost mid: seq<Kinematics>)
      requires Valid() && PairsIn(pairs, |agents|) && ContactsLive(contacts)
      modifies this, resources
      ensures Valid()
      ensures t == old(t) + 1
      ensures Interacted(report, pairs, contacts, old(agents), old(Views(contacts)), old(resources),
                         old(Discs(resources)), regen, groups, discs, ph, agents)
      ensures resources == groups[|groups| - 1]
      ensures forall k :: 0 <= k < |contacts| ==> contacts[k].patch.rescLeft == ph.lefts[k]
      ensures forall q :: q in old(resources) && q !in Patches(contacts) ==> q.rescLeft == old(q.rescLeft)
      ensures |mid| == |resources| && |discs[|discs| - 1]| == |resources|
      ensures forall k :: 0 <= k < |resources| ==>
        discs[|discs| - 1][k] == Disc(mid[k].cx, mid[k].cy, resources[k].radius)
      ensures forall k :: 0 <= k < |resources| ==> resources[k].Drifted(mid[k], turn(k), cos, sin)
      ensures forall k :: 0 <= k < |resources| && resources[k] in old(resources) ==>
        var r := resources[k];
        mid[k] == old(r.State())
      ensures forall k :: 0 <= k < |resources| && resources[k] !in old(resources) ==>
        && fresh(resources[k])
        && AtRest(mid[k], resources[k].radius)
        && resources[k].rescLeft == resources[k].rescUnits
    {
      PatchesWithin(contacts, resources);
      report, groups, discs, ph := Interact(pairs, contacts, regen);
      mid := Drift(turn, cos, sin, discs[|discs| - 1], old(resources));
    }

    /** The end of the tick (sims.py:378 and sims.py:383): every patch of the group drifts
        from its state `mid` before the update, and `t` advances. */
    method Drift(turn: nat -> real, cos: real -> real, sin: real -> real, ghost live: seq<Disc>, ghost res0: seq<Resource>)
      returns (ghost mid: seq<Kinematics>)
      requires Valid() && live == Discs(resources)
      requires forall q :: q in resources ==> q in res0 || NewPatch(q)
      modifies this`t, resources`x, resources`y, resources`cx, resources`cy, resources`velocity, resources`orientation
      ensures Valid() && t == old(t) + 1 && agents == old(agents) && resources == old(resources)
      ensures forall q :: q in res0 ==> q.rescLeft == old(q.rescLeft)
      ensures |mid| == |resources|
      ensures forall k :: 0 <= k < |resources| ==> mid[k] == old(resources[k].State())
      ensures forall k :: 0 <= k < |resources| ==> live[k] == Disc(mid[k].cx, mid[k].cy, resources[k].radius)
      ensures forall k :: 0 <= k < |resources| && resources[k] !in res0 ==>
        AtRest(mid[k], resources[k].radius) && resources[k].rescLeft == resources[k].rescUnits
      ensures forall k :: 0 <= k < |resources| ==> resources[k].Drifted(mid[k], turn(k), cos, sin)
    {
      mid := MovePatches(turn, cos, sin, live, res0);
      t := t + 1;
    }

    /** The patch part of `Drift`: every patch drifts from its snapshot state `mid`. */
    method MovePatches(turn: nat -> real, cos: real -> real, sin: real -> real, ghost live: seq<Disc>, ghost res0: seq<Resource>)
      returns (ghost mid: seq<Kinematics>)
      requires Valid() && live == Discs(resources)
      requires forall q :: q in resources ==> q in res0 || NewPatch(q)
      modifies resources`x, resources`y, resources`cx, resources`cy, resources`velocity, resources`orientation
      ensures |mid| == |resources|
      ensures forall k :: 0 <= k < |resources| ==> mid[k] == old(resources[k].State())
      ensures forall k :: 0 <= k < |resources| ==> live[k] == Disc(mid[k].cx, mid[k].cy, resources[k].radius)
      ensures forall k :: 0 <= k < |resources| && resources[k] !in res0 ==>
        AtRest(mid[k], resources[k].radius) && resources[k].rescLeft == resources[k].rescUnits
      ensures forall k :: 0 <= k < |resources| ==> resources[k].Drifted(mid[k], turn(k), cos, sin)
    {
      mid := States(resources);
      SnapshotDiscs(resources, live, mid);
      SnapshotNew(resources, res0, mid);
      UpdateResources(turn, cos, sin);
    }

    /** `create_agents`: agent `i` gets id `i`, the `i`-th drawn position and the
        simulation's radius, pooling time and consumption. */
    method CreateAgents(positions: seq<(int, int)>)
      requires |positions| == nAgents
      modifies this`agents
      ensures |agents| == |old(agents)| + nAgents && agents[..|old(agents)|] == old(agents)
      ensures forall i :: 0 <= i < nAgents ==>
        agents[|old(agents)| + i] ==
          Spawned(i, positions[i].0 as real, positions[i].1 as real, agentRadius, poolingTime, agentConsumption)
    {
      for i := 0 to nAgents
        invariant |agents| == |old(agents)| + i && agents[..|old(agents)|] == old(agents)
        invariant forall j :: 0 <= j < i ==>
          agents[|old(agents)| + j] ==
            Spawned(j, positions[j].0 as real, positions[j].1 as real, agentRadius, poolingTime, agentConsumption)
      {
        var (x, y) := positions[i];
        agents := agents + [Spawned(i, x as real, y as real, agentRadius, poolingTime, agentConsumption)];
      }
    }

    /** One round of `create_resources`: the group `after` is `before` with the patch of the
        first fitting draw appended (with the next id), or `before` itself if none fits. */
    ghost predicate PlacedRound(before: seq<Resource>, after: seq<Resource>, ds: seq<PatchDraw>)
      reads before, after
    {
      var k := FirstFit(ds, rescRadius, Discs(before));
      if k < |ds| then
        && |after| == |before| + 1 && after[..|before|] == before
        && Drawn(after[|before|], ds[k], MaxId(before) + 1)
      else after == before
    }

    /** Each consecutive pair of `groups` is one round of `create_resources` with its draws;
        every group is a prefix of the last one. */
    ghost predicate Rounds(groups: seq<seq<Resource>>, draws: seq<seq<PatchDraw>>)
      reads if groups == [] then [] else groups[|groups| - 1]
    {
      && |groups| <= |draws| + 1
      && (forall j :: 0 <= j < |groups| ==> groups[j] <= groups[|groups| - 1])
      && forall j :: 0 <= j < |groups| - 1 ==> PlacedRound(groups[j], groups[j + 1], draws[j])
    }

    /** One more round extends the recorded rounds. */
    lemma RoundsSnoc(groups: seq<seq<Resource>>, draws: seq<seq<PatchDraw>>, after: seq<Resource>)
      requires Rounds(groups, draws) && 0 < |groups| <= |draws|
      requires PlacedRound(groups[|groups| - 1], after, draws[|groups| - 1])
      ensures Rounds(groups + [after], draws)
    {
      var g := groups + [after];
      var last := groups[|groups| - 1];
      assert last <= after;
      forall j | 0 <= j < |g|
        ensures g[j] <= after
      {
        if j < |groups| {
          assert g[j] == groups[j] <= last;
        }
      }
      forall j | 0 <= j < |g| - 1
        ensures PlacedRound(g[j], g[j + 1], draws[j])
      {
        if j < |groups| - 1 {
          assert g[j] == groups[j] && g[j + 1] == groups[j + 1];
        }
      }
    }

    /** `create_resources`: `add_new_resource_patch` once per configured patch. Round `i`
        turns `groups[i]` into `groups[i + 1]`; when every round has a fitting draw, exactly
        `N_resc` patches are placed. */
    method CreateResources(draws: seq<seq<PatchDraw>>) returns (placed: nat, ghost groups: seq<seq<Resource>>)
      requires Valid() && |draws| == nResc
      modifies this`resources
      ensures Valid()
      ensures |groups| == nResc + 1 && groups[0] == old(resources) && groups[nResc] == resources
      ensures forall i :: 0 <= i < nResc ==> PlacedRound(groups[i], groups[i + 1], draws[i])
      ensures placed <= nResc && |resources| == |old(resources)| + placed
      ensures (forall i :: 0 <= i < nResc ==> FirstFit(draws[i], rescRadius, Discs(groups[i])) < |draws[i]|) ==> placed == nResc
      ensures resources[..|old(resources)|] == old(resources)
      ensures forall q :: q in resources ==> q in old(resources) || (fresh(q) && NewPatch(q))
    {
      placed := 0;
      groups := [resources];
      for i := 0 to nResc
        invariant Valid()
        invariant |groups| == i + 1 && groups[0] == old(resources) && groups[i] == resources
        invariant Rounds(groups, draws)
        invariant placed <= i && |resources| == |old(resources)| + placed
        invariant (forall j :: 0 <= j < i ==> |groups[j + 1]| == |groups[j]| + 1) ==> placed == i
        invariant resources[..|old(resources)|] == old(resources)
        invariant forall q :: q in resources ==> q in old(resources) || (fresh(q) && NewPatch(q))
      {
        var ok := PlaceRound(draws, i, groups);
        if ok {
          placed := placed + 1;
        }
        ghost var prev := groups;
        groups := groups + [resources];
        if forall j :: 0 <= j < i + 1 ==> |groups[j + 1]| == |groups[j]| + 1 {
          assert groups[..i + 1] == prev;
          assert |groups[i + 1]| == |groups[i]| + 1;
        }
      }
    }

    /** One round of `create_resources`, recorded after the rounds `groups` before it. */
    method PlaceRound(draws: seq<seq<PatchDraw>>, i: nat, ghost groups: seq<seq<Resource>>) returns (ok: bool)
      requires Valid() && Rounds(groups, draws)
      requires i < |draws| && |groups| == i + 1 && groups[i] == resources
      modifies this`resources
      ensures Valid() && Rounds(groups + [resources], draws)
      ensures ok <==> |resources| == |old(resources)| + 1
      ensures !ok ==> resources == old(resources)
      ensures resources[..|old(resources)|] == old(resources)
      ensures forall q :: q in resources ==> q in old(resources) || (fresh(q) && NewPatch(q))
    {
      ghost var before := resources;
      ghost var k := FirstFit(draws[i], rescRadius, Discs(resources));
      ok := AddNewResourcePatch(draws[i]);
      assert FirstFit(draws[i], rescRadius, Discs(before)) == k;
      assert PlacedRound(before, resources, draws[i]);
      RoundsSnoc(groups, draws, resources);
    }
  }
}
