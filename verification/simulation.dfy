/**
  The game state as far as the physics is concerned: the body list and the list
  of unique pairs.
  `AddBody` grows both lists; `Step` is the physics part of one frame: zero all
  forces, apply gravity once per pair, then move every body.
*/
module Simulation {
  import opened Bodies
  import opened Pairs
  import opened Interactions

  datatype Game = Game(bodies: seq<Body>, pairs: seq<Pair>)

  /** Radius and mass of a body placed with the mouse; it starts at rest. */
  const ClickRadius: real := 5.0
  const ClickMass: real := 0.1

  /** The game `main` starts with: no bodies and no pairs. */
  function NewGame(): (g: Game)
    ensures |g.bodies| == 0 && |g.pairs| == 0
  {
    Game([], [])
  }

  /**
    A new body at world position (x, y), at rest, paired with every body that
    was already there. The new body gets index n = |g.bodies| and its pairs are
    (0, n), ..., (n - 1, n), appended after the existing ones.
  */
  function AddBody(g: Game, x: int, y: int): (g': Game)
    ensures |g'.bodies| == |g.bodies| + 1 && g'.bodies[..|g.bodies|] == g.bodies
    ensures var b := g'.bodies[|g.bodies|];
      b.Position() == Point(x as real, y as real)
      && b.r == ClickRadius && b.m == ClickMass
      && b.Velocity() == Zero && b.Force() == Zero
    ensures |g'.pairs| == |g.pairs| + |g.bodies| && g'.pairs[..|g.pairs|] == g.pairs
    ensures forall l :: 0 <= l < |g.bodies| ==> g'.pairs[|g.pairs| + l] == Pair(l, |g.bodies|)
  {
    var bodies := g.bodies + [NewBody(x as real, y as real, ClickRadius, ClickMass, 0.0, 0.0)];
    var n := |bodies|;
    var pairs := if n >= 2 then g.pairs + Fan(n - 1, n - 1) else g.pairs;
    Game(bodies, pairs)
  }

  /** `addBody` with its pairing loop written out. */
  method AddBodyLoop(g: Game, x: int, y: int) returns (g': Game)
    ensures |g'.bodies| == |g.bodies| + 1 && g'.bodies[..|g.bodies|] == g.bodies
    ensures |g'.pairs| == |g.pairs| + |g.bodies| && g'.pairs[..|g.pairs|] == g.pairs
    ensures forall l :: 0 <= l < |g.bodies| ==> g'.pairs[|g.pairs| + l] == Pair(l, |g.bodies|)
    ensures g' == AddBody(g, x, y)
  {
    var bodies := g.bodies + [NewBody(x as real, y as real, ClickRadius, ClickMass, 0.0, 0.0)];
    var pairs := g.pairs;
    if |bodies| >= 2 {
      var i := 0;
      while i < |bodies| - 1
        invariant 0 <= i <= |bodies| - 1
        invariant pairs == g.pairs + Fan(i, |bodies| - 1)
      {
        pairs := pairs + [Pair(i, |bodies| - 1)];
        i := i + 1;
      }
    }
    g' := Game(bodies, pairs);
  }

  /** Bodies added by successive clicks, in order. */
  function Clicks(g: Game, cs: seq<(int, int)>): (g': Game)
    ensures |g'.bodies| == |g.bodies| + |cs| && g'.bodies[..|g.bodies|] == g.bodies
    ensures |g'.pairs| >= |g.pairs| && g'.pairs[..|g.pairs|] == g.pairs
    decreases |cs|
  {
    if |cs| == 0 then g
    else
      var last := cs[|cs| - 1];
      AddBody(Clicks(g, cs[..|cs| - 1]), last.0, last.1)
  }

  /** Every body with its force set to zero. */
  function ZeroForces(bs: seq<Body>): (z: seq<Body>)
    ensures SameKinematics(bs, z)
    ensures forall k :: 0 <= k < |z| ==> z[k].Force() == Zero
  {
    seq(|bs|, k requires 0 <= k < |bs| => ZeroForce(bs[k]))
  }

  /** Every body moved by `Update`. */
  function UpdateAll(bs: seq<Body>): (u: seq<Body>)
    ensures |u| == |bs|
    ensures forall k :: 0 <= k < |bs| ==> u[k] == Update(bs[k])
  {
    seq(|bs|, k requires 0 <= k < |bs| => Update(bs[k]))
  }

  /**
    The physics of one frame. Each body ends with the force the pair list exerts
    on it (whatever force it had before), its velocity grows by that force, and
    it moves by its new velocity; radius, mass and pairs are kept.
  */
  function Step(g: Game): (g': Game)
    requires Separated(g.bodies, g.pairs)
    ensures g'.pairs == g.pairs && |g'.bodies| == |g.bodies|
    ensures forall k :: 0 <= k < |g.bodies| ==>
      var b, b' := g.bodies[k], g'.bodies[k];
      b'.Force() == NetForce(g.bodies, g.pairs, k)
      && b'.Velocity() == Add(b.Velocity(), b'.Force())
      && b'.Position() == Add(b.Position(), b'.Velocity())
      && b'.r == b.r && b'.m == b.m
  {
    var z := ZeroForces(g.bodies);
    NetForceOfZeroed(g.bodies, g.pairs);
    g.(bodies := UpdateAll(Accumulate(z, g.pairs)))
  }

  /** The first loop of the physics part of `Update`: zero every force. */
  method ZeroForcesLoop(bs: seq<Body>) returns (z: seq<Body>)
    ensures SameKinematics(bs, z)
    ensures forall k :: 0 <= k < |z| ==> z[k].Force() == Zero
    ensures z == ZeroForces(bs)
  {
    z := bs;
    var i := 0;
    while i < |z|
      invariant 0 <= i <= |z| == |bs|
      invariant forall k :: 0 <= k < i ==> z[k] == ZeroForce(bs[k])
      invariant forall k :: i <= k < |z| ==> z[k] == bs[k]
    {
      z := z[i := ZeroForce(z[i])];
      i := i + 1;
    }
  }

  /** The second loop: `ApplyGravity` for each pair, in list order. */
  method AccumulateLoop(bs: seq<Body>, ps: seq<Pair>) returns (r: seq<Body>)
    requires Separated(bs, ps)
    ensures SameKinematics(bs, r)
    ensures forall k :: 0 <= k < |bs| ==> r[k].Force() == Add(bs[k].Force(), NetForce(bs, ps, k))
    ensures r == Accumulate(bs, ps)
  {
    r := bs;
    var i := 0;
    while i < |ps|
      invariant 0 <= i <= |ps|
      invariant Separated(bs, ps[..i])
      invariant r == Accumulate(bs, ps[..i])
    {
      PrefixSeparated(bs, ps, i + 1);
      assert ps[..i + 1][..i] == ps[..i];
      PullIgnoresForce(bs, r, ps[i]);
      r := ApplyGravityAt(r, ps[i]);
      i := i + 1;
    }
    assert ps[..|ps|] == ps;
  }

  /** The third loop: move every body. */
  method UpdateAllLoop(bs: seq<Body>) returns (u: seq<Body>)
    ensures |u| == |bs|
    ensures forall k :: 0 <= k < |bs| ==> u[k].Velocity() == Add(bs[k].Velocity(), bs[k].Force())
    ensures u == UpdateAll(bs)
  {
    u := bs;
    var i := 0;
    while i < |u|
      invariant 0 <= i <= |u| == |bs|
      invariant forall k :: 0 <= k < i ==> u[k] == Update(bs[k])
      invariant forall k :: i <= k < |u| ==> u[k] == bs[k]
    {
      u := u[i := Update(u[i])];
      i := i + 1;
    }
  }

  /** The physics part of `Update` with its three loops written out. */
  method StepLoop(g: Game) returns (g': Game)
    requires Separated(g.bodies, g.pairs)
    ensures g'.pairs == g.pairs && |g'.bodies| == |g.bodies|
    ensures forall k :: 0 <= k < |g.bodies| ==>
      g'.bodies[k].Velocity() == Add(g.bodies[k].Velocity(), NetForce(g.bodies, g.pairs, k))
    ensures g' == Step(g)
  {
    var z := ZeroForcesLoop(g.bodies);
    NetForceOfZeroed(g.bodies, g.pairs);
    var acc := AccumulateLoop(z, g.pairs);
    var bs := UpdateAllLoop(acc);
    g' := g.(bodies := bs);
  }

  function Velocities(bs: seq<Body>): (vs: seq<Point>)
    ensures |vs| == |bs| && forall k :: 0 <= k < |bs| ==> vs[k] == bs[k].Velocity()
  {
    seq(|bs|, k requires 0 <= k < |bs| => bs[k].Velocity())
  }

  function Positions(bs: seq<Body>): (ps: seq<Point>)
    ensures |ps| == |bs| && forall k :: 0 <= k < |bs| ==> ps[k] == bs[k].Position()
  {
    seq(|bs|, k requires 0 <= k < |bs| => bs[k].Position())
  }

  /** The game can be stepped n times: every frame on the way has gravity defined for all its pairs. */
  predicate SteppableFor(g: Game, n: nat)
    decreases n
  {
    n == 0 || (Separated(g.bodies, g.pairs) && SteppableFor(Step(g), n - 1))
  }

  /** n frames in a row. */
  function Steps(g: Game, n: nat): (g': Game)
    requires SteppableFor(g, n)
    ensures g'.pairs == g.pairs && |g'.bodies| == |g.bodies|
    ensures forall k :: 0 <= k < |g.bodies| ==> g'.bodies[k].r == g.bodies[k].r && g'.bodies[k].m == g.bodies[k].m
    decreases n
  {
    if n == 0 then g else Steps(Step(g), n - 1)
  }

  // ---------------------------------------------------------------------------
  // Properties
  // ---------------------------------------------------------------------------

  /** Zeroing the forces first changes neither which pairs are defined nor their net forces. */
  lemma NetForceOfZeroed(bs: seq<Body>, ps: seq<Pair>)
    requires Separated(bs, ps)
    ensures Separated(ZeroForces(bs), ps)
    ensures forall k: nat :: NetForce(ZeroForces(bs), ps, k) == NetForce(bs, ps, k)
  {
    SeparatedIgnoresForce(bs, ZeroForces(bs), ps);
    forall k: nat
      ensures NetForce(ZeroForces(bs), ps, k) == NetForce(bs, ps, k)
    {
      NetForceIgnoresForce(bs, ZeroForces(bs), ps, k);
    }
  }

  /** Adding a body keeps the pair list exactly the set of unique pairs, one per pair of bodies. */
  lemma AddBodyKeepsWellPaired(g: Game, x: int, y: int)
    requires WellPaired(|g.bodies|, g.pairs)
    requires |g.pairs| == Triangular(|g.bodies|)
    ensures WellPaired(|AddBody(g, x, y).bodies|, AddBody(g, x, y).pairs)
    ensures |AddBody(g, x, y).pairs| == Triangular(|AddBody(g, x, y).bodies|)
  {
    var n := |g.bodies|;
    AddBodyPairs(g, x, y);
    AppendFanKeepsWellPaired(n, g.pairs);
  }

  /** The pairs `AddBody` appends are the fan of the new body, also for the first body. */
  lemma AddBodyPairs(g: Game, x: int, y: int)
    ensures |AddBody(g, x, y).bodies| == |g.bodies| + 1
    ensures AddBody(g, x, y).pairs == g.pairs + Fan(|g.bodies|, |g.bodies|)
  {
    if |g.bodies| == 0 {
      assert g.pairs + Fan(0, 0) == g.pairs;
    }
  }

  /** Every game built by clicking from the initial game holds each unordered pair of bodies exactly once. */
  lemma {:induction false} ClicksWellPaired(cs: seq<(int, int)>)
    ensures WellPaired(|cs|, Clicks(NewGame(), cs).pairs)
    ensures |Clicks(NewGame(), cs).pairs| == Triangular(|cs|)
    decreases |cs|
  {
    if |cs| > 0 {
      var last := cs[|cs| - 1];
      ClicksWellPaired(cs[..|cs| - 1]);
      AddBodyKeepsWellPaired(Clicks(NewGame(), cs[..|cs| - 1]), last.0, last.1);
    }
  }

  /** n clicks make n * (n - 1) / 2 pairs. */
  lemma ClicksPairCount(cs: seq<(int, int)>)
    ensures |Clicks(NewGame(), cs).pairs| == |cs| * (|cs| - 1) / 2
  {
    ClicksWellPaired(cs);
    TriangularClosedForm(|cs|);
  }

  /** The k-th click puts the k-th body, at rest, at the clicked position. */
  lemma {:induction false} ClickBody(cs: seq<(int, int)>, k: nat)
    requires k < |cs|
    ensures Clicks(NewGame(), cs).bodies[k]
         == NewBody(cs[k].0 as real, cs[k].1 as real, ClickRadius, ClickMass, 0.0, 0.0)
    decreases |cs|
  {
    if k < |cs| - 1 {
      ClickBody(cs[..|cs| - 1], k);
      assert cs[..|cs| - 1][k] == cs[k];
    }
  }

  /** Bodies placed by two clicks share a center exactly when the clicks hit the same point. */
  lemma ClickCenters(c: (int, int), d: (int, int))
    ensures Center(NewBody(c.0 as real, c.1 as real, ClickRadius, ClickMass, 0.0, 0.0))
         == Center(NewBody(d.0 as real, d.1 as real, ClickRadius, ClickMass, 0.0, 0.0))
        <==> c == d
  {
  }

  /**
    A game built by clicking can be stepped exactly when no two clicks hit the
    same point: two bodies placed at one point share a center, and the force
    law then divides by a zero distance.
  */
  lemma ClicksSeparated(cs: seq<(int, int)>)
    ensures Separated(Clicks(NewGame(), cs).bodies, Clicks(NewGame(), cs).pairs)
        <==> forall i, j :: 0 <= i < j < |cs| ==> cs[i] != cs[j]
  {
    if forall i, j :: 0 <= i < j < |cs| ==> cs[i] != cs[j] {
      DistinctClicksSeparated(cs);
    }
    if exists i, j :: 0 <= i < j < |cs| && cs[i] == cs[j] {
      var i, j :| 0 <= i < j < |cs| && cs[i] == cs[j];
      SameClicksNotSeparated(cs, i, j);
    }
  }

  lemma DistinctClicksSeparated(cs: seq<(int, int)>)
    requires forall i, j :: 0 <= i < j < |cs| ==> cs[i] != cs[j]
    ensures Separated(Clicks(NewGame(), cs).bodies, Clicks(NewGame(), cs).pairs)
  {
    var g := Clicks(NewGame(), cs);
    forall i, j | 0 <= i < j < |g.bodies|
      ensures Center(g.bodies[i]) != Center(g.bodies[j])
    {
      DistinctClicksApart(cs, i, j);
    }
    ClicksWellPaired(cs);
    SeparatedWhenApart(g.bodies, g.pairs);
  }

  /** Two different clicks place bodies with different centers. */
  lemma DistinctClicksApart(cs: seq<(int, int)>, i: nat, j: nat)
    requires i < j < |cs| && cs[i] != cs[j]
    ensures Center(Clicks(NewGame(), cs).bodies[i]) != Center(Clicks(NewGame(), cs).bodies[j])
  {
    ClickBody(cs, i);
    ClickBody(cs, j);
    ClickCenters(cs[i], cs[j]);
  }

  /** Two clicks on one point place bodies with the same center. */
  lemma SameClickSameCenter(cs: seq<(int, int)>, i: nat, j: nat)
    requires i < j < |cs| && cs[i] == cs[j]
    ensures Center(Clicks(NewGame(), cs).bodies[i]) == Center(Clicks(NewGame(), cs).bodies[j])
  {
    ClickBody(cs, i);
    ClickBody(cs, j);
  }

  /** Two clicks on one point leave a pair whose gravity is undefined. */
  lemma SameClicksNotSeparated(cs: seq<(int, int)>, i: nat, j: nat)
    requires i < j < |cs| && cs[i] == cs[j]
    ensures Pair(i, j) in Clicks(NewGame(), cs).pairs
    ensures !Fits(Clicks(NewGame(), cs).bodies, Pair(i, j))
  {
    SameClickSameCenter(cs, i, j);
    ClicksHavePair(cs, i, j);
  }

  /** Every pair of clicked bodies is in the pair list. */
  lemma ClicksHavePair(cs: seq<(int, int)>, i: nat, j: nat)
    requires i < j < |cs|
    ensures Pair(i, j) in Clicks(NewGame(), cs).pairs
  {
    ClicksWellPaired(cs);
    assert multiset(Clicks(NewGame(), cs).pairs)[Pair(i, j)] == 1;
  }

  /** Over a well-formed pair list, gravity is defined as soon as no two bodies share a center. */
  lemma SeparatedWhenApart(bs: seq<Body>, ps: seq<Pair>)
    requires InRange(|bs|, ps)
    requires forall i, j :: 0 <= i < j < |bs| ==> Center(bs[i]) != Center(bs[j])
    ensures Separated(bs, ps)
  {
    forall p | p in ps
      ensures Fits(bs, p)
    {
      var k :| 0 <= k < |ps| && ps[k] == p;
    }
  }

  /** Only centers and masses matter: forces left over from the previous frame do not affect a step. */
  lemma StepIgnoresForces(g: Game, h: Game)
    requires Separated(g.bodies, g.pairs)
    requires h.pairs == g.pairs && SameKinematics(g.bodies, h.bodies)
    ensures Separated(h.bodies, h.pairs)
    ensures Step(g) == Step(h)
  {
    SeparatedIgnoresForce(g.bodies, h.bodies, g.pairs);
    var s, t := Step(g), Step(h);
    forall k | 0 <= k < |g.bodies|
      ensures s.bodies[k] == t.bodies[k]
    {
      NetForceIgnoresForce(g.bodies, h.bodies, g.pairs, k);
      BodyExtensionality(s.bodies[k], t.bodies[k]);
    }
  }

  /** The order of the pair list does not matter: any permutation gives the same frame. */
  lemma StepOrderIndependent(g: Game, qs: seq<Pair>)
    requires Separated(g.bodies, g.pairs)
    requires multiset(qs) == multiset(g.pairs)
    ensures Separated(g.bodies, qs)
    ensures Step(g.(pairs := qs)).bodies == Step(g).bodies
  {
    NetForcePermutation(g.bodies, g.pairs, qs, 0);
    var s, t := Step(g), Step(g.(pairs := qs));
    forall k | 0 <= k < |g.bodies|
      ensures s.bodies[k] == t.bodies[k]
    {
      NetForcePermutation(g.bodies, g.pairs, qs, k);
      BodyExtensionality(s.bodies[k], t.bodies[k]);
    }
  }

  lemma {:induction false} TotalOfZeros(s: seq<Point>)
    requires forall k :: 0 <= k < |s| ==> s[k] == Zero
    ensures Total(s) == Zero
    decreases |s|
  {
    if |s| > 0 {
      TotalOfZeros(s[..|s| - 1]);
    }
  }

  /** Newton's third law for a frame: the forces on all bodies sum to zero. */
  lemma StepForcesCancel(g: Game)
    requires Separated(g.bodies, g.pairs)
    ensures Total(Forces(Step(g).bodies)) == Zero
  {
    var z := ZeroForces(g.bodies);
    NetForceOfZeroed(g.bodies, g.pairs);
    var acc := Accumulate(z, g.pairs);
    AccumulateKeepsTotal(z, g.pairs);
    TotalOfZeros(Forces(z));
    assert Forces(Step(g).bodies) == Forces(acc);
  }

  /**
    Since `Update` adds the force to the velocity directly, the sum of the
    velocities (the momentum, were all masses equal) is the same after a step.
  */
  lemma StepKeepsTotalVelocity(g: Game)
    requires Separated(g.bodies, g.pairs)
    ensures Total(Velocities(Step(g).bodies)) == Total(Velocities(g.bodies))
  {
    var s := Step(g);
    StepForcesCancel(g);
    TotalPointwise(Velocities(g.bodies), Forces(s.bodies), Velocities(s.bodies));
  }

  /** The sum of the positions advances by the sum of the new velocities. */
  lemma StepMovesTotalPosition(g: Game)
    requires Separated(g.bodies, g.pairs)
    ensures Total(Positions(Step(g).bodies))
         == Add(Total(Positions(g.bodies)), Total(Velocities(Step(g).bodies)))
  {
    var s := Step(g);
    TotalPointwise(Positions(g.bodies), Velocities(s.bodies), Positions(s.bodies));
  }

  /**
    With zero total velocity, a frame keeps the total velocity at zero and the
    sum of the positions where it was.
  */
  lemma StepAtRestKeepsCentroid(g: Game)
    requires Separated(g.bodies, g.pairs)
    requires Total(Velocities(g.bodies)) == Zero
    ensures Total(Velocities(Step(g).bodies)) == Zero
    ensures Total(Positions(Step(g).bodies)) == Total(Positions(g.bodies))
  {
    StepKeepsTotalVelocity(g);
    StepMovesTotalPosition(g);
  }

  /** The velocities sum to zero and the positions sum to `c`. */
  predicate AtRestAbout(g: Game, c: Point)
  {
    Total(Velocities(g.bodies)) == Zero && Total(Positions(g.bodies)) == c
  }

  /** The same over any number of frames. */
  lemma {:induction false} StepsAtRestKeepCentroid(g: Game, n: nat, c: Point)
    requires SteppableFor(g, n) && AtRestAbout(g, c)
    ensures AtRestAbout(Steps(g, n), c)
    decreases n
  {
    if n > 0 {
      var s := Step(g);
      assert Steps(g, n) == Steps(s, n - 1);
      StepAtRestKeepsCentroid(g);
      assert AtRestAbout(s, c);
      StepsAtRestKeepCentroid(s, n - 1, c);
    }
  }

  /**
    Two bodies whose velocities cancel, for instance two bodies at rest, stay
    symmetric about their midpoint after any number of frames: their top-left
    corners and their centers keep the same sums, and their velocities stay
    opposite. `Update` adds the
    force to the velocity without dividing by the mass, so this holds for any
    two masses, not only equal ones.
  */
  lemma TwoBodiesStaySymmetric(g: Game, n: nat)
    requires |g.bodies| == 2 && SteppableFor(g, n)
    requires g.bodies[1].Velocity() == Neg(g.bodies[0].Velocity())
    ensures var h := Steps(g, n);
      Add(h.bodies[0].Position(), h.bodies[1].Position())
        == Add(g.bodies[0].Position(), g.bodies[1].Position())
      && Add(Center(h.bodies[0]), Center(h.bodies[1]))
        == Add(Center(g.bodies[0]), Center(g.bodies[1]))
      && h.bodies[1].Velocity() == Neg(h.bodies[0].Velocity())
  {
    var h := Steps(g, n);
    TwoBodyTotals(g.bodies);
    TwoBodyTotals(h.bodies);
    var c := Total(Positions(g.bodies));
    StepsAtRestKeepCentroid(g, n, c);
    assert AtRestAbout(h, c);
    CentersFollowPositions(h.bodies[0], h.bodies[1], g.bodies[0], g.bodies[1]);
  }

  /** Bodies with the same radii and the same sum of positions have the same sum of centers. */
  lemma CentersFollowPositions(a0: Body, a1: Body, b0: Body, b1: Body)
    requires a0.r == b0.r && a1.r == b1.r
    requires Add(a0.Position(), a1.Position()) == Add(b0.Position(), b1.Position())
    ensures Add(Center(a0), Center(a1)) == Add(Center(b0), Center(b1))
  {
  }

  /** The sums of two bodies' velocities and positions. */
  lemma TwoBodyTotals(bs: seq<Body>)
    requires |bs| == 2
    ensures Total(Velocities(bs)) == Add(bs[0].Velocity(), bs[1].Velocity())
    ensures Total(Positions(bs)) == Add(bs[0].Position(), bs[1].Position())
  {
    TotalOfTwo(Velocities(bs));
    TotalOfTwo(Positions(bs));
  }

  lemma TotalOfTwo(s: seq<Point>)
    requires |s| == 2
    ensures Total(s) == Add(s[0], s[1])
  {
    var t := s[..1];
    assert t[..0] == [] && t[0] == s[0];
    assert Total(t) == Add(Zero, s[0]);
    assert Total(s) == Add(Total(t), s[1]);
  }
}
