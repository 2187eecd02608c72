/**
  The accumulation phase of a step: `ApplyGravity` once per pair, in list order,
  on the bodies of the simulation. Bodies are a sequence and a pair holds two
  indices into it, so "a and b point to bodies of the game" becomes an index bound.
*/
module Interactions {
  import opened Bodies
  import opened Pairs

  /** The pair refers to two bodies of `bs` whose centers differ. */
  predicate Fits(bs: seq<Body>, p: Pair)
  {
    p.a < |bs| && p.b < |bs| && Center(bs[p.a]) != Center(bs[p.b])
  }

  /** Gravity is defined for every pair of the list. */
  predicate Separated(bs: seq<Body>, ps: seq<Pair>)
  {
    forall p :: p in ps ==> Fits(bs, p)
  }

  /** The bodies of `bs'` are those of `bs` with possibly other forces. */
  predicate SameKinematics(bs: seq<Body>, bs': seq<Body>)
  {
    |bs| == |bs'| && forall k :: 0 <= k < |bs| ==> OnlyForceDiffers(bs[k], bs'[k])
  }

  /** What the pair `p` contributes to the force on body `k`. */
  function Pull(bs: seq<Body>, p: Pair, k: nat): Point
    requires Fits(bs, p)
  {
    if k == p.a then GravityForce(bs[p.a], bs[p.b])
    else if k == p.b then Neg(GravityForce(bs[p.a], bs[p.b]))
    else Zero
  }

  /** The sum of the contributions of the pairs `ps` to the force on body `k`. */
  function NetForce(bs: seq<Body>, ps: seq<Pair>, k: nat): Point
    requires Separated(bs, ps)
    decreases |ps|
  {
    if |ps| == 0 then Zero
    else
      assert Separated(bs, ps[..|ps| - 1]) by { PrefixSeparated(bs, ps, |ps| - 1); }
      Add(NetForce(bs, ps[..|ps| - 1], k), Pull(bs, ps[|ps| - 1], k))
  }

  /** `ApplyGravity(Bodies[p.a], Bodies[p.b])`, written back into the body list. */
  function ApplyGravityAt(bs: seq<Body>, p: Pair): (r: seq<Body>)
    requires Fits(bs, p)
    ensures SameKinematics(bs, r)
    ensures forall k :: 0 <= k < |bs| ==> r[k].Force() == Add(bs[k].Force(), Pull(bs, p, k))
  {
    var ab := ApplyGravity(bs[p.a], bs[p.b]);
    bs[p.a := ab.0][p.b := ab.1]
  }

  /**
    The loop over the pair list: `ApplyGravity` for each pair in order. Every
    body ends with its starting force plus the contributions of its pairs, and
    nothing but the forces changes.
  */
  function Accumulate(bs: seq<Body>, ps: seq<Pair>): (r: seq<Body>)
    requires Separated(bs, ps)
    ensures SameKinematics(bs, r)
    ensures forall k :: 0 <= k < |bs| ==> r[k].Force() == Add(bs[k].Force(), NetForce(bs, ps, k))
    decreases |ps|
  {
    if |ps| == 0 then bs
    else
      var n := |ps| - 1;
      PrefixSeparated(bs, ps, n);
      var prev := Accumulate(bs, ps[..n]);
      PullIgnoresForce(bs, prev, ps[n]);
      ApplyGravityAt(prev, ps[n])
  }

  /** Sum of a sequence of vectors. */
  function Total(s: seq<Point>): Point
  {
    if |s| == 0 then Zero else Add(Total(s[..|s| - 1]), s[|s| - 1])
  }

  function Forces(bs: seq<Body>): (fs: seq<Point>)
    ensures |fs| == |bs| && forall k :: 0 <= k < |bs| ==> fs[k] == bs[k].Force()
  {
    seq(|bs|, k requires 0 <= k < |bs| => bs[k].Force())
  }

  // ---------------------------------------------------------------------------
  // Properties
  // ---------------------------------------------------------------------------

  lemma PrefixSeparated(bs: seq<Body>, ps: seq<Pair>, n: nat)
    requires Separated(bs, ps)
    requires n <= |ps|
    ensures Separated(bs, ps[..n])
  {
    forall p | p in ps[..n]
      ensures Fits(bs, p)
    {
      var i :| 0 <= i < n && ps[..n][i] == p;
      assert ps[i] == p;
    }
  }

  /** Gravity reads centers and masses only, so it is unaffected by the forces accumulated so far. */
  lemma PullIgnoresForce(bs: seq<Body>, bs': seq<Body>, p: Pair)
    requires Fits(bs, p)
    requires SameKinematics(bs, bs')
    ensures Fits(bs', p)
    ensures forall k :: Pull(bs', p, k) == Pull(bs, p, k)
  {
    GravityForceIgnoresForce(bs[p.a], bs[p.b], bs'[p.a], bs'[p.b]);
  }

  lemma SeparatedIgnoresForce(bs: seq<Body>, bs': seq<Body>, ps: seq<Pair>)
    requires Separated(bs, ps)
    requires SameKinematics(bs, bs')
    ensures Separated(bs', ps)
  {
    forall p | p in ps
      ensures Fits(bs', p)
    {
      PullIgnoresForce(bs, bs', p);
    }
  }

  /** The net force on a body depends on the centers and masses only. */
  lemma {:induction false} NetForceIgnoresForce(bs: seq<Body>, bs': seq<Body>, ps: seq<Pair>, k: nat)
    requires Separated(bs, ps)
    requires SameKinematics(bs, bs')
    ensures Separated(bs', ps)
    ensures NetForce(bs', ps, k) == NetForce(bs, ps, k)
    decreases |ps|
  {
    SeparatedIgnoresForce(bs, bs', ps);
    if |ps| > 0 {
      var n := |ps| - 1;
      PrefixSeparated(bs, ps, n);
      NetForceIgnoresForce(bs, bs', ps[..n], k);
      PullIgnoresForce(bs, bs', ps[n]);
    }
  }

  lemma {:induction false} NetForceConcat(bs: seq<Body>, us: seq<Pair>, vs: seq<Pair>, k: nat)
    requires Separated(bs, us + vs)
    ensures Separated(bs, us) && Separated(bs, vs)
    ensures NetForce(bs, us + vs, k) == Add(NetForce(bs, us, k), NetForce(bs, vs, k))
    decreases |vs|
  {
    assert forall p :: p in us ==> p in us + vs;
    assert forall p :: p in vs ==> p in us + vs;
    if |vs| == 0 {
      assert us + vs == us;
    } else {
      var n := |vs| - 1;
      assert (us + vs)[..|us + vs| - 1] == us + vs[..n];
      PrefixSeparated(bs, vs, n);
      NetForceConcat(bs, us, vs[..n], k);
    }
  }

  /** Removing the last pair of `ps` and an equal pair of `qs` keeps the two lists permutations of each other. */
  lemma RemoveMatching(ps: seq<Pair>, qs: seq<Pair>, i: nat)
    requires multiset(ps) == multiset(qs)
    requires 0 < |ps| && i < |qs| && qs[i] == ps[|ps| - 1]
    ensures multiset(ps[..|ps| - 1]) == multiset(qs[..i] + qs[i + 1..])
  {
    var n, x := |ps| - 1, ps[|ps| - 1];
    assert qs == qs[..i] + [x] + qs[i + 1..];
    assert ps == ps[..n] + [x];
    assert multiset(qs) == multiset(qs[..i]) + multiset{x} + multiset(qs[i + 1..]);
    assert multiset(ps) == multiset(ps[..n]) + multiset{x};
    var rest := qs[..i] + qs[i + 1..];
    assert multiset(rest) == multiset(qs[..i]) + multiset(qs[i + 1..]);
    forall y
      ensures multiset(ps[..n])[y] == multiset(rest)[y]
    {
      assert multiset(ps)[y] == multiset(qs)[y];
    }
  }

  /** The net force of a list split around position `i`. */
  lemma NetForceAround(bs: seq<Body>, qs: seq<Pair>, i: nat, k: nat)
    requires Separated(bs, qs)
    requires i < |qs|
    ensures Separated(bs, qs[..i] + qs[i + 1..])
    ensures NetForce(bs, qs, k)
         == Add(NetForce(bs, qs[..i] + qs[i + 1..], k), Pull(bs, qs[i], k))
  {
    var x := qs[i];
    assert qs == qs[..i] + [x] + qs[i + 1..];
    NetForceConcat(bs, qs[..i] + [x], qs[i + 1..], k);
    NetForceConcat(bs, qs[..i], [x], k);
    assert Separated(bs, qs[..i] + qs[i + 1..]);
    NetForceConcat(bs, qs[..i], qs[i + 1..], k);
    assert NetForce(bs, [x], k) == Pull(bs, x, k) by {
      assert [x][..0] == [];
    }
  }

  /**
    The net force does not depend on the order of the pairs: any permutation of
    the pair list gives the same sum for every body.
  */
  lemma {:induction false} NetForcePermutation(bs: seq<Body>, ps: seq<Pair>, qs: seq<Pair>, k: nat)
    requires multiset(ps) == multiset(qs)
    requires Separated(bs, ps)
    ensures Separated(bs, qs)
    ensures NetForce(bs, ps, k) == NetForce(bs, qs, k)
    decreases |ps|
  {
    assert forall p :: p in qs <==> p in multiset(qs);
    assert forall p :: p in ps <==> p in multiset(ps);
    if |ps| == 0 {
      assert |qs| == |multiset(qs)| == 0;
    } else {
      var n := |ps| - 1;
      var x := ps[n];
      assert x in multiset(qs);
      var i :| 0 <= i < |qs| && qs[i] == x;
      RemoveMatching(ps, qs, i);
      PrefixSeparated(bs, ps, n);
      NetForcePermutation(bs, ps[..n], qs[..i] + qs[i + 1..], k);
      NetForceAround(bs, qs, i, k);
    }
  }

  lemma BodyExtensionality(a: Body, b: Body)
    requires OnlyForceDiffers(a, b) && a.Force() == b.Force()
    ensures a == b
  {
  }

  /** Processing the pairs in any order yields the same bodies. */
  lemma AccumulateOrderIndependent(bs: seq<Body>, ps: seq<Pair>, qs: seq<Pair>)
    requires multiset(ps) == multiset(qs)
    requires Separated(bs, ps)
    ensures Separated(bs, qs)
    ensures Accumulate(bs, ps) == Accumulate(bs, qs)
  {
    NetForcePermutation(bs, ps, qs, 0);
    var r, r' := Accumulate(bs, ps), Accumulate(bs, qs);
    forall k | 0 <= k < |bs|
      ensures r[k] == r'[k]
    {
      NetForcePermutation(bs, ps, qs, k);
      BodyExtensionality(r[k], r'[k]);
    }
  }

  lemma {:induction false} TotalConcat(u: seq<Point>, v: seq<Point>)
    ensures Total(u + v) == Add(Total(u), Total(v))
    decreases |v|
  {
    if |v| == 0 {
      assert u + v == u;
    } else {
      var n := |v| - 1;
      assert (u + v)[..|u + v| - 1] == u + v[..n];
      TotalConcat(u, v[..n]);
    }
  }

  /** Replacing one element changes the sum by the difference. */
  lemma TotalUpdate(s: seq<Point>, i: nat, v: Point)
    requires i < |s|
    ensures Total(s[i := v]) == Add(Sub(Total(s), s[i]), v)
  {
    assert s == s[..i] + [s[i]] + s[i + 1..];
    assert s[i := v] == s[..i] + [v] + s[i + 1..];
    TotalConcat(s[..i] + [s[i]], s[i + 1..]);
    TotalConcat(s[..i], [s[i]]);
    TotalConcat(s[..i] + [v], s[i + 1..]);
    TotalConcat(s[..i], [v]);
    assert [s[i]][..0] == [] && [v][..0] == [];
  }

  /** Sums of pointwise sums. */
  lemma {:induction false} TotalPointwise(u: seq<Point>, v: seq<Point>, w: seq<Point>)
    requires |u| == |v| == |w|
    requires forall k :: 0 <= k < |w| ==> w[k] == Add(u[k], v[k])
    ensures Total(w) == Add(Total(u), Total(v))
    decreases |w|
  {
    if |w| > 0 {
      var n := |w| - 1;
      TotalPointwise(u[..n], v[..n], w[..n]);
    }
  }

  /**
    Newton's third law for one pair: `ApplyGravityAt` leaves the total force on
    the system unchanged.
  */
  lemma ApplyGravityAtKeepsTotal(bs: seq<Body>, p: Pair)
    requires Fits(bs, p)
    ensures Total(Forces(ApplyGravityAt(bs, p))) == Total(Forces(bs))
  {
    var ab := ApplyGravity(bs[p.a], bs[p.b]);
    var fs := Forces(bs);
    var mid := fs[p.a := ab.0.Force()];
    assert Forces(ApplyGravityAt(bs, p)) == mid[p.b := ab.1.Force()];
    TotalUpdate(fs, p.a, ab.0.Force());
    TotalUpdate(mid, p.b, ab.1.Force());
  }

  /** Newton's third law for the whole accumulation: the forces of the system sum to what they were. */
  lemma {:induction false} AccumulateKeepsTotal(bs: seq<Body>, ps: seq<Pair>)
    requires Separated(bs, ps)
    ensures Total(Forces(Accumulate(bs, ps))) == Total(Forces(bs))
    decreases |ps|
  {
    if |ps| > 0 {
      var n := |ps| - 1;
      PrefixSeparated(bs, ps, n);
      AccumulateKeepsTotal(bs, ps[..n]);
      var prev := Accumulate(bs, ps[..n]);
      PullIgnoresForce(bs, prev, ps[n]);
      ApplyGravityAtKeepsTotal(prev, ps[n]);
    }
  }
}
