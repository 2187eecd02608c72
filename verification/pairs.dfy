/**
  The unique-pair bookkeeping of `Game`: the simulation keeps, next to its bodies,
  a list of the pairs of bodies whose mutual gravity it applies each step. A body
  is referred to by its index in the body list, which never changes because
  bodies are only ever appended.
*/
module Pairs {

  /** The bodies at indices `a` and `b`; the pairs `addBody` creates have `a < b`. */
  datatype Pair = Pair(a: nat, b: nat)

  /** The pairs (0, t), (1, t), ..., (m - 1, t), in that order. */
  function Fan(m: nat, t: nat): (ps: seq<Pair>)
    ensures |ps| == m
    ensures forall l :: 0 <= l < m ==> ps[l] == Pair(l, t)
  {
    if m == 0 then [] else Fan(m - 1, t) + [Pair(m - 1, t)]
  }

  /** Every pair refers to two distinct bodies among the first `n`, the earlier one first. */
  ghost predicate InRange(n: nat, ps: seq<Pair>)
  {
    forall k :: 0 <= k < |ps| ==> ps[k].a < ps[k].b < n
  }

  /** Every unordered pair of distinct bodies among the first `n` occurs exactly once. */
  ghost predicate ExactlyOnce(n: nat, ps: seq<Pair>)
  {
    forall i, j :: 0 <= i < j < n ==> multiset(ps)[Pair(i, j)] == 1
  }

  /** The invariant of the pair list of a simulation with `n` bodies. */
  ghost predicate WellPaired(n: nat, ps: seq<Pair>)
  {
    InRange(n, ps) && ExactlyOnce(n, ps)
  }

  /** 0 + 1 + ... + (n - 1): the number of unordered pairs of `n` things. */
  function Triangular(n: nat): nat
  {
    if n == 0 then 0 else Triangular(n - 1) + (n - 1)
  }

  // ---------------------------------------------------------------------------
  // Properties
  // ---------------------------------------------------------------------------

  /** The closed form n * (n - 1) / 2. */
  lemma {:induction false} TriangularClosedForm(n: nat)
    ensures 2 * Triangular(n) == n * (n - 1)
    ensures Triangular(n) == n * (n - 1) / 2
  {
    if n > 0 {
      TriangularClosedForm(n - 1);
      ProductStep(n * (n - 1), (n - 1) * (n - 2), n - 1);
    }
  }

  lemma ProductStep(p: int, q: int, k: int)
    requires p == (k + 1) * k && q == k * (k - 1)
    ensures p == q + 2 * k
  {
  }

  /** A fan holds the pair (i, t) exactly once when i < m, and no other pair. */
  lemma {:induction false} FanCount(m: nat, t: nat, p: Pair)
    ensures multiset(Fan(m, t))[p] == if p.b == t && p.a < m then 1 else 0
  {
    if m > 0 {
      var f := Fan(m - 1, t);
      FanCount(m - 1, t, p);
      assert multiset(f + [Pair(m - 1, t)]) == multiset(f) + multiset{Pair(m - 1, t)};
    }
  }

  /** No pair of a well-formed list relates a body to itself. */
  lemma NoSelfPairs(n: nat, ps: seq<Pair>, k: nat)
    requires InRange(n, ps)
    requires k < |ps|
    ensures ps[k].a != ps[k].b
  {
  }

  /** Pairs that refer only to the first `n` bodies cannot mention body `n`. */
  lemma AbsentBeyond(n: nat, ps: seq<Pair>, i: nat)
    requires InRange(n, ps)
    ensures multiset(ps)[Pair(i, n)] == 0
  {
    assert Pair(i, n) !in ps;
  }

  /**
    Appending the fan of a new body `n` to a well-formed list of pairs of `n`
    bodies gives a well-formed list of pairs of `n + 1` bodies.
  */
  lemma {:induction false} AppendFanKeepsWellPaired(n: nat, ps: seq<Pair>)
    requires WellPaired(n, ps)
    ensures WellPaired(n + 1, ps + Fan(n, n))
  {
    var qs := ps + Fan(n, n);
    forall k | 0 <= k < |qs|
      ensures qs[k].a < qs[k].b < n + 1
    {
      if k >= |ps| {
        assert qs[k] == Fan(n, n)[k - |ps|];
      }
    }
    forall i, j | 0 <= i < j < n + 1
      ensures multiset(qs)[Pair(i, j)] == 1
    {
      assert multiset(qs) == multiset(ps) + multiset(Fan(n, n));
      FanCount(n, n, Pair(i, j));
      if j == n {
        AbsentBeyond(n, ps, i);
      }
    }
  }
}
