/**
 The reference for the causal HMM filter (ml-service/market_context/hmm_model.py:111-123): a hidden path is a sequence
 of states, its mass is the product of its start, transition and emission factors, and all N^(t+1) paths are enumerated.
 */
module HmmPaths {
  import opened Prelude

  type Row = seq<real>
  type Path = seq<nat>

  datatype Model = Model(start: Row, transition: seq<Row>, emissions: seq<Row>)

  function At(row: Row, i: int): real {
    if 0 <= i < |row| then row[i] else 0.0
  }

  function Start(m: Model, i: int): real {
    At(m.start, i)
  }

  function Transition(m: Model, i: int, j: int): real {
    if 0 <= i < |m.transition| then At(m.transition[i], j) else 0.0
  }

  function Emission(m: Model, t: int, i: int): real {
    if 0 <= t < |m.emissions| then At(m.emissions[t], i) else 0.0
  }

  function Sum(xs: Row): real {
    if xs == [] then 0.0 else Sum(xs[..|xs| - 1]) + xs[|xs| - 1]
  }

  function Dot(xs: Row, ys: Row): real
    requires |xs| == |ys|
  {
    if xs == [] then 0.0 else Dot(xs[..|xs| - 1], ys[..|ys| - 1]) + xs[|xs| - 1] * ys[|ys| - 1]
  }

  /** Entries 0..k of column j of the transition matrix. */
  function Column(m: Model, k: nat, j: nat): (r: Row)
    ensures |r| == k && forall i | 0 <= i < k :: r[i] == Transition(m, i, j)
  {
    seq(k, i requires 0 <= i < k => Transition(m, i, j))
  }

  // ---------------------------------------------------------------- the reference: sums over paths

  function Mass(m: Model, p: Path): real {
    if p == [] then 1.0
    else if |p| == 1 then Start(m, p[0]) * Emission(m, 0, p[0])
    else Mass(m, p[..|p| - 1]) * Transition(m, p[|p| - 2], p[|p| - 1]) * Emission(m, |p| - 1, p[|p| - 1])
  }

  function Extend(ps: seq<Path>, s: nat): (r: seq<Path>)
    ensures |r| == |ps|
    ensures forall i | 0 <= i < |ps| :: r[i] == ps[i] + [s]
  {
    if ps == [] then [] else [ps[0] + [s]] + Extend(ps[1..], s)
  }

  /** All paths over n states for observations 0..t that end in state s. */
  function PathsEnding(n: nat, t: nat, s: nat): seq<Path>
    decreases t, n + 1
  {
    if t == 0 then [[s]] else Extend(PathsUpTo(n, t - 1, n), s)
  }

  /** All paths for observations 0..t that end in one of the first k states. */
  function PathsUpTo(n: nat, t: nat, k: nat): seq<Path>
    requires k <= n
    decreases t + 1, k
  {
    if k == 0 then [] else PathsUpTo(n, t, k - 1) + PathsEnding(n, t, k - 1)
  }

  function Paths(n: nat, t: nat): seq<Path> {
    PathsUpTo(n, t, n)
  }

  function MassSum(m: Model, ps: seq<Path>): real {
    if ps == [] then 0.0 else Mass(m, ps[0]) + MassSum(m, ps[1..])
  }

  /** Total mass of the paths that end in state s, and of all paths. */
  function Weight(m: Model, n: nat, t: nat, s: nat): real {
    MassSum(m, PathsEnding(n, t, s))
  }

  function Total(m: Model, n: nat, t: nat): real {
    MassSum(m, Paths(n, t))
  }

  function Weights(m: Model, n: nat, t: nat, k: nat): (r: Row)
    ensures |r| == k && forall i | 0 <= i < k :: r[i] == Weight(m, n, t, i)
  {
    seq(k, i requires 0 <= i < k => Weight(m, n, t, i))
  }

  predicate IsPath(n: nat, t: nat, p: Path) {
    |p| == t + 1 && forall i | 0 <= i < |p| :: p[i] < n
  }

  lemma {:induction false} EndingExact(n: nat, t: nat, s: nat, p: Path)
    requires s < n
    ensures p in PathsEnding(n, t, s) <==> IsPath(n, t, p) && p[t] == s
    decreases t, n + 1
  {
    if t == 0 {
      if IsPath(n, t, p) && p[t] == s {
        assert p == [s];
      }
    } else {
      var before := PathsUpTo(n, t - 1, n);
      ExtendMembers(before, s, p);
      if p != [] {
        UpToExact(n, t - 1, n, p[..|p| - 1]);
      }
    }
  }

  lemma ExtendMembers(ps: seq<Path>, s: nat, p: Path)
    ensures p in Extend(ps, s) <==> p != [] && p[|p| - 1] == s && p[..|p| - 1] in ps
  {
    var r := Extend(ps, s);
    if p in r {
      var i :| 0 <= i < |r| && r[i] == p;
      assert p[..|p| - 1] == ps[i];
    }
    if p != [] && p[|p| - 1] == s && p[..|p| - 1] in ps {
      var i :| 0 <= i < |ps| && ps[i] == p[..|p| - 1];
      assert r[i] == p;
    }
  }

  lemma {:induction false} UpToExact(n: nat, t: nat, k: nat, p: Path)
    requires k <= n
    ensures p in PathsUpTo(n, t, k) <==> IsPath(n, t, p) && p[t] < k
    decreases t + 1, k
  {
    hide PathsEnding;
    if k > 0 {
      UpToExact(n, t, k - 1, p);
      EndingExact(n, t, k - 1, p);
    }
  }

  ghost predicate Apart<T(!new)>(xs: seq<T>, ys: seq<T>) {
    forall x | x in xs :: x !in ys
  }

  lemma {:induction false} EndingDistinct(n: nat, t: nat, s: nat)
    ensures Distinct(PathsEnding(n, t, s))
    decreases t, n + 1
  {
    if t > 0 {
      UpToDistinct(n, t - 1, n);
      ExtendDistinct(PathsUpTo(n, t - 1, n), s);
    }
  }

  lemma {:induction false} UpToDistinct(n: nat, t: nat, k: nat)
    requires k <= n
    ensures Distinct(PathsUpTo(n, t, k))
    decreases t + 1, k
  {
    hide PathsEnding, Distinct, Apart;
    if k == 0 {
      DistinctEmpty();
    } else {
      UpToDistinct(n, t, k - 1);
      EndingDistinct(n, t, k - 1);
      EndsApart(n, t, k - 1);
      ConcatDistinct(PathsUpTo(n, t, k - 1), PathsEnding(n, t, k - 1));
    }
  }

  lemma DistinctEmpty()
    ensures Distinct<Path>([])
  {
  }

  lemma EndsApart(n: nat, t: nat, s: nat)
    requires s < n
    ensures Apart(PathsUpTo(n, t, s), PathsEnding(n, t, s))
  {
    forall p | p in PathsUpTo(n, t, s)
      ensures p !in PathsEnding(n, t, s)
    {
      UpToExact(n, t, s, p);
      EndingExact(n, t, s, p);
    }
  }

  lemma ExtendDistinct(ps: seq<Path>, s: nat)
    requires Distinct(ps)
    ensures Distinct(Extend(ps, s))
  {
    var r := Extend(ps, s);
    forall i, j | 0 <= i < j < |r|
      ensures r[i] != r[j]
    {
      assert ps[i] == r[i][..|r[i]| - 1] && ps[j] == r[j][..|r[j]| - 1];
    }
  }

  lemma ConcatDistinct<T(!new)>(a: seq<T>, b: seq<T>)
    requires Distinct(a) && Distinct(b) && Apart(a, b)
    ensures Distinct(a + b)
  {
    forall i, j | 0 <= i < j < |a + b|
      ensures (a + b)[i] != (a + b)[j]
    {
      if i < |a| <= j {
        assert (a + b)[i] in a && (a + b)[j] in b;
      }
    }
  }

  function Power(n: nat, e: nat): nat {
    if e == 0 then 1 else n * Power(n, e - 1)
  }

  lemma {:induction false} UpToCount(n: nat, t: nat, k: nat)
    requires k <= n
    ensures |PathsUpTo(n, t, k)| == k * Power(n, t)
    decreases t + 1, k
  {
    if k > 0 {
      UpToCount(n, t, k - 1);
      if t > 0 {
        UpToCount(n, t - 1, n);
      }
      assert |PathsEnding(n, t, k - 1)| == Power(n, t);
      assert (k - 1) * Power(n, t) + Power(n, t) == k * Power(n, t);
    }
  }

  /** The enumeration lists each of the N^(t+1) state paths exactly once. */
  lemma PathsExact(n: nat, t: nat)
    ensures forall p :: p in Paths(n, t) <==> IsPath(n, t, p)
    ensures Distinct(Paths(n, t))
    ensures |Paths(n, t)| == Power(n, t + 1)
  {
    forall p
      ensures p in Paths(n, t) <==> IsPath(n, t, p)
    {
      UpToExact(n, t, n, p);
    }
    UpToDistinct(n, t, n);
    UpToCount(n, t, n);
  }

  // ---------------------------------------------------------------- the forward recursion on weights

  lemma {:induction false} MassSumConcat(m: Model, a: seq<Path>, b: seq<Path>)
    ensures MassSum(m, a + b) == MassSum(m, a) + MassSum(m, b)
  {
    if a == [] {
      assert a + b == b;
    } else {
      assert (a + b)[1..] == a[1..] + b;
      MassSumConcat(m, a[1..], b);
    }
  }

  lemma MassExtend(m: Model, p: Path, j: nat)
    requires p != []
    ensures Mass(m, p + [j]) == Mass(m, p) * Transition(m, p[|p| - 1], j) * Emission(m, |p|, j)
  {
    assert (p + [j])[..|p|] == p;
  }

  lemma Factor(x: real, y: real, a: real, e: real)
    ensures x * a * e + y * a * e == (x + y) * a * e
  {
  }

  lemma Distribute(x: real, y: real, z: real)
    ensures (x + y) * z == x * z + y * z
  {
  }

  lemma ExtendHead(m: Model, ps: seq<Path>, j: nat)
    requires ps != []
    ensures MassSum(m, Extend(ps, j)) == Mass(m, ps[0] + [j]) + MassSum(m, Extend(ps[1..], j))
  {
    hide Mass;
    assert Extend(ps, j)[1..] == Extend(ps[1..], j);
  }

  lemma {:induction false} ExtendMass(m: Model, ps: seq<Path>, t: nat, i: nat, j: nat)
    requires EndIn(ps, t, i)
    ensures MassSum(m, Extend(ps, j)) == MassSum(m, ps) * Transition(m, i, j) * Emission(m, t + 1, j)
  {
    hide Mass, Transition, Emission, Extend;
    if ps == [] {
      assert Extend(ps, j) == [];
    } else {
      assert ps[0] in ps;
      assert EndIn(ps[1..], t, i);
      ExtendMass(m, ps[1..], t, i, j);
      ExtendHead(m, ps, j);
      MassExtend(m, ps[0], j);
      Factor(Mass(m, ps[0]), MassSum(m, ps[1..]), Transition(m, i, j), Emission(m, t + 1, j));
    }
  }

  lemma {:induction false} ExtendConcat(a: seq<Path>, b: seq<Path>, j: nat)
    ensures Extend(a + b, j) == Extend(a, j) + Extend(b, j)
  {
  }

  lemma {:induction false} ExtendUpTo(m: Model, n: nat, t: nat, k: nat, j: nat)
    requires k <= n
    ensures MassSum(m, Extend(PathsUpTo(n, t, k), j))
            == Dot(Weights(m, n, t, k), Column(m, k, j)) * Emission(m, t + 1, j)
    decreases k
  {
    hide Weight, Transition, Emission, Dot, MassSum, Extend, PathsEnding;
    if k == 0 {
      EmptySums(m, n, t, j);
    } else {
      ExtendUpTo(m, n, t, k - 1, j);
      var front, back := PathsUpTo(n, t, k - 1), PathsEnding(n, t, k - 1);
      ExtendConcat(front, back, j);
      MassSumConcat(m, Extend(front, j), Extend(back, j));
      ExtendEnding(m, n, t, k - 1, j);
      DotLast(m, n, t, k, j);
      Distribute(Dot(Weights(m, n, t, k - 1), Column(m, k - 1, j)),
                 Weight(m, n, t, k - 1) * Transition(m, k - 1, j),
                 Emission(m, t + 1, j));
    }
  }

  lemma EmptySums(m: Model, n: nat, t: nat, j: nat)
    ensures MassSum(m, Extend(PathsUpTo(n, t, 0), j))
            == Dot(Weights(m, n, t, 0), Column(m, 0, j)) * Emission(m, t + 1, j)
  {
  }

  ghost predicate EndIn(ps: seq<Path>, t: nat, i: nat) {
    forall p | p in ps :: |p| == t + 1 && p[t] == i
  }

  lemma EndingEndIn(n: nat, t: nat, i: nat)
    requires i < n
    ensures EndIn(PathsEnding(n, t, i), t, i)
  {
    forall p | p in PathsEnding(n, t, i)
      ensures |p| == t + 1 && p[t] == i
    {
      EndingExact(n, t, i, p);
    }
  }

  lemma ExtendEnding(m: Model, n: nat, t: nat, i: nat, j: nat)
    requires i < n
    ensures MassSum(m, Extend(PathsEnding(n, t, i), j))
            == Weight(m, n, t, i) * Transition(m, i, j) * Emission(m, t + 1, j)
  {
    WeightIs(m, n, t, i);
    hide EndIn, PathsEnding, MassSum, Mass, Extend, Weight, Transition, Emission;
    EndingEndIn(n, t, i);
    ExtendMass(m, PathsEnding(n, t, i), t, i, j);
  }

  lemma DotLast(m: Model, n: nat, t: nat, k: nat, j: nat)
    requires k > 0
    ensures Dot(Weights(m, n, t, k), Column(m, k, j))
            == Dot(Weights(m, n, t, k - 1), Column(m, k - 1, j)) + Weight(m, n, t, k - 1) * Transition(m, k - 1, j)
  {
    hide Weight, Transition;
    assert Weights(m, n, t, k)[..k - 1] == Weights(m, n, t, k - 1);
    assert Column(m, k, j)[..k - 1] == Column(m, k - 1, j);
  }

  /** The sum over exponentially many paths obeys the one-step forward recursion. */
  lemma ForwardRecursion(m: Model, n: nat, t: nat, j: nat)
    requires j < n
    ensures Weight(m, n, t + 1, j) == Dot(Weights(m, n, t, n), Column(m, n, j)) * Emission(m, t + 1, j)
  {
    ExtendUpTo(m, n, t, n, j);
  }

  lemma WeightStart(m: Model, n: nat, j: nat)
    ensures Weight(m, n, 0, j) == Start(m, j) * Emission(m, 0, j)
  {
    assert MassSum(m, [[j]]) == Mass(m, [j]) + MassSum(m, []);
  }

  lemma WeightIs(m: Model, n: nat, t: nat, s: nat)
    ensures Weight(m, n, t, s) == MassSum(m, PathsEnding(n, t, s))
  {
  }

  lemma {:induction false} TotalIsSum(m: Model, n: nat, t: nat, k: nat)
    requires k <= n
    ensures MassSum(m, PathsUpTo(n, t, k)) == Sum(Weights(m, n, t, k))
  {
    hide Weight, PathsEnding;
    if k > 0 {
      WeightIs(m, n, t, k - 1);
      TotalIsSum(m, n, t, k - 1);
      MassSumConcat(m, PathsUpTo(n, t, k - 1), PathsEnding(n, t, k - 1));
      assert Weights(m, n, t, k)[..k - 1] == Weights(m, n, t, k - 1);
    }
  }

  // ---------------------------------------------------------------- sums

  lemma {:induction false} SumScale(xs: Row, z: real, ys: Row)
    requires |xs| == |ys| && forall i | 0 <= i < |xs| :: ys[i] == xs[i] * z
    ensures Sum(ys) == Sum(xs) * z
  {
    if xs != [] {
      var k := |xs| - 1;
      SumScale(xs[..k], z, ys[..k]);
      Distribute(Sum(xs[..k]), xs[k], z);
    }
  }

  lemma {:induction false} DotScale(xs: Row, z: real, ys: Row, c: Row)
    requires |xs| == |ys| == |c| && forall i | 0 <= i < |xs| :: ys[i] == xs[i] * z
    ensures Dot(ys, c) == Dot(xs, c) * z
  {
    if xs != [] {
      var k := |xs| - 1;
      DotScale(xs[..k], z, ys[..k], c[..k]);
      Distribute(Dot(xs[..k], c[..k]), xs[k] * c[k], z);
      Swap(xs[k], z, c[k]);
    }
  }

  lemma Swap(x: real, y: real, z: real)
    ensures (x * y) * z == (x * z) * y
  {
  }

  lemma {:induction false} SumPositive(xs: Row)
    requires forall i | 0 <= i < |xs| :: xs[i] > 0.0
    ensures if xs == [] then Sum(xs) == 0.0 else Sum(xs) > 0.0
  {
    if xs != [] {
      SumPositive(xs[..|xs| - 1]);
    }
  }

  lemma {:induction false} DotPositive(xs: Row, ys: Row)
    requires |xs| == |ys| && forall i | 0 <= i < |xs| :: xs[i] > 0.0 && ys[i] > 0.0
    ensures if xs == [] then Dot(xs, ys) == 0.0 else Dot(xs, ys) > 0.0
  {
    if xs != [] {
      var k := |xs| - 1;
      DotPositive(xs[..k], ys[..k]);
      Product(xs[k], ys[k]);
    }
  }

  lemma Product(a: real, b: real)
    requires a > 0.0 && b > 0.0
    ensures a * b > 0.0
  {
  }
}
