/** Graham's list-scheduling bound for the runs of src/h6_sched.c that only add sources. */
module Graham {
  import opened Base
  import opened SchedModel

  /** An add-only run puts these weights on, in order. */
  ghost predicate AddsOnly<S>(acts: seq<Action<S>>) {
    forall i :: 0 <= i < |acts| ==> acts[i].AddSource?
  }

  ghost function Weights<S>(acts: seq<Action<S>>): seq<nat>
    requires AddsOnly(acts)
  {
    seq(|acts|, i requires 0 <= i < |acts| => acts[i].w)
  }

  function Max(ws: seq<nat>): (m: nat)
    ensures forall i :: 0 <= i < |ws| ==> ws[i] <= m
    ensures ws != [] ==> exists i :: 0 <= i < |ws| && ws[i] == m
    ensures ws == [] ==> m == 0
  {
    if ws == [] then 0
    else
      var n := |ws| - 1;
      var m := Max(ws[..n]);
      assert forall i :: 0 <= i < n ==> ws[..n][i] == ws[i];
      if ws[n] >= m then ws[n] else m
  }

  function Total(ws: seq<nat>): nat {
    if ws == [] then 0 else Total(ws[..|ws| - 1]) + ws[|ws| - 1]
  }

  /** No loop is heavier than another by more than d. */
  predicate Within(ws: seq<uint32>, d: nat) {
    forall i, j :: 0 <= i < |ws| && 0 <= j < |ws| ==> ws[i] <= ws[j] + d
  }

  /** Putting the next source on the lightest loop keeps the spread within the largest weight. */
  lemma AddKeepsSpread<S>(s: Sched<S>, src: S, w: uint32, d: nat)
    requires Inv(s) && s.total + w < U32 && Within(s.weights, d) && w <= d
    ensures Within(Add(s, src, w).weights, d)
  {
    BestIsLightest(s);
    PartOfSum(s.weights, FindBest(s));
  }

  lemma {:induction false} SpreadOfRun<S>(states: seq<Sched<S>>, acts: seq<Action<S>>, d: nat)
    requires Run(states, acts) && AddsOnly(acts)
    requires forall i :: 0 <= i < |acts| ==> acts[i].w <= d
    ensures Within(states[|acts|].weights, d) && states[|acts|].total == Total(Weights(acts))
  {
    if acts != [] {
      var n := |acts| - 1;
      assert Run(states[..|acts|], acts[..n]);
      SpreadOfRun(states[..|acts|], acts[..n], d);
      RunInv(states[..|acts|], acts[..n]);
      assert Next(states[n], acts[n], states[n + 1]);
      AddKeepsInv(states[n], acts[n].src, acts[n].w);
      AddKeepsSpread(states[n], acts[n].src, acts[n].w, d);
      assert Weights(acts)[..n] == Weights(acts[..n]);
    }
  }

  /** n loops that are each at least x - d weigh at least n * (x - d), and one that weighs x
      itself makes up for its d. */
  lemma {:induction false} SpreadBound(ws: seq<uint32>, x: nat, d: nat, i: nat, n: nat)
    requires n <= |ws| && i < |ws| && ws[i] == x
    requires forall j :: 0 <= j < |ws| ==> x <= ws[j] + d
    ensures n * x <= Sum(ws[..n]) + n * d - if i < n then d else 0
  {
    if n > 0 {
      SpreadBound(ws, x, d, i, n - 1);
      assert ws[..n][..n - 1] == ws[..n - 1];
      assert n * x == (n - 1) * x + x && n * d == (n - 1) * d + d;
    }
  }

  lemma OneLess(m: nat, x: nat)
    ensures (m - 1) * x == m * x - x
  {
  }

  lemma HeaviestBound(ws: seq<uint32>, d: nat)
    requires ws != [] && Within(ws, d)
    ensures |ws| * Max(ws) <= Sum(ws) + (|ws| - 1) * d
  {
    var x := Max(ws);
    var i :| 0 <= i < |ws| && ws[i] == x;
    SpreadBound(ws, x, d, i, |ws|);
    assert ws[..|ws|] == ws;
    OneLess(|ws|, d);
  }

  /** Graham's bound: m times the heaviest loop is at most the total plus m - 1 times the largest
      weight. */
  lemma GrahamBound<S>(states: seq<Sched<S>>, acts: seq<Action<S>>)
    requires Run(states, acts) && AddsOnly(acts)
    ensures var ws := states[|acts|].weights;
            |ws| * Max(ws) <= Total(Weights(acts)) + (|ws| - 1) * Max(Weights(acts))
  {
    var d := Max(Weights(acts));
    forall i | 0 <= i < |acts| ensures acts[i].w <= d {
      assert Weights(acts)[i] == acts[i].w;
    }
    SpreadOfRun(states, acts, d);
    RunInv(states, acts);
    HeaviestBound(states[|acts|].weights, d);
  }

  // ----- Any other assignment of the same weights -----

  /** The weight that assignment to puts on loop i. */
  function LoadUnder(ws: seq<nat>, to: seq<nat>, i: nat): nat
    requires |ws| == |to|
  {
    if ws == [] then 0
    else
      var n := |ws| - 1;
      LoadUnder(ws[..n], to[..n], i) + if to[n] == i then ws[n] else 0
  }

  function LoadsUnder(ws: seq<nat>, to: seq<nat>, m: nat): (r: seq<nat>)
    requires |ws| == |to|
    ensures |r| == m
  {
    seq(m, i requires 0 <= i < m => LoadUnder(ws, to, i))
  }

  lemma {:induction false} JobWithinLoad(ws: seq<nat>, to: seq<nat>, k: nat)
    requires |ws| == |to| && k < |ws|
    ensures ws[k] <= LoadUnder(ws, to, to[k])
  {
    var n := |ws| - 1;
    if k < n {
      JobWithinLoad(ws[..n], to[..n], k);
    }
  }

  /** The loads of any assignment add up to the total of the weights. */
  lemma {:induction false} LoadsAddUp(ws: seq<nat>, to: seq<nat>, m: nat)
    requires |ws| == |to| && forall k :: 0 <= k < |to| ==> to[k] < m
    ensures Total(LoadsUnder(ws, to, m)) == Total(ws)
  {
    if ws == [] {
      TotalOfEqual(LoadsUnder(ws, to, m), 0);
    } else {
      var n := |ws| - 1;
      LoadsAddUp(ws[..n], to[..n], m);
      var before := LoadsUnder(ws[..n], to[..n], m);
      assert LoadsUnder(ws, to, m) == before[to[n] := before[to[n]] + ws[n]];
      TotalUpdate(before, to[n], before[to[n]] + ws[n]);
    }
  }

  lemma {:induction false} TotalOfEqual(ws: seq<nat>, x: nat)
    requires forall i :: 0 <= i < |ws| ==> ws[i] <= x
    ensures Total(ws) <= |ws| * x
  {
    if ws != [] {
      TotalOfEqual(ws[..|ws| - 1], x);
      assert |ws| * x == (|ws| - 1) * x + x;
    }
  }

  lemma {:induction false} TotalUpdate(ws: seq<nat>, i: nat, x: nat)
    requires i < |ws|
    ensures Total(ws[i := x]) == Total(ws) - ws[i] + x
  {
    var n := |ws| - 1;
    if i == n {
      assert ws[i := x][..n] == ws[..n];
    } else {
      assert ws[i := x][..n] == ws[..n][i := x];
      TotalUpdate(ws[..n], i, x);
    }
  }

  /** Any assignment's heaviest load is at least the average and at least the largest weight. */
  lemma AssignmentIsHeavy(ws: seq<nat>, to: seq<nat>, m: nat)
    requires |ws| == |to| && forall k :: 0 <= k < |to| ==> to[k] < m
    ensures Total(ws) <= m * Max(LoadsUnder(ws, to, m))
    ensures Max(ws) <= Max(LoadsUnder(ws, to, m))
  {
    var loads := LoadsUnder(ws, to, m);
    LoadsAddUp(ws, to, m);
    TotalOfEqual(loads, Max(loads));
    if ws != [] {
      var k :| 0 <= k < |ws| && ws[k] == Max(ws);
      JobWithinLoad(ws, to, k);
      assert loads[to[k]] <= Max(loads);
    }
  }

  lemma Combine(m: nat, heaviest: nat, total: nat, largest: nat, best: nat)
    requires 1 <= m && m * heaviest <= total + (m - 1) * largest
    requires total <= m * best && largest <= best
    ensures m * heaviest <= (2 * m - 1) * best
  {
    assert (m - 1) * largest <= (m - 1) * best;
    OneLess(m, best);
    OneLess(2 * m, best);
    assert 2 * m * best == m * best + m * best;
  }

  /** The greedy schedule is within 2 - 1/m of every assignment of the same weights to the loops. */
  lemma WithinTwiceAnyAssignment<S>(states: seq<Sched<S>>, acts: seq<Action<S>>, to: seq<nat>)
    requires Run(states, acts) && AddsOnly(acts)
    requires |to| == |acts| && forall k :: 0 <= k < |to| ==> to[k] < |states[|acts|].weights|
    ensures var m, ws := |states[|acts|].weights|, Weights(acts);
            m * Max(states[|acts|].weights) <= (2 * m - 1) * Max(LoadsUnder(ws, to, m))
  {
    var m, ws := |states[|acts|].weights|, Weights(acts);
    GrahamBound(states, acts);
    RunInv(states, acts);
    AssignmentIsHeavy(ws, to, m);
    Combine(m, Max(states[|acts|].weights), Total(ws), Max(ws), Max(LoadsUnder(ws, to, m)));
  }

  /** With unit weights the loops differ by at most one. */
  lemma UnitWeightsBalance<S>(states: seq<Sched<S>>, acts: seq<Action<S>>)
    requires Run(states, acts) && AddsOnly(acts) && forall i :: 0 <= i < |acts| ==> acts[i].w == 1
    ensures Within(states[|acts|].weights, 1)
  {
    SpreadOfRun(states, acts, 1);
  }
}
