/** The greedy weighted scheduler of src/h6_sched.c as values: each source goes to the loop found
    lightest by a minimum search that starts from the total weight. S is the type of sources. */
module SchedModel {
  import opened Base

  /** An h6_src_weight: which loop a source was put on, and with what weight. */
  datatype Entry<S> = Entry(w: uint32, src: S, loop: nat)

  /** weights: the weight of each loop. entries: w_list. */
  datatype Sched<S> = Sched(weights: seq<uint32>, total: uint32, entries: seq<Entry<S>>)

  /** The minimum search after the first n loops: the best index and weight so far. */
  function Scan(weights: seq<uint32>, total: uint32, n: nat): (r: (nat, uint32))
    requires n <= |weights|
  {
    if n == 0 then (0, total)
    else
      var (i, w) := Scan(weights, total, n - 1);
      if weights[n - 1] < w then (n - 1, weights[n - 1]) else (i, w)
  }

  function FindBest<S>(s: Sched<S>): nat {
    Scan(s.weights, s.total, |s.weights|).0
  }

  /** The index of the first entry of src, or the number of entries. */
  function Find<S(==)>(entries: seq<Entry<S>>, src: S): (k: nat)
    ensures k <= |entries|
    ensures forall i :: 0 <= i < k ==> entries[i].src != src
    ensures k < |entries| ==> entries[k].src == src
  {
    if entries == [] || entries[0].src == src then 0 else 1 + Find(entries[1..], src)
  }

  ghost predicate Wf<S>(s: Sched<S>) {
    |s.weights| >= 1 && forall i :: 0 <= i < |s.entries| ==> s.entries[i].loop < |s.weights|
  }

  function Place<S>(s: Sched<S>, i: nat, src: S, w: uint32): Sched<S>
    requires i < |s.weights|
  {
    Sched(s.weights[i := Wrap(s.weights[i] + w)], Wrap(s.total + w), [Entry(w, src, i)] + s.entries)
  }

  /** _h6_sched_add */
  function Add<S>(s: Sched<S>, src: S, w: uint32): Sched<S>
    requires Wf(s)
  {
    var i := FindBest(s);
    if i < |s.weights| then Place(s, i, src, w) else s
  }

  /** _h6_sched_remove: 0, or -1 when the source is unknown. */
  function Remove<S(==)>(s: Sched<S>, src: S): (Sched<S>, int)
    requires Wf(s)
  {
    var k := Find(s.entries, src);
    if k == |s.entries| then (s, -1)
    else
      var e := s.entries[k];
      (Sched(s.weights[e.loop := Wrap(s.weights[e.loop] - e.w)], Wrap(s.total - e.w),
             s.entries[..k] + s.entries[k + 1..]), 0)
  }

  // ----- Loads -----

  function Sum(ws: seq<uint32>): nat {
    if ws == [] then 0 else Sum(ws[..|ws| - 1]) + ws[|ws| - 1]
  }

  /** The weight of the entries on loop i. */
  function Load<S>(entries: seq<Entry<S>>, i: nat): nat {
    if entries == [] then 0
    else (if entries[0].loop == i then entries[0].w else 0) + Load(entries[1..], i)
  }

  /** Every loop's weight is the sum of its entries and the total is the sum over the loops. */
  ghost predicate Inv<S>(s: Sched<S>) {
    && Wf(s)
    && (forall i :: 0 <= i < |s.weights| ==> s.weights[i] == Load(s.entries, i))
    && s.total == Sum(s.weights)
  }

  lemma {:induction false} SumUpdate(ws: seq<uint32>, i: nat, x: uint32)
    requires i < |ws|
    ensures Sum(ws[i := x]) == Sum(ws) - ws[i] + x
  {
    var n := |ws| - 1;
    if i == n {
      assert ws[i := x][..n] == ws[..n];
    } else {
      assert ws[i := x][..n] == ws[..n][i := x];
      SumUpdate(ws[..n], i, x);
    }
  }

  lemma {:induction false} PartOfSum(ws: seq<uint32>, i: nat)
    requires i < |ws|
    ensures ws[i] <= Sum(ws)
  {
    if i < |ws| - 1 {
      PartOfSum(ws[..|ws| - 1], i);
    }
  }

  lemma {:induction false} LoadWithout<S>(entries: seq<Entry<S>>, k: nat, i: nat)
    requires k < |entries|
    ensures Load(entries[..k] + entries[k + 1..], i)
            == Load(entries, i) - if entries[k].loop == i then entries[k].w else 0
  {
    var rest := entries[..k] + entries[k + 1..];
    if k == 0 {
      assert rest == entries[1..];
    } else {
      assert rest[1..] == entries[1..][..k - 1] + entries[1..][k..];
      LoadWithout(entries[1..], k - 1, i);
    }
  }

  lemma {:induction false} PartOfLoad<S>(entries: seq<Entry<S>>, k: nat)
    requires k < |entries|
    ensures entries[k].w <= Load(entries, entries[k].loop)
  {
    if k > 0 {
      PartOfLoad(entries[1..], k - 1);
    }
  }

  // ----- The seeded minimum search -----

  /** Either no loop so far is lighter than the seed, or the best index is the first lightest. */
  lemma {:induction false} ScanFindsFirst(ws: seq<uint32>, total: uint32, n: nat)
    requires n <= |ws|
    ensures var (i, w) := Scan(ws, total, n);
            && w <= total && (forall j :: 0 <= j < n ==> w <= ws[j])
            && (w == total ==> i == 0)
            && (w < total ==> i < n && ws[i] == w && forall j :: 0 <= j < i ==> w < ws[j])
  {
    if n > 0 {
      ScanFindsFirst(ws, total, n - 1);
    }
  }

  /** Seeding the search with the total is right because no loop weighs more than the total: the
      result is the first of the lightest loops. */
  lemma BestIsLightest<S>(s: Sched<S>)
    requires Inv(s)
    ensures var b := FindBest(s);
            && b < |s.weights|
            && (forall j :: 0 <= j < |s.weights| ==> s.weights[b] <= s.weights[j])
            && (forall j :: 0 <= j < b ==> s.weights[b] < s.weights[j])
  {
    ScanFindsFirst(s.weights, s.total, |s.weights|);
    forall j | 0 <= j < |s.weights| ensures s.weights[j] <= s.total {
      PartOfSum(s.weights, j);
    }
  }

  lemma AddKeepsInv<S>(s: Sched<S>, src: S, w: uint32)
    requires Inv(s) && s.total + w < U32
    ensures Inv(Add(s, src, w)) && Add(s, src, w).total == s.total + w
  {
    BestIsLightest(s);
    var b := FindBest(s);
    PartOfSum(s.weights, b);
    SumUpdate(s.weights, b, s.weights[b] + w);
    assert Add(s, src, w).entries[1..] == s.entries;
  }

  /** Neither the loop's weight nor the total can go below zero. */
  lemma EntryIsCharged<S>(s: Sched<S>, k: nat)
    requires Inv(s) && k < |s.entries|
    ensures s.entries[k].w <= s.weights[s.entries[k].loop] <= s.total
  {
    PartOfLoad(s.entries, k);
    PartOfSum(s.weights, s.entries[k].loop);
  }

  lemma TakenOutKeepsInv<S>(s: Sched<S>, k: nat, t: Sched<S>)
    requires Inv(s) && k < |s.entries|
    requires s.entries[k].w <= s.weights[s.entries[k].loop] <= s.total
    requires var e := s.entries[k];
             var rest := s.entries[..k] + s.entries[k + 1..];
             t == Sched(s.weights[e.loop := s.weights[e.loop] - e.w], s.total - e.w, rest)
    ensures Inv(t)
  {
    var e := s.entries[k];
    SumUpdate(s.weights, e.loop, s.weights[e.loop] - e.w);
    forall i | 0 <= i < |t.weights| ensures t.weights[i] == Load(t.entries, i) {
      LoadWithout(s.entries, k, i);
    }
    forall i | 0 <= i < |t.entries| ensures t.entries[i].loop < |t.weights| {
      assert t.entries[i] == s.entries[if i < k then i else i + 1];
    }
  }

  lemma RemoveKeepsInv<S>(s: Sched<S>, src: S)
    requires Inv(s)
    ensures Inv(Remove(s, src).0)
    ensures Remove(s, src).1 == (if exists i :: 0 <= i < |s.entries| && s.entries[i].src == src then 0 else -1)
  {
    var k := Find(s.entries, src);
    if k < |s.entries| {
      EntryIsCharged(s, k);
      TakenOutKeepsInv(s, k, Remove(s, src).0);
    }
  }

  lemma PlaceThenTake<S>(s: Sched<S>, b: nat, src: S, w: uint32)
    requires Wf(s) && b < |s.weights| && s.weights[b] + w < U32 && s.total + w < U32
    ensures Wf(Place(s, b, src, w)) && Remove(Place(s, b, src, w), src) == (s, 0)
  {
    var t := Place(s, b, src, w);
    assert Find(t.entries, src) == 0;
    assert t.entries[..0] + t.entries[1..] == s.entries;
    assert t.weights[b := s.weights[b]] == s.weights;
  }

  /** Removing a source just added undoes the addition. */
  lemma AddThenRemove<S>(s: Sched<S>, src: S, w: uint32)
    requires Inv(s) && s.total + w < U32
    ensures Wf(Add(s, src, w)) && Remove(Add(s, src, w), src) == (s, 0)
  {
    BestIsLightest(s);
    PartOfSum(s.weights, FindBest(s));
    PlaceThenTake(s, FindBest(s), src, w);
  }

  // ----- What each call does to the entries -----

  /** The entries of one source, in order. */
  function Of<S(==)>(entries: seq<Entry<S>>, src: S): seq<Entry<S>> {
    if entries == [] then []
    else (if entries[0].src == src then [entries[0]] else []) + Of(entries[1..], src)
  }

  predicate Listed<S(==)>(s: Sched<S>, src: S) {
    exists e :: e in s.entries && e.src == src
  }

  /** t is s with a source put on loop b, the first of the lightest loops, and no other loop charged. */
  ghost predicate PutOn<S>(s: Sched<S>, t: Sched<S>, src: S, w: uint32, b: nat) {
    && b < |s.weights| && s.weights[b] + w < U32 && s.total + w < U32
    && (forall j :: 0 <= j < |s.weights| ==> s.weights[b] <= s.weights[j])
    && (forall j :: 0 <= j < b ==> s.weights[b] < s.weights[j])
    && t.weights == s.weights[b := s.weights[b] + w] && t.total == s.total + w
    && t.entries == [Entry(w, src, b)] + s.entries
  }

  /** Adding puts the source on the first of the lightest loops, with its weight, in front of the
      entries there were. */
  lemma AddsOne<S>(s: Sched<S>, src: S, w: uint32)
    requires Inv(s) && s.total + w < U32
    ensures exists b :: PutOn(s, Add(s, src, w), src, w, b)
  {
    BestIsLightest(s);
    PartOfSum(s.weights, FindBest(s));
    assert PutOn(s, Add(s, src, w), src, w, FindBest(s));
  }

  lemma OfCons<S>(e: Entry<S>, entries: seq<Entry<S>>, x: S)
    ensures Of([e] + entries, x) == if e.src == x then [e] + Of(entries, x) else Of(entries, x)
  {
    assert ([e] + entries)[1..] == entries;
  }

  lemma {:induction false} OfWithout<S>(entries: seq<Entry<S>>, k: nat, x: S)
    requires k < |entries| && forall i :: 0 <= i < k ==> entries[i].src != entries[k].src
    ensures var rest := Of(entries[..k] + entries[k + 1..], x);
            Of(entries, x) == if x == entries[k].src then [entries[k]] + rest else rest
  {
    var rest := entries[..k] + entries[k + 1..];
    if k == 0 {
      assert rest == entries[1..];
    } else {
      assert rest[1..] == entries[1..][..k - 1] + entries[1..][k..];
      OfWithout(entries[1..], k - 1, x);
    }
  }

  /** t is s without its entry e, whose loop has lost its weight, and no other loop any. */
  ghost predicate TakenOut<S>(s: Sched<S>, t: Sched<S>, e: Entry<S>) {
    && e.loop < |s.weights| && e.w <= s.weights[e.loop] && e.w <= s.total
    && multiset(s.entries) == multiset(t.entries) + multiset{e}
    && t.weights == s.weights[e.loop := s.weights[e.loop] - e.w] && t.total == s.total - e.w
  }

  lemma MultisetWithout<T>(q: seq<T>, k: nat)
    requires k < |q|
    ensures multiset(q) == multiset(q[..k] + q[k + 1..]) + multiset{q[k]}
  {
    assert q == q[..k] + [q[k]] + q[k + 1..];
  }

  lemma TakesOut<S>(s: Sched<S>, src: S, k: nat)
    requires Inv(s) && k == Find(s.entries, src) < |s.entries|
    ensures TakenOut(s, Remove(s, src).0, s.entries[k]) && Remove(s, src).1 == 0
    ensures Remove(s, src).0.entries == s.entries[..k] + s.entries[k + 1..]
  {
    EntryIsCharged(s, k);
    var e, rest := s.entries[k], s.entries[..k] + s.entries[k + 1..];
    MultisetWithout(s.entries, k);
    assert Remove(s, src).0 == Sched(s.weights[e.loop := s.weights[e.loop] - e.w], s.total - e.w, rest);
  }

  lemma UnlistedUnfound<S>(s: Sched<S>, src: S)
    ensures Find(s.entries, src) < |s.entries| <==> Listed(s, src)
  {
    var k := Find(s.entries, src);
    if k < |s.entries| {
      assert s.entries[k] in s.entries;
    }
  }

  /** Removing a source that is not listed changes nothing. Otherwise it takes out one entry of that
      source, the newest it has, and uncharges that entry's loop. */
  lemma RemovesOne<S>(s: Sched<S>, src: S)
    requires Inv(s)
    ensures !Listed(s, src) ==> Remove(s, src) == (s, -1)
    ensures Listed(s, src) ==>
              && Remove(s, src).1 == 0 && Of(s.entries, src) != []
              && TakenOut(s, Remove(s, src).0, Of(s.entries, src)[0])
              && Of(Remove(s, src).0.entries, src) == Of(s.entries, src)[1..]
  {
    UnlistedUnfound(s, src);
    var k := Find(s.entries, src);
    if k < |s.entries| {
      TakesOut(s, src, k);
      OfWithout(s.entries, k, src);
    }
  }

  /** Every other source keeps its entries, in order. */
  lemma OthersStay<S>(s: Sched<S>, src: S, x: S)
    requires Inv(s) && x != src
    ensures Of(Remove(s, src).0.entries, x) == Of(s.entries, x)
  {
    var k := Find(s.entries, src);
    if k < |s.entries| {
      TakesOut(s, src, k);
      OfWithout(s.entries, k, x);
    }
  }

  // ----- Runs -----

  datatype Action<S> = AddSource(src: S, w: uint32) | RemoveSource(src: S)

  ghost predicate Init<S>(s: Sched<S>) {
    |s.weights| >= 1 && s.total == 0 && s.entries == [] && forall i :: 0 <= i < |s.weights| ==> s.weights[i] == 0
  }

  ghost predicate Next<S>(s: Sched<S>, a: Action<S>, t: Sched<S>) {
    match a
    case AddSource(src, w) => s.total + w < U32 && (Wf(s) ==> t == Add(s, src, w))
    case RemoveSource(src) => Wf(s) ==> t == Remove(s, src).0
  }

  ghost predicate Run<S>(states: seq<Sched<S>>, acts: seq<Action<S>>) {
    && |states| == |acts| + 1
    && Init(states[0])
    && forall i :: 0 <= i < |acts| ==> Next(states[i], acts[i], states[i + 1])
  }

  lemma {:induction false} SumZero(ws: seq<uint32>)
    requires forall i :: 0 <= i < |ws| ==> ws[i] == 0
    ensures Sum(ws) == 0
  {
    if ws != [] {
      SumZero(ws[..|ws| - 1]);
    }
  }

  lemma NextKeepsInv<S>(s: Sched<S>, a: Action<S>, t: Sched<S>)
    requires Inv(s) && Next(s, a, t)
    ensures Inv(t) && |t.weights| == |s.weights|
  {
    match a {
      case AddSource(src, w) => AddKeepsInv(s, src, w);
      case RemoveSource(src) => RemoveKeepsInv(s, src);
    }
  }

  lemma RunInv<S>(states: seq<Sched<S>>, acts: seq<Action<S>>)
    requires Run(states, acts)
    ensures Inv(states[|acts|])
    ensures |states[|acts|].weights| == |states[0].weights|
  {
    SumZero(states[0].weights);
    forall i | 0 <= i < |acts| && Inv(states[i])
      ensures Inv(states[i + 1]) && |states[i + 1].weights| == |states[i].weights|
    {
      NextKeepsInv(states[i], acts[i], states[i + 1]);
    }
    AlongRun(i => 0 <= i < |states| && Inv(states[i]) && |states[i].weights| == |states[0].weights|, |acts|);
  }

  /** In every reachable state the search returns a least-loaded loop, and the counters it relies
      on are exact. */
  lemma LeastLoadedInEveryRun<S>(states: seq<Sched<S>>, acts: seq<Action<S>>)
    requires Run(states, acts)
    ensures var s := states[|acts|];
            && FindBest(s) < |s.weights|
            && (forall j :: 0 <= j < |s.weights| ==> s.weights[FindBest(s)] <= s.weights[j])
            && (forall i :: 0 <= i < |s.weights| ==> s.weights[i] == Load(s.entries, i))
            && s.total == Sum(s.weights)
  {
    RunInv(states, acts);
    BestIsLightest(states[|acts|]);
  }

  /** Each source is added at most once in the run. */
  ghost predicate AddedOnce<S>(acts: seq<Action<S>>) {
    forall i, j :: 0 <= i < j < |acts| && acts[i].AddSource? && acts[j].AddSource? ==> acts[i].src != acts[j].src
  }

  ghost predicate WasAdded<S>(acts: seq<Action<S>>, src: S) {
    exists i :: 0 <= i < |acts| && acts[i].AddSource? && acts[i].src == src
  }

  lemma NextOf<S>(s: Sched<S>, a: Action<S>, t: Sched<S>, x: S)
    requires Inv(s) && Next(s, a, t)
    ensures |Of(t.entries, x)| <= |Of(s.entries, x)| + if a.AddSource? && a.src == x then 1 else 0
  {
    match a {
      case AddSource(src, w) =>
        AddsOne(s, src, w);
        var b :| PutOn(s, t, src, w, b);
        OfCons(Entry(w, src, b), s.entries, x);
      case RemoveSource(src) =>
        if x == src {
          RemovesOne(s, src);
        } else {
          OthersStay(s, src, x);
        }
    }
  }

  /** A source that is added at most once never has more than one entry. */
  lemma {:induction false} OneEntryEach<S>(states: seq<Sched<S>>, acts: seq<Action<S>>, x: S)
    requires Run(states, acts) && AddedOnce(acts)
    ensures |Of(states[|acts|].entries, x)| <= if WasAdded(acts, x) then 1 else 0
  {
    if acts != [] {
      var n := |acts| - 1;
      assert Run(states[..|acts|], acts[..n]);
      OneEntryEach(states[..|acts|], acts[..n], x);
      RunInv(states[..|acts|], acts[..n]);
      NextOf(states[n], acts[n], states[n + 1], x);
      assert forall i :: 0 <= i < n ==> acts[..n][i] == acts[i];
      assert acts[n].AddSource? && acts[n].src == x ==> !WasAdded(acts[..n], x);
    }
  }

  lemma {:induction false} ListedIff<S>(entries: seq<Entry<S>>, x: S)
    ensures Of(entries, x) != [] <==> exists e :: e in entries && e.src == x
  {
    if entries != [] {
      ListedIff(entries[1..], x);
      assert entries == [entries[0]] + entries[1..];
    }
  }

  /** In a run that adds each source at most once, a source that is removed is listed no more. */
  lemma RemovedIsGone<S>(states: seq<Sched<S>>, acts: seq<Action<S>>, src: S)
    requires Run(states, acts) && AddedOnce(acts)
    ensures var s := states[|acts|];
            Wf(s) && !Listed(Remove(s, src).0, src) && Remove(s, src).1 == if Listed(s, src) then 0 else -1
  {
    RunInv(states, acts);
    var s := states[|acts|];
    OneEntryEach(states, acts, src);
    RemovesOne(s, src);
    ListedIff(s.entries, src);
    ListedIff(Remove(s, src).0.entries, src);
  }
}
