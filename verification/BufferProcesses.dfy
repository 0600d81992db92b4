/** Many processes over one buffer cache.  `BufferKernel.BufferCache` is the code of one process, which sleeps and
    relies on the others meanwhile; here any number of them take turns, and what each relies on holds in every run. */
module BufferProcesses {
  import opened BufferLists
  import opened BufferState

  /** The cache with the references `held[p]` of each process, and the blocks `own[p]` that only it stores to. */
  datatype System = System(cache: State, held: seq<seq<nat>>, own: seq<set<Name>>)

  function Sum(held: seq<seq<nat>>, x: nat): nat
    requires forall p | 0 <= p < |held| :: x < |held[p]|
  {
    if held == [] then 0 else held[0][x] + Sum(held[1..], x)
  }

  lemma {:induction false} SumJoin(a: seq<seq<nat>>, b: seq<seq<nat>>, x: nat)
    requires forall p | 0 <= p < |a| :: x < |a[p]|
    requires forall p | 0 <= p < |b| :: x < |b[p]|
    ensures Sum(a + b, x) == Sum(a, x) + Sum(b, x)
  {
    if a == [] {
      assert a + b == b;
    } else {
      assert (a + b)[1..] == a[1..] + b;
      SumJoin(a[1..], b, x);
    }
  }

  lemma SumSplit(held: seq<seq<nat>>, p: nat, x: nat)
    requires p < |held| && forall q | 0 <= q < |held| :: x < |held[q]|
    ensures Sum(held, x) == Sum(held[..p], x) + held[p][x] + Sum(held[p + 1..], x)
  {
    assert held == held[..p] + held[p..];
    SumJoin(held[..p], held[p..], x);
  }

  /** The references of all processes but `p`. */
  function Rest(held: seq<seq<nat>>, p: nat, x: nat): nat
    requires p < |held| && forall q | 0 <= q < |held| :: x < |held[q]|
  {
    Sum(held[..p], x) + Sum(held[p + 1..], x)
  }

  lemma RestHolds(held: seq<seq<nat>>, p: nat, q: nat, x: nat)
    requires p < |held| && q < |held| && q != p && forall r | 0 <= r < |held| :: x < |held[r]|
    ensures held[q][x] <= Rest(held, p, x)
  {
    if q < p {
      SumSplit(held[..p], q, x);
    } else {
      SumSplit(held[p + 1..], q - p - 1, x);
    }
  }

  predicate Sized(y: System) {
    |y.held| == |y.own| && forall p | 0 <= p < |y.held| :: |y.held[p]| == |y.cache.h|
  }

  /** What the others store to. */
  function Foreign(own: seq<set<Name>>, p: nat): set<Name> {
    set q, n | 0 <= q < |own| && q != p && n in own[q] :: n
  }

  /** The cache as process `p` finds it when it gets the processor. */
  function As(y: System, p: nat): State
    requires Sized(y) && p < |y.held|
  {
    y.cache.(mine := y.held[p],
             others := seq(|y.cache.h|, x requires 0 <= x < |y.cache.h| => Rest(y.held, p, x)),
             own := y.own[p], foreign := Foreign(y.own, p), seen := y.cache.h, known := y.cache.latest)
  }

  /** The lists are in order, disk and cache agree, and b_count is the number of references. */
  ghost predicate Sound(y: System) {
    && Sized(y) && Structured(y.cache) && Coherent(y.cache)
    && forall x | 0 <= x < |y.cache.h| :: y.cache.h[x].count == Sum(y.held, x)
  }

  /** Process `p` has run until it sleeps, and has kept the invariant and its promise, as all methods of the cache
      do. */
  ghost predicate Turn(y: System, y': System, p: nat)
    requires Sized(y)
  {
    && p < |y.held| && y'.own == y.own && y'.held == y.held[p := y'.cache.mine]
    && Good(y'.cache)
    && var s := As(y, p);
       && y'.cache.others == s.others && y'.cache.own == s.own && y'.cache.foreign == s.foreign
       && y'.cache.seen == s.seen && y'.cache.known == s.known
  }

  /** Each process starts its turn with all it assumes. */
  lemma SoundGood(y: System, p: nat)
    requires Sound(y) && p < |y.held|
    ensures Good(As(y, p))
  {
    hide Hashed, Ringed, Unique;
    forall x | 0 <= x < |y.cache.h| ensures y.cache.h[x].count == y.held[p][x] + Rest(y.held, p, x) {
      SumSplit(y.held, p, x);
    }
  }

  lemma TurnCounts(y: System, y': System, p: nat)
    requires Sound(y) && Turn(y, y', p)
    ensures Sized(y') && forall x | 0 <= x < |y'.cache.h| :: y'.cache.h[x].count == Sum(y'.held, x)
  {
    hide Structured, Coherent;
    var s' := y'.cache;
    assert |s'.h| == |As(y, p).h| && |s'.mine| == |s'.h|;
    forall x | 0 <= x < |s'.h| ensures s'.h[x].count == Sum(y'.held, x) {
      SumSplit(y'.held, p, x);
      assert y'.held[..p] == y.held[..p] && y'.held[p + 1..] == y.held[p + 1..];
    }
  }

  /** A turn keeps the system sound, and every other process finds what it may count on. */
  lemma TurnKeeps(y: System, y': System, p: nat)
    requires Sound(y) && Turn(y, y', p)
    ensures Sound(y') && |y'.held| == |y.held|
    ensures forall q | 0 <= q < |y.held| && q != p :: Rely(As(y, q), As(y', q))
  {
    hide Structured, Coherent;
    TurnCounts(y, y', p);
    forall q | 0 <= q < |y.held| && q != p ensures Rely(As(y, q), As(y', q)) {
      OthersRely(y, y', p, q);
    }
  }

  lemma OthersRely(y: System, y': System, p: nat, q: nat)
    requires Sized(y) && Sized(y') && Turn(y, y', p) && q < |y.held| && q != p
    ensures Rely(As(y, q), As(y', q))
  {
    hide Structured, Coherent;
    forall x | 0 <= x < |y.cache.h| ensures y.held[q][x] <= Rest(y.held, p, x) {
      RestHolds(y.held, p, q, x);
    }
    assert y.own[q] <= Foreign(y.own, p);
    PromiseIsRely(y'.cache, y.held[q], y.own[q]);
  }

  /** A run: who had each turn, and the system before and after. */
  ghost predicate Run(ys: seq<System>, who: seq<nat>) {
    |ys| == |who| + 1 && Sized(ys[0])
    && forall i | 0 <= i < |who| :: Sized(ys[i]) && Turn(ys[i], ys[i + 1], who[i])
  }

  lemma RunTurn(ys: seq<System>, who: seq<nat>, i: nat)
    requires Run(ys, who) && i < |who|
    ensures |ys| == |who| + 1 && Sized(ys[i]) && Turn(ys[i], ys[i + 1], who[i])
  {
    hide Turn, Sized;
  }

  /** Every reachable state is sound. */
  lemma {:induction false} RunSound(ys: seq<System>, who: seq<nat>, i: nat)
    requires Run(ys, who) && Sound(ys[0]) && i < |ys|
    ensures Sound(ys[i]) && |ys[i].held| == |ys[0].held|
  {
    if i > 0 {
      hide Sound, Turn, Sized, Rely, As;
      RunTurn(ys, who, i - 1);
      RunSound(ys, who, i - 1);
      TurnKeeps(ys[i - 1], ys[i], who[i - 1]);
    }
  }

  /** Whatever the others did while `q` slept, from turn `i` to turn `j`: the buffers it holds have kept their blocks
      and have not gone out of date, and its own blocks hold its last stores. */
  lemma {:induction false} SleepIsSafe(ys: seq<System>, who: seq<nat>, q: nat, i: nat, j: nat)
    requires Run(ys, who) && Sound(ys[0]) && q < |ys[0].held| && i <= j < |ys|
    requires forall k | i <= k < j :: who[k] != q
    ensures Sound(ys[i]) && Sound(ys[j]) && |ys[i].held| == |ys[j].held| == |ys[0].held|
    ensures Good(As(ys[j], q)) && Rely(As(ys[i], q), As(ys[j], q)) && ys[j].held[q] == ys[i].held[q]
    decreases j - i
  {
    RunSound(ys, who, i);
    RunSound(ys, who, j);
    SoundGood(ys[j], q);
    if i == j {
      RelyRefl(As(ys[j], q));
    } else {
      SleepIsSafe(ys, who, q, i, j - 1);
      RunTurn(ys, who, j - 1);
      TurnKeeps(ys[j - 1], ys[j], who[j - 1]);
      hide Structured, Coherent, Held, Untouched, Promise, Turn, Foreign;
      RelyTwice(As(ys[i], q), As(ys[j - 1], q), As(ys[j], q));
    }
  }
}
