/**
 The cache between threads (`Metadata::cached` in `src/metadata.rs`): a request reads the
 storage generation, looks its key up under the lock, and on a miss builds the answer with
 no lock held before inserting it under the generation it first read.

 Any number of requests, generation bumps and evictions interleave. An answer is
 represented by the question its build was for and by when that build started; `keyOf` is
 the key a question is cached under, and `reached` records when each generation began.
 */
module CacheCoherence {
  datatype Request<Q> =
    | Fetched(question: Q, generation: nat)                  // has read the generation
    | Building(question: Q, generation: nat, from: nat)      // missed; build started at `from`
    | Built(question: Q, generation: nat, from: nat)

  datatype CachedAnswer<Q> = CachedAnswer(question: Q, generation: nat, from: nat)

  /** An answer served from the cache: to which question, read at which generation, built for which. */
  datatype Hit<Q> = Hit(asked: Q, generation: nat, answered: Q, from: nat, at: nat)

  datatype World<Q, K> = World(
    now: nat, generation: nat, reached: map<nat, nat>,
    cache: map<K, CachedAnswer<Q>>, requests: map<nat, Request<Q>>, hits: seq<Hit<Q>>)

  datatype Step<Q, K> =
    | Bump(to: nat)
    | ReadGeneration(t: nat, question: Q)
    | Lookup(t: nat)
    | FinishBuild(t: nat)
    | FailBuild(t: nat)
    | Insert(t: nat, oversized: bool, evicted: set<K>)

  function Start<Q, K>(generation: nat): World<Q, K> {
    World(0, generation, map[generation := 0], map[], map[], [])
  }

  predicate Enabled<Q, K(==)>(w: World<Q, K>, s: Step<Q, K>) {
    match s
    case Bump(to) => to > w.generation
    case ReadGeneration(t, _) => t !in w.requests
    case Lookup(t) => t in w.requests && w.requests[t].Fetched?
    case FinishBuild(t) => t in w.requests && w.requests[t].Building?
    case FailBuild(t) => t in w.requests && w.requests[t].Building?
    case Insert(t, _, _) => t in w.requests && w.requests[t].Built?
  }

  function Next<Q, K(==)>(keyOf: Q -> K, w: World<Q, K>, s: Step<Q, K>): World<Q, K>
    requires Enabled(w, s)
  {
    var w := w.(now := w.now + 1);
    match s
    case Bump(to) => w.(generation := to, reached := w.reached[to := w.now])
    case ReadGeneration(t, question) => w.(requests := w.requests[t := Fetched(question, w.generation)])
    case Lookup(t) =>
      var r := w.requests[t];
      var key := keyOf(r.question);
      if key in w.cache && w.cache[key].generation == r.generation then
        w.(requests := w.requests - {t},
           hits := w.hits + [Hit(r.question, r.generation, w.cache[key].question, w.cache[key].from, w.now)])
      else
        w.(requests := w.requests[t := Building(r.question, r.generation, w.now)])
    case FinishBuild(t) =>
      var r := w.requests[t];
      w.(requests := w.requests[t := Built(r.question, r.generation, r.from)])
    case FailBuild(t) => w.(requests := w.requests - {t})
    case Insert(t, oversized, evicted) =>
      var r := w.requests[t];
      w.(requests := w.requests - {t},
         cache := if oversized then w.cache
                  else (w.cache - evicted)[keyOf(r.question) := CachedAnswer(r.question, r.generation, r.from)])
  }

  ghost predicate IsRun<Q(!new), K(!new)>(keyOf: Q -> K, generation: nat, steps: seq<Step<Q, K>>)
    decreases |steps|, 0
  {
    steps == [] ||
    var before := steps[..|steps| - 1];
    IsRun(keyOf, generation, before) && Enabled(After(keyOf, generation, before), steps[|steps| - 1])
  }

  ghost function After<Q(!new), K(!new)>(keyOf: Q -> K, generation: nat, steps: seq<Step<Q, K>>): World<Q, K>
    requires IsRun(keyOf, generation, steps)
    decreases |steps|, 1
  {
    if steps == [] then Start(generation) else
    var before := steps[..|steps| - 1];
    Next(keyOf, After(keyOf, generation, before), steps[|steps| - 1])
  }

  /** A build tagged with a generation started once that generation had been reached. */
  ghost predicate Fresh<Q, K>(w: World<Q, K>, generation: nat, from: nat) {
    generation in w.reached && w.reached[generation] <= from <= w.now
  }

  ghost predicate Inv<Q(!new), K(!new)>(keyOf: Q -> K, w: World<Q, K>) {
    && w.generation in w.reached
    && (forall g | g in w.reached :: g <= w.generation && w.reached[g] <= w.now)
    && (forall g, h | g in w.reached && h in w.reached && g < h :: w.reached[g] <= w.reached[h])
    && (forall t | t in w.requests :: w.requests[t].generation in w.reached)
    && (forall t | t in w.requests && !w.requests[t].Fetched? ::
          Fresh(w, w.requests[t].generation, w.requests[t].from))
    && (forall k | k in w.cache :: Fresh(w, w.cache[k].generation, w.cache[k].from) && keyOf(w.cache[k].question) == k)
    && (forall i | 0 <= i < |w.hits| ::
          Fresh(w, w.hits[i].generation, w.hits[i].from) && keyOf(w.hits[i].asked) == keyOf(w.hits[i].answered))
  }

  lemma BumpKeepsInv<Q(!new), K(!new)>(keyOf: Q -> K, w: World<Q, K>, s: Step<Q, K>)
    requires Inv(keyOf, w) && Enabled(w, s) && s.Bump?
    ensures Inv(keyOf, Next(keyOf, w, s))
  {
    var w' := Next(keyOf, w, s);
    assert forall g, from: nat | Fresh(w, g, from) :: Fresh(w', g, from);
  }

  lemma RequestsStayFresh<Q(!new), K(!new)>(keyOf: Q -> K, w: World<Q, K>, s: Step<Q, K>, t: nat)
    requires Inv(keyOf, w) && Enabled(w, s) && !s.Bump? && t in Next(keyOf, w, s).requests
    ensures var w' := Next(keyOf, w, s); var r := w'.requests[t];
      r.generation in w'.reached && (!r.Fetched? ==> Fresh(w', r.generation, r.from))
  {
    assert t in w.requests ==> w.requests[t].generation in w.reached;
  }

  lemma CacheStaysFresh<Q(!new), K(!new)>(keyOf: Q -> K, w: World<Q, K>, s: Step<Q, K>, k: K)
    requires Inv(keyOf, w) && Enabled(w, s) && !s.Bump? && k in Next(keyOf, w, s).cache
    ensures var w' := Next(keyOf, w, s);
      Fresh(w', w'.cache[k].generation, w'.cache[k].from) && keyOf(w'.cache[k].question) == k
  {
    assert k in w.cache ==> Fresh(w, w.cache[k].generation, w.cache[k].from);
  }

  lemma HitsStayFresh<Q(!new), K(!new)>(keyOf: Q -> K, w: World<Q, K>, s: Step<Q, K>, i: nat)
    requires Inv(keyOf, w) && Enabled(w, s) && !s.Bump? && i < |Next(keyOf, w, s).hits|
    ensures var w' := Next(keyOf, w, s);
      && Fresh(w', w'.hits[i].generation, w'.hits[i].from)
      && keyOf(w'.hits[i].asked) == keyOf(w'.hits[i].answered)
  {
    assert i < |w.hits| ==> Fresh(w, w.hits[i].generation, w.hits[i].from);
  }

  lemma RequestKeepsInv<Q(!new), K(!new)>(keyOf: Q -> K, w: World<Q, K>, s: Step<Q, K>)
    requires Inv(keyOf, w) && Enabled(w, s) && !s.Bump?
    ensures Inv(keyOf, Next(keyOf, w, s))
  {
    var w' := Next(keyOf, w, s);
    assert w'.reached == w.reached && w'.generation == w.generation && w'.now == w.now + 1;
    hide Next, Fresh;
    forall t | t in w'.requests
      ensures w'.requests[t].generation in w'.reached
      ensures !w'.requests[t].Fetched? ==> Fresh(w', w'.requests[t].generation, w'.requests[t].from)
    {
      RequestsStayFresh(keyOf, w, s, t);
    }
    forall k | k in w'.cache
      ensures Fresh(w', w'.cache[k].generation, w'.cache[k].from) && keyOf(w'.cache[k].question) == k
    {
      CacheStaysFresh(keyOf, w, s, k);
    }
    forall i | 0 <= i < |w'.hits|
      ensures Fresh(w', w'.hits[i].generation, w'.hits[i].from)
      ensures keyOf(w'.hits[i].asked) == keyOf(w'.hits[i].answered)
    {
      HitsStayFresh(keyOf, w, s, i);
    }
  }

  /**
   In every interleaving, each answer served from the cache to a request that read
   generation g comes from a build, for a question with the same key, that started after g
   had been reached; an answer built from older data is never served under a newer generation.
   */
  lemma {:induction false} EveryHitIsFresh<Q(!new), K(!new)>(keyOf: Q -> K, generation: nat, steps: seq<Step<Q, K>>)
    requires IsRun(keyOf, generation, steps)
    ensures Inv(keyOf, After(keyOf, generation, steps))
    ensures var w := After(keyOf, generation, steps);
      forall i | 0 <= i < |w.hits| ::
        && w.hits[i].generation in w.reached && w.reached[w.hits[i].generation] <= w.hits[i].from
        && keyOf(w.hits[i].asked) == keyOf(w.hits[i].answered)
  {
    if steps != [] {
      EveryHitIsFresh(keyOf, generation, steps[..|steps| - 1]);
      var w, s := After(keyOf, generation, steps[..|steps| - 1]), steps[|steps| - 1];
      if s.Bump? { BumpKeepsInv(keyOf, w, s); } else { RequestKeepsInv(keyOf, w, s); }
    }
  }

  /** Once a newer generation was reached before a request read its own, no hit predates it. */
  lemma NoHitPredatesOlderBump<Q(!new), K(!new)>(keyOf: Q -> K, generation: nat, steps: seq<Step<Q, K>>, i: nat, g: nat)
    requires IsRun(keyOf, generation, steps) && i < |After(keyOf, generation, steps).hits|
    requires var w := After(keyOf, generation, steps); g in w.reached && g <= w.hits[i].generation
    ensures var w := After(keyOf, generation, steps); w.reached[g] <= w.hits[i].from
  {
    EveryHitIsFresh(keyOf, generation, steps);
    HitIsNewEnough(keyOf, After(keyOf, generation, steps), i, g);
  }

  lemma HitIsNewEnough<Q(!new), K(!new)>(keyOf: Q -> K, w: World<Q, K>, i: nat, g: nat)
    requires Inv(keyOf, w) && i < |w.hits| && g in w.reached && g <= w.hits[i].generation
    ensures w.reached[g] <= w.hits[i].from
  {
    assert Fresh(w, w.hits[i].generation, w.hits[i].from);
  }
}
