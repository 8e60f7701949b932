/**
 What the cache between threads serves, told from the steps alone: the last generation
 bump, the last time a request read the generation, when its build started, and the last
 answer that was stored under a key and not evicted since.
 */
module CacheHistory {
  import opened BasicTypes
  import opened CacheCoherence

  /** The generation after these steps. */
  function GenerationAfter<Q, K>(generation: nat, steps: seq<Step<Q, K>>): nat {
    if steps == [] then generation else
    var before, last := steps[..|steps| - 1], steps[|steps| - 1];
    if last.Bump? then last.to else GenerationAfter(generation, before)
  }

  /** The last step a request took itself. */
  function LastOwn<Q, K>(steps: seq<Step<Q, K>>, t: nat): (own: Option<Step<Q, K>>)
    ensures own.Some? ==> !own.value.Bump? && own.value.t == t
  {
    if steps == [] then None else
    var before, last := steps[..|steps| - 1], steps[|steps| - 1];
    if !last.Bump? && last.t == t then Some(last) else LastOwn(before, t)
  }

  /** What a request last asked, with the generation it then read. */
  function LastAsked<Q, K>(generation: nat, steps: seq<Step<Q, K>>, t: nat): Option<(Q, nat)> {
    if steps == [] then None else
    var before, last := steps[..|steps| - 1], steps[|steps| - 1];
    if last.ReadGeneration? && last.t == t then Some((last.question, GenerationAfter(generation, before)))
    else LastAsked(generation, before, t)
  }

  /** How many steps had been taken when a request last looked into the cache. */
  function LastLooked<Q, K>(steps: seq<Step<Q, K>>, t: nat): nat {
    if steps == [] || (steps[|steps| - 1].Lookup? && steps[|steps| - 1].t == t) then |steps|
    else LastLooked(steps[..|steps| - 1], t)
  }

  /** The answer under a key: the last one stored there, unless it was evicted or none fitted. */
  function LastStored<Q, K(==)>(keyOf: Q -> K, generation: nat, steps: seq<Step<Q, K>>, k: K)
    : Option<CachedAnswer<Q>>
  {
    if steps == [] then None else
    var before, last := steps[..|steps| - 1], steps[|steps| - 1];
    if !last.Insert? || last.oversized then LastStored(keyOf, generation, before, k) else
    var asked := LastAsked(generation, before, last.t);
    if asked.Some? && keyOf(asked.value.0) == k then
      Some(CachedAnswer(asked.value.0, asked.value.1, LastLooked(before, last.t)))
    else if k in last.evicted then None
    else LastStored(keyOf, generation, before, k)
  }

  /** How many steps had been taken when a generation was reached, if it was. */
  function ReachedAt<Q, K>(generation: nat, steps: seq<Step<Q, K>>, g: nat): Option<nat> {
    if steps == [] then (if g == generation then Some(0) else None) else
    var before, last := steps[..|steps| - 1], steps[|steps| - 1];
    if last.Bump? && last.to == g then Some(|steps|) else ReachedAt(generation, before, g)
  }

  /** A request still under way has read the generation, looked and missed, or finished its build. */
  ghost predicate IsAsTold<Q, K>(r: Request<Q>, generation: nat, steps: seq<Step<Q, K>>, t: nat) {
    && LastAsked(generation, steps, t) == Some((r.question, r.generation))
    && LastOwn(steps, t).Some?
    && var own := LastOwn(steps, t).value;
    match r
    case Fetched(_, _) => own.ReadGeneration?
    case Building(_, _, from) => own.Lookup? && from == LastLooked(steps, t)
    case Built(_, _, from) => own.FinishBuild? && from == LastLooked(steps, t)
  }

  ghost predicate Told<Q(!new), K(!new)>(keyOf: Q -> K, generation: nat, steps: seq<Step<Q, K>>, w: World<Q, K>) {
    && w.now == |steps| && w.generation == GenerationAfter(generation, steps)
    && (forall g :: ReachedAt(generation, steps, g) == if g in w.reached then Some(w.reached[g]) else None)
    && (forall t | t in w.requests :: IsAsTold(w.requests[t], generation, steps, t))
    && (forall k :: LastStored(keyOf, generation, steps, k) == if k in w.cache then Some(w.cache[k]) else None)
  }

  lemma RequestsStayTold<Q(!new), K(!new)>(
    keyOf: Q -> K, generation: nat, before: seq<Step<Q, K>>, s: Step<Q, K>, w: World<Q, K>, t: nat)
    requires Told(keyOf, generation, before, w) && Enabled(w, s) && t in Next(keyOf, w, s).requests
    ensures IsAsTold(Next(keyOf, w, s).requests[t], generation, before + [s], t)
  {
    assert (before + [s])[..|before + [s]| - 1] == before;
    assert t in w.requests ==> IsAsTold(w.requests[t], generation, before, t);
    hide LastStored;
  }

  lemma StoreStaysTold<Q(!new), K(!new)>(
    keyOf: Q -> K, generation: nat, before: seq<Step<Q, K>>, s: Step<Q, K>, w: World<Q, K>, k: K)
    requires Told(keyOf, generation, before, w) && Enabled(w, s)
    ensures var cache := Next(keyOf, w, s).cache;
      LastStored(keyOf, generation, before + [s], k) == if k in cache then Some(cache[k]) else None
  {
    assert (before + [s])[..|before + [s]| - 1] == before;
    assert s.Insert? ==> IsAsTold(w.requests[s.t], generation, before, s.t);
  }

  /** In every run the world is the one that the steps tell of. */
  lemma {:induction false} RunIsTold<Q(!new), K(!new)>(keyOf: Q -> K, generation: nat, steps: seq<Step<Q, K>>)
    requires IsRun(keyOf, generation, steps)
    ensures Told(keyOf, generation, steps, After(keyOf, generation, steps))
  {
    if steps != [] {
      var before, s := steps[..|steps| - 1], steps[|steps| - 1];
      RunIsTold(keyOf, generation, before);
      var w := After(keyOf, generation, before);
      assert before + [s] == steps;
      forall t | t in Next(keyOf, w, s).requests
        ensures IsAsTold(Next(keyOf, w, s).requests[t], generation, steps, t)
      {
        RequestsStayTold(keyOf, generation, before, s, w, t);
      }
      forall k
        ensures var cache := Next(keyOf, w, s).cache;
          LastStored(keyOf, generation, steps, k) == if k in cache then Some(cache[k]) else None
      {
        StoreStaysTold(keyOf, generation, before, s, w, k);
      }
    }
  }

  /**
   A look into the cache is served exactly if the last answer stored under its key is still
   there and was stored under the generation that the request read when it began; it is then
   served that answer and no build is started. Otherwise a build starts.
   */
  lemma ServedExactlyWhen<Q(!new), K(!new)>(keyOf: Q -> K, generation: nat, before: seq<Step<Q, K>>, t: nat)
    requires IsRun(keyOf, generation, before + [Lookup(t)])
    ensures IsRun(keyOf, generation, before) && LastAsked(generation, before, t).Some?
    ensures var w, w' := After(keyOf, generation, before), After(keyOf, generation, before + [Lookup(t)]);
      var (question, readAt) := LastAsked(generation, before, t).value;
      var stored := LastStored(keyOf, generation, before, keyOf(question));
      if stored.Some? && stored.value.generation == readAt then
        && w'.hits == w.hits + [Hit(question, readAt, stored.value.question, stored.value.from, |before| + 1)]
        && t !in w'.requests
      else
        w'.hits == w.hits && t in w'.requests && w'.requests[t] == Building(question, readAt, |before| + 1)
  {
    assert (before + [Lookup(t)])[..|before + [Lookup(t)]| - 1] == before;
    RunIsTold(keyOf, generation, before);
    assert IsAsTold(After(keyOf, generation, before).requests[t], generation, before, t);
    hide LastAsked, LastStored;
  }

  /** An answer is stored only by the request whose build for it finished, after its own look missed. */
  lemma OnlyFinishedBuildsAreStored<Q(!new), K(!new)>(
    keyOf: Q -> K, generation: nat, before: seq<Step<Q, K>>, t: nat, oversized: bool, evicted: set<K>)
    requires IsRun(keyOf, generation, before + [Insert(t, oversized, evicted)])
    ensures LastOwn(before, t) == Some(FinishBuild(t))
  {
    var s: Step<Q, K> := Insert(t, oversized, evicted);
    assert (before + [s])[..|before + [s]| - 1] == before;
    RunIsTold(keyOf, generation, before);
    assert IsAsTold(After(keyOf, generation, before).requests[t], generation, before, t);
  }
}
