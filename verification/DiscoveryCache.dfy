/**
 The discovery cache (`src/metadata.rs`): a map of at most 128 answers, each tagged with
 the storage generation it was built for and an insertion number, the smallest evicted first.

 `Recency` is the reference: the keys of all accepted insertions, each at its last one,
 oldest first, with nothing ever evicted. The cache is proved to hold exactly the last 128
 keys of that list, with the value and generation each was last inserted with.
 */
module DiscoveryCache {
  import opened BasicTypes

  const MAX_CACHE_ENTRIES: nat := 128
  const MAX_CACHE_VALUE_BYTES: nat := 128 * 1024

  datatype Entry<V> = Entry(generation: nat, seqNo: nat, value: V)

  /** An accepted insertion; oversized values never get this far. */
  datatype Insertion<K, V> = Insertion(key: K, generation: nat, value: V)

  // ----- Reference -----

  ghost function Without<K(!new)>(keys: seq<K>, k: K): (r: seq<K>)
    ensures k !in r
    ensures forall x :: x in r <==> x in keys && x != k
  {
    if keys == [] then [] else
    var rest := Without(keys[..|keys| - 1], k);
    if keys[|keys| - 1] == k then rest else rest + [keys[|keys| - 1]]
  }

  /** Every key ever inserted, ordered by its last insertion. */
  ghost function Recency<K(!new), V>(log: seq<Insertion<K, V>>): seq<K> {
    if log == [] then [] else
    Without(Recency(log[..|log| - 1]), log[|log| - 1].key) + [log[|log| - 1].key]
  }

  /** The position of a key's last insertion, -1 if it was never inserted. */
  ghost function LastIndex<K(!new), V>(log: seq<Insertion<K, V>>, k: K): (i: int)
    ensures -1 <= i < |log|
    ensures i >= 0 ==> log[i].key == k
    ensures forall j | i < j < |log| :: log[j].key != k
  {
    if log == [] then -1
    else if log[|log| - 1].key == k then |log| - 1
    else LastIndex(log[..|log| - 1], k)
  }

  ghost function LastN<K>(keys: seq<K>, n: nat): seq<K> {
    if |keys| <= n then keys else keys[|keys| - n..]
  }

  ghost predicate Distinct<K(!new)>(keys: seq<K>) {
    forall i, j | 0 <= i < j < |keys| :: keys[i] != keys[j]
  }

  // ----- One insertion, on the ordered list of cached keys -----

  /** Evict the oldest if a new key finds the list full, then put the key last. */
  ghost function Inserted<K(!new)>(keys: seq<K>, k: K): seq<K> {
    if k in keys then Without(keys, k) + [k]
    else if |keys| >= MAX_CACHE_ENTRIES then keys[1..] + [k]
    else keys + [k]
  }

  lemma {:induction false} WithoutAbsent<K(!new)>(keys: seq<K>, k: K)
    requires k !in keys
    ensures Without(keys, k) == keys
  {
    if keys != [] {
      WithoutAbsent(keys[..|keys| - 1], k);
    }
  }

  lemma {:induction false} WithoutConcat<K(!new)>(a: seq<K>, b: seq<K>, k: K)
    ensures Without(a + b, k) == Without(a, k) + Without(b, k)
  {
    if b == [] {
      assert a + b == a;
    } else {
      assert (a + b)[..|a + b| - 1] == a + b[..|b| - 1];
      WithoutConcat(a, b[..|b| - 1], k);
    }
  }

  lemma {:induction false} WithoutDistinct<K(!new)>(keys: seq<K>, k: K)
    requires Distinct(keys)
    ensures Distinct(Without(keys, k))
    ensures |Without(keys, k)| == if k in keys then |keys| - 1 else |keys|
  {
    if keys != [] {
      var init, last := keys[..|keys| - 1], keys[|keys| - 1];
      assert keys == init + [last] && last !in init;
      WithoutDistinct(init, k);
    }
  }

  ghost predicate SortedBy<K(!new)>(keys: seq<K>, position: K -> int) {
    forall i, j | 0 <= i < j < |keys| :: position(keys[i]) < position(keys[j])
  }

  lemma {:induction false} WithoutSorted<K(!new)>(keys: seq<K>, k: K, position: K -> int)
    requires SortedBy(keys, position)
    ensures SortedBy(Without(keys, k), position)
  {
    if keys != [] {
      var init, last := keys[..|keys| - 1], keys[|keys| - 1];
      WithoutSorted(init, k, position);
      forall x | x in init ensures position(x) < position(last) {
        var i :| 0 <= i < |init| && keys[i] == x;
      }
    }
  }

  ghost function Positions<K(!new), V>(log: seq<Insertion<K, V>>): K -> int {
    k => LastIndex(log, k)
  }

  /** The recency list orders exactly the inserted keys by their last insertion. */
  lemma {:induction false} RecencySorted<K(!new), V(!new)>(log: seq<Insertion<K, V>>)
    ensures SortedBy(Recency(log), Positions(log))
    ensures Distinct(Recency(log))
    ensures forall k :: k in Recency(log) <==> LastIndex(log, k) >= 0
  {
    if log != [] {
      var before, last := log[..|log| - 1], log[|log| - 1].key;
      RecencySorted(before);
      WithoutSorted(Recency(before), last, Positions(before));
      WithoutDistinct(Recency(before), last);
    }
  }

  lemma LastNOfConcat<K(!new)>(a: seq<K>, b: seq<K>)
    ensures LastN(a + b, |b|) == b
  {
  }

  lemma LastNSorted<K(!new)>(keys: seq<K>, n: nat, position: K -> int)
    requires SortedBy(keys, position)
    ensures SortedBy(LastN(keys, n), position)
  {
  }

  /** Inserting into the last 128 keys gives the last 128 keys after the insertion. */
  lemma InsertKeepsLastN<K(!new)>(all: seq<K>, k: K)
    requires Distinct(all)
    ensures Inserted(LastN(all, MAX_CACHE_ENTRIES), k) == LastN(Without(all, k) + [k], MAX_CACHE_ENTRIES)
  {
    var n := MAX_CACHE_ENTRIES;
    WithoutDistinct(all, k);
    if |all| < n {
      WithoutIfAbsent(all, k);
    } else {
      var old_, keep := all[..|all| - n], all[|all| - n..];
      assert all == old_ + keep && LastN(all, n) == keep;
      FullInsert(old_, keep, k);
    }
  }

  lemma WithoutIfAbsent<K(!new)>(keys: seq<K>, k: K)
    ensures k !in keys ==> Without(keys, k) == keys
  {
    if k !in keys {
      WithoutAbsent(keys, k);
    }
  }

  lemma FullInsert<K(!new)>(old_: seq<K>, keep: seq<K>, k: K)
    requires Distinct(old_ + keep) && |keep| == MAX_CACHE_ENTRIES
    ensures Inserted(keep, k) == LastN(Without(old_ + keep, k) + [k], |keep|)
  {
    hide Without, LastN;
    WithoutConcat(old_, keep, k);
    assert Distinct(keep) by {
      assert forall i | 0 <= i < |keep| :: keep[i] == (old_ + keep)[|old_| + i];
    }
    if k in keep {
      WithoutDistinct(keep, k);
      assert k !in old_ by {
        assert forall i | 0 <= i < |old_| :: old_[i] == (old_ + keep)[i];
        var j :| 0 <= j < |keep| && keep[j] == k;
        assert (old_ + keep)[|old_| + j] == k;
      }
      WithoutAbsent(old_, k);
      assert old_ + Without(keep, k) + [k] == old_ + (Without(keep, k) + [k]);
      LastNOfConcat(old_, Without(keep, k) + [k]);
    } else {
      WithoutAbsent(keep, k);
      var dropped := Without(old_, k) + [keep[0]];
      assert Without(old_, k) + keep + [k] == dropped + (keep[1..] + [k]);
      LastNOfConcat(dropped, keep[1..] + [k]);
    }
  }

  ghost function Cached<K(!new), V>(log: seq<Insertion<K, V>>): seq<K> {
    LastN(Recency(log), MAX_CACHE_ENTRIES)
  }

  /** An entry is what its key was last inserted with, numbered by that insertion. */
  ghost predicate IsLast<K(!new), V>(log: seq<Insertion<K, V>>, k: K, e: Entry<V>) {
    var i := LastIndex(log, k);
    i >= 0 && e == Entry(log[i].generation, i, log[i].value)
  }

  /** The map holds exactly the last 128 keys of the log, each as last inserted. */
  ghost predicate Tracks<K(!new), V>(entries: map<K, Entry<V>>, log: seq<Insertion<K, V>>) {
    && (forall k :: k in entries <==> k in Cached(log))
    && (forall k | k in entries :: IsLast(log, k, entries[k]))
  }

  lemma TracksSize<K(!new), V(!new)>(entries: map<K, Entry<V>>, log: seq<Insertion<K, V>>)
    requires Tracks(entries, log)
    ensures |entries| == |Cached(log)| <= MAX_CACHE_ENTRIES
  {
    RecencySorted(log);
    DistinctSize(Cached(log), entries.Keys);
  }

  lemma OldestIsFirst<K(!new), V(!new)>(entries: map<K, Entry<V>>, log: seq<Insertion<K, V>>, oldest: K)
    requires Tracks(entries, log) && oldest in entries
    requires forall k | k in entries :: entries[oldest].seqNo <= entries[k].seqNo
    ensures Cached(log) != [] && oldest == Cached(log)[0]
  {
    RecencySorted(log);
    LastNSorted(Recency(log), MAX_CACHE_ENTRIES, Positions(log));
    var order := Cached(log);
    assert SortedBy(order, Positions(log));
    hide Cached, LastIndex;
    var i :| 0 <= i < |order| && order[i] == oldest;
    assert order[0] in entries && IsLast(log, order[0], entries[order[0]]) && IsLast(log, oldest, entries[oldest]);
    assert Positions(log)(order[i]) <= Positions(log)(order[0]);
  }

  /** What one accepted insertion does to the reference. */
  lemma OneMore<K(!new), V(!new)>(log: seq<Insertion<K, V>>, i: Insertion<K, V>)
    ensures var order := Cached(log);
      forall k :: k in Cached(log + [i]) <==>
        k == i.key || (k in order && !(i.key !in order && |order| >= MAX_CACHE_ENTRIES && k == order[0]))
    ensures forall k :: LastIndex(log + [i], k) == if k == i.key then |log| else LastIndex(log, k)
  {
    assert (log + [i])[..|log|] == log;
    RecencySorted(log);
    InsertKeepsLastN(Recency(log), i.key);
  }

  lemma InsertTracks<K(!new), V(!new)>(entries: map<K, Entry<V>>, log: seq<Insertion<K, V>>,
                                       room: map<K, Entry<V>>, i: Insertion<K, V>)
    requires Tracks(entries, log)
    requires room ==
      if |Cached(log)| >= MAX_CACHE_ENTRIES && i.key !in entries then entries - {Cached(log)[0]} else entries
    ensures Tracks(room[i.key := Entry(i.generation, |log|, i.value)], log + [i])
  {
    OneMore(log, i);
    hide Cached, LastIndex;
    var after := room[i.key := Entry(i.generation, |log|, i.value)];
    forall k | k in after ensures IsLast(log + [i], k, after[k]) {
      if k != i.key {
        assert IsLast(log, k, entries[k]);
      }
    }
  }

  /** The distinct keys inserted after a key's last insertion. */
  ghost function InsertedSince<K(!new), V>(log: seq<Insertion<K, V>>, k: K): set<K> {
    set j | LastIndex(log, k) < j < |log| :: log[j].key
  }

  /**
   When a key is evicted, in one sentence: a key is cached exactly while fewer than 128
   distinct keys have been inserted since its own last insertion.
   */
  lemma CachedExactlyWhen<K(!new), V(!new)>(log: seq<Insertion<K, V>>, k: K)
    ensures k in Cached(log) <==> LastIndex(log, k) >= 0 && |InsertedSince(log, k)| < MAX_CACHE_ENTRIES
  {
    RecencySorted(log);
    var keys := Recency(log);
    if LastIndex(log, k) >= 0 {
      var p :| 0 <= p < |keys| && keys[p] == k;
      SinceIsSuffix(log, k, p);
      hide Recency, LastIndex, InsertedSince, SortedBy;
      TailSize(keys, p, InsertedSince(log, k));
      InLastN(keys, MAX_CACHE_ENTRIES, p);
    }
  }

  lemma TailSize<K(!new)>(keys: seq<K>, p: nat, s: set<K>)
    requires Distinct(keys) && p < |keys| && forall x :: x in s <==> x in keys[p + 1..]
    ensures |s| == |keys| - p - 1
  {
    assert Distinct(keys[p + 1..]);
    DistinctSize(keys[p + 1..], s);
  }

  lemma InLastN<K(!new)>(keys: seq<K>, n: nat, p: nat)
    requires Distinct(keys) && p < |keys|
    ensures keys[p] in LastN(keys, n) <==> p >= |keys| - n
  {
    var from := if |keys| <= n then 0 else |keys| - n;
    assert LastN(keys, n) == keys[from..];
    if p >= from {
      assert keys[from..][p - from] == keys[p];
    }
  }

  lemma SinceIsSuffix<K(!new), V(!new)>(log: seq<Insertion<K, V>>, k: K, p: nat)
    requires p < |Recency(log)| && Recency(log)[p] == k
    ensures forall x :: x in InsertedSince(log, k) <==> x in Recency(log)[p + 1..]
  {
    RecencySorted(log);
    hide Recency;
    var keys := Recency(log);
    forall x ensures x in InsertedSince(log, k) <==> x in keys[p + 1..] {
      if x in InsertedSince(log, k) {
        assert x in keys;
        var q :| 0 <= q < |keys| && keys[q] == x;
        assert Positions(log)(keys[p]) < Positions(log)(keys[q]);
        assert keys[p + 1..][q - p - 1] == x;
      }
      if x in keys[p + 1..] {
        var q :| p < q < |keys| && keys[q] == x;
        assert Positions(log)(keys[p]) < Positions(log)(keys[q]);
        assert log[LastIndex(log, x)].key == x;
      }
    }
  }

  // ----- The object -----

  class DiscoveryCache<K(!new, ==), V(!new)> {
    var entries: map<K, Entry<V>>
    var nextSeq: nat

    /** All accepted insertions so far. */
    ghost var log: seq<Insertion<K, V>>

    ghost predicate Valid()
      reads this
    {
      nextSeq == |log| && Tracks(entries, log)
    }

    constructor ()
      ensures Valid() && log == []
    {
      entries, nextSeq, log := map[], 0, [];
    }

    /** The last accepted value of a key that is still cached, if it was built for this generation. */
    method Get(key: K, generation: nat) returns (r: Option<V>)
      requires Valid()
      ensures var i := LastIndex(log, key);
        r == if key in Cached(log) && i >= 0 && log[i].generation == generation then Some(log[i].value) else None
    {
      if key in entries && entries[key].generation == generation {
        return Some(entries[key].value);
      }
      return None;
    }

    /** The entry with the smallest number is the one whose key was inserted longest ago. */
    method Oldest() returns (oldest: K)
      requires Valid() && |entries| > 0
      ensures oldest in entries && Cached(log) != [] && oldest == Cached(log)[0]
    {
      var rest := entries.Keys;
      oldest :| oldest in rest;
      rest := rest - {oldest};
      while rest != {}
        invariant oldest in entries && oldest !in rest && rest <= entries.Keys
        invariant forall k | k in entries && k !in rest :: entries[oldest].seqNo <= entries[k].seqNo
        decreases rest
      {
        var k :| k in rest;
        rest := rest - {k};
        if entries[k].seqNo < entries[oldest].seqNo {
          oldest := k;
        }
      }
      OldestIsFirst(entries, log, oldest);
    }

    /** `size` is the length in bytes of the value's JSON text. */
    method Insert(key: K, generation: nat, value: V, size: nat)
      requires Valid()
      modifies this
      ensures Valid()
      ensures log == if size > MAX_CACHE_VALUE_BYTES then old(log) else old(log) + [Insertion(key, generation, value)]
      ensures size > MAX_CACHE_VALUE_BYTES ==> entries == old(entries)
    {
      if size > MAX_CACHE_VALUE_BYTES {
        return;
      }
      hide Tracks, Cached;
      TracksSize(entries, log);
      if |entries| >= MAX_CACHE_ENTRIES && key !in entries {
        var oldest := Oldest();
        entries := entries - {oldest};
      }
      InsertTracks(old(entries), log, entries, Insertion(key, generation, value));
      entries := entries[key := Entry(generation, nextSeq, value)];
      nextSeq := nextSeq + 1;
      log := log + [Insertion(key, generation, value)];
    }
  }

  lemma {:induction false} DistinctSize<K(!new)>(keys: seq<K>, s: set<K>)
    requires Distinct(keys) && forall k :: k in s <==> k in keys
    ensures |s| == |keys|
  {
    if keys == [] {
      assert s == {};
    } else {
      var last := keys[|keys| - 1];
      assert keys == keys[..|keys| - 1] + [last];
      DistinctSize(keys[..|keys| - 1], s - {last});
    }
  }
}
