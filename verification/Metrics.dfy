/**
 Sharded metrics (`src/metrics.rs`): sixteen independently locked maps, the shard of a
 metric chosen by an FNV-1a hash of its name and labels.

 `Store` is the simple form, one map of counters and one of gauges. The sharded object
 is proved to refine it: reading all shards back gives the store that applied the same
 calls in the same order.
 */
module Metrics {
  import opened BasicTypes

  const SHARDS: nat := 16
  const TWO_64: nat := 0x1_0000_0000_0000_0000
  const FNV_BASIS: bv64 := 0xcbf2_9ce4_8422_2325

  type u64 = n: nat | n < 0x1_0000_0000_0000_0000

  // ----- Names and ids -----

  datatype Shape = Counter | Gauge | Observation

  datatype MetricName =
    | AdmissionCapacity | AdmissionInUse | AdmissionRejectionsTotal
    | DucklakeActiveDataFileRows | DucklakeActiveDataFiles | FreshnessWatermarkTimestamp
    | HttpConnectionClosesTotal | HttpConnectionErrorsTotal | HttpConnectionRequestsTotal
    | PhaseDurationSeconds | QueryDurationSeconds
    | QueryRequestsTotal | QueryTimeoutsTotal
    | StorageLogicalRows | StoragePhysicalBytes
  {
    function AsStr(): string {
      match this
      case AdmissionCapacity => "canardstack_admission_capacity"
      case AdmissionInUse => "canardstack_admission_in_use"
      case AdmissionRejectionsTotal => "canardstack_admission_rejections_total"
      case DucklakeActiveDataFileRows => "canardstack_ducklake_active_data_file_rows"
      case DucklakeActiveDataFiles => "canardstack_ducklake_active_data_files"
      case FreshnessWatermarkTimestamp => "canardstack_freshness_watermark_timestamp"
      case HttpConnectionClosesTotal => "canardstack_http_connection_closes_total"
      case HttpConnectionErrorsTotal => "canardstack_http_connection_errors_total"
      case HttpConnectionRequestsTotal => "canardstack_http_connection_requests_total"
      case PhaseDurationSeconds => "canardstack_phase_duration_seconds"
      case QueryDurationSeconds => "canardstack_query_duration_seconds"
      case QueryRequestsTotal => "canardstack_query_requests_total"
      case QueryTimeoutsTotal => "canardstack_query_timeouts_total"
      case StorageLogicalRows => "canardstack_storage_logical_rows"
      case StoragePhysicalBytes => "canardstack_storage_physical_bytes"
    }

    function Shape(): Shape {
      match this
      case PhaseDurationSeconds | QueryDurationSeconds => Observation
      case AdmissionRejectionsTotal | HttpConnectionClosesTotal | HttpConnectionErrorsTotal
         | HttpConnectionRequestsTotal | QueryRequestsTotal | QueryTimeoutsTotal => Counter
      case _ => Gauge
    }
  }

  type Labels = seq<(string, string)>

  datatype MetricId = MetricId(name: string, labels: Labels)

  function AllowedLabelKeys(name: MetricName): seq<string> {
    match name
    case AdmissionCapacity | AdmissionInUse => ["admission"]
    case AdmissionRejectionsTotal => ["admission", "reason"]
    case DucklakeActiveDataFileRows | DucklakeActiveDataFiles | FreshnessWatermarkTimestamp
       | StorageLogicalRows | StoragePhysicalBytes => ["storage_signal"]
    case HttpConnectionClosesTotal | HttpConnectionErrorsTotal => ["reason"]
    case HttpConnectionRequestsTotal => ["mode"]
    case PhaseDurationSeconds =>
      ["request_kind", "route_template", "storage_signal", "phase", "reason", "status", "path"]
    case QueryDurationSeconds | QueryTimeoutsTotal => ["route_template"]
    case QueryRequestsTotal => ["route_template", "status", "reason"]
  }

  /** The labels a call may carry: allowed keys, each at most once. */
  predicate LabelKeysAllowed(name: MetricName, labels: Labels) {
    && (forall i :: 0 <= i < |labels| ==> labels[i].0 in AllowedLabelKeys(name))
    && (forall i, j :: 0 <= i < j < |labels| ==> labels[i].0 != labels[j].0)
  }

  /** The check every call makes first; where it fails, the source panics. */
  method ValidateMetricLabels(name: MetricName, labels: Labels) returns (valid: bool)
    ensures valid <==> LabelKeysAllowed(name, labels)
  {
    var allowed := AllowedLabelKeys(name);
    for i := 0 to |labels|
      invariant forall k :: 0 <= k < i ==> labels[k].0 in allowed
    {
      if labels[i].0 !in allowed { return false; }
    }
    for i := 0 to |labels|
      invariant forall k, j :: 0 <= k < i && k < j < |labels| ==> labels[k].0 != labels[j].0
    {
      for j := i + 1 to |labels|
        invariant forall k :: i < k < j ==> labels[i].0 != labels[k].0
      {
        if labels[j].0 == labels[i].0 { return false; }
      }
    }
    valid := true;
  }

  // ----- The hash -----

  function Utf8Char(c: char): seq<int>
    ensures forall i :: 0 <= i < |Utf8Char(c)| ==> 0 <= Utf8Char(c)[i] < 256
  {
    var n := c as int;
    if n < 0x80 then [n]
    else if n < 0x800 then [0xC0 + n / 0x40, 0x80 + n % 0x40]
    else if n < 0x10000 then [0xE0 + n / 0x1000, 0x80 + n / 0x40 % 0x40, 0x80 + n % 0x40]
    else [0xF0 + n / 0x40000 % 8, 0x80 + n / 0x1000 % 0x40, 0x80 + n / 0x40 % 0x40, 0x80 + n % 0x40]
  }

  /** The code point that a UTF-8 sequence of this many bytes stands for; a wrong first byte stands for none. */
  function CodePoint(bytes: seq<int>): Option<int> {
    if |bytes| == 1 && bytes[0] < 0x80 then Some(bytes[0])
    else if |bytes| == 2 && bytes[0] / 0x20 == 6 then Some(bytes[0] % 0x20 * 0x40 + bytes[1] % 0x40)
    else if |bytes| == 3 && bytes[0] / 0x10 == 14 then
      Some((bytes[0] % 0x10 * 0x40 + bytes[1] % 0x40) * 0x40 + bytes[2] % 0x40)
    else if |bytes| == 4 && bytes[0] / 8 == 30 then
      Some(((bytes[0] % 8 * 0x40 + bytes[1] % 0x40) * 0x40 + bytes[2] % 0x40) * 0x40 + bytes[3] % 0x40)
    else None
  }

  /** How far a sequence of so many bytes reaches. */
  lemma CodePointBound(bytes: seq<byte>)
    requires CodePoint(bytes).Some?
    ensures CodePoint(bytes).value < [0, 0x80, 0x800, 0x1_0000, 0x20_0000][|bytes|]
  {
    assert forall b: byte :: b % 0x40 < 0x40 && b % 0x20 < 0x20 && b % 0x10 < 0x10 && b % 8 < 8;
  }

  lemma Continuation(n: nat)
    ensures (0x80 + n % 0x40) % 0x40 == n % 0x40 && (0x80 + n % 0x40) / 0x40 == 2
    ensures n == n / 0x40 * 0x40 + n % 0x40
  {
  }

  lemma FirstByte(n: nat)
    ensures n < 0x20 ==> (0xC0 + n) / 0x20 == 6 && (0xC0 + n) % 0x20 == n
    ensures n < 0x10 ==> (0xE0 + n) / 0x10 == 14 && (0xE0 + n) % 0x10 == n
    ensures n < 8 ==> (0xF0 + n) / 8 == 30 && (0xF0 + n) % 8 == n
  {
  }

  lemma Quotients(n: nat)
    ensures n / 0x40 / 0x40 == n / 0x1000 && n / 0x1000 / 0x40 == n / 0x4_0000
  {
  }

  lemma Utf8Decodes(c: char)
    ensures CodePoint(Utf8Char(c)) == Some(c as int)
    ensures forall i | 0 < i < |Utf8Char(c)| :: Utf8Char(c)[i] / 0x40 == 2
  {
    var n := c as int;
    Continuation(n);
    Continuation(n / 0x40);
    Continuation(n / 0x1000);
    Quotients(n);
    if n < 0x800 {
      FirstByte(n / 0x40);
    } else if n < 0x1_0000 {
      FirstByte(n / 0x1000);
    } else {
      FirstByte(n / 0x4_0000);
    }
  }

  /**
   A character's bytes are its UTF-8 encoding (section 3 of RFC 3629): they stand for its code
   point, all but the first are continuation bytes, and no shorter sequence stands for it.
   */
  lemma Utf8IsExact(c: char, bytes: seq<byte>)
    ensures CodePoint(Utf8Char(c)) == Some(c as int)
    ensures forall i | 0 < i < |Utf8Char(c)| :: Utf8Char(c)[i] / 0x40 == 2
    ensures CodePoint(bytes) == Some(c as int) ==> |bytes| >= |Utf8Char(c)|
  {
    Utf8Decodes(c);
    if CodePoint(bytes) == Some(c as int) {
      CodePointBound(bytes);
    }
    hide CodePoint;
  }

  function AsBytes(s: string): seq<byte> {
    if s == [] then [] else Utf8Char(s[0]) + AsBytes(s[1..])
  }

  function MixByte(hash: bv64, b: byte): bv64 {
    (hash ^ (b as bv64)) * 0x0000_0100_0000_01b3
  }

  function MixBytes(hash: bv64, bytes: seq<byte>): bv64 {
    if bytes == [] then hash else MixByte(MixBytes(hash, bytes[..|bytes| - 1]), bytes[|bytes| - 1])
  }

  /** One part of an id, closed by a separator byte. */
  function HashPart(hash: bv64, bytes: seq<byte>): bv64 {
    MixByte(MixBytes(hash, bytes), 0xff)
  }

  function HashLabels(hash: bv64, labels: Labels): bv64 {
    if labels == [] then hash else
    var (key, value) := labels[|labels| - 1];
    HashPart(HashPart(HashLabels(hash, labels[..|labels| - 1]), AsBytes(key)), AsBytes(value))
  }

  function ShardOf(id: MetricId): (shard: nat)
    ensures shard < SHARDS
  {
    var hash := HashLabels(HashPart(FNV_BASIS, AsBytes(id.name)), id.labels);
    (hash & 0xf) as nat
  }

  // ----- The simple form: one map of each kind -----

  datatype Store = Store(counters: map<MetricId, u64>, gauges: map<MetricId, real>)

  const EMPTY := Store(map[], map[])

  /** What one call does to the maps while it holds one lock. */
  datatype Op =
    | AddCounter(id: MetricId, delta: u64)
    | SetGauge(id: MetricId, value: real)
    | AddGauge(id: MetricId, amount: real)

  /** Counters are 64 bits wide and wrap around. */
  function Wrap(n: nat): u64 {
    n % TWO_64
  }

  lemma WrapTwice(m: nat, n: nat)
    ensures Wrap(Wrap(m) + n) == Wrap(m + n) && Wrap(0) == 0
  {
  }

  function CounterValue(s: Store, id: MetricId): u64 {
    if id in s.counters then s.counters[id] else 0
  }

  function GaugeValue(s: Store, id: MetricId): real {
    if id in s.gauges then s.gauges[id] else 0.0
  }

  function Apply(s: Store, op: Op): Store {
    match op
    case AddCounter(id, delta) => s.(counters := s.counters[id := Wrap(CounterValue(s, id) + delta)])
    case SetGauge(id, value) => s.(gauges := s.gauges[id := value])
    case AddGauge(id, amount) => s.(gauges := s.gauges[id := GaugeValue(s, id) + amount])
  }

  function ApplyAll(ops: seq<Op>): Store {
    if ops == [] then EMPTY else Apply(ApplyAll(ops[..|ops| - 1]), ops[|ops| - 1])
  }

  // ----- The sharded form -----

  type Shards = s: seq<Store> | |s| == SHARDS witness seq(SHARDS, _ => EMPTY)

  function NewShards(): Shards {
    seq(SHARDS, _ => EMPTY)
  }

  function ApplySharded(shards: Shards, op: Op): Shards {
    var i := ShardOf(op.id);
    shards[i := Apply(shards[i], op)]
  }

  function ApplyAllSharded(ops: seq<Op>): Shards {
    if ops == [] then NewShards() else ApplySharded(ApplyAllSharded(ops[..|ops| - 1]), ops[|ops| - 1])
  }

  /** Reading the shards back, the first n of them, later entries overwriting earlier ones. */
  function Merged(shards: Shards, n: nat): Store
    requires n <= SHARDS
  {
    if n == 0 then EMPTY else
    var s := Merged(shards, n - 1);
    Store(s.counters + shards[n - 1].counters, s.gauges + shards[n - 1].gauges)
  }

  ghost predicate Placed(shards: Shards) {
    forall i | 0 <= i < SHARDS ::
      && (forall id | id in shards[i].counters :: ShardOf(id) == i)
      && (forall id | id in shards[i].gauges :: ShardOf(id) == i)
  }

  /** The two stores agree on one id. */
  ghost predicate SameAt(a: Store, b: Store, id: MetricId) {
    && (id in a.counters <==> id in b.counters) && (id in a.counters ==> a.counters[id] == b.counters[id])
    && (id in a.gauges <==> id in b.gauges) && (id in a.gauges ==> a.gauges[id] == b.gauges[id])
  }

  /** In a placed state an id is read back from its own shard only, and nothing overwrites it. */
  lemma {:induction false} MergedLooksUp(shards: Shards, n: nat, id: MetricId)
    requires Placed(shards) && n <= SHARDS
    ensures SameAt(Merged(shards, n), if ShardOf(id) < n then shards[ShardOf(id)] else EMPTY, id)
  {
    hide ShardOf;
    if n > 0 {
      MergedLooksUp(shards, n - 1, id);
    }
  }

  /** Shard domains never overlap, so merging one more shard overwrites nothing. */
  lemma ShardsAreDisjoint(shards: Shards, n: nat)
    requires Placed(shards) && n < SHARDS
    ensures Merged(shards, n).counters.Keys !! shards[n].counters.Keys
    ensures Merged(shards, n).gauges.Keys !! shards[n].gauges.Keys
  {
    forall id ensures id in Merged(shards, n).counters ==> id !in shards[n].counters
              ensures id in Merged(shards, n).gauges ==> id !in shards[n].gauges
    {
      MergedLooksUp(shards, n, id);
    }
  }

  lemma StoresEqual(a: Store, b: Store)
    requires forall id :: SameAt(a, b, id)
    ensures a == b
  {
    forall id
      ensures (id in a.counters <==> id in b.counters) && (id in a.counters ==> a.counters[id] == b.counters[id])
      ensures (id in a.gauges <==> id in b.gauges) && (id in a.gauges ==> a.gauges[id] == b.gauges[id])
    {
      assert SameAt(a, b, id);
    }
  }

  lemma ApplyShardedRefines(shards: Shards, op: Op)
    requires Placed(shards)
    ensures Placed(ApplySharded(shards, op))
    ensures Merged(ApplySharded(shards, op), SHARDS) == Apply(Merged(shards, SHARDS), op)
  {
    hide ShardOf, Merged;
    var after := ApplySharded(shards, op);
    assert Placed(after);
    var a, b := Merged(after, SHARDS), Apply(Merged(shards, SHARDS), op);
    forall id ensures SameAt(a, b, id) {
      MergedLooksUp(shards, SHARDS, id);
      MergedLooksUp(after, SHARDS, id);
      MergedLooksUp(shards, SHARDS, op.id);
    }
    StoresEqual(a, b);
  }

  /**
   For every sequence of operations, in whatever order the threads' lock sections fall,
   every id sits in the shard its hash selects and the shards read back as the one store
   that applied all of them.
   */
  lemma {:induction false} ShardedRefinesFlat(ops: seq<Op>)
    ensures Placed(ApplyAllSharded(ops))
    ensures Merged(ApplyAllSharded(ops), SHARDS) == ApplyAll(ops)
  {
    hide Merged, ApplySharded, Apply, ShardOf;
    if ops == [] {
      EmptyMerges(SHARDS);
    } else {
      ShardedRefinesFlat(ops[..|ops| - 1]);
      ApplyShardedRefines(ApplyAllSharded(ops[..|ops| - 1]), ops[|ops| - 1]);
    }
  }

  lemma {:induction false} EmptyMerges(n: nat)
    requires n <= SHARDS
    ensures Merged(NewShards(), n) == EMPTY
  {
    if n > 0 {
      EmptyMerges(n - 1);
    }
  }

  /**
   A render locks the shards one after another while other threads keep writing: shard i is
   read after `times[i]` operations. Each id then has the value it had in the single store
   at the moment its own shard was read.
   */
  lemma TornReadIsPerIdExact(ops: seq<Op>, times: seq<nat>, read: Shards, id: MetricId)
    requires |times| == SHARDS
    requires forall i :: 0 <= i < SHARDS ==> times[i] <= |ops| && read[i] == ApplyAllSharded(ops[..times[i]])[i]
    ensures SameAt(Merged(read, SHARDS), ApplyAll(ops[..times[ShardOf(id)]]), id)
  {
    forall i | 0 <= i < SHARDS
      ensures forall m | m in read[i].counters :: ShardOf(m) == i
      ensures forall m | m in read[i].gauges :: ShardOf(m) == i
    {
      ShardedRefinesFlat(ops[..times[i]]);
    }
    assert Placed(read);
    MergedLooksUp(read, SHARDS, id);
    var then_ := ops[..times[ShardOf(id)]];
    ShardedRefinesFlat(then_);
    MergedLooksUp(ApplyAllSharded(then_), SHARDS, id);
  }

  // ----- Observations: the count and sum match the calls -----

  /** One lock section of one call; an observation has two. */
  datatype Event =
    | Incremented(name: MetricName, labels: Labels, delta: u64)
    | Gauged(name: MetricName, labels: Labels, value: real)
    | CountObserved(name: MetricName, labels: Labels)
    | SumObserved(name: MetricName, labels: Labels, seconds: real)

  function CountId(name: MetricName, labels: Labels): MetricId {
    MetricId(name.AsStr() + "_count", labels)
  }

  function SumId(name: MetricName, labels: Labels): MetricId {
    MetricId(name.AsStr() + "_sum", labels)
  }

  function OpOf(e: Event): Op {
    match e
    case Incremented(name, labels, delta) => AddCounter(MetricId(name.AsStr(), labels), delta)
    case Gauged(name, labels, value) => SetGauge(MetricId(name.AsStr(), labels), value)
    case CountObserved(name, labels) => AddCounter(CountId(name, labels), 1)
    case SumObserved(name, labels, seconds) => AddGauge(SumId(name, labels), seconds)
  }

  function OpsOf(events: seq<Event>): seq<Op> {
    seq(|events|, i requires 0 <= i < |events| => OpOf(events[i]))
  }

  function Observations(events: seq<Event>, name: MetricName, labels: Labels): nat {
    if events == [] then 0 else
    Observations(events[..|events| - 1], name, labels)
    + if events[|events| - 1] == CountObserved(name, labels) then 1 else 0
  }

  function Seconds(events: seq<Event>, name: MetricName, labels: Labels): real {
    if events == [] then 0.0 else
    var e := events[|events| - 1];
    Seconds(events[..|events| - 1], name, labels)
    + if e.SumObserved? && e.name == name && e.labels == labels then e.seconds else 0.0
  }

  /** How a name ends tells its shape; none ends as a rendered count or sum does. */
  lemma NameEnds(name: MetricName)
    ensures var s := name.AsStr();
      && |s| >= 28 && s[|s| - 1] != 't' && s[|s| - 1] != 'm'
      && (s[|s| - 1] == 'l' <==> name.Shape() == Counter)
      && (name.Shape() == Gauge ==> s[|s| - 8] != '_')
      && (name.Shape() == Observation ==> s[|s| - 8] == '_')
  {
  }

  lemma GaugesDiffer(a: MetricName, b: MetricName)
    requires a != b && a.Shape() == Gauge && b.Shape() == Gauge
    ensures |a.AsStr()| != |b.AsStr()|
  {
  }

  lemma CountersDiffer(a: MetricName, b: MetricName)
    requires a != b && a.Shape() == Counter && b.Shape() == Counter
    ensures a.AsStr() != b.AsStr()
  {
    if |a.AsStr()| == |b.AsStr()| {
      assert a.AsStr()[18] != b.AsStr()[18] || a.AsStr()[28] != b.AsStr()[28];
    }
  }

  lemma ObservedDiffer(a: MetricName, b: MetricName)
    requires a != b && a.Shape() == Observation && b.Shape() == Observation
    ensures a.AsStr() != b.AsStr()
  {
    assert a.AsStr()[12] != b.AsStr()[12];
  }

  /** No two metrics have one name. */
  lemma NamesDiffer(a: MetricName, b: MetricName)
    requires a != b
    ensures a.AsStr() != b.AsStr()
  {
    if a.Shape() == b.Shape() == Gauge {
      GaugesDiffer(a, b);
    } else if a.Shape() == b.Shape() == Counter {
      CountersDiffer(a, b);
    } else if a.Shape() == b.Shape() {
      ObservedDiffer(a, b);
    } else {
      NameEnds(a);
      NameEnds(b);
    }
    hide MetricName.AsStr;
  }

  lemma SuffixesDiffer(s: string, o: string)
    requires s != [] && s[|s| - 1] != 't' && s[|s| - 1] != 'm'
    ensures s != o + "_count" && s != o + "_sum"
  {
    var count, sum := o + "_count", o + "_sum";
    assert count[|count| - 1] == "_count"[5] && sum[|sum| - 1] == "_sum"[3];
  }

  lemma SuffixedDiffer(s: string, o: string, suffix: string)
    ensures s + suffix == o + suffix ==> s == o
  {
    assert s == (s + suffix)[..|s|] && o == (o + suffix)[..|o|];
  }

  /** No metric shares its name with the count or sum of one, and no two counts or sums share theirs. */
  lemma ObservationNamesAreOwn(o: MetricName, other: MetricName)
    ensures other.AsStr() != o.AsStr() + "_count" && other.AsStr() != o.AsStr() + "_sum"
    ensures other != o ==>
              other.AsStr() + "_count" != o.AsStr() + "_count" && other.AsStr() + "_sum" != o.AsStr() + "_sum"
  {
    hide *;
    NameEnds(other);
    SuffixesDiffer(other.AsStr(), o.AsStr());
    if other != o {
      NamesDiffer(other, o);
      SuffixedDiffer(other.AsStr(), o.AsStr(), "_count");
      SuffixedDiffer(other.AsStr(), o.AsStr(), "_sum");
    }
  }

  /** Which events move an observed metric's count and sum: its own observations, nothing else. */
  lemma OnlyObservationsCount(e: Event, name: MetricName, labels: Labels)
    ensures var op := OpOf(e);
      && (op.AddCounter? && op.id == CountId(name, labels) <==> e == CountObserved(name, labels))
      && (op.AddGauge? && op.id == SumId(name, labels) <==> e.SumObserved? && e.name == name && e.labels == labels)
      && !(op.SetGauge? && op.id == SumId(name, labels))
  {
    ObservationNamesAreOwn(name, e.name);
    ObservationNamesAreOwn(e.name, name);
  }

  /**
   In every history of calls, however their lock sections interleave, an observed
   metric's count is the number of its observations (modulo the counter's width) and its sum
   is the sum of their seconds.
   */
  lemma {:induction false} ObservationTotals(events: seq<Event>, name: MetricName, labels: Labels)
    ensures TotalsMatch(events, name, labels)
  {
    hide OpOf, CountId, SumId, Apply, Wrap;
    if events == [] {
      assert OpsOf(events) == [];
      WrapTwice(0, 0);
    } else {
      hide OpsOf, ApplyAll, CounterValue, GaugeValue;
      var before, e := events[..|events| - 1], events[|events| - 1];
      ObservationTotals(before, name, labels);
      LastEventApplied(events);
      ObservedStep(ApplyAll(OpsOf(before)), e, name, labels);
      WrapTwice(Observations(before, name, labels), 1);
    }
  }

  ghost predicate TotalsMatch(events: seq<Event>, name: MetricName, labels: Labels) {
    var s := ApplyAll(OpsOf(events));
    && CounterValue(s, CountId(name, labels)) == Wrap(Observations(events, name, labels))
    && GaugeValue(s, SumId(name, labels)) == Seconds(events, name, labels)
  }

  lemma LastEventApplied(events: seq<Event>)
    requires events != []
    ensures ApplyAll(OpsOf(events)) == Apply(ApplyAll(OpsOf(events[..|events| - 1])), OpOf(events[|events| - 1]))
  {
    hide OpOf, Apply;
    assert OpsOf(events)[..|events| - 1] == OpsOf(events[..|events| - 1]);
  }

  lemma ObservedStep(s: Store, e: Event, name: MetricName, labels: Labels)
    ensures var s' := Apply(s, OpOf(e));
      && CounterValue(s', CountId(name, labels))
         == (if e == CountObserved(name, labels) then Wrap(CounterValue(s, CountId(name, labels)) + 1)
             else CounterValue(s, CountId(name, labels)))
      && GaugeValue(s', SumId(name, labels))
         == GaugeValue(s, SumId(name, labels))
            + (if e.SumObserved? && e.name == name && e.labels == labels then e.seconds else 0.0)
  {
    hide CountId, SumId;
    OnlyObservationsCount(e, name, labels);
    match e
    case CountObserved(_, _) =>
    case SumObserved(_, _, _) =>
    case Incremented(_, _, _) =>
    case Gauged(_, _, _) =>
  }

  // ----- Counters and gauges: what the calls leave -----

  /** The sum of a counter's increments. */
  function Increments(events: seq<Event>, name: MetricName, labels: Labels): nat {
    if events == [] then 0 else
    var e := events[|events| - 1];
    Increments(events[..|events| - 1], name, labels)
    + if e.Incremented? && e.name == name && e.labels == labels then e.delta else 0
  }

  /** The last value a gauge was set to. */
  function LastGauged(events: seq<Event>, name: MetricName, labels: Labels): Option<real> {
    if events == [] then None else
    var e := events[|events| - 1];
    if e.Gauged? && e.name == name && e.labels == labels then Some(e.value)
    else LastGauged(events[..|events| - 1], name, labels)
  }

  function GaugeAt(s: Store, id: MetricId): Option<real> {
    if id in s.gauges then Some(s.gauges[id]) else None
  }

  ghost predicate ReadsAsCalled(s: Store, events: seq<Event>, name: MetricName, labels: Labels) {
    var id := MetricId(name.AsStr(), labels);
    && CounterValue(s, id) == Wrap(Increments(events, name, labels))
    && GaugeAt(s, id) == LastGauged(events, name, labels)
  }

  lemma OneEventRead(s: Store, e: Event, name: MetricName, labels: Labels)
    ensures var id, s' := MetricId(name.AsStr(), labels), Apply(s, OpOf(e));
      && CounterValue(s', id) ==
           (if e.Incremented? && e.name == name && e.labels == labels then Wrap(CounterValue(s, id) + e.delta)
            else CounterValue(s, id))
      && GaugeAt(s', id) ==
           (if e.Gauged? && e.name == name && e.labels == labels then Some(e.value) else GaugeAt(s, id))
  {
    ObservationNamesAreOwn(e.name, name);
    if e.name != name {
      NamesDiffer(e.name, name);
    }
    hide MetricName.AsStr, Wrap;
  }

  lemma OneMoreRead(s: Store, events: seq<Event>, name: MetricName, labels: Labels)
    requires events != [] && ReadsAsCalled(s, events[..|events| - 1], name, labels)
    ensures ReadsAsCalled(Apply(s, OpOf(events[|events| - 1])), events, name, labels)
  {
    hide OpOf, Apply, Wrap, CounterValue, GaugeAt, MetricName.AsStr;
    var e := events[|events| - 1];
    OneEventRead(s, e, name, labels);
    if e.Incremented? {
      WrapTwice(Increments(events[..|events| - 1], name, labels), e.delta);
    }
  }

  /**
   In every history of calls, in whatever order their lock sections fall, a counter is the
   sum of its increments (modulo its width) and a gauge the last value it was set to.
   */
  lemma {:induction false} CountersAndGaugesRead(events: seq<Event>, name: MetricName, labels: Labels)
    ensures ReadsAsCalled(ApplyAll(OpsOf(events)), events, name, labels)
  {
    hide OpOf, Apply, Wrap;
    if events == [] {
      assert OpsOf(events) == [];
      WrapTwice(0, 0);
    } else {
      hide OpsOf, ApplyAll, ReadsAsCalled;
      CountersAndGaugesRead(events[..|events| - 1], name, labels);
      LastEventApplied(events);
      OneMoreRead(ApplyAll(OpsOf(events[..|events| - 1])), events, name, labels);
    }
  }

  // ----- The object -----

  class Metrics {
    const shards: array<Store>

    ghost predicate Valid()
      reads this, shards
    {
      shards.Length == SHARDS && Placed(shards[..])
    }

    constructor ()
      ensures Valid() && fresh(shards) && shards[..] == NewShards()
    {
      shards := new Store[SHARDS](_ => EMPTY);
      new;
      assert shards[..] == NewShards();
    }

    /** The store all calls so far add up to. */
    ghost function Contents(): Store
      reads this, shards
      requires Valid()
    {
      Merged(shards[..], SHARDS)
    }

    method HashPartInto(hash: bv64, bytes: seq<byte>) returns (h: bv64)
      ensures h == HashPart(hash, bytes)
    {
      h := hash;
      for i := 0 to |bytes|
        invariant h == MixBytes(hash, bytes[..i])
      {
        h := MixByte(h, bytes[i]);
        assert bytes[..i + 1][..i] == bytes[..i];
      }
      assert bytes[..|bytes|] == bytes;
      h := MixByte(h, 0xff);
    }

    method ShardFor(id: MetricId) returns (shard: nat)
      ensures shard == ShardOf(id)
    {
      hide HashPart, AsBytes;
      var hash := HashPartInto(FNV_BASIS, AsBytes(id.name));
      ghost var start := hash;
      for i := 0 to |id.labels|
        invariant hash == HashLabels(start, id.labels[..i])
      {
        hash := HashPartInto(hash, AsBytes(id.labels[i].0));
        hash := HashPartInto(hash, AsBytes(id.labels[i].1));
        assert id.labels[..i + 1][..i] == id.labels[..i];
      }
      assert id.labels[..|id.labels|] == id.labels;
      shard := (hash & 0xf) as nat;
    }

    method ApplyOp(op: Op)
      requires Valid()
      modifies shards
      ensures Valid() && Contents() == Apply(old(Contents()), op)
    {
      var i := ShardFor(op.id);
      ghost var before: Shards := shards[..];
      shards[i] := Apply(shards[i], op);
      assert shards[..] == ApplySharded(before, op);
      ApplyShardedRefines(before, op);
    }

    method Inc(name: MetricName, labels: Labels, delta: u64)
      requires Valid() && name.Shape() == Counter && LabelKeysAllowed(name, labels)
      modifies shards
      ensures Valid() && Contents() == Apply(old(Contents()), OpOf(Incremented(name, labels, delta)))
    {
      ApplyOp(AddCounter(MetricId(name.AsStr(), labels), delta));
    }

    method SetGaugeTo(name: MetricName, labels: Labels, value: real)
      requires Valid() && name.Shape() == Gauge && LabelKeysAllowed(name, labels)
      modifies shards
      ensures Valid() && Contents() == Apply(old(Contents()), OpOf(Gauged(name, labels, value)))
    {
      ApplyOp(SetGauge(MetricId(name.AsStr(), labels), value));
    }

    method ObserveSeconds(name: MetricName, labels: Labels, seconds: real)
      requires Valid() && name.Shape() == Observation && LabelKeysAllowed(name, labels)
      modifies shards
      ensures Valid()
      ensures Contents() == Apply(Apply(old(Contents()), OpOf(CountObserved(name, labels))),
                                  OpOf(SumObserved(name, labels, seconds)))
    {
      hide Apply, CountId, SumId, Merged, Placed;
      ApplyOp(AddCounter(CountId(name, labels), 1));
      ApplyOp(AddGauge(SumId(name, labels), seconds));
    }

    method MergedShards() returns (counters: map<MetricId, u64>, gauges: map<MetricId, real>)
      requires Valid()
      ensures Store(counters, gauges) == Contents()
    {
      counters, gauges := map[], map[];
      for i := 0 to SHARDS
        invariant Store(counters, gauges) == Merged(shards[..], i)
      {
        counters := counters + shards[i].counters;
        gauges := gauges + shards[i].gauges;
      }
    }
  }
}
