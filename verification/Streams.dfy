/**
 Shaping log rows into streams (`src/query/mod.rs:313-323`, `src/compat/loki.rs:56-93`).

 The rows of a query arrive in order, at most one more than the limit. They are cut at the
 limit and grouped by their non-empty stream labels in a map ordered by the labels' JSON
 text. `key` is that rendering, of which only injectivity matters here.
 */
module Streams {
  type Labels = map<string, string>

  /** A row: its non-null text columns by name, and the pair shown for it. */
  datatype Row = Row(columns: map<string, string>, entry: Entry)

  datatype Entry = Entry(nanos: int, line: string)

  datatype Stream = Stream(key: string, labels: Labels, values: seq<Entry>)

  // ----- The limit -----

  datatype Page = Page(rows: seq<Row>, truncated: bool, appliedLimit: nat)

  function Take<T>(s: seq<T>, n: nat): seq<T> {
    if |s| <= n then s else s[..n]
  }

  method WrapRows(rows: seq<Row>, limit: nat) returns (page: Page)
    ensures page == Page(Take(rows, limit), |rows| > limit, limit)
  {
    var kept := rows;
    var truncated := |kept| > limit;
    if truncated {
      kept := kept[..limit];
    }
    page := Page(kept, truncated, limit);
  }

  /**
   Fetching one row more than the limit tells exactly whether rows were left out: the page
   is the first `limit` matching rows, and is marked truncated if and only if more matched.
   */
  method PageOfQuery(matched: seq<Row>, limit: nat) returns (page: Page)
    ensures page.rows <= matched
    ensures page.truncated <==> page.rows != matched
    ensures page.truncated ==> |page.rows| == limit
    ensures |page.rows| <= limit
  {
    page := WrapRows(Take(matched, limit + 1), limit);
  }

  // ----- Order of keys -----

  predicate StrLess(a: string, b: string) {
    b != [] && (a == [] || a[0] < b[0] || (a[0] == b[0] && StrLess(a[1..], b[1..])))
  }

  lemma {:induction false} StrLessTotal(a: string, b: string)
    ensures a == b || StrLess(a, b) || StrLess(b, a)
    ensures !(StrLess(a, b) && StrLess(b, a))
    ensures !StrLess(a, a)
  {
    if a != [] && b != [] {
      StrLessTotal(a[1..], b[1..]);
      assert a == [a[0]] + a[1..] && b == [b[0]] + b[1..];
    }
    if a != [] {
      StrLessTotal(a[1..], a[1..]);
    }
  }

  lemma {:induction false} StrLessTransitive(a: string, b: string, c: string)
    requires StrLess(a, b) && StrLess(b, c)
    ensures StrLess(a, c)
  {
    if a != [] && a[0] == b[0] && b[0] == c[0] {
      StrLessTransitive(a[1..], b[1..], c[1..]);
    }
  }

  ghost predicate Sorted(ss: seq<Stream>) {
    forall i, j | 0 <= i < j < |ss| :: StrLess(ss[i].key, ss[j].key)
  }

  // ----- Grouping -----

  /** The row's stream labels: those of the registry's names it has a non-empty value for. */
  function LabelsOf(row: Row, names: seq<string>): Labels {
    map n | n in names && n in row.columns && row.columns[n] != "" :: row.columns[n]
  }

  method CollectLabels(row: Row, names: seq<string>) returns (labels: Labels)
    ensures labels == LabelsOf(row, names)
  {
    labels := map[];
    for i := 0 to |names|
      invariant labels == LabelsOf(row, names[..i])
    {
      var n := names[i];
      assert names[..i + 1] == names[..i] + [n];
      if n in row.columns && row.columns[n] != "" {
        labels := labels[n := row.columns[n]];
      }
    }
    assert names[..|names|] == names;
  }

  /** Append to the entry of an ordered map, inserting it where its key belongs. */
  function Push(ss: seq<Stream>, key: string, labels: Labels, e: Entry): seq<Stream> {
    if ss == [] then [Stream(key, labels, [e])]
    else if ss[0].key == key then [ss[0].(values := ss[0].values + [e])] + ss[1..]
    else if StrLess(key, ss[0].key) then [Stream(key, labels, [e])] + ss
    else [ss[0]] + Push(ss[1..], key, labels, e)
  }

  /** The entries of the rows with these labels, in row order. */
  function EntriesOf(rows: seq<Row>, names: seq<string>, labels: Labels): seq<Entry> {
    if rows == [] then [] else
    var last := rows[|rows| - 1];
    EntriesOf(rows[..|rows| - 1], names, labels) + if LabelsOf(last, names) == labels then [last.entry] else []
  }

  ghost predicate Injective(key: Labels -> string) {
    forall a, b :: key(a) == key(b) ==> a == b
  }

  ghost predicate Holds(s: Stream, rows: seq<Row>, names: seq<string>, key: Labels -> string) {
    s.key == key(s.labels) && s.values != [] && s.values == EntriesOf(rows, names, s.labels)
  }

  ghost predicate HasStream(ss: seq<Stream>, labels: Labels) {
    exists i :: 0 <= i < |ss| && ss[i].labels == labels
  }

  /**
   The streams are the rows grouped by label set: in key order, each with its own label set
   and exactly the entries of its rows in row order, and every row has a stream.
   */
  ghost predicate Grouped(ss: seq<Stream>, rows: seq<Row>, names: seq<string>, key: Labels -> string) {
    && Sorted(ss)
    && (forall i | 0 <= i < |ss| :: Holds(ss[i], rows, names, key))
    && (forall j | 0 <= j < |rows| :: HasStream(ss, LabelsOf(rows[j], names)))
  }

  /** What pushing does to each position of the list. */
  lemma {:induction false} PushSpec(ss: seq<Stream>, key: string, labels: Labels, e: Entry)
    returns (at: nat, found: bool)
    requires Sorted(ss)
    ensures found ==>
      && at < |ss| && ss[at].key == key
      && Push(ss, key, labels, e) == ss[at := ss[at].(values := ss[at].values + [e])]
    ensures !found ==>
      && at <= |ss| && Push(ss, key, labels, e) == ss[..at] + [Stream(key, labels, [e])] + ss[at..]
      && (forall i | 0 <= i < at :: StrLess(ss[i].key, key))
      && (forall i | at <= i < |ss| :: StrLess(key, ss[i].key))
  {
    hide StrLess;
    if ss == [] {
      at, found := 0, false;
    } else if ss[0].key == key {
      at, found := 0, true;
    } else if StrLess(key, ss[0].key) {
      at, found := 0, false;
      forall i | 0 < i < |ss| ensures StrLess(key, ss[i].key) {
        StrLessTransitive(key, ss[0].key, ss[i].key);
      }
    } else {
      StrLessTotal(key, ss[0].key);
      var k;
      k, found := PushSpec(ss[1..], key, labels, e);
      at := k + 1;
      var first, tail := ss[0], ss[1..];
      assert ss == [first] + tail && Push(ss, key, labels, e) == [first] + Push(tail, key, labels, e);
      hide Push;
      if found {
        OneFurther(first, tail, k, tail[k].(values := tail[k].values + [e]));
      } else {
        InsertedFurther(first, tail, k, Stream(key, labels, [e]));
        forall i | 0 <= i < |ss|
          ensures i < at ==> StrLess(ss[i].key, key)
          ensures i >= at ==> StrLess(key, ss[i].key)
        {
          assert i > 0 ==> ss[i] == tail[i - 1];
        }
      }
    }
  }

  lemma OneFurther(first: Stream, tail: seq<Stream>, k: nat, s: Stream)
    requires k < |tail|
    ensures [first] + tail[k := s] == ([first] + tail)[k + 1 := s] && ([first] + tail)[k + 1] == tail[k]
  {
  }

  lemma InsertedFurther(first: Stream, tail: seq<Stream>, k: nat, s: Stream)
    requires k <= |tail|
    ensures [first] + (tail[..k] + [s] + tail[k..]) == ([first] + tail)[..k + 1] + [s] + ([first] + tail)[k + 1..]
  {
  }

  /** One more row keeps the grouping. */
  lemma PushGroups(ss: seq<Stream>, rows: seq<Row>, row: Row, names: seq<string>, key: Labels -> string)
    requires Grouped(ss, rows, names, key) && Injective(key)
    ensures var l := LabelsOf(row, names); Grouped(Push(ss, key(l), l, row.entry), rows + [row], names, key)
  {
    hide StrLess, EntriesOf, LabelsOf, Push, Sorted, Holds, HasStream, Injective;
    var l := LabelsOf(row, names);
    var ss' := Push(ss, key(l), l, row.entry);
    var at, found := PushSpec(ss, key(l), l, row.entry);
    if found {
      OldStreamGroups(ss, rows, row, names, key, at);
    } else {
      NewStreamGroups(ss, rows, row, names, key, at);
    }
    assert Sorted(ss') && HasStream(ss', l);
    forall j | 0 <= j < |rows + [row]| ensures HasStream(ss', LabelsOf((rows + [row])[j], names)) {
      if j < |rows| {
        assert HasStream(ss, LabelsOf(rows[j], names));
      }
    }
  }

  lemma OldStreamGroups(ss: seq<Stream>, rows: seq<Row>, row: Row, names: seq<string>, key: Labels -> string, at: nat)
    requires Grouped(ss, rows, names, key) && Injective(key) && at < |ss| && ss[at].key == key(LabelsOf(row, names))
    ensures var ss' := ss[at := ss[at].(values := ss[at].values + [row.entry])];
      && Sorted(ss')
      && (forall i | 0 <= i < |ss'| :: Holds(ss'[i], rows + [row], names, key))
      && HasStream(ss', LabelsOf(row, names))
      && (forall labels | HasStream(ss, labels) :: HasStream(ss', labels))
  {
    hide StrLess, EntriesOf, LabelsOf;
    var l := LabelsOf(row, names);
    var ss' := ss[at := ss[at].(values := ss[at].values + [row.entry])];
    assert Holds(ss[at], rows, names, key) && ss[at].labels == l;
    forall i | 0 <= i < |ss'| ensures Holds(ss'[i], rows + [row], names, key) {
      assert Holds(ss[i], rows, names, key);
      LastRowEntry(rows, row, names, ss[i].labels);
      if i != at {
        StrLessTotal(ss[i].key, ss[at].key);
      }
    }
    forall labels | HasStream(ss, labels) ensures HasStream(ss', labels) {
      var i :| 0 <= i < |ss| && ss[i].labels == labels;
      assert ss'[i].labels == labels;
    }
    assert ss'[at].labels == l;
  }

  lemma NewStreamGroups(ss: seq<Stream>, rows: seq<Row>, row: Row, names: seq<string>, key: Labels -> string, at: nat)
    requires Grouped(ss, rows, names, key) && Injective(key) && at <= |ss|
    requires forall i | 0 <= i < at :: StrLess(ss[i].key, key(LabelsOf(row, names)))
    requires forall i | at <= i < |ss| :: StrLess(key(LabelsOf(row, names)), ss[i].key)
    ensures var l := LabelsOf(row, names); var ss' := ss[..at] + [Stream(key(l), l, [row.entry])] + ss[at..];
      && Sorted(ss')
      && (forall i | 0 <= i < |ss'| :: Holds(ss'[i], rows + [row], names, key))
      && HasStream(ss', l)
      && (forall labels | HasStream(ss, labels) :: HasStream(ss', labels))
  {
    hide StrLess, EntriesOf, LabelsOf;
    var l := LabelsOf(row, names);
    var new_ := Stream(key(l), l, [row.entry]);
    var ss' := ss[..at] + [new_] + ss[at..];
    NoEntriesYet(ss, rows, row, names, key, at);
    LastRowEntry(rows, row, names, l);
    forall i | 0 <= i < |ss'| ensures Holds(ss'[i], rows + [row], names, key) {
      if i != at {
        var s := if i < at then ss[i] else ss[i - 1];
        assert Holds(s, rows, names, key);
        StrLessTotal(key(l), s.key);
        LastRowEntry(rows, row, names, s.labels);
      }
    }
    assert ss'[at].labels == l;
    forall labels | HasStream(ss, labels) ensures HasStream(ss', labels) {
      var i :| 0 <= i < |ss| && ss[i].labels == labels;
      assert ss'[if i < at then i else i + 1].labels == labels;
    }
  }

  lemma LastRowEntry(rows: seq<Row>, row: Row, names: seq<string>, labels: Labels)
    ensures EntriesOf(rows + [row], names, labels)
      == EntriesOf(rows, names, labels) + if LabelsOf(row, names) == labels then [row.entry] else []
  {
    assert (rows + [row])[..|rows|] == rows;
  }

  /** Rows whose labels have no stream yet have no entries yet. */
  lemma NoEntriesYet(ss: seq<Stream>, rows: seq<Row>, row: Row, names: seq<string>, key: Labels -> string, at: nat)
    requires Grouped(ss, rows, names, key) && at <= |ss|
    requires forall i | 0 <= i < at :: StrLess(ss[i].key, key(LabelsOf(row, names)))
    requires forall i | at <= i < |ss| :: StrLess(key(LabelsOf(row, names)), ss[i].key)
    ensures EntriesOf(rows, names, LabelsOf(row, names)) == []
  {
    hide StrLess, Sorted;
    var l := LabelsOf(row, names);
    StrLessTotal(key(l), key(l));
    assert forall i | 0 <= i < |ss| :: Holds(ss[i], rows, names, key) && ss[i].key != key(l);
    assert !HasStream(ss, l);
    if EntriesOf(rows, names, l) != [] {
      var j := EntryHasRow(rows, names, l);
      assert false;
    }
  }

  lemma {:induction false} EntryHasRow(rows: seq<Row>, names: seq<string>, labels: Labels) returns (j: nat)
    requires EntriesOf(rows, names, labels) != []
    ensures j < |rows| && LabelsOf(rows[j], names) == labels
  {
    if LabelsOf(rows[|rows| - 1], names) == labels {
      j := |rows| - 1;
    } else {
      j := EntryHasRow(rows[..|rows| - 1], names, labels);
    }
  }

  function Reverse<T>(s: seq<T>): (r: seq<T>)
    ensures |r| == |s|
    ensures forall i | 0 <= i < |s| :: r[i] == s[|s| - 1 - i]
  {
    if s == [] then [] else Reverse(s[1..]) + [s[0]]
  }

  /** The direction turns only the list of streams around, not the entries inside them. */
  method GroupRows(rows: seq<Row>, names: seq<string>, key: Labels -> string, forward: bool)
    returns (result: seq<Stream>)
    requires Injective(key)
    ensures Grouped(if forward then Reverse(result) else result, rows, names, key)
  {
    var streams: seq<Stream> := [];
    for i := 0 to |rows|
      invariant Grouped(streams, rows[..i], names, key)
    {
      var labels := CollectLabels(rows[i], names);
      PushGroups(streams, rows[..i], rows[i], names, key);
      assert rows[..i + 1] == rows[..i] + [rows[i]];
      streams := Push(streams, key(labels), labels, rows[i].entry);
    }
    assert rows[..|rows|] == rows;
    result := streams;
    if forward {
      result := Reverse(streams);
      assert Reverse(result) == streams;
    }
  }

  // ----- What grouping means -----

  /** No two streams have the same label set. */
  lemma DistinctLabelSets(ss: seq<Stream>, rows: seq<Row>, names: seq<string>, key: Labels -> string, i: nat, j: nat)
    requires Grouped(ss, rows, names, key) && i < j < |ss|
    ensures ss[i].labels != ss[j].labels
  {
    assert Holds(ss[i], rows, names, key) && Holds(ss[j], rows, names, key);
    StrLessTotal(ss[i].key, ss[j].key);
  }

  /** These are the columns of the row that are among the names and not empty. */
  ghost predicate CarriedBy(labels: Labels, row: Row, names: seq<string>) {
    && (forall n | n in labels :: n in names && n in row.columns && row.columns[n] != "" && labels[n] == row.columns[n])
    && (forall n | n in names && n in row.columns && row.columns[n] != "" :: n in labels)
  }

  lemma {:induction false} RowHasEntry(rows: seq<Row>, names: seq<string>, labels: Labels, j: nat)
    requires j < |rows| && LabelsOf(rows[j], names) == labels
    ensures rows[j].entry in EntriesOf(rows, names, labels)
  {
    if j < |rows| - 1 {
      RowHasEntry(rows[..|rows| - 1], names, labels, j);
    }
  }

  /** Each row's entry is in the stream labelled with exactly the row's own non-empty columns. */
  lemma RowFindsItsStream(ss: seq<Stream>, rows: seq<Row>, names: seq<string>, key: Labels -> string, j: nat)
    returns (i: nat)
    requires Grouped(ss, rows, names, key) && j < |rows|
    ensures i < |ss| && CarriedBy(ss[i].labels, rows[j], names) && rows[j].entry in ss[i].values
  {
    hide StrLess, Sorted, EntriesOf;
    var labels := LabelsOf(rows[j], names);
    assert HasStream(ss, labels);
    i :| 0 <= i < |ss| && ss[i].labels == labels;
    assert Holds(ss[i], rows, names, key);
    RowHasEntry(rows, names, labels, j);
  }

  ghost predicate HasKey(ss: seq<Stream>, key: string) {
    exists i :: 0 <= i < |ss| && ss[i].key == key
  }

  ghost predicate SameKeys(a: seq<Stream>, b: seq<Stream>) {
    forall k :: HasKey(a, k) <==> HasKey(b, k)
  }

  lemma HasFirstKey(ss: seq<Stream>)
    requires ss != []
    ensures HasKey(ss, ss[0].key)
  {
  }

  lemma FirstKeys(a: seq<Stream>, b: seq<Stream>)
    requires Sorted(a) && Sorted(b) && SameKeys(a, b) && a != []
    ensures b != [] && a[0].key == b[0].key
  {
    hide StrLess;
    assert HasKey(a, a[0].key);
    var j :| 0 <= j < |b| && b[j].key == a[0].key;
    assert HasKey(b, b[0].key);
    var i :| 0 <= i < |a| && a[i].key == b[0].key;
    StrLessTotal(a[0].key, b[0].key);
  }

  lemma TailKeys(a: seq<Stream>, b: seq<Stream>)
    requires Sorted(a) && Sorted(b) && SameKeys(a, b) && a != [] && b != [] && a[0].key == b[0].key
    ensures SameKeys(a[1..], b[1..])
  {
    hide StrLess;
    forall k ensures HasKey(a[1..], k) <==> HasKey(b[1..], k) {
      TailKey(a, k);
      TailKey(b, k);
      assert HasKey(a, k) <==> HasKey(b, k);
    }
  }

  lemma TailKey(a: seq<Stream>, k: string)
    requires Sorted(a) && a != []
    ensures HasKey(a[1..], k) <==> HasKey(a, k) && k != a[0].key
  {
    StrLessTotal(k, k);
    hide StrLess;
    if HasKey(a[1..], k) {
      var i :| 0 <= i < |a[1..]| && a[1..][i].key == k;
      assert a[i + 1].key == k;
    }
    if HasKey(a, k) && k != a[0].key {
      var i :| 0 <= i < |a| && a[i].key == k;
      assert a[1..][i - 1].key == k;
    }
  }

  lemma {:induction false} SameSortedKeys(a: seq<Stream>, b: seq<Stream>)
    requires Sorted(a) && Sorted(b) && SameKeys(a, b)
    ensures |a| == |b| && forall i | 0 <= i < |a| :: a[i].key == b[i].key
    decreases |a|
  {
    hide StrLess;
    if a == [] {
      if b != [] {
        HasFirstKey(b);
        assert false;
      }
    } else {
      FirstKeys(a, b);
      TailKeys(a, b);
      hide SameKeys;
      SameSortedKeys(a[1..], b[1..]);
      assert forall i | 1 <= i < |a| :: a[i] == a[1..][i - 1] && b[i] == b[1..][i - 1];
    }
  }

  lemma StreamHasTwin(a: seq<Stream>, b: seq<Stream>, rows: seq<Row>, names: seq<string>, key: Labels -> string, i: nat)
    returns (j: nat)
    requires Grouped(a, rows, names, key) && Grouped(b, rows, names, key) && i < |a|
    ensures j < |b| && b[j] == a[i]
  {
    hide Sorted;
    assert Holds(a[i], rows, names, key);
    var r := EntryHasRow(rows, names, a[i].labels);
    assert HasStream(b, LabelsOf(rows[r], names));
    j :| 0 <= j < |b| && b[j].labels == a[i].labels;
    assert Holds(b[j], rows, names, key);
  }

  /** The grouping is determined by the rows: there is only one list that groups them. */
  lemma GroupingIsUnique(a: seq<Stream>, b: seq<Stream>, rows: seq<Row>, names: seq<string>, key: Labels -> string)
    requires Grouped(a, rows, names, key) && Grouped(b, rows, names, key)
    ensures a == b
  {
    forall k ensures HasKey(a, k) <==> HasKey(b, k) {
      if HasKey(a, k) {
        var i :| 0 <= i < |a| && a[i].key == k;
        var j := StreamHasTwin(a, b, rows, names, key, i);
      }
      if HasKey(b, k) {
        var i :| 0 <= i < |b| && b[i].key == k;
        var j := StreamHasTwin(b, a, rows, names, key, i);
      }
    }
    SameSortedKeys(a, b);
    forall i | 0 <= i < |a| ensures a[i] == b[i] {
      var j := StreamHasTwin(a, b, rows, names, key, i);
      StrLessTotal(b[i].key, b[j].key);
    }
  }

  function TotalEntries(ss: seq<Stream>): nat {
    if ss == [] then 0 else |ss[0].values| + TotalEntries(ss[1..])
  }

  lemma {:induction false} PushCounts(ss: seq<Stream>, key: string, labels: Labels, e: Entry)
    ensures TotalEntries(Push(ss, key, labels, e)) == TotalEntries(ss) + 1
  {
    if ss != [] && ss[0].key != key && !StrLess(key, ss[0].key) {
      PushCounts(ss[1..], key, labels, e);
    }
  }

  /** Grouping loses and duplicates nothing: the streams hold as many entries as there are rows. */
  lemma {:induction false} EveryRowInOneStream(ss: seq<Stream>, rows: seq<Row>, names: seq<string>,
    key: Labels -> string)
    requires Grouped(ss, rows, names, key) && Injective(key)
    ensures TotalEntries(ss) == |rows|
  {
    var built := Built(rows, names, key);
    GroupingIsUnique(ss, built, rows, names, key);
  }

  lemma {:induction false} Built(rows: seq<Row>, names: seq<string>, key: Labels -> string) returns (ss: seq<Stream>)
    requires Injective(key)
    ensures Grouped(ss, rows, names, key) && TotalEntries(ss) == |rows|
  {
    if rows == [] {
      ss := [];
    } else {
      var init, last := rows[..|rows| - 1], rows[|rows| - 1];
      var before := Built(init, names, key);
      var l := LabelsOf(last, names);
      PushGroups(before, init, last, names, key);
      PushCounts(before, key(l), l, last.entry);
      ss := Push(before, key(l), l, last.entry);
      assert rows == init + [last];
    }
  }
}
