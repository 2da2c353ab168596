/** The frequency chart of the selected field: a `reduce` counts each value under
    its property name, `Object.keys` lists the names, and the bars are sorted by
    count, largest first. */
module DataChart {
  import opened JsValues
  import opened Seqs
  import opened Sorting

  datatype Entry = Entry(name: string, count: nat)

  /** The property name each counted row files its value under: `String(value)` for
      every value that is neither undefined nor null. */
  function Labels(data: seq<Row>, field: string): seq<string>
  {
    if data == [] then []
    else
      var v := Get(data[|data| - 1], field);
      Labels(data[..|data| - 1], field) + (if IsNullish(v) then [] else [ToStr(v)])
  }

  /** No selected field aggregates nothing. */
  function Aggregated(data: seq<Row>, field: string): seq<string>
  {
    if field == "" then [] else Labels(data, field)
  }

  function HasValue(field: string): Row -> bool
  {
    row => !IsNullish(Get(row, field))
  }

  /** One label per row that has a value, so the labels number the rows with a value. */
  lemma {:induction false} LabelsCount(data: seq<Row>, field: string)
    ensures |Labels(data, field)| == Count(data, HasValue(field))
  {
    if data != [] {
      LabelsCount(data[..|data| - 1], field);
    }
  }

  /** `keys` and `counts` are the accumulator after counting `labels`: the property names
      in creation order, each with the number of times it occurs. */
  ghost predicate IsAggregate(labels: seq<string>, keys: seq<string>, counts: map<string, nat>)
  {
    keys == Distinct(labels)
    && (forall k :: k in counts <==> k in keys)
    && (forall k :: k in counts ==> counts[k] == Occurrences(labels, k))
  }

  /** One step of the `reduce`: `acc[value] = acc[value] ? acc[value] + 1 : 1`. */
  lemma AggregateStep(labels: seq<string>, name: string, keys: seq<string>, counts: map<string, nat>)
    requires IsAggregate(labels, keys, counts)
    ensures name in counts ==> IsAggregate(labels + [name], keys, counts[name := counts[name] + 1])
    ensures name !in counts ==> IsAggregate(labels + [name], keys + [name], counts[name := 1])
  {
    var labels' := labels + [name];
    DistinctAppend(labels, name);
    DistinctMember(labels, name);
    if name in counts {
      var counts' := counts[name := counts[name] + 1];
      forall k | k in counts' ensures counts'[k] == Occurrences(labels', k) {
        OccurrencesAppend(labels, name, k);
      }
    } else {
      var counts' := counts[name := 1];
      forall k | k in counts' ensures counts'[k] == Occurrences(labels', k) {
        OccurrencesAppend(labels, name, k);
      }
    }
  }

  /** The accumulator of the `reduce`: its property names in creation order and the count
      under each. */
  method Aggregate(data: seq<Row>, field: string) returns (keys: seq<string>, counts: map<string, nat>)
    ensures IsAggregate(Aggregated(data, field), keys, counts)
  {
    keys, counts := [], map[];
    if field == "" {
      return;
    }
    var i := 0;
    ghost var labels: seq<string> := [];
    while i < |data|
      invariant 0 <= i <= |data|
      invariant labels == Labels(data[..i], field)
      invariant IsAggregate(labels, keys, counts)
    {
      assert data[..i + 1][..i] == data[..i];
      var value := Get(data[i], field);
      if !IsNullish(value) {
        var name := ToStr(value);
        AggregateStep(labels, name, keys, counts);
        labels := labels + [name];
        if name in counts {
          counts := counts[name := counts[name] + 1];
        } else {
          keys := keys + [name];
          counts := counts[name := 1];
        }
      }
      i := i + 1;
    }
    assert data[..|data|] == data;
  }

  // ---------------------------------------------------------------------------
  // Object.keys order

  /** A canonical array index: "0", or digits without a leading zero below 2^32 - 1. */
  predicate IsArrayIndex(k: string)
  {
    k != [] && AllDigits(k) && (k == "0" || k[0] != '0') && DigitsValue(k) < 0xFFFF_FFFF
  }

  predicate IsNamedKey(k: string)
  {
    !IsArrayIndex(k)
  }

  function IndexValue(k: string): real
  {
    if AllDigits(k) then DigitsValue(k) as real else 0.0
  }

  /** `Object.keys`: array-index names in ascending numeric order, then the other names
      in creation order. */
  function ObjectKeys(keys: seq<string>): seq<string>
  {
    SortBy(Filter(keys, IsArrayIndex), IndexValue) + Filter(keys, IsNamedKey)
  }

  /** `Object.keys` lists every property once: it reorders the creation order. */
  lemma ObjectKeysPermutes(keys: seq<string>)
    ensures multiset(ObjectKeys(keys)) == multiset(keys)
  {
    SortByFacts(Filter(keys, IsArrayIndex), IndexValue);
    FilterPartition(keys, IsArrayIndex, IsNamedKey);
  }

  /** `Object.keys` puts the array-index names first, in ascending numeric order. */
  lemma ObjectKeysOrder(keys: seq<string>)
    ensures forall i, j :: 0 <= i < j < |ObjectKeys(keys)| && IsArrayIndex(ObjectKeys(keys)[j]) ==>
              IsArrayIndex(ObjectKeys(keys)[i]) && IndexValue(ObjectKeys(keys)[i]) <= IndexValue(ObjectKeys(keys)[j])
  {
    var sorted := SortBy(Filter(keys, IsArrayIndex), IndexValue);
    var named := Filter(keys, IsNamedKey);
    var ok := ObjectKeys(keys);
    IndexKeysSorted(keys);
    assert ok == sorted + named;
    forall k | |sorted| <= k < |ok| ensures !IsArrayIndex(ok[k]) {
      assert ok[k] == named[k - |sorted|];
      NamedKeyNotIndex(keys, k - |sorted|);
    }
    forall i, j | 0 <= i < j < |ok| && IsArrayIndex(ok[j])
      ensures IsArrayIndex(ok[i]) && IndexValue(ok[i]) <= IndexValue(ok[j])
    {
      assert j < |sorted|;
      assert ok[i] == sorted[i] && ok[j] == sorted[j];
    }
  }

  lemma IndexKeysSorted(keys: seq<string>)
    ensures var sorted := SortBy(Filter(keys, IsArrayIndex), IndexValue);
            SortedBy(sorted, IndexValue) && forall k :: 0 <= k < |sorted| ==> IsArrayIndex(sorted[k])
  {
    var idx := Filter(keys, IsArrayIndex);
    var sorted := SortBy(idx, IndexValue);
    SortByFacts(idx, IndexValue);
    FilterFacts(keys, IsArrayIndex);
    forall k | 0 <= k < |sorted| ensures IsArrayIndex(sorted[k]) {
      assert sorted[k] in multiset(idx);
      assert sorted[k] in idx;
    }
  }

  lemma NamedKeyNotIndex(keys: seq<string>, k: nat)
    requires k < |Filter(keys, IsNamedKey)|
    ensures !IsArrayIndex(Filter(keys, IsNamedKey)[k])
  {
    FilterFacts(keys, IsNamedKey);
    assert Filter(keys, IsNamedKey)[k] in Filter(keys, IsNamedKey);
  }

  // ---------------------------------------------------------------------------
  // The bars

  function CountIn(counts: map<string, nat>, k: string): nat
  {
    if k in counts then counts[k] else 0
  }

  /** `.map((key) => ({ name: key, count: aggregatedData[key] }))` */
  function EntriesOf(names: seq<string>, counts: map<string, nat>): (r: seq<Entry>)
    ensures |r| == |names|
    ensures forall i :: 0 <= i < |names| ==> r[i] == Entry(names[i], CountIn(counts, names[i]))
  {
    if names == [] then []
    else EntriesOf(names[..|names| - 1], counts) + [Entry(names[|names| - 1], CountIn(counts, names[|names| - 1]))]
  }

  function NegatedCount(e: Entry): real
  {
    -(e.count as real)
  }

  function EntryCount(e: Entry): int
  {
    e.count
  }

  /** `chartData`: the entries in `Object.keys` order, stably sorted by count, largest first. */
  function ChartData(keys: seq<string>, counts: map<string, nat>): seq<Entry>
  {
    SortBy(EntriesOf(ObjectKeys(keys), counts), NegatedCount)
  }

  /** The chart shows its "no data" message when no field is selected or no bar exists. */
  predicate ShowsNoData(field: string, chart: seq<Entry>)
  {
    field == "" || chart == []
  }

  function CountFn(counts: map<string, nat>): string -> int
  {
    k => CountIn(counts, k)
  }

  lemma {:induction false} EntriesSum(names: seq<string>, counts: map<string, nat>)
    ensures SumBy(EntriesOf(names, counts), EntryCount) == SumBy(names, CountFn(counts))
  {
    if names != [] {
      EntriesSum(names[..|names| - 1], counts);
      assert EntriesOf(names, counts)[..|names| - 1] == EntriesOf(names[..|names| - 1], counts);
    }
  }

  lemma {:induction false} SumByCongruence<T>(s: seq<T>, f: T -> int, g: T -> int)
    requires forall i :: 0 <= i < |s| ==> f(s[i]) == g(s[i])
    ensures SumBy(s, f) == SumBy(s, g)
  {
    if s != [] {
      SumByCongruence(s[..|s| - 1], f, g);
    }
  }

  /** Every bar is one of the entries, so a name with its count. */
  lemma ChartPermutes(keys: seq<string>, counts: map<string, nat>)
    ensures multiset(ChartData(keys, counts)) == multiset(EntriesOf(ObjectKeys(keys), counts))
    ensures forall e :: e in ChartData(keys, counts) <==> e.name in keys && e == Entry(e.name, CountIn(counts, e.name))
  {
    var names := ObjectKeys(keys);
    var entries := EntriesOf(names, counts);
    SortByFacts(entries, NegatedCount);
    ObjectKeysPermutes(keys);
    forall e ensures e in ChartData(keys, counts) <==> e in entries {
      assert e in ChartData(keys, counts) <==> e in multiset(ChartData(keys, counts));
      assert e in entries <==> e in multiset(entries);
    }
    EntriesMembers(names, counts);
    forall k: string ensures k in names <==> k in keys {
      assert k in names <==> k in multiset(names);
    }
  }

  /** The entries are the names, each with its count. */
  lemma EntriesMembers(names: seq<string>, counts: map<string, nat>)
    ensures forall e: Entry :: e in EntriesOf(names, counts) <==> e.name in names && e == Entry(e.name, CountIn(counts, e.name))
  {
    var entries := EntriesOf(names, counts);
    forall e: Entry | e.name in names && e == Entry(e.name, CountIn(counts, e.name))
      ensures e in entries
    {
      var i :| 0 <= i < |names| && names[i] == e.name;
      assert entries[i] == e;
    }
  }

  /** The bars are sorted by count, largest first. */
  lemma ChartSorted(keys: seq<string>, counts: map<string, nat>)
    ensures var chart := ChartData(keys, counts);
            forall i, j :: 0 <= i < j < |chart| ==> chart[i].count >= chart[j].count
  {
    var chart := ChartData(keys, counts);
    SortByFacts(EntriesOf(ObjectKeys(keys), counts), NegatedCount);
    forall i, j | 0 <= i < j < |chart| ensures chart[i].count >= chart[j].count {
      assert NegatedCount(chart[i]) <= NegatedCount(chart[j]);
    }
  }

  /** Each bar is a label with the number of times it occurs, and each label has its bar. */
  lemma ChartBars(labels: seq<string>, keys: seq<string>, counts: map<string, nat>)
    requires IsAggregate(labels, keys, counts)
    ensures forall e :: e in ChartData(keys, counts) ==> e.name in labels && e.count == Occurrences(labels, e.name) > 0
    ensures forall k :: k in labels ==> Entry(k, Occurrences(labels, k)) in ChartData(keys, counts)
  {
    ChartPermutes(keys, counts);
    forall k ensures k in keys <==> k in labels {
      DistinctMember(labels, k);
    }
    forall k | k in labels ensures Occurrences(labels, k) > 0 {
      assert k in multiset(labels);
    }
  }

  /** No two bars share a name. */
  lemma ChartNamesDistinct(labels: seq<string>, keys: seq<string>, counts: map<string, nat>)
    requires IsAggregate(labels, keys, counts)
    ensures var chart := ChartData(keys, counts);
            forall i, j :: 0 <= i < j < |chart| ==> chart[i].name != chart[j].name
  {
    var chart := ChartData(keys, counts);
    var names := ObjectKeys(keys);
    var entries := EntriesOf(names, counts);
    DistinctFacts(labels);
    ChartPermutes(keys, counts);
    ObjectKeysPermutes(keys);
    NoDuplicatesMultiset(keys);
    NoDuplicatesMultiset(names);
    assert NoDuplicates(entries);
    NoDuplicatesMultiset(entries);
    NoDuplicatesMultiset(chart);
    forall i, j | 0 <= i < j < |chart| ensures chart[i].name != chart[j].name {
      assert chart[i] in chart && chart[j] in chart;
      assert chart[i] == Entry(chart[i].name, CountIn(counts, chart[i].name));
      assert chart[j] == Entry(chart[j].name, CountIn(counts, chart[j].name));
      assert chart[i] != chart[j];
    }
  }

  /** The counts add up to the number of labels, that is, of rows with a value. */
  lemma ChartTotal(labels: seq<string>, keys: seq<string>, counts: map<string, nat>)
    requires IsAggregate(labels, keys, counts)
    ensures SumBy(ChartData(keys, counts), EntryCount) == |labels|
  {
    var names := ObjectKeys(keys);
    var entries := EntriesOf(names, counts);
    SortByFacts(entries, NegatedCount);
    SumByPermutation(ChartData(keys, counts), entries, EntryCount);
    EntriesSum(names, counts);
    ObjectKeysPermutes(keys);
    SumByPermutation(names, keys, CountFn(counts));
    forall i | 0 <= i < |keys| ensures CountFn(counts)(keys[i]) == OccurrencesIn(labels)(keys[i]) {
      assert keys[i] in counts;
    }
    SumByCongruence(keys, CountFn(counts), OccurrencesIn(labels));
    SumOccurrencesAsSum(keys, labels);
    SumOccurrencesOfDistinct(labels);
  }

  /** There is no bar exactly when there is no label. */
  lemma ChartEmpty(labels: seq<string>, keys: seq<string>, counts: map<string, nat>)
    requires IsAggregate(labels, keys, counts)
    ensures ChartData(keys, counts) == [] <==> labels == []
  {
    var entries := EntriesOf(ObjectKeys(keys), counts);
    SortByFacts(entries, NegatedCount);
    ObjectKeysPermutes(keys);
    assert |ChartData(keys, counts)| == |keys|;
    DistinctMember(labels, if labels == [] then "" else labels[0]);
  }

  /** The rendered chart: "no data" exactly when no field is selected or no row of the
      field has a value; otherwise the bars' counts add up to the rows with a value. */
  lemma ChartForRows(data: seq<Row>, field: string, keys: seq<string>, counts: map<string, nat>)
    requires IsAggregate(Aggregated(data, field), keys, counts)
    ensures ShowsNoData(field, ChartData(keys, counts)) <==> field == "" || Count(data, HasValue(field)) == 0
    ensures field != "" ==> SumBy(ChartData(keys, counts), EntryCount) == Count(data, HasValue(field))
  {
    ChartTotal(Aggregated(data, field), keys, counts);
    ChartEmpty(Aggregated(data, field), keys, counts);
    LabelsCount(data, field);
  }
}
