/** Per-visits buckets shared by the intensity chart of the members page and the
    personal-trainer chart of the trainers page: an object keyed by the visits value,
    each bucket counting its members by category, turned into one percentage row per
    visits value, sorted ascending by visits. */
module VisitBuckets {
  import opened JsValues
  import opened Seqs
  import opened Sorting

  /** A member that takes part: its visits value and its category (an index into the
      bucket's counters, e.g. low/medium/high). */
  datatype Sample = Sample(visits: real, category: nat)

  /** `{ visits, <one counter per category>, total }` */
  datatype Bucket = Bucket(visits: real, counts: seq<nat>, total: nat)

  /** Every sample the classifier gives has a category below `width`. */
  ghost predicate Categorised(sample: Row -> Option<Sample>, width: nat)
  {
    forall r :: sample(r).Some? ==> sample(r).value.category < width
  }

  function NewBucket(visits: real, width: nat): (b: Bucket)
    ensures b.visits == visits && |b.counts| == width && b.total == 0 && SumNat(b.counts) == 0
  {
    SumNatZero(width);
    Bucket(visits, seq(width, _ => 0), 0)
  }

  /** `buckets[visits][key] += 1; buckets[visits].total += 1` */
  function AddTo(b: Bucket, category: nat): (r: Bucket)
    requires category < |b.counts|
    ensures r.visits == b.visits && |r.counts| == |b.counts| && r.total == b.total + 1
    ensures r.counts[category] == b.counts[category] + 1
    ensures forall c :: 0 <= c < |b.counts| && c != category ==> r.counts[c] == b.counts[c]
    ensures SumNat(r.counts) == SumNat(b.counts) + 1
  {
    SumNatIncrement(b.counts, category);
    Bucket(b.visits, b.counts[category := b.counts[category] + 1], b.total + 1)
  }

  /** The visits values of the members that take part, in row order. */
  function VisitsSeen(rows: seq<Row>, sample: Row -> Option<Sample>): seq<real>
  {
    if rows == [] then []
    else
      var s := sample(rows[|rows| - 1]);
      VisitsSeen(rows[..|rows| - 1], sample) + (if s.Some? then [s.value.visits] else [])
  }

  /** The `buckets` object after the rows: every bucket has one counter per category. */
  function BucketsOf(rows: seq<Row>, sample: Row -> Option<Sample>, width: nat): (m: map<real, Bucket>)
    requires Categorised(sample, width)
    ensures forall v :: v in m ==> |m[v].counts| == width
  {
    if rows == [] then map[]
    else
      var m := BucketsOf(rows[..|rows| - 1], sample, width);
      match sample(rows[|rows| - 1])
      case None => m
      case Some(s) =>
        var b := if s.visits in m then m[s.visits] else NewBucket(s.visits, width);
        m[s.visits := AddTo(b, s.category)]
  }

  /** There is a bucket for exactly the visits values seen; each holds its own value, and
      its counters add up to its total, which is at least 1. */
  lemma {:induction false} BucketsShape(rows: seq<Row>, sample: Row -> Option<Sample>, width: nat, v: real)
    requires Categorised(sample, width)
    ensures v in BucketsOf(rows, sample, width) <==> v in VisitsSeen(rows, sample)
    ensures v in BucketsOf(rows, sample, width) ==>
              var b := BucketsOf(rows, sample, width)[v];
              b.visits == v && b.total >= 1 && SumNat(b.counts) == b.total
  {
    if rows != [] {
      var init := rows[..|rows| - 1];
      BucketsShape(init, sample, width, v);
      var s := sample(rows[|rows| - 1]);
      if s.Some? {
        assert VisitsSeen(rows, sample) == VisitsSeen(init, sample) + [s.value.visits];
      } else {
        assert VisitsSeen(rows, sample) == VisitsSeen(init, sample);
      }
    }
  }

  /** The `forEach` that fills the `buckets` object: a row that takes part opens a bucket for
      its visits value the first time that value is seen (remembering the order of first
      sightings), then bumps its category's counter and the total. */
  method CollectBuckets(rows: seq<Row>, sample: Row -> Option<Sample>, width: nat)
    returns (buckets: map<real, Bucket>, keys: seq<real>)
    requires Categorised(sample, width)
    ensures buckets == BucketsOf(rows, sample, width)
    ensures keys == Distinct(VisitsSeen(rows, sample))
  {
    buckets := map[];
    keys := [];
    var i := 0;
    while i < |rows|
      invariant 0 <= i <= |rows|
      invariant buckets == BucketsOf(rows[..i], sample, width)
      invariant keys == Distinct(VisitsSeen(rows[..i], sample))
    {
      match sample(rows[i]) {
        case None =>
          CollectSkip(rows, i, sample, width);
        case Some(s) =>
          CollectAdd(rows, i, sample, width, s.visits, s.category);
          var bucket := if s.visits in buckets then buckets[s.visits] else NewBucket(s.visits, width);
          if s.visits !in buckets {
            keys := keys + [s.visits];
          }
          buckets := buckets[s.visits := AddTo(bucket, s.category)];
      }
      i := i + 1;
    }
    assert rows[..|rows|] == rows;
  }

  /** One more row for the bucket-filling loop, one that does not take part: nothing changes. */
  lemma CollectSkip(rows: seq<Row>, i: nat, sample: Row -> Option<Sample>, width: nat)
    requires Categorised(sample, width) && i < |rows| && sample(rows[i]).None?
    ensures BucketsOf(rows[..i + 1], sample, width) == BucketsOf(rows[..i], sample, width)
    ensures VisitsSeen(rows[..i + 1], sample) == VisitsSeen(rows[..i], sample)
  {
    assert rows[..i + 1] == rows[..i] + [rows[i]];
    BucketsAppend(rows[..i], rows[i], sample, width);
    assert VisitsSeen(rows[..i + 1], sample) == VisitsSeen(rows[..i], sample) + [];
  }

  /** One more row for the bucket-filling loop, one that takes part: the first time its
      visits value is seen it becomes a new key with an empty bucket, and then the bucket
      counts it. */
  lemma CollectAdd(rows: seq<Row>, i: nat, sample: Row -> Option<Sample>, width: nat,
                   visits: real, category: nat)
    requires Categorised(sample, width) && i < |rows|
    requires sample(rows[i]) == Some(Sample(visits, category))
    ensures category < width
    ensures var m := BucketsOf(rows[..i], sample, width);
            var keys := Distinct(VisitsSeen(rows[..i], sample));
            (visits in m <==> visits in keys)
            && (visits in m ==> |m[visits].counts| == width)
            && BucketsOf(rows[..i + 1], sample, width)
               == m[visits := AddTo(if visits in m then m[visits] else NewBucket(visits, width), category)]
            && Distinct(VisitsSeen(rows[..i + 1], sample)) == if visits in keys then keys else keys + [visits]
  {
    var init := rows[..i];
    assert rows[..i + 1] == init + [rows[i]];
    BucketsAppend(init, rows[i], sample, width);
    DistinctAppend(VisitsSeen(init, sample), visits);
    DistinctMember(VisitsSeen(init, sample), visits);
    BucketsShape(init, sample, width, visits);
  }

  lemma BucketsAppend(rows: seq<Row>, row: Row, sample: Row -> Option<Sample>, width: nat)
    requires Categorised(sample, width)
    ensures VisitsSeen(rows + [row], sample)
            == VisitsSeen(rows, sample) + (if sample(row).Some? then [sample(row).value.visits] else [])
    ensures BucketsOf(rows + [row], sample, width)
            == match sample(row)
               case None => BucketsOf(rows, sample, width)
               case Some(s) =>
                 var m := BucketsOf(rows, sample, width);
                 m[s.visits := AddTo(if s.visits in m then m[s.visits] else NewBucket(s.visits, width), s.category)]
  {
    assert (rows + [row])[..|rows|] == rows;
  }

  /** The member takes part with this visits value and this category. */
  function SampleIs(sample: Row -> Option<Sample>, v: real, c: nat): Row -> bool
  {
    r => sample(r) == Some(Sample(v, c))
  }

  /** The member takes part with this visits value. */
  function VisitsIs(sample: Row -> Option<Sample>, v: real): Row -> bool
  {
    r => sample(r).Some? && sample(r).value.visits == v
  }

  /** Each counter of a bucket counts the members with that visits value and category,
      and its total counts the members with that visits value. */
  lemma {:induction false} BucketCounts(rows: seq<Row>, sample: Row -> Option<Sample>, width: nat, v: real, c: nat)
    requires Categorised(sample, width)
    requires v in BucketsOf(rows, sample, width) && c < width
    ensures BucketsOf(rows, sample, width)[v].counts[c] == Count(rows, SampleIs(sample, v, c))
    ensures BucketsOf(rows, sample, width)[v].total == Count(rows, VisitsIs(sample, v))
  {
    var init := rows[..|rows| - 1];
    var last := rows[|rows| - 1];
    assert rows == init + [last];
    CountAppend(init, last, SampleIs(sample, v, c));
    CountAppend(init, last, VisitsIs(sample, v));
    var m := BucketsOf(init, sample, width);
    BucketsShape(init, sample, width, v);
    if v in m {
      BucketCounts(init, sample, width, v, c);
    } else {
      NoneBefore(init, sample, v, c);
    }
  }

  /** Before a visits value is first seen, nobody has it. */
  lemma {:induction false} NoneBefore(rows: seq<Row>, sample: Row -> Option<Sample>, v: real, c: nat)
    requires v !in VisitsSeen(rows, sample)
    ensures Count(rows, SampleIs(sample, v, c)) == 0 && Count(rows, VisitsIs(sample, v)) == 0
  {
    if rows != [] {
      NoneBefore(rows[..|rows| - 1], sample, v, c);
    }
  }

  /** One chart row: the visits value and the share of each category in percent. */
  datatype Share = Share(visits: real, percents: seq<real>)

  /** `(count / total) * 100` */
  function Percent(count: nat, total: nat): real
    requires total >= 1
  {
    count as real / total as real * 100.0
  }

  lemma PercentAdd(a: nat, b: nat, total: nat)
    requires total >= 1
    ensures Percent(a + b, total) == Percent(a, total) + Percent(b, total)
  {
    var t := total as real;
    assert (a + b) as real / t == a as real / t + b as real / t;
  }

  /** `(b.<category> / (b.total || 1)) * 100` for each category. */
  function ShareOf(b: Bucket): (s: Share)
    ensures s.visits == b.visits && |s.percents| == |b.counts|
    ensures forall c :: 0 <= c < |b.counts| ==>
              s.percents[c] == Percent(b.counts[c], if b.total == 0 then 1 else b.total)
  {
    var total := if b.total == 0 then 1 else b.total;
    Share(b.visits, seq(|b.counts|, c requires 0 <= c < |b.counts| => Percent(b.counts[c], total)))
  }

  function SumReal(s: seq<real>): real
  {
    if s == [] then 0.0 else SumReal(s[..|s| - 1]) + s[|s| - 1]
  }

  /** The percentages of a bucket whose counters add up to its total add up to 100. */
  lemma ShareSums(b: Bucket)
    requires b.total >= 1 && SumNat(b.counts) == b.total
    ensures SumReal(ShareOf(b).percents) == 100.0
  {
    var p := ShareOf(b).percents;
    assert forall c :: 0 <= c < |b.counts| ==> p[c] == Percent(b.counts[c], b.total);
    ScaledSum(b.counts, p, b.total);
    PercentWhole(b.total);
  }

  lemma PercentWhole(total: nat)
    requires total >= 1
    ensures Percent(total, total) == 100.0
  {
  }

  lemma {:induction false} ScaledSum(counts: seq<nat>, percents: seq<real>, total: nat)
    requires total >= 1 && |percents| == |counts|
    requires forall c :: 0 <= c < |counts| ==> percents[c] == Percent(counts[c], total)
    ensures SumReal(percents) == Percent(SumNat(counts), total)
  {
    if counts != [] {
      ScaledSum(counts[..|counts| - 1], percents[..|percents| - 1], total);
      PercentAdd(SumNat(counts[..|counts| - 1]), counts[|counts| - 1], total);
    }
  }

  function ShareVisits(s: Share): real
  {
    s.visits
  }

  /** `Object.values(buckets).map(...)`, with the buckets taken in the order their visits
      values were first seen. `Object.values` lists integer-like keys ascending instead, but
      the visits values are distinct and the chart sorts by them, so that order is not seen. */
  function ShareRows(keys: seq<real>, m: map<real, Bucket>): (rows: seq<Share>)
    requires forall i :: 0 <= i < |keys| ==> keys[i] in m
    ensures |rows| == |keys|
    ensures forall i :: 0 <= i < |keys| ==> rows[i] == ShareOf(m[keys[i]])
  {
    seq(|keys|, i requires 0 <= i < |keys| => ShareOf(m[keys[i]]))
  }

  /** `Object.values(buckets).map(...).sort((a, b) => a.visits - b.visits)` */
  function ChartOf(keys: seq<real>, m: map<real, Bucket>): seq<Share>
    requires forall i :: 0 <= i < |keys| ==> keys[i] in m
  {
    SortBy(ShareRows(keys, m), ShareVisits)
  }

  /** Sorting elements whose keys are pairwise different leaves the keys strictly ascending. */
  lemma StrictlySorted<T>(s: seq<T>, key: T -> real)
    requires forall i, j :: 0 <= i < j < |s| ==> key(s[i]) != key(s[j])
    ensures forall i, j :: 0 <= i < j < |SortBy(s, key)| ==> key(SortBy(s, key)[i]) < key(SortBy(s, key)[j])
  {
    var out := SortBy(s, key);
    SortByFacts(s, key);
    assert NoDuplicates(s);
    NoDuplicatesMultiset(s);
    NoDuplicatesMultiset(out);
    forall i, j | 0 <= i < j < |out| ensures key(out[i]) < key(out[j]) {
      assert out[i] in multiset(s) && out[j] in multiset(s);
      var a :| 0 <= a < |s| && s[a] == out[i];
      var b :| 0 <= b < |s| && s[b] == out[j];
      assert out[i] != out[j];
      assert a != b;
    }
  }

  /** Buckets of different keys have different visits values. */
  lemma ShareRowsDistinct(keys: seq<real>, m: map<real, Bucket>)
    requires NoDuplicates(keys)
    requires forall i :: 0 <= i < |keys| ==> keys[i] in m && m[keys[i]].visits == keys[i]
    ensures forall i, j :: 0 <= i < j < |ShareRows(keys, m)| ==>
              ShareVisits(ShareRows(keys, m)[i]) != ShareVisits(ShareRows(keys, m)[j])
  {
  }

  /** The chart holds the share rows and nothing else. */
  lemma ChartMembers(keys: seq<real>, m: map<real, Bucket>)
    requires forall i :: 0 <= i < |keys| ==> keys[i] in m && m[keys[i]].visits == keys[i]
    ensures forall e :: e in ChartOf(keys, m) ==> e.visits in keys && e == ShareOf(m[e.visits])
    ensures forall k :: k in keys ==> ShareOf(m[k]) in ChartOf(keys, m)
  {
    var rows := ShareRows(keys, m);
    var out := ChartOf(keys, m);
    SortByFacts(rows, ShareVisits);
    forall e | e in out ensures e.visits in keys && e == ShareOf(m[e.visits]) {
      assert e in multiset(out);
      assert e in multiset(rows);
      var i :| 0 <= i < |rows| && rows[i] == e;
    }
    forall k | k in keys ensures ShareOf(m[k]) in out {
      var i :| 0 <= i < |keys| && keys[i] == k;
      assert rows[i] in multiset(rows);
      assert rows[i] in multiset(out);
    }
  }

  /** The chart has one row per key, strictly ascending by visits, each row the share of its bucket. */
  lemma ChartFacts(keys: seq<real>, m: map<real, Bucket>)
    requires NoDuplicates(keys)
    requires forall i :: 0 <= i < |keys| ==> keys[i] in m && m[keys[i]].visits == keys[i]
    ensures |ChartOf(keys, m)| == |keys|
    ensures forall i, j :: 0 <= i < j < |ChartOf(keys, m)| ==> ChartOf(keys, m)[i].visits < ChartOf(keys, m)[j].visits
    ensures forall e :: e in ChartOf(keys, m) ==> e.visits in keys && e == ShareOf(m[e.visits])
    ensures forall k :: k in keys ==> ShareOf(m[k]) in ChartOf(keys, m)
  {
    var rows := ShareRows(keys, m);
    SortByFacts(rows, ShareVisits);
    ShareRowsDistinct(keys, m);
    StrictlySorted(rows, ShareVisits);
    ChartMembers(keys, m);
  }

  /** What the chart says about the rows: one row per visits value seen, strictly
      ascending by visits; each row's percentages are, category by category, the share
      of that category among the members with that visits value, and add up to 100. */
  predicate DescribesBuckets(chart: seq<Share>, rows: seq<Row>, sample: Row -> Option<Sample>, width: nat)
  {
    (forall i, j :: 0 <= i < j < |chart| ==> chart[i].visits < chart[j].visits)
    && (forall v :: v in VisitsSeen(rows, sample) ==> exists e :: e in chart && e.visits == v)
    && forall e :: e in chart ==>
         e.visits in VisitsSeen(rows, sample)
         && Count(rows, VisitsIs(sample, e.visits)) >= 1
         && |e.percents| == width
         && (forall c :: 0 <= c < width ==>
               e.percents[c] == Percent(Count(rows, SampleIs(sample, e.visits, c)), Count(rows, VisitsIs(sample, e.visits))))
         && SumReal(e.percents) == 100.0
  }

  /** The share of one bucket, read back in terms of the rows. */
  lemma ShareMeaning(rows: seq<Row>, sample: Row -> Option<Sample>, width: nat, v: real)
    requires Categorised(sample, width) && width >= 1
    requires v in BucketsOf(rows, sample, width)
    ensures var e := ShareOf(BucketsOf(rows, sample, width)[v]);
            e.visits == v
            && Count(rows, VisitsIs(sample, v)) >= 1
            && |e.percents| == width
            && (forall c :: 0 <= c < width ==>
                  e.percents[c] == Percent(Count(rows, SampleIs(sample, v, c)), Count(rows, VisitsIs(sample, v))))
            && SumReal(e.percents) == 100.0
  {
    var b := BucketsOf(rows, sample, width)[v];
    BucketsShape(rows, sample, width, v);
    forall c | 0 <= c < width
      ensures ShareOf(b).percents[c] == Percent(Count(rows, SampleIs(sample, v, c)), Count(rows, VisitsIs(sample, v)))
    {
      BucketCounts(rows, sample, width, v, c);
    }
    BucketCounts(rows, sample, width, v, 0);
    ShareSums(b);
  }

  /** The sorted chart of the buckets built from the rows describes the rows. */
  lemma BucketChart(rows: seq<Row>, sample: Row -> Option<Sample>, width: nat)
    requires Categorised(sample, width) && width >= 1
    ensures var keys := Distinct(VisitsSeen(rows, sample));
            var m := BucketsOf(rows, sample, width);
            (forall i :: 0 <= i < |keys| ==> keys[i] in m)
            && DescribesBuckets(ChartOf(keys, m), rows, sample, width)
  {
    var keys := Distinct(VisitsSeen(rows, sample));
    var m := BucketsOf(rows, sample, width);
    DistinctFacts(VisitsSeen(rows, sample));
    forall i | 0 <= i < |keys| ensures keys[i] in m && m[keys[i]].visits == keys[i] {
      assert keys[i] in VisitsSeen(rows, sample);
      BucketsShape(rows, sample, width, keys[i]);
    }
    forall v | v in VisitsSeen(rows, sample) ensures v in m {
      BucketsShape(rows, sample, width, v);
    }
    ChartFacts(keys, m);
    var chart := ChartOf(keys, m);
    forall v | v in VisitsSeen(rows, sample) ensures exists e :: e in chart && e.visits == v {
      assert ShareOf(m[v]) in chart;
    }
    forall e | e in chart
      ensures e.visits in VisitsSeen(rows, sample)
      ensures Count(rows, VisitsIs(sample, e.visits)) >= 1
      ensures |e.percents| == width
      ensures forall c :: 0 <= c < width ==>
               e.percents[c] == Percent(Count(rows, SampleIs(sample, e.visits, c)), Count(rows, VisitsIs(sample, e.visits)))
      ensures SumReal(e.percents) == 100.0
    {
      ShareMeaning(rows, sample, width, e.visits);
    }
  }
}
