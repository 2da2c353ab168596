/** The members page: four charts over the gym and health files. Members per age
    bucket with their average sleep, the share enrolled in group lessons, a histogram
    of stress levels, and the workout intensity per weekly-visits value, found by
    joining each gym member to the health row with the same id. */
module MembersVisualization {
  import opened JsValues
  import opened Seqs
  import opened VisitBuckets

  // ---------------------------------------------------------------------------
  // Closed ranges and `find`

  /** `{ label, min, max }`; a max of None stands for Infinity. */
  datatype Range = Range(name: string, min: real, max: Option<real>)

  predicate InRange(r: Range, x: real)
  {
    r.min <= x && (r.max.None? || x <= r.max.value)
  }

  /** `ranges.find((b) => x >= b.min && x <= b.max)`, as an index; None for undefined. */
  function FindRange(ranges: seq<Range>, x: real): (k: Option<nat>)
    ensures k.Some? ==> k.value < |ranges| && InRange(ranges[k.value], x)
    ensures k.Some? ==> forall j :: 0 <= j < k.value ==> !InRange(ranges[j], x)
    ensures k.None? ==> forall j :: 0 <= j < |ranges| ==> !InRange(ranges[j], x)
  {
    if ranges == [] then None
    else if InRange(ranges[0], x) then Some(0)
    else
      match FindRange(ranges[1..], x)
      case None => None
      case Some(j) => Some(j + 1)
  }

  /** The counters after the rows: a row whose key is a finite number lying in some range adds
      one to the first such range; any other row adds nothing. */
  function Histogram(rows: seq<Row>, key: Row -> Option<real>, ranges: seq<Range>): (h: seq<nat>)
    ensures |h| == |ranges|
  {
    if rows == [] then seq(|ranges|, _ => 0)
    else
      var h := Histogram(rows[..|rows| - 1], key, ranges);
      match key(rows[|rows| - 1])
      case None => h
      case Some(x) =>
        match FindRange(ranges, x)
        case None => h
        case Some(k) => h[k := h[k] + 1]
  }

  /** A row whose key lands in range `k` adds one to that counter. */
  lemma HistogramAdd(rows: seq<Row>, i: nat, key: Row -> Option<real>, ranges: seq<Range>,
                     counts: seq<nat>, x: real, k: nat)
    requires i < |rows| && counts == Histogram(rows[..i], key, ranges)
    requires key(rows[i]) == Some(x) && FindRange(ranges, x) == Some(k)
    ensures Histogram(rows[..i + 1], key, ranges) == counts[k := counts[k] + 1]
  {
    assert rows[..i + 1][..i] == rows[..i];
  }

  /** A row whose key is not a number, or lands in no range, leaves the counters as they were. */
  lemma HistogramSkip(rows: seq<Row>, i: nat, key: Row -> Option<real>, ranges: seq<Range>)
    requires i < |rows|
    requires key(rows[i]).None? || FindRange(ranges, key(rows[i]).value).None?
    ensures Histogram(rows[..i + 1], key, ranges) == Histogram(rows[..i], key, ranges)
  {
    assert rows[..i + 1][..i] == rows[..i];
  }

  /** The row's key lands in range `k`. */
  function LandsIn(key: Row -> Option<real>, ranges: seq<Range>, k: nat): Row -> bool
  {
    row => key(row).Some? && FindRange(ranges, key(row).value) == Some(k)
  }

  /** The row's key lands in some range. */
  function Lands(key: Row -> Option<real>, ranges: seq<Range>): Row -> bool
  {
    row => key(row).Some? && FindRange(ranges, key(row).value).Some?
  }

  /** Counter `k` is the number of rows that land in range `k`. */
  lemma {:induction false} HistogramCount(rows: seq<Row>, key: Row -> Option<real>, ranges: seq<Range>, k: nat)
    requires k < |ranges|
    ensures Histogram(rows, key, ranges)[k] == Count(rows, LandsIn(key, ranges, k))
  {
    if rows != [] {
      var init := rows[..|rows| - 1];
      HistogramCount(init, key, ranges, k);
      CountAppend(init, rows[|rows| - 1], LandsIn(key, ranges, k));
      assert rows == init + [rows[|rows| - 1]];
    }
  }

  /** The counters add up to the number of rows that land somewhere, which is at most the
      number of rows: a row outside every range is dropped. */
  lemma {:induction false} HistogramTotal(rows: seq<Row>, key: Row -> Option<real>, ranges: seq<Range>)
    ensures SumNat(Histogram(rows, key, ranges)) == Count(rows, Lands(key, ranges))
    ensures SumNat(Histogram(rows, key, ranges)) <= |rows|
  {
    if rows == [] {
      SumNatZero(|ranges|);
    } else {
      var init := rows[..|rows| - 1];
      var last := rows[|rows| - 1];
      HistogramTotal(init, key, ranges);
      CountAppend(init, last, Lands(key, ranges));
      assert rows == init + [last];
      var h := Histogram(init, key, ranges);
      if key(last).Some? && FindRange(ranges, key(last).value).Some? {
        var k := FindRange(ranges, key(last).value).value;
        SumNatIncrement(h, k);
        assert Histogram(rows, key, ranges) == h[k := h[k] + 1];
      } else {
        assert Histogram(rows, key, ranges) == h;
      }
    }
    CountFacts(rows, Lands(key, ranges));
  }

  // ---------------------------------------------------------------------------
  // Age buckets and sleep

  const AgeBuckets: seq<Range> := [
    Range("18–25", 18.0, Some(25.0)), Range("26–35", 26.0, Some(35.0)),
    Range("36–45", 36.0, Some(45.0)), Range("46+", 46.0, None)]

  /** `Number(row.Age ?? row.age)` */
  function AgeOf(row: Row): Value
  {
    ToNumber(Coalesce(Get(row, "Age"), Get(row, "age")))
  }

  /** `Number(row.hours_sleep ?? row.hoursSleep ?? row.Hours_Sleep)` */
  function HoursOf(row: Row): Value
  {
    ToNumber(Coalesce(Coalesce(Get(row, "hours_sleep"), Get(row, "hoursSleep")), Get(row, "Hours_Sleep")))
  }

  /** The age of a row whose age and sleep are both finite numbers; None for a skipped row. */
  function AgeKey(): Row -> Option<real>
  {
    row => if AgeOf(row).Num? && HoursOf(row).Num? then Some(AgeOf(row).x) else None
  }

  /** The summed sleep per age bucket after the rows. */
  function SleepTotals(rows: seq<Row>): (t: seq<real>)
    ensures |t| == |AgeBuckets|
  {
    if rows == [] then seq(|AgeBuckets|, _ => 0.0)
    else
      var t := SleepTotals(rows[..|rows| - 1]);
      var row := rows[|rows| - 1];
      if AgeOf(row).Num? && HoursOf(row).Num? then
        match FindRange(AgeBuckets, AgeOf(row).x)
        case None => t
        case Some(k) => t[k := t[k] + HoursOf(row).x]
      else t
  }

  /** A row whose age or sleep is not a finite number, or whose age lies in no bucket,
      leaves the sleep totals as they were. */
  lemma SleepSkip(rows: seq<Row>, i: nat)
    requires i < |rows|
    requires !(AgeOf(rows[i]).Num? && HoursOf(rows[i]).Num?) || FindRange(AgeBuckets, AgeOf(rows[i]).x).None?
    ensures SleepTotals(rows[..i + 1]) == SleepTotals(rows[..i])
  {
    assert rows[..i + 1][..i] == rows[..i];
  }

  /** A row with finite age and sleep whose age lies in bucket `k` adds its sleep to that bucket. */
  lemma SleepAdd(rows: seq<Row>, i: nat, totals: seq<real>, age: real, hours: real, k: nat)
    requires i < |rows| && totals == SleepTotals(rows[..i])
    requires AgeOf(rows[i]) == Num(age) && HoursOf(rows[i]) == Num(hours)
    requires FindRange(AgeBuckets, age) == Some(k)
    ensures SleepTotals(rows[..i + 1]) == totals[k := totals[k] + hours]
  {
    assert rows[..i + 1][..i] == rows[..i];
  }

  /** The body of the donut's `forEach`: row `i` moves the counters and sleep totals of
      the rows before it to those of the rows up to and including it. */
  method TallyMember(rows: seq<Row>, i: nat, counts: seq<nat>, totals: seq<real>)
    returns (counts': seq<nat>, totals': seq<real>)
    requires i < |rows|
    requires counts == Histogram(rows[..i], AgeKey(), AgeBuckets)
    requires totals == SleepTotals(rows[..i])
    ensures counts' == Histogram(rows[..i + 1], AgeKey(), AgeBuckets)
    ensures totals' == SleepTotals(rows[..i + 1])
  {
    var age := AgeOf(rows[i]);
    var hours := HoursOf(rows[i]);
    if age.Num? && hours.Num? && FindRange(AgeBuckets, age.x).Some? {
      var k := FindRange(AgeBuckets, age.x).value;
      HistogramAdd(rows, i, AgeKey(), AgeBuckets, counts, age.x, k);
      SleepAdd(rows, i, totals, age.x, hours.x, k);
      counts' := counts[k := counts[k] + 1];
      totals' := totals[k := totals[k] + hours.x];
    } else {
      HistogramSkip(rows, i, AgeKey(), AgeBuckets);
      SleepSkip(rows, i);
      counts', totals' := counts, totals;
    }
  }

  /** One slice of the donut: `{ label, value, avgSleep }`. */
  datatype AgeSlice = AgeSlice(name: string, value: nat, avgSleep: real)

  /** `getAgeSleepDonutData`: the four buckets in their fixed order, each with its number of
      members and their average sleep, 0 for an empty bucket. */
  method AgeSleepDonut(rows: seq<Row>) returns (slices: seq<AgeSlice>)
    ensures |slices| == |AgeBuckets|
    ensures forall k :: 0 <= k < |AgeBuckets| ==>
              slices[k].name == AgeBuckets[k].name
              && slices[k].value == Histogram(rows, AgeKey(), AgeBuckets)[k]
              && slices[k].avgSleep == (if slices[k].value == 0 then 0.0 else SleepTotals(rows)[k] / slices[k].value as real)
  {
    var counts: seq<nat> := [0, 0, 0, 0];
    var totals: seq<real> := [0.0, 0.0, 0.0, 0.0];
    var i := 0;
    while i < |rows|
      invariant 0 <= i <= |rows|
      invariant counts == Histogram(rows[..i], AgeKey(), AgeBuckets)
      invariant totals == SleepTotals(rows[..i])
    {
      counts, totals := TallyMember(rows, i, counts, totals);
      i := i + 1;
    }
    assert rows[..|rows|] == rows;
    slices := seq(4, k requires 0 <= k < 4 =>
      AgeSlice(AgeBuckets[k].name, counts[k], if counts[k] == 0 then 0.0 else totals[k] / counts[k] as real));
  }

  /** Each slice counts the members with finite age and sleep whose age lies in its bucket,
      and the four slices hold at most every member: ages between the buckets (25.5) or below
      them (17) are dropped. */
  lemma AgeBucketsMeaning(rows: seq<Row>, k: nat)
    requires k < |AgeBuckets|
    ensures Histogram(rows, AgeKey(), AgeBuckets)[k] == Count(rows, LandsIn(AgeKey(), AgeBuckets, k))
    ensures SumNat(Histogram(rows, AgeKey(), AgeBuckets)) <= |rows|
    ensures FindRange(AgeBuckets, 25.5).None? && FindRange(AgeBuckets, 17.0).None?
    ensures FindRange(AgeBuckets, 46.0) == Some(3) && FindRange(AgeBuckets, 1000.0) == Some(3)
  {
    HistogramCount(rows, AgeKey(), AgeBuckets, k);
    HistogramTotal(rows, AgeKey(), AgeBuckets);
    AgeBucketEdges();
  }

  /** Where the age buckets begin and end. */
  lemma AgeBucketEdges()
    ensures FindRange(AgeBuckets, 25.5).None? && FindRange(AgeBuckets, 17.0).None?
    ensures FindRange(AgeBuckets, 46.0) == Some(3) && FindRange(AgeBuckets, 1000.0) == Some(3)
  {
    var b := AgeBuckets;
    assert FindRange(b, 25.5) == None by { assert !InRange(b[0], 25.5) && !InRange(b[1], 25.5); }
  }

  // ---------------------------------------------------------------------------
  // Group-lesson enrollment

  /** `value === true || value === 1 || value === "1" || value.toLowerCase() === 'yes'` */
  predicate IsYes(v: Value)
  {
    v == Bool(true) || v == Num(1.0) || v == Str("1") || (v.Str? && Lower(v.s) == "yes")
  }

  function Enrolled(): Row -> bool
  {
    row => IsYes(Get(row, "attend_group_lesson"))
  }

  function NotEnrolled(): Row -> bool
  {
    row => !IsYes(Get(row, "attend_group_lesson"))
  }

  /** `{ label, value }` */
  datatype Slice = Slice(name: string, value: real)

  /** `getGroupLessonEnrollmentData`: every member is counted as yes or as no; the two
      percentages share `yes + no || 1` as divisor, so they add up to 100 for any member
      and are both 0 without members. */
  method Enrollment(rows: seq<Row>) returns (slices: seq<Slice>)
    ensures |slices| == 2 && slices[0].name == "Yes" && slices[1].name == "No"
    ensures rows != [] ==>
              slices[0].value == Percent(Count(rows, Enrolled()), |rows|)
              && slices[1].value == Percent(Count(rows, NotEnrolled()), |rows|)
              && slices[0].value + slices[1].value == 100.0
    ensures rows == [] ==> slices[0].value == 0.0 && slices[1].value == 0.0
  {
    var yes := 0;
    var no := 0;
    var i := 0;
    while i < |rows|
      invariant 0 <= i <= |rows|
      invariant yes == Count(rows[..i], Enrolled()) && no == Count(rows[..i], NotEnrolled())
      invariant yes + no == i
    {
      assert rows[..i + 1] == rows[..i] + [rows[i]];
      CountAppend(rows[..i], rows[i], Enrolled());
      CountAppend(rows[..i], rows[i], NotEnrolled());
      if IsYes(Get(rows[i], "attend_group_lesson")) {
        yes := yes + 1;
      } else {
        no := no + 1;
      }
      i := i + 1;
    }
    assert rows[..|rows|] == rows;
    var total := if yes + no == 0 then 1 else yes + no;
    slices := [Slice("Yes", Percent(yes, total)), Slice("No", Percent(no, total))];
    if rows != [] {
      PercentAdd(yes, no, total);
      PercentWhole(total);
    }
  }

  // ---------------------------------------------------------------------------
  // Stress levels

  const StressBins: seq<Range> := [
    Range("4.5–4.9", 4.5, Some(4.9)), Range("5.0–5.2", 5.0, Some(5.2)),
    Range("5.3–5.5", 5.3, Some(5.5)), Range("5.6–5.8", 5.6, Some(5.8))]

  /** `Number(row.stress_level)` when it is finite. */
  function StressKey(): Row -> Option<real>
  {
    row => var v := ToNumber(Get(row, "stress_level")); if v.Num? then Some(v.x) else None
  }

  /** `{ label, count }` */
  datatype Bin = Bin(name: string, count: nat)

  /** `getStressLevelHistogramData`: the four bins in their fixed order with their counts. */
  method StressHistogram(rows: seq<Row>) returns (bins: seq<Bin>)
    ensures |bins| == |StressBins|
    ensures forall k :: 0 <= k < |StressBins| ==>
              bins[k] == Bin(StressBins[k].name, Histogram(rows, StressKey(), StressBins)[k])
  {
    var counts: seq<nat> := [0, 0, 0, 0];
    var i := 0;
    while i < |rows|
      invariant 0 <= i <= |rows|
      invariant counts == Histogram(rows[..i], StressKey(), StressBins)
    {
      var value := ToNumber(Get(rows[i], "stress_level"));
      if value.Num? && FindRange(StressBins, value.x).Some? {
        var k := FindRange(StressBins, value.x).value;
        HistogramAdd(rows, i, StressKey(), StressBins, counts, value.x, k);
        counts := counts[k := counts[k] + 1];
      } else {
        HistogramSkip(rows, i, StressKey(), StressBins);
      }
      i := i + 1;
    }
    assert rows[..|rows|] == rows;
    bins := seq(4, k requires 0 <= k < 4 => Bin(StressBins[k].name, counts[k]));
  }

  /** Each bin counts the rows whose finite stress level lies in it; values in the gaps
      between the bins are dropped, so the bins hold at most every row. */
  lemma StressBinsMeaning(rows: seq<Row>, k: nat)
    requires k < |StressBins|
    ensures Histogram(rows, StressKey(), StressBins)[k] == Count(rows, LandsIn(StressKey(), StressBins, k))
    ensures SumNat(Histogram(rows, StressKey(), StressBins)) <= |rows|
    ensures FindRange(StressBins, 4.95).None? && FindRange(StressBins, 5.25).None? && FindRange(StressBins, 5.9).None?
    ensures FindRange(StressBins, 4.5) == Some(0) && FindRange(StressBins, 5.8) == Some(3)
  {
    HistogramCount(rows, StressKey(), StressBins, k);
    HistogramTotal(rows, StressKey(), StressBins);
    StressBinEdges();
  }

  /** Where the stress bins begin and end. */
  lemma StressBinEdges()
    ensures FindRange(StressBins, 4.95).None? && FindRange(StressBins, 5.25).None? && FindRange(StressBins, 5.9).None?
    ensures FindRange(StressBins, 4.5) == Some(0) && FindRange(StressBins, 5.8) == Some(3)
  {
    var b := StressBins;
    assert FindRange(b, 4.95) == None by { assert !InRange(b[0], 4.95) && !InRange(b[1], 4.95); }
  }

  // ---------------------------------------------------------------------------
  // Intensity versus visits

  /** `Number(row.id)` */
  function IdOf(row: Row): Value
  {
    ToNumber(Get(row, "id"))
  }

  /** `fitnessById` after the health rows: rows with a finite id, a later row replacing an
      earlier one with the same id. */
  function IndexById(rows: seq<Row>): map<real, Row>
  {
    IndexBy(rows, IdOf)
  }

  /** The rows whose key is a finite number, by that number; a later row replaces an earlier one. */
  function IndexBy(rows: seq<Row>, key: Row -> Value): map<real, Row>
  {
    if rows == [] then map[]
    else
      var m := IndexBy(rows[..|rows| - 1], key);
      var last := rows[|rows| - 1];
      if key(last).Num? then m[key(last).x := last] else m
  }

  /** The index holds an id exactly when some row has it, and then the last such row. */
  lemma IndexLatest(rows: seq<Row>, id: real)
    ensures id in IndexById(rows) <==> exists i :: 0 <= i < |rows| && IdOf(rows[i]) == Num(id)
    ensures id in IndexById(rows) ==>
              exists i :: 0 <= i < |rows| && IdOf(rows[i]) == Num(id) && IndexById(rows)[id] == rows[i]
                          && forall j :: i < j < |rows| ==> IdOf(rows[j]) != Num(id)
  {
    IndexByLatest(rows, id, IdOf);
  }

  /** The same for any key. */
  lemma {:induction false} IndexByLatest(rows: seq<Row>, id: real, key: Row -> Value)
    ensures id in IndexBy(rows, key) <==> exists i :: 0 <= i < |rows| && key(rows[i]) == Num(id)
    ensures id in IndexBy(rows, key) ==>
              exists i :: 0 <= i < |rows| && key(rows[i]) == Num(id) && IndexBy(rows, key)[id] == rows[i]
                          && forall j :: i < j < |rows| ==> key(rows[j]) != Num(id)
  {
    if rows != [] {
      var init := rows[..|rows| - 1];
      var last := rows[|rows| - 1];
      IndexByLatest(init, id, key);
      if key(last) == Num(id) {
        assert IndexBy(rows, key)[id] == rows[|rows| - 1];
      } else {
        assert IndexBy(rows, key) == IndexBy(init, key) || IndexBy(rows, key) == IndexBy(init, key)[key(last).x := last];
        if exists i :: 0 <= i < |rows| && key(rows[i]) == Num(id) {
          var i :| 0 <= i < |rows| && key(rows[i]) == Num(id);
          assert init[i] == rows[i];
        }
        if id in IndexBy(init, key) {
          var i :| 0 <= i < |init| && key(init[i]) == Num(id) && IndexBy(init, key)[id] == init[i]
                   && forall j :: i < j < |init| ==> key(init[j]) != Num(id);
          assert rows[i] == init[i];
          forall j | i < j < |rows| ensures key(rows[j]) != Num(id) {
            if j < |init| {
              assert rows[j] == init[j];
            }
          }
        }
      }
    }
  }

  /** The first loop: index the health rows by numeric id. */
  method BuildIndex(health: seq<Row>) returns (fitnessById: map<real, Row>)
    ensures fitnessById == IndexById(health)
  {
    fitnessById := map[];
    var i := 0;
    while i < |health|
      invariant 0 <= i <= |health|
      invariant fitnessById == IndexById(health[..i])
    {
      assert health[..i + 1][..i] == health[..i];
      var id := IdOf(health[i]);
      if id.Num? {
        fitnessById := fitnessById[id.x := health[i]];
      }
      i := i + 1;
    }
    assert health[..|health|] == health;
  }

  /** `(fitness.intensity ?? '').toString().toLowerCase().trim()` as a category: 0 low,
      1 medium, 2 high; anything else is ignored. */
  function IntensityCategory(fitness: Row): (c: Option<nat>)
    ensures c.Some? ==> c.value < 3
  {
    var raw := Trim(Lower(ToStr(Coalesce(Get(fitness, "intensity"), Str("")))));
    if raw == "low" then Some(0)
    else if raw == "medium" then Some(1)
    else if raw == "high" then Some(2)
    else None
  }

  /** A gym member takes part when its id and visits are finite, a health row has its id,
      and that row's intensity is low, medium or high; there is no lower bound on visits. */
  function IntensitySample(fitnessById: map<real, Row>, member: Row): (s: Option<Sample>)
    ensures s.Some? <==> IdOf(member).Num? && ToNumber(Get(member, "visit_per_week")).Num?
                         && IdOf(member).x in fitnessById && IntensityCategory(fitnessById[IdOf(member).x]).Some?
    ensures s.Some? ==> s.value.visits == ToNumber(Get(member, "visit_per_week")).x
                        && s.value.category == IntensityCategory(fitnessById[IdOf(member).x]).value
  {
    var id := IdOf(member);
    var visits := ToNumber(Get(member, "visit_per_week"));
    if !id.Num? || !visits.Num? || id.x !in fitnessById then None
    else
      match IntensityCategory(fitnessById[id.x])
      case None => None
      case Some(c) => Some(Sample(visits.x, c))
  }

  function IntensitySampler(fitnessById: map<real, Row>): Row -> Option<Sample>
  {
    member => IntensitySample(fitnessById, member)
  }

  /** `getIntensityVsVisitsStackedData`: one row per visits value, ascending, holding the
      percentages of low (index 0), medium (1) and high (2) intensity among its members. */
  method IntensityVsVisits(gym: seq<Row>, health: seq<Row>) returns (chart: seq<Share>)
    ensures DescribesBuckets(chart, gym, IntensitySampler(IndexById(health)), 3)
  {
    var fitnessById := BuildIndex(health);
    assert Categorised(IntensitySampler(fitnessById), 3);
    var buckets, keys := CollectBuckets(gym, IntensitySampler(fitnessById), 3);
    BucketChart(gym, IntensitySampler(fitnessById), 3);
    chart := ChartOf(keys, buckets);
  }
}
