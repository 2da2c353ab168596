/** The trainers page: the share of members with a personal trainer per weekly-visits
    value, and, from the gym file read by the hand-written CSV reader, the members per
    trainer, their membership types, and each trainer's members per check-in time slot. */
module TrainersPage {
  import opened JsValues
  import opened Seqs
  import opened NaiveCsv
  import opened VisitBuckets

  // ---------------------------------------------------------------------------
  // Personal-trainer usage by visits per week

  /** `(row.name_personal_trainer ?? '').toString().toLowerCase().trim()` is neither '' nor 'no pt'. */
  predicate HasPt(row: Row)
  {
    var raw := Trim(Lower(ToStr(Coalesce(Get(row, "name_personal_trainer"), Str("")))));
    raw != "" && raw != "no pt"
  }

  /** A row takes part when its visits value is a finite number above 0; category 0 counts
      `hasPt`, category 1 counts `noPt`. */
  function PtSample(row: Row): (s: Option<Sample>)
    ensures s.Some? <==> ToNumber(Get(row, "visit_per_week")).Num? && ToNumber(Get(row, "visit_per_week")).x > 0.0
    ensures s.Some? ==> s.value.visits == ToNumber(Get(row, "visit_per_week")).x
    ensures s.Some? ==> s.value.category < 2 && (s.value.category == 0 <==> HasPt(row))
  {
    var visits := ToNumber(Get(row, "visit_per_week"));
    if !visits.Num? || visits.x <= 0.0 then None
    else Some(Sample(visits.x, if HasPt(row) then 0 else 1))
  }

  function PtSampler(): Row -> Option<Sample>
  {
    row => PtSample(row)
  }

  /** `getPtUsageByVisitsData`: one row per visits value, ascending, holding the percentage
      of its members with (index 0) and without (index 1) a personal trainer; members with
      no finite positive visits value are skipped. */
  method PtUsageByVisits(rows: seq<Row>) returns (chart: seq<Share>)
    ensures DescribesBuckets(chart, rows, PtSampler(), 2)
  {
    assert Categorised(PtSampler(), 2);
    var buckets, keys := CollectBuckets(rows, PtSampler(), 2);
    BucketChart(rows, PtSampler(), 2);
    chart := ChartOf(keys, buckets);
  }

  // ---------------------------------------------------------------------------
  // Trainer statistics over the CSV records

  /** `values[key]?.trim()`: None stands for undefined. */
  function Field(rec: Record, key: string): Option<string>
  {
    if key in rec then Some(Trim(rec[key])) else None
  }

  /** `trainer && trainer !== 'No PT'` */
  predicate IsCounted(rec: Record)
  {
    var t := Field(rec, "name_personal_trainer");
    t.Some? && t.value != "" && t.value != "No PT"
  }

  function TrainerName(rec: Record): string
    requires IsCounted(rec)
  {
    Field(rec, "name_personal_trainer").value
  }

  /** The membership type as an object key: a missing one becomes the key "undefined". */
  function MembershipKey(rec: Record): string
  {
    var m := Field(rec, "abonoment_type");
    if m.Some? then m.value else "undefined"
  }

  const SlotNames: seq<string> := ["Morning (8-12)", "Afternoon (12-16)", "Evening (16-20)", "Night (20-24)"]

  /** The slot of a check-in hour, an index into `SlotNames`: [8,12), [12,16), [16,20) and
      20 or later; an hour before 8 or NaN (None) has no slot. */
  function SlotOfHour(hour: Option<int>): (k: Option<nat>)
    ensures k.Some? ==> k.value < |SlotNames|
    ensures k.None? <==> hour.None? || hour.value < 8
    ensures k == Some(0) <==> hour.Some? && 8 <= hour.value < 12
    ensures k == Some(1) <==> hour.Some? && 12 <= hour.value < 16
    ensures k == Some(2) <==> hour.Some? && 16 <= hour.value < 20
    ensures k == Some(3) <==> hour.Some? && hour.value >= 20
  {
    match hour
    case None => None
    case Some(h) =>
      if h >= 8 && h < 12 then Some(0)
      else if h >= 12 && h < 16 then Some(1)
      else if h >= 16 && h < 20 then Some(2)
      else if h >= 20 then Some(3)
      else None
  }

  /** The slot of a record: none without a check-in time, otherwise by
      `parseInt(checkInTime.split(':')[0], 10)`. */
  function SlotOf(rec: Record): (k: Option<nat>)
    ensures k.Some? ==> k.value < |SlotNames|
  {
    var c := Field(rec, "avg_time_check_in");
    if c.None? || c.value == "" then None
    else SlotOfHour(ParseInt(Split(c.value, ':')[0]))
  }

  /** The trainer of every counted record, in order. */
  function CountedTrainers(rows: seq<Record>): seq<string>
  {
    if rows == [] then []
    else
      var last := rows[|rows| - 1];
      CountedTrainers(rows[..|rows| - 1]) + (if IsCounted(last) then [TrainerName(last)] else [])
  }

  /** The membership key of every counted record of trainer `t`, in order. */
  function TypesOf(rows: seq<Record>, t: string): seq<string>
  {
    if rows == [] then []
    else
      var last := rows[|rows| - 1];
      TypesOf(rows[..|rows| - 1], t) + (if IsCounted(last) && TrainerName(last) == t then [MembershipKey(last)] else [])
  }

  /** The trainer of every counted record whose check-in falls in slot `k`, in order. */
  function SlotTrainers(rows: seq<Record>, k: nat): seq<string>
  {
    if rows == [] then []
    else
      var last := rows[|rows| - 1];
      SlotTrainers(rows[..|rows| - 1], k) + (if IsCounted(last) && SlotOf(last) == Some(k) then [TrainerName(last)] else [])
  }

  /** The three dictionaries the statistics loop fills. */
  datatype TrainerStats = TrainerStats(
    members: map<string, nat>, types: map<string, map<string, nat>>, workload: map<string, map<string, nat>>)

  const EmptyWorkload: map<string, map<string, nat>> :=
    map[SlotNames[0] := map[], SlotNames[1] := map[], SlotNames[2] := map[], SlotNames[3] := map[]]

  /** One record's effect: a counted record adds one to its trainer, one to its trainer's
      membership type, and one to its trainer in its check-in slot, if it has one. */
  function Step(st: TrainerStats, rec: Record): (r: TrainerStats)
    requires st.workload.Keys == EmptyWorkload.Keys
    ensures r.workload.Keys == EmptyWorkload.Keys
  {
    if !IsCounted(rec) then st
    else
      var t := TrainerName(rec);
      var types := st.types[t := Bump(if t in st.types then st.types[t] else map[], MembershipKey(rec))];
      var workload :=
        match SlotOf(rec)
        case None => st.workload
        case Some(k) => st.workload[SlotNames[k] := Bump(st.workload[SlotNames[k]], t)];
      TrainerStats(Bump(st.members, t), types, workload)
  }

  /** The dictionaries after the records, in order. */
  function StatsOf(rows: seq<Record>): (r: TrainerStats)
    ensures r.workload.Keys == EmptyWorkload.Keys
  {
    if rows == [] then TrainerStats(map[], map[], EmptyWorkload)
    else Step(StatsOf(rows[..|rows| - 1]), rows[|rows| - 1])
  }

  /** The statistics loop: `membersByTrainer`, `membershipTypeByTrainer` and `trainerWorkload`. */
  method ComputeTrainerStats(rows: seq<Record>)
    returns (members: map<string, nat>, types: map<string, map<string, nat>>, workload: map<string, map<string, nat>>)
    ensures TrainerStats(members, types, workload) == StatsOf(rows)
  {
    members := map[];
    types := map[];
    workload := EmptyWorkload;
    var i := 0;
    while i < |rows|
      invariant 0 <= i <= |rows|
      invariant TrainerStats(members, types, workload) == StatsOf(rows[..i])
    {
      assert rows[..i + 1][..i] == rows[..i];
      members, types, workload := CountRecord(members, types, workload, rows[i]);
      i := i + 1;
    }
    assert rows[..|rows|] == rows;
  }

  /** The loop body for one record. */
  method CountRecord(members: map<string, nat>, types: map<string, map<string, nat>>,
                     workload: map<string, map<string, nat>>, values: Record)
    returns (members': map<string, nat>, types': map<string, map<string, nat>>, workload': map<string, map<string, nat>>)
    requires workload.Keys == EmptyWorkload.Keys
    ensures var r := Step(TrainerStats(members, types, workload), values);
            members' == r.members && types' == r.types && workload' == r.workload
  {
    members', types', workload' := members, types, workload;
    var trainer := Field(values, "name_personal_trainer");
    var membershipType := MembershipKey(values);
    var checkInTime := Field(values, "avg_time_check_in");
    if trainer.Some? && trainer.value != "" && trainer.value != "No PT" {
      var t := trainer.value;
      members' := Bump(members', t);
      // a trainer seen for the first time starts with an empty dictionary of types
      var typeCounts := if t in types' then types'[t] else map[];
      types' := types'[t := Bump(typeCounts, membershipType)];
      if checkInTime.Some? && checkInTime.value != "" {
        var hour := ParseInt(Split(checkInTime.value, ':')[0]);
        var slot := SlotOfHour(hour);
        if slot.Some? {
          var name := SlotNames[slot.value];
          workload' := workload'[name := Bump(workload'[name], t)];
        }
      }
    }
  }

  /** `membersByTrainer` is the counting dictionary of the counted records' trainers. */
  lemma {:induction false} MembersFold(rows: seq<Record>)
    ensures StatsOf(rows).members == CountMap(CountedTrainers(rows))
  {
    if rows != [] {
      var init := rows[..|rows| - 1];
      MembersFold(init);
      var last := rows[|rows| - 1];
      assert StatsOf(rows) == Step(StatsOf(init), last);
      if IsCounted(last) {
        assert Step(StatsOf(init), last).members == Bump(StatsOf(init).members, TrainerName(last));
        assert CountedTrainers(rows) == CountedTrainers(init) + [TrainerName(last)];
        CountMapAppend(CountedTrainers(init), TrainerName(last));
      } else {
        assert CountedTrainers(rows) == CountedTrainers(init);
      }
    }
  }

  /** `membersByTrainer` holds exactly the trainers of counted records, each with its
      number of such records. */
  lemma MembersMeaning(rows: seq<Record>, t: string)
    ensures t in StatsOf(rows).members <==>
            exists i :: 0 <= i < |rows| && IsCounted(rows[i]) && TrainerName(rows[i]) == t
    ensures t in StatsOf(rows).members ==>
            StatsOf(rows).members[t] == Occurrences(CountedTrainers(rows), t)
  {
    MembersFold(rows);
    CountedTrainersMember(rows, t);
    CountMapFacts(CountedTrainers(rows), t);
  }

  lemma {:induction false} CountedTrainersMember(rows: seq<Record>, t: string)
    ensures t in CountedTrainers(rows) <==> exists i :: 0 <= i < |rows| && IsCounted(rows[i]) && TrainerName(rows[i]) == t
  {
    if rows != [] {
      var init, last := rows[..|rows| - 1], rows[|rows| - 1];
      CountedTrainersMember(init, t);
      var extra := if IsCounted(last) then [TrainerName(last)] else [];
      assert CountedTrainers(rows) == CountedTrainers(init) + extra;
      assert t in CountedTrainers(rows) <==> t in CountedTrainers(init) || t in extra;
      if exists i :: 0 <= i < |rows| && IsCounted(rows[i]) && TrainerName(rows[i]) == t {
        var i :| 0 <= i < |rows| && IsCounted(rows[i]) && TrainerName(rows[i]) == t;
        if i < |init| {
          assert init[i] == rows[i];
        }
      }
      if t in CountedTrainers(init) {
        var i :| 0 <= i < |init| && IsCounted(init[i]) && TrainerName(init[i]) == t;
        assert rows[i] == init[i];
      }
      if t in extra {
        assert rows[|init|] == last;
      }
    }
  }

  /** Each trainer has one membership key per member. */
  lemma {:induction false} TypesOfLength(rows: seq<Record>, t: string)
    ensures |TypesOf(rows, t)| == Occurrences(CountedTrainers(rows), t)
  {
    if rows != [] {
      var init := rows[..|rows| - 1];
      TypesOfLength(init, t);
      var last := rows[|rows| - 1];
      var extra := if IsCounted(last) then [TrainerName(last)] else [];
      assert multiset(CountedTrainers(rows)) == multiset(CountedTrainers(init)) + multiset(extra);
    }
  }

  /** `membershipTypeByTrainer` has an entry for exactly the counted trainers, and each entry
      counts that trainer's members by membership type. */
  lemma {:induction false} TypesMeaning(rows: seq<Record>, t: string)
    ensures t in StatsOf(rows).types <==> t in CountedTrainers(rows)
    ensures t in StatsOf(rows).types ==> StatsOf(rows).types[t] == CountMap(TypesOf(rows, t))
  {
    if rows != [] {
      var init := rows[..|rows| - 1];
      TypesMeaning(init, t);
      var last := rows[|rows| - 1];
      assert StatsOf(rows) == Step(StatsOf(init), last);
      if IsCounted(last) && TrainerName(last) == t {
        assert CountedTrainers(rows) == CountedTrainers(init) + [t];
        assert TypesOf(rows, t) == TypesOf(init, t) + [MembershipKey(last)];
        if t !in StatsOf(init).types {
          EmptyTypes(init, t);
        }
        CountMapAppend(TypesOf(init, t), MembershipKey(last));
      } else {
        assert TypesOf(rows, t) == TypesOf(init, t);
        if IsCounted(last) {
          assert CountedTrainers(rows) == CountedTrainers(init) + [TrainerName(last)];
        } else {
          assert CountedTrainers(rows) == CountedTrainers(init);
        }
      }
    }
  }

  lemma {:induction false} EmptyTypes(rows: seq<Record>, t: string)
    requires t !in CountedTrainers(rows)
    ensures TypesOf(rows, t) == []
  {
    if rows != [] {
      EmptyTypes(rows[..|rows| - 1], t);
    }
  }

  /** Per trainer, the membership-type counts add up to that trainer's member count. */
  lemma TypesAddUp(rows: seq<Record>, t: string)
    requires t in StatsOf(rows).members
    ensures t in StatsOf(rows).types
    ensures SumOccurrences(Distinct(TypesOf(rows, t)), TypesOf(rows, t)) == StatsOf(rows).members[t]
  {
    MembersFold(rows);
    CountMapFacts(CountedTrainers(rows), t);
    TypesMeaning(rows, t);
    TypesOfLength(rows, t);
    SumOccurrencesOfDistinct(TypesOf(rows, t));
  }

  /** Each slot of `trainerWorkload` counts, per trainer, the members whose check-in falls in it. */
  lemma {:induction false} WorkloadMeaning(rows: seq<Record>, k: nat)
    requires k < |SlotNames|
    ensures StatsOf(rows).workload[SlotNames[k]] == CountMap(SlotTrainers(rows, k))
  {
    if rows != [] {
      var init := rows[..|rows| - 1];
      WorkloadMeaning(init, k);
      var last := rows[|rows| - 1];
      assert StatsOf(rows) == Step(StatsOf(init), last);
      if IsCounted(last) && SlotOf(last) == Some(k) {
        assert SlotTrainers(rows, k) == SlotTrainers(init, k) + [TrainerName(last)];
        CountMapAppend(SlotTrainers(init, k), TrainerName(last));
      } else {
        assert SlotTrainers(rows, k) == SlotTrainers(init, k);
        if IsCounted(last) && SlotOf(last).Some? {
          SlotNamesDistinct(SlotOf(last).value, k);
        }
      }
    }
  }

  /** The four slots have four different names: they differ in their first letter. */
  lemma SlotNamesDistinct(i: nat, j: nat)
    requires i < |SlotNames| && j < |SlotNames| && i != j
    ensures SlotNames[i] != SlotNames[j]
  {
    assert SlotNames[i][0] != SlotNames[j][0];
  }

  function SlotCount(rows: seq<Record>, t: string): nat
  {
    Occurrences(SlotTrainers(rows, 0), t) + Occurrences(SlotTrainers(rows, 1), t)
    + Occurrences(SlotTrainers(rows, 2), t) + Occurrences(SlotTrainers(rows, 3), t)
  }

  /** A member lands in at most one slot, so a trainer's workload over the four slots
      never exceeds the trainer's member count. */
  lemma {:induction false} WorkloadBound(rows: seq<Record>, t: string)
    ensures SlotCount(rows, t) <= Occurrences(CountedTrainers(rows), t)
  {
    if rows != [] {
      var init := rows[..|rows| - 1];
      WorkloadBound(init, t);
      var last := rows[|rows| - 1];
      if IsCounted(last) {
        assert CountedTrainers(rows) == CountedTrainers(init) + [TrainerName(last)];
        OccurrencesAppend(CountedTrainers(init), TrainerName(last), t);
      } else {
        assert CountedTrainers(rows) == CountedTrainers(init);
      }
      SlotStep(rows, 0, t);
      SlotStep(rows, 1, t);
      SlotStep(rows, 2, t);
      SlotStep(rows, 3, t);
    }
  }

  /** The last record adds its trainer to slot `k` when it is counted and falls in that slot. */
  lemma SlotStep(rows: seq<Record>, k: nat, t: string)
    requires rows != []
    ensures var last := rows[|rows| - 1];
            Occurrences(SlotTrainers(rows, k), t)
            == Occurrences(SlotTrainers(rows[..|rows| - 1], k), t)
               + (if IsCounted(last) && TrainerName(last) == t && SlotOf(last) == Some(k) then 1 else 0)
  {
    var init, last := rows[..|rows| - 1], rows[|rows| - 1];
    if IsCounted(last) && SlotOf(last) == Some(k) {
      assert SlotTrainers(rows, k) == SlotTrainers(init, k) + [TrainerName(last)];
      OccurrencesAppend(SlotTrainers(init, k), TrainerName(last), t);
    } else {
      assert SlotTrainers(rows, k) == SlotTrainers(init, k);
    }
  }

}
