/** The administrator's dashboard: it loads one of two data sets, keeps at most
    5000 rows, offers the declared numeric and filter fields that the data has,
    filters the table by the filter bar's choices, and summarises the rows as a
    premium/standard split and a visits-per-week histogram. */
module Dashboard {
  import opened JsValues
  import opened Seqs
  import opened FilterBar

  const MaxRowsPerDataset: nat := 5000

  datatype Dataset = Dataset(name: string, url: string, numericFields: seq<string>, filterFields: seq<string>)

  const GymDataset := Dataset(
    "Gym Membership Dataset", "/gym_membership.csv",
    ["visit_per_week", "days_per_week", "avg_time_in_gym"],
    ["gender", "abonement_type", "abonoment_type"])

  const HealthDataset := Dataset(
    "FitLife Health & Fitness Dataset", "/health_fitness_dataset.csv",
    ["daily_steps", "calories_burned", "hours_sleep", "avg_heart_rate", "bmi"],
    ["gender", "activity_type"])

  /** What a successful load puts into the page state. */
  datatype Loaded = Loaded(rows: seq<Row>, numericFields: seq<string>, filterFields: seq<string>, selectedField: string)

  function HasKey(row: Row): string -> bool
  {
    f => f in row
  }

  /** The declared fields that the first row has, in declared order. */
  function Available(declared: seq<string>, first: Row): (r: seq<string>)
    ensures IsSubsequence(r, declared)
    ensures forall f :: f in r <==> f in declared && f in first
  {
    FilterFacts(declared, HasKey(first));
    FilterIsSubsequence(declared, HasKey(first));
    Filter(declared, HasKey(first))
  }

  /** The load step after parsing: no rows is an error, otherwise the first 5000 rows
      are kept and the fields are chosen from the first row's keys. */
  function LoadRows(parsed: seq<Row>, ds: Dataset): (r: Result<Loaded, string>)
    ensures r.Err? <==> parsed == []
    ensures r.Err? ==> r.error == "CSV parsed but 0 rows from " + ds.url
    ensures r.Ok? ==>
              |r.value.rows| == (if |parsed| > MaxRowsPerDataset then MaxRowsPerDataset else |parsed|)
              && r.value.rows == parsed[..|r.value.rows|]
    ensures r.Ok? ==>
              IsSubsequence(r.value.numericFields, ds.numericFields)
              && IsSubsequence(r.value.filterFields, ds.filterFields)
              && (forall f :: f in r.value.numericFields <==> f in ds.numericFields && f in parsed[0])
              && (forall f :: f in r.value.filterFields <==> f in ds.filterFields && f in parsed[0])
    ensures r.Ok? ==>
              (r.value.numericFields == [] ==> r.value.selectedField == "")
              && (r.value.numericFields != [] ==> r.value.selectedField == r.value.numericFields[0])
  {
    if parsed == [] then Err("CSV parsed but 0 rows from " + ds.url)
    else
      var rows := if |parsed| > MaxRowsPerDataset then parsed[..MaxRowsPerDataset] else parsed;
      var numeric := Available(ds.numericFields, rows[0]);
      var filters := Available(ds.filterFields, rows[0]);
      Ok(Loaded(rows, numeric, filters, if numeric != [] then numeric[0] else ""))
  }

  // ---------------------------------------------------------------------------
  // Filtering the table

  /** Filter keys whose value is neither "" nor null/undefined. */
  function ActiveKeys(filters: Filters): set<string>
  {
    set k | k in filters && filters[k] != Str("") && !IsNullish(filters[k])
  }

  /** `String(row?.[k]) === String(filters[k])` for every key of `keys`. */
  predicate Matches(row: Row, filters: Filters, keys: set<string>)
  {
    forall k :: k in keys ==> ToStr(Get(row, k)) == ToStr(Get(filters, k))
  }

  function MatchesAll(filters: Filters, keys: set<string>): Row -> bool
  {
    row => Matches(row, filters, keys)
  }

  /** `filteredData` as the page computes it: the "All" that the filter bar writes
      for its first option is an active filter value. */
  function FilteredDataAsWritten(raw: seq<Row>, filters: Filters): (r: seq<Row>)
    ensures raw == [] ==> r == []
    ensures ActiveKeys(filters) == {} ==> r == raw
    ensures IsSubsequence(r, raw)
    ensures forall row :: row in r <==> row in raw && Matches(row, filters, ActiveKeys(filters))
    ensures |r| == Count(raw, MatchesAll(filters, ActiveKeys(filters)))
  {
    var keys := ActiveKeys(filters);
    if raw == [] then []
    else if keys == {} then
      SubsequenceOfItself(raw);
      FilterAll(raw, MatchesAll(filters, keys));
      CountFacts(raw, MatchesAll(filters, keys));
      raw
    else
      var matches := MatchesAll(filters, keys);
      FilterFacts(raw, matches);
      FilterIsSubsequence(raw, matches);
      CountFacts(raw, matches);
      Filter(raw, matches)
  }

  /** Choosing "All" in the filter bar hides every row that does not literally hold "All". */
  lemma AllOptionHidesRows(raw: seq<Row>, filters: Filters, field: string)
    requires forall i :: 0 <= i < |raw| ==> ToStr(Get(raw[i], field)) != "All"
    ensures FilteredDataAsWritten(raw, SetFilter(filters, field, "All")) == []
  {
    var f := SetFilter(filters, field, "All");
    assert field in ActiveKeys(f) && Get(f, field) == Str("All");
    forall i | 0 <= i < |raw| ensures !MatchesAll(f, ActiveKeys(f))(raw[i]) {
      assert ToStr(Get(raw[i], field)) != "All";
    }
    FilterNone(raw, MatchesAll(f, ActiveKeys(f)));
  }

  /** A concrete case: one member, gender "Male"; picking "Male" and then "All" empties the table. */
  lemma AllOptionEmptiesTable()
    ensures var raw := [map["gender" := Str("Male")]];
            FilteredDataAsWritten(raw, SetFilter(SetFilter(map[], "gender", "Male"), "gender", "All")) == []
            && FilteredData(raw, SetFilter(SetFilter(map[], "gender", "Male"), "gender", "All")) == raw
  {
    var raw := [map["gender" := Str("Male")]];
    var f := SetFilter(SetFilter(map[], "gender", "Male"), "gender", "All");
    AllOptionHidesRows(raw, SetFilter(map[], "gender", "Male"), "gender");
    ShownKeysSkipAll(f, "gender");
    assert ShownKeys(f) == {} by {
      assert f.Keys == {"gender"};
    }
  }

  /** The filter keys that restrict the table once "All" is read as "no filter". */
  function ShownKeys(filters: Filters): set<string>
  {
    set k | k in ActiveKeys(filters) && filters[k] != Str("All")
  }

  lemma ShownKeysSkipAll(filters: Filters, field: string)
    requires Get(filters, field) == Str("All")
    ensures field !in ShownKeys(filters)
  {
  }

  /** `filteredData` with "All" read as "no filter", which is what the filter bar's
      first option means: the rows that match every other chosen value, in order. */
  function FilteredData(raw: seq<Row>, filters: Filters): (r: seq<Row>)
    ensures raw == [] ==> r == []
    ensures ShownKeys(filters) == {} ==> r == raw
    ensures IsSubsequence(r, raw)
    ensures forall row :: row in r <==> row in raw && Matches(row, filters, ShownKeys(filters))
    ensures |r| == Count(raw, MatchesAll(filters, ShownKeys(filters)))
  {
    var keys := ShownKeys(filters);
    if raw == [] then []
    else if keys == {} then
      SubsequenceOfItself(raw);
      FilterAll(raw, MatchesAll(filters, keys));
      CountFacts(raw, MatchesAll(filters, keys));
      raw
    else
      var matches := MatchesAll(filters, keys);
      FilterFacts(raw, matches);
      FilterIsSubsequence(raw, matches);
      CountFacts(raw, matches);
      Filter(raw, matches)
  }

  /** Choosing "All" for a field lifts that field's restriction and keeps every other one. */
  lemma SelectingAllClearsField(raw: seq<Row>, filters: Filters, field: string)
    ensures FilteredData(raw, SetFilter(filters, field, "All")) == FilteredData(raw, filters - {field})
  {
    var a := SetFilter(filters, field, "All");
    var b := filters - {field};
    assert ShownKeys(a) == ShownKeys(b) by {
      forall k ensures k in ShownKeys(a) <==> k in ShownKeys(b) {
        if k != field {
          assert Get(a, k) == Get(b, k);
        }
      }
    }
    assert forall k :: k in ShownKeys(a) ==> Get(a, k) == Get(b, k);
    FilterCongruence(raw, MatchesAll(a, ShownKeys(a)), MatchesAll(b, ShownKeys(b)));
  }

  // ---------------------------------------------------------------------------
  // Premium versus standard

  datatype Plan = Premium | Standard | OtherPlan

  /** The membership column, chosen by the first row: `abonement_type` if truthy there,
      else `abonoment_type` if truthy there, else none. */
  function MembershipField(rows: seq<Row>): (f: Option<string>)
    ensures rows == [] ==> f.None?
    ensures rows != [] && Truthy(Get(rows[0], "abonement_type")) ==> f == Some("abonement_type")
    ensures rows != [] && !Truthy(Get(rows[0], "abonement_type")) && Truthy(Get(rows[0], "abonoment_type")) ==>
              f == Some("abonoment_type")
    ensures f.None? <==>
              rows == [] || (!Truthy(Get(rows[0], "abonement_type")) && !Truthy(Get(rows[0], "abonoment_type")))
    ensures f.Some? ==> Truthy(Get(rows[0], f.value))
  {
    if rows == [] then None
    else if Truthy(Get(rows[0], "abonement_type")) then Some("abonement_type")
    else if Truthy(Get(rows[0], "abonoment_type")) then Some("abonoment_type")
    else None
  }

  /** `(r[field] || '').toString().toLowerCase()`, classified by substring. */
  function PlanOf(row: Row, field: string): Plan
  {
    var v := Get(row, field);
    var text := Lower(if Truthy(v) then ToStr(v) else "");
    if Contains(text, "premium") then Premium
    else if Contains(text, "standard") then Standard
    else OtherPlan
  }

  function HasPlan(field: string, plan: Plan): Row -> bool
  {
    row => PlanOf(row, field) == plan
  }

  /** `Math.round(count / total * 100)`, in exact arithmetic: half rounds up. */
  function RoundedPercent(count: nat, total: nat): (r: int)
    requires total > 0
    ensures count <= total ==> 0 <= r <= 100
    ensures count == total ==> r == 100
    ensures count == 0 ==> r == 0
  {
    var q := count as real / total as real;
    assert count <= total ==> 0.0 <= q <= 1.0 && (count == total ==> q == 1.0) by {
      if count <= total {
        ShareBounds(count, total);
      }
    }
    (q * 100.0 + 0.5).Floor
  }

  /** `premiumVsStandard`: each row is counted as premium, standard or other, and the
      first two are given as rounded percentages of all rows. */
  method PremiumVsStandard(rows: seq<Row>) returns (premium: int, standard: int)
    ensures MembershipField(rows).None? ==> premium == 0 && standard == 0
    ensures MembershipField(rows).Some? ==>
              var field := MembershipField(rows).value;
              premium == RoundedPercent(Count(rows, HasPlan(field, Premium)), |rows|)
              && standard == RoundedPercent(Count(rows, HasPlan(field, Standard)), |rows|)
    ensures 0 <= premium <= 100 && 0 <= standard <= 100
  {
    if rows == [] {
      return 0, 0;
    }
    var fieldChoice := MembershipField(rows);
    if fieldChoice.None? {
      return 0, 0;
    }
    var field := fieldChoice.value;
    var p, s, other := 0, 0, 0;
    var i := 0;
    while i < |rows|
      invariant 0 <= i <= |rows|
      invariant p == Count(rows[..i], HasPlan(field, Premium))
      invariant s == Count(rows[..i], HasPlan(field, Standard))
      invariant other == Count(rows[..i], HasPlan(field, OtherPlan))
      invariant p + s + other == i
    {
      assert rows[..i + 1] == rows[..i] + [rows[i]];
      CountAppend(rows[..i], rows[i], HasPlan(field, Premium));
      CountAppend(rows[..i], rows[i], HasPlan(field, Standard));
      CountAppend(rows[..i], rows[i], HasPlan(field, OtherPlan));
      var plan := PlanOf(rows[i], field);
      if plan == Premium {
        p := p + 1;
      } else if plan == Standard {
        s := s + 1;
      } else {
        other := other + 1;
      }
      i := i + 1;
    }
    assert rows[..|rows|] == rows;
    var total := if p + s + other == 0 then 1 else p + s + other;
    premium := RoundedPercent(p, total);
    standard := RoundedPercent(s, total);
  }

  // ---------------------------------------------------------------------------
  // Visits per week

  datatype Bar = Bar(name: string, count: nat)

  /** `availableNumericFields.find((f) => /visit/.test(f)) || 'visit_per_week'` */
  function VisitField(numericFields: seq<string>): (f: string)
    ensures (exists g :: g in numericFields && Contains(g, "visit")) ==>
              exists i :: 0 <= i < |numericFields| && f == numericFields[i] && Contains(f, "visit")
                          && forall j :: 0 <= j < i ==> !Contains(numericFields[j], "visit")
    ensures (forall g :: g in numericFields ==> !Contains(g, "visit")) ==> f == "visit_per_week"
  {
    if numericFields == [] then "visit_per_week"
    else if Contains(numericFields[0], "visit") then numericFields[0]
    else
      var rest := numericFields[1..];
      var f := VisitField(rest);
      assert (exists g :: g in numericFields && Contains(g, "visit")) ==>
               exists i :: 0 <= i < |numericFields| && f == numericFields[i] && Contains(f, "visit")
                           && forall j :: 0 <= j < i ==> !Contains(numericFields[j], "visit") by {
        if exists g :: g in numericFields && Contains(g, "visit") {
          var g :| g in numericFields && Contains(g, "visit");
          assert g in rest;
          var i :| 0 <= i < |rest| && f == rest[i] && Contains(f, "visit")
                   && forall j :: 0 <= j < i ==> !Contains(rest[j], "visit");
          assert numericFields[i + 1] == rest[i];
          assert forall j :: 0 <= j < i + 1 ==> !Contains(numericFields[j], "visit") by {
            forall j | 0 <= j < i + 1 ensures !Contains(numericFields[j], "visit") {
              if j > 0 { assert numericFields[j] == rest[j - 1]; }
            }
          }
        }
      }
      f
  }

  /** The row's visit value is the finite number `x`: `Number(r?.[field])` equals it. */
  function VisitsAre(field: string, x: real): Row -> bool
  {
    row => ToNumber(Get(row, field)) == Num(x)
  }

  /** The histogram under the visits chart: exactly the bars "1" to "5", each counting the
      rows whose visit value is that number; every other value is ignored. */
  method VisitsHistogram(rows: seq<Row>, numericFields: seq<string>) returns (bars: seq<Bar>)
    ensures |bars| == 5
    ensures forall n :: 1 <= n <= 5 ==>
              bars[n - 1] == Bar(NatToString(n), Count(rows, VisitsAre(VisitField(numericFields), n as real)))
  {
    var field := VisitField(numericFields);
    var counts := TallyVisits(rows, field);
    bars := seq(5, j requires 0 <= j < 5 =>
              Bar(NatToString(j + 1), if (j + 1) as real in counts then counts[(j + 1) as real] else 0));
  }

  /** The `forEach` that counts the rows by their visit value: a value that is not a finite
      number is skipped. */
  method TallyVisits(rows: seq<Row>, field: string) returns (counts: map<real, nat>)
    ensures forall x :: Count(rows, VisitsAre(field, x)) == (if x in counts then counts[x] else 0)
  {
    counts := map[];
    var i := 0;
    while i < |rows|
      invariant 0 <= i <= |rows|
      invariant forall x :: Count(rows[..i], VisitsAre(field, x)) == (if x in counts then counts[x] else 0)
    {
      assert rows[..i + 1] == rows[..i] + [rows[i]];
      forall x
        ensures Count(rows[..i + 1], VisitsAre(field, x))
                == Count(rows[..i], VisitsAre(field, x)) + (if ToNumber(Get(rows[i], field)) == Num(x) then 1 else 0)
      {
        CountAppend(rows[..i], rows[i], VisitsAre(field, x));
      }
      var v := ToNumber(Get(rows[i], field));
      if v.Num? {
        counts := counts[v.x := (if v.x in counts then counts[v.x] else 0) + 1];
      }
      i := i + 1;
    }
    assert rows[..|rows|] == rows;
  }

  /** Every bar counts at most the number of rows. */
  lemma VisitsBarBound(rows: seq<Row>, field: string, n: nat)
    ensures Count(rows, VisitsAre(field, n as real)) <= |rows|
  {
    CountFacts(rows, VisitsAre(field, n as real));
  }
}
