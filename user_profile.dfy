/** The member's own profile page: which member it shows, the health metrics read from the
    fitness file, the BMI helpers and the BMI badge and gauge, the session name passed to
    the check-in ring, and the favourite group-lesson chips. */
module UserProfile {
  import opened JsValues
  import opened Seqs
  import opened NaiveCsv
  import CheckInOutRing
  import ClassesChart

  // ---------------------------------------------------------------------------
  // BMI helpers

  /** `bmi == null || bmi === "" || Number.isNaN(Number(bmi))` */
  predicate MissingBmi(bmi: Value)
  {
    IsNullish(bmi) || bmi == Str("") || ToNumber(bmi).NaN?
  }

  /** `v < c` for a number `c`: the value is converted with `Number`, NaN compares false. */
  predicate LessThan(v: Value, c: real)
  {
    match ToNumber(v)
    case Num(x) => x < c
    case Infinity(positive) => !positive
    case _ => false
  }

  /** The rank of a category, from underweight (0) to obese (3); 4 for anything else. */
  function Rank(category: string): nat
  {
    if category == "underweight" then 0
    else if category == "healthy" then 1
    else if category == "overweight" then 2
    else if category == "obese" then 3
    else 4
  }

  /** `getBmiCategory(bmi)` */
  function BmiCategory(bmi: Value): (category: string)
    ensures category == "unknown" <==> MissingBmi(bmi)
    ensures !MissingBmi(bmi) ==> Rank(category) < 4
  {
    if MissingBmi(bmi) then "unknown"
    else if LessThan(bmi, 18.5) then "underweight"
    else if LessThan(bmi, 25.0) then "healthy"
    else if LessThan(bmi, 30.0) then "overweight"
    else "obese"
  }

  /** The category's label: its first letter upper-cased. */
  function Capitalised(category: string): string
  {
    if category == [] then [] else [UpperChar(category[0])] + category[1..]
  }

  /** `getBmiCategoryLabel(bmi)` */
  function BmiCategoryLabel(bmi: Value): (text: string)
    ensures text == "No BMI data" <==> MissingBmi(bmi)
  {
    var category := BmiCategory(bmi);
    if category == "underweight" then "Underweight"
    else if category == "healthy" then "Healthy"
    else if category == "overweight" then "Overweight"
    else if category == "obese" then "Obese"
    else "No BMI data"
  }

  /** The categories follow the number: a higher BMI never falls into a lower category. */
  lemma BmiCategoryMonotone(x: real, y: real)
    requires x <= y
    ensures Rank(BmiCategory(Num(x))) <= Rank(BmiCategory(Num(y)))
  {
  }

  /** 18.5, 25 and 30 each open the next category: every number falls into exactly the band
      its value lies in, with the lower bound inclusive and the upper bound exclusive. */
  lemma BmiCategoryThresholds(x: real)
    ensures x < 18.5 <==> BmiCategory(Num(x)) == "underweight"
    ensures 18.5 <= x < 25.0 <==> BmiCategory(Num(x)) == "healthy"
    ensures 25.0 <= x < 30.0 <==> BmiCategory(Num(x)) == "overweight"
    ensures 30.0 <= x <==> BmiCategory(Num(x)) == "obese"
  {
  }

  /** Numeric text is read as its number; null, "" and other text are unknown. */
  lemma BmiCategoryOfText()
    ensures BmiCategory(Str("22")) == "healthy"
    ensures BmiCategory(Null) == "unknown" && BmiCategory(Str("")) == "unknown"
    ensures BmiCategory(Str("n/a")) == "unknown"
  {
    assert Trim("22") == "22";
    SplitFacts("22", "", '.');
    assert "22"[..1] == "2" && "2"[..0] == "";
    assert DigitsValue("22") == 22;
    assert UnsignedDecimal("22") == Some(22.0);
    assert StringToNumber("22") == Num(22.0);
    assert Trim("n/a") == "n/a";
    SplitFacts("n/a", "", '.');
    assert !AllDigits("n/a") by { assert !IsDigit("n/a"[0]); }
  }

  /** A known category is labelled by itself with a capital first letter. */
  lemma BmiCategoryLabelMeaning(bmi: Value)
    requires !MissingBmi(bmi)
    ensures BmiCategoryLabel(bmi) == Capitalised(BmiCategory(bmi))
  {
    CategoriesCapitalised();
  }

  /** The four category words with their first letter capitalised. */
  lemma CategoriesCapitalised()
    ensures Capitalised("underweight") == "Underweight" && Capitalised("healthy") == "Healthy"
    ensures Capitalised("overweight") == "Overweight" && Capitalised("obese") == "Obese"
  {
    CapitalisedWord("underweight", "Underweight");
    CapitalisedWord("healthy", "Healthy");
    CapitalisedWord("overweight", "Overweight");
    CapitalisedWord("obese", "Obese");
  }

  /** A lower-case word with its first letter upper-cased. */
  lemma CapitalisedWord(word: string, shown: string)
    requires word != [] && |shown| == |word| && 'a' <= word[0] <= 'z'
    requires shown[0] as int == word[0] as int - 32 && shown[1..] == word[1..]
    ensures Capitalised(word) == shown
  {
    assert shown == [shown[0]] + shown[1..];
  }

  const GaugeMin: real := 15.0
  const GaugeMax: real := 40.0

  /** `Math.min(max, Math.max(min, b))` */
  function Clamp(b: real): (c: real)
    ensures GaugeMin <= c <= GaugeMax
  {
    if b < GaugeMin then GaugeMin else if b > GaugeMax then GaugeMax else b
  }

  /** The number `bmiToPercent` prints: 0 for a missing BMI; otherwise the BMI clamped into
      [15, 40] and placed on a 0..100 scale. An infinite BMI sits at an end of the scale. */
  function BmiPercent(bmi: Value): (pct: real)
    ensures 0.0 <= pct <= 100.0
    ensures MissingBmi(bmi) ==> pct == 0.0
  {
    if MissingBmi(bmi) then 0.0
    else
      match ToNumber(bmi)
      case Num(b) => (Clamp(b) - GaugeMin) / (GaugeMax - GaugeMin) * 100.0
      case Infinity(positive) => if positive then 100.0 else 0.0
      case _ => 0.0
  }

  /** `bmiToPercent(bmi)`: the number followed by `%`. */
  function BmiPercentText(bmi: Value): string
  {
    NumberToString(BmiPercent(bmi)) + "%"
  }

  /** Inside [15, 40] the scale is linear, four points per BMI unit; below it reads 0 and above
      it 100; a higher BMI is never further left; a missing BMI prints "0%". */
  lemma BmiPercentMeaning(x: real, y: real)
    ensures GaugeMin <= x <= GaugeMax ==> BmiPercent(Num(x)) == (x - GaugeMin) * 4.0
    ensures x <= GaugeMin ==> BmiPercent(Num(x)) == 0.0
    ensures x >= GaugeMax ==> BmiPercent(Num(x)) == 100.0
    ensures x <= y ==> BmiPercent(Num(x)) <= BmiPercent(Num(y))
    ensures BmiPercent(Num(27.5)) == 50.0
    ensures BmiPercentText(Null) == "0%" && BmiPercentText(Str("")) == "0%"
  {
    assert NumberToString(0.0) == "0";
  }

  // ---------------------------------------------------------------------------
  // Which member the page shows

  /** `user?.role` and `user?.member_id` of the signed-in user, if any. */
  function UserField(user: Option<Row>, key: string): Value
  {
    if user.Some? then Get(user.value, key) else Undefined
  }

  /** The member id to look up: the route id, except that a plain user without one in the
      route sees their own member, or member 1 when their account has none. */
  function TargetId(routeId: Value, user: Option<Row>): (target: Value)
    ensures !(UserField(user, "role") == Str("user") && !Truthy(routeId)) ==> target == routeId
  {
    if UserField(user, "role") == Str("user") && !Truthy(routeId) then
      var memberId := UserField(user, "member_id");
      if Truthy(memberId) then memberId else Num(1.0)
    else routeId
  }

  /** A plain user always has a member to look up: the target is their own member id, or 1. */
  lemma TargetIdMeaning(routeId: Value, user: Row)
    requires Get(user, "role") == Str("user") && !Truthy(routeId)
    ensures Truthy(TargetId(routeId, Some(user)))
    ensures Truthy(Get(user, "member_id")) ==> TargetId(routeId, Some(user)) == Get(user, "member_id")
    ensures !Truthy(Get(user, "member_id")) ==> TargetId(routeId, Some(user)) == Num(1.0)
  {
  }

  /** An administrator, or a user visiting another member's page, sees the route's member. */
  lemma AdminUsesRoute(routeId: Value, user: Row)
    requires Get(user, "role") == Str("admin")
    ensures TargetId(routeId, Some(user)) == routeId
  {
    assert Str("admin") != Str("user") by { assert "admin"[0] != "user"[0]; }
  }

  /** `String(row.id) === String(targetId)` */
  predicate IdMatches(row: Row, target: Value)
  {
    ToStr(Get(row, "id")) == ToStr(target)
  }

  /** `rows.find(...)`: the first gym row whose id reads as the target. */
  function FindMember(rows: seq<Row>, target: Value): (member: Option<Row>)
    ensures member.Some? ==> exists i :: 0 <= i < |rows| && rows[i] == member.value && IdMatches(rows[i], target)
                                         && forall j :: 0 <= j < i ==> !IdMatches(rows[j], target)
    ensures member.None? ==> forall i :: 0 <= i < |rows| ==> !IdMatches(rows[i], target)
  {
    if rows == [] then None
    else if IdMatches(rows[0], target) then Some(rows[0])
    else
      var r := FindMember(rows[1..], target);
      if r.Some? then
        var i :| 0 <= i < |rows[1..]| && rows[1..][i] == r.value && IdMatches(rows[1..][i], target)
                 && forall j :: 0 <= j < i ==> !IdMatches(rows[1..][j], target);
        assert rows[i + 1] == r.value;
        r
      else r
  }

  // ---------------------------------------------------------------------------
  // Health metrics

  /** A cell of a hand-read record as the page sees it: text, or undefined without the column. */
  function Cell(r: Record, key: string): Value
  {
    if key in r then Str(r[key]) else Undefined
  }

  /** `String(r.id) === String(targetId) || String(r.id) === String(member?.id)` */
  predicate HealthMatches(r: Record, target: Value, member: Option<Row>)
  {
    ToStr(Cell(r, "id")) == ToStr(target) || ToStr(Cell(r, "id")) == ToStr(UserField(member, "id"))
  }

  /** `healthRows.find(...)`: the first health record matching the target or the member's id. */
  function FindHealth(records: seq<Record>, target: Value, member: Option<Row>): (r: Option<Record>)
    ensures r.Some? ==> exists i :: 0 <= i < |records| && records[i] == r.value
                                    && HealthMatches(records[i], target, member)
                                    && forall j :: 0 <= j < i ==> !HealthMatches(records[j], target, member)
    ensures r.None? ==> forall i :: 0 <= i < |records| ==> !HealthMatches(records[i], target, member)
  {
    if records == [] then None
    else if HealthMatches(records[0], target, member) then Some(records[0])
    else
      var r := FindHealth(records[1..], target, member);
      if r.Some? then
        var i :| 0 <= i < |records[1..]| && records[1..][i] == r.value
                 && HealthMatches(records[1..][i], target, member)
                 && forall j :: 0 <= j < i ==> !HealthMatches(records[1..][j], target, member);
        assert records[i + 1] == r.value;
        r
      else r
  }

  datatype HealthMetrics = HealthMetrics(heightCm: Value, weightKg: Value, bmi: Value)

  /** `healthRow.x ? Number(healthRow.x) : null` */
  function Metric(r: Record, key: string): (v: Value)
    ensures !Truthy(Cell(r, key)) ==> v == Null
    ensures Truthy(Cell(r, key)) ==> v == StringToNumber(r[key])
  {
    if Truthy(Cell(r, key)) then ToNumber(Cell(r, key)) else Null
  }

  /** The metrics of the health record found, all null without one. */
  function MetricsOf(healthRow: Option<Record>): (m: HealthMetrics)
    ensures healthRow.None? ==> m == HealthMetrics(Null, Null, Null)
  {
    match healthRow
    case None => HealthMetrics(Null, Null, Null)
    case Some(r) => HealthMetrics(Metric(r, "height_cm"), Metric(r, "weight_kg"), Metric(r, "bmi"))
  }

  /** What `fetchData` leaves behind: the member shown (or the error "User not found"), the
      metrics, or a failure when the fitness file has no non-blank line to take headers from. */
  datatype Loaded = Loaded(member: Option<Row>, metrics: HealthMetrics)

  function Load(gymRows: seq<Row>, healthText: string, routeId: Value, user: Option<Row>): (l: Result<Loaded, string>)
    ensures l.Ok? <==> ProfileRecords(healthText).Some?
    ensures l.Ok? ==> l.value.member == FindMember(gymRows, TargetId(routeId, user))
    ensures l.Ok? ==> l.value.metrics == MetricsOf(FindHealth(ProfileRecords(healthText).value,
                                                              TargetId(routeId, user), l.value.member))
    ensures l.Err? ==> l.error == "lines[0] is undefined"
  {
    var target := TargetId(routeId, user);
    var member := FindMember(gymRows, target);
    match ProfileRecords(healthText)
    case None => Err("lines[0] is undefined")
    case Some(records) => Ok(Loaded(member, MetricsOf(FindHealth(records, target, member))))
  }

  /** Every metric is null or the number read from its cell; an empty cell gives null, and
      a cell that is not a number gives NaN, so the BMI then counts as missing. */
  lemma MetricMeaning(r: Record, key: string)
    ensures var v := Metric(r, key); v.Null? || v.Num? || v.NaN? || v.Infinity?
    ensures key in r && r[key] == "" ==> Metric(r, key) == Null
    ensures key !in r ==> Metric(r, key) == Null
    ensures key in r && StringToNumber(r[key]).NaN? && r[key] != "" ==> MissingBmi(Metric(r, key))
  {
  }

  /** With no member found, `member?.id` reads as undefined, so a fitness file without an id
      column matches its first record: the metrics of some unrelated person are shown. */
  lemma MissingIdColumnMatchesFirst(records: seq<Record>, target: Value)
    requires records != [] && "id" !in records[0]
    ensures FindHealth(records, target, None) == Some(records[0])
  {
  }

  // ---------------------------------------------------------------------------
  // The BMI badge and marker the page draws

  /** The badge under the BMI value: a falsy BMI has no data, then the three thresholds. */
  function BadgeText(bmi: Value): string
  {
    if !Truthy(bmi) then "No BMI data"
    else if LessThan(bmi, 18.5) then "Underweight"
    else if LessThan(bmi, 25.0) then "Healthy"
    else if LessThan(bmi, 30.0) then "Overweight"
    else "Obese"
  }

  /** The badge the page draws agrees with the unused label helper on every metric the page can
      hold except 0: a BMI cell reading "0" is a number, so the helper calls it underweight,
      while the badge, testing truthiness, shows no data. */
  lemma BadgeAgreesWithHelper(bmi: Value)
    requires bmi.Null? || bmi.Num? || bmi.NaN? || bmi.Infinity?
    ensures bmi != Num(0.0) ==> BadgeText(bmi) == BmiCategoryLabel(bmi)
    ensures BadgeText(Num(0.0)) == "No BMI data" && BmiCategoryLabel(Num(0.0)) == "Underweight"
  {
  }

  /** The marker on the gauge: drawn only for a truthy finite BMI, at
      `min(100, max(0, (bmi - 15) / 25 * 100))` percent. */
  function MarkerLeft(bmi: Value): (left: Option<real>)
    ensures left.Some? ==> 0.0 <= left.value <= 100.0
  {
    if Truthy(bmi) && ToNumber(bmi).Num? then
      var p := (ToNumber(bmi).x - GaugeMin) / (GaugeMax - GaugeMin) * 100.0;
      Some(if p > 100.0 then 100.0 else if p < 0.0 then 0.0 else p)
    else None
  }

  /** Wherever the marker is drawn it sits where `bmiToPercent` would put it: clamping the
      BMI first or the percentage afterwards gives the same point. */
  lemma MarkerMatchesPercent(bmi: Value)
    ensures MarkerLeft(bmi).Some? ==> MarkerLeft(bmi).value == BmiPercent(bmi)
    ensures ToNumber(bmi).Num? && ToNumber(bmi).x != 0.0 && !MissingBmi(bmi) ==> MarkerLeft(bmi).Some?
  {
  }

  // ---------------------------------------------------------------------------
  // Session name passed to the check-in ring

  /** `Number(String(t).split(":")[0] || 0)` with `t = avg_time_check_in || ""`. */
  function ProfileHour(checkIn: Value): Value
  {
    var text := ToStr(if Truthy(checkIn) then checkIn else Str(""));
    var first := Split(text, ':')[0];
    if first == "" then Num(0.0) else StringToNumber(first)
  }

  /** The session name the profile page computes from the check-in hour. */
  function ProfileSessionLabel(checkIn: Value): (name: string)
    ensures name in {"Late Morning Session", "Afternoon Session", "Evening Session",
                     "Morning Session", "Gym Session"}
  {
    match ProfileHour(checkIn)
    case Num(h) =>
      if 10.0 <= h < 12.0 then "Late Morning Session"
      else if 12.0 <= h < 16.0 then "Afternoon Session"
      else if 16.0 <= h < 20.0 then "Evening Session"
      else if 6.0 <= h < 10.0 then "Morning Session"
      else "Gym Session"
    case _ => "Gym Session"
  }

  /** The hour of a written "HH:MM" time is read back as its number. */
  lemma ProfileHourOfTime(h: nat, m: nat)
    requires h < 100 && m < 100
    ensures ProfileHour(Str(CheckInOutRing.TwoDigits(h) + ":" + CheckInOutRing.TwoDigits(m))) == Num(h as real)
  {
    var hh := CheckInOutRing.TwoDigits(h);
    var s := hh + ":" + CheckInOutRing.TwoDigits(m);
    assert hh == [hh[0], hh[1]];
    assert ':' !in hh;
    SplitFacts(hh, CheckInOutRing.TwoDigits(m), ':');
    assert Split(s, ':')[0] == hh;
    TwoDigitsToNumber(hh[0], hh[1]);
  }

  /** Hours from 6 to 20 are named in four blocks starting at 6, 10, 12 and 16; every other hour
      is a plain gym session. A missing check-in reads as hour 0. */
  lemma ProfileSessionMeaning(h: nat, m: nat)
    requires h < 100 && m < 100
    ensures var name := ProfileSessionLabel(Str(CheckInOutRing.TwoDigits(h) + ":" + CheckInOutRing.TwoDigits(m)));
            (6 <= h < 10 ==> name == "Morning Session")
            && (10 <= h < 12 ==> name == "Late Morning Session")
            && (12 <= h < 16 ==> name == "Afternoon Session")
            && (16 <= h < 20 ==> name == "Evening Session")
            && (h < 6 || 20 <= h ==> name == "Gym Session")
    ensures ProfileSessionLabel(Null) == "Gym Session"
  {
    ProfileHourOfTime(h, m);
  }

  /** The ring on the profile page always shows the profile's own name, since a non-empty
      label prop wins; its own reading of the same time differs: 07:30 is an early session to
      the ring and a morning session here. */
  lemma ProfileLabelOverridesRing(checkIn: Value)
    ensures CheckInOutRing.ShownLabel(Str(ProfileSessionLabel(checkIn)), checkIn) == Str(ProfileSessionLabel(checkIn))
    ensures var t := Str(CheckInOutRing.TwoDigits(7) + ":" + CheckInOutRing.TwoDigits(30));
            ProfileSessionLabel(t) == "Morning Session" && CheckInOutRing.SessionLabel(t) == "Early Session"
  {
    ProfileSessionMeaning(7, 30);
    CheckInOutRing.SessionLabelMeaning(7, 30);
  }

  // ---------------------------------------------------------------------------
  // Favourite group lessons

  const LessonPrefix: string := "Group_Lesson_"

  /** The names the lesson chips have a colour for. */
  const StyledLessons: set<string> := {"BodyBalance", "BodyPump", "HIT", "Kickboxing", "Les Miles",
                                       "Pilates", "Running", "Spinning", "XCore", "Yoga", "Zumba"}

  /** `userData[lessonKey]` is truthy. */
  function Attends(row: Row): string -> bool
  {
    key => Truthy(Get(row, key))
  }

  /** The lesson columns the member has ticked, in the fixed order of the eleven lessons
      (the same list, in the same order, as the class chart's). */
  function ActiveLessons(row: Row): seq<string>
  {
    Filter(ClassesChart.ClassKeys, Attends(row))
  }

  /** A chip's text: the column name without its prefix, two names spelled out. */
  function LessonLabel(key: string): string
  {
    var raw := if StartsWith(key, LessonPrefix) then key[|LessonPrefix|..] else key;
    if raw == "Kickboxen" then "Kickboxing"
    else if raw == "LesMiles" then "Les Miles"
    else raw
  }

  /** A ticked lesson is shown exactly when its column is truthy, once, in the fixed order; the
      list is empty exactly when no lesson column is truthy. */
  lemma ActiveLessonsMeaning(row: Row)
    ensures forall k :: k in ActiveLessons(row) <==> k in ClassesChart.ClassKeys && Truthy(Get(row, k))
    ensures IsSubsequence(ActiveLessons(row), ClassesChart.ClassKeys)
    ensures NoDuplicates(ActiveLessons(row)) && |ActiveLessons(row)| <= 11
    ensures ActiveLessons(row) == [] <==> forall k :: k in ClassesChart.ClassKeys ==> !Truthy(Get(row, k))
  {
    var keys := ClassesChart.ClassKeys;
    var ticked := Attends(row);
    LessonKeysDistinct();
    FilterFacts(keys, ticked);
    FilterIsSubsequence(keys, ticked);
    FilterNoDuplicates(keys, ticked);
    if ActiveLessons(row) != [] {
      assert ActiveLessons(row)[0] in ActiveLessons(row);
    }
  }

  /** What the favourite-lessons card shows. */
  datatype LessonsView = Hidden | NoLessonsMessage | Chips(labels: seq<string>)

  /** The card is drawn only when `has_fav_group_lesson` is truthy; inside it, the empty message
      when no lesson is ticked, otherwise one labelled chip per ticked lesson, in the fixed order. */
  function LessonsSection(row: Row): (v: LessonsView)
    ensures v.Hidden? <==> !Truthy(Get(row, "has_fav_group_lesson"))
    ensures v.NoLessonsMessage? <==>
              Truthy(Get(row, "has_fav_group_lesson")) &&
              forall k :: k in ClassesChart.ClassKeys ==> !Truthy(Get(row, k))
    ensures v.Chips? ==> |v.labels| == |ActiveLessons(row)| > 0
    ensures v.Chips? ==> forall i :: 0 <= i < |v.labels| ==> v.labels[i] == LessonLabel(ActiveLessons(row)[i])
  {
    ActiveLessonsMeaning(row);
    var active := ActiveLessons(row);
    if !Truthy(Get(row, "has_fav_group_lesson")) then Hidden
    else if active == [] then NoLessonsMessage
    else Chips(seq(|active|, i requires 0 <= i < |active| => LessonLabel(active[i])))
  }

  /** The eleven lesson columns are different columns. */
  lemma LessonKeysDistinct()
    ensures NoDuplicates(ClassesChart.ClassKeys) && |ClassesChart.ClassKeys| == 11
  {
    var keys := ClassesChart.ClassKeys;
    forall i, j | 0 <= i < j < |keys|
      ensures keys[i] != keys[j]
    {
      assert keys[i][13] != keys[j][13] || |keys[i]| != |keys[j]| || keys[i][14] != keys[j][14];
    }
  }

  /** Every chip is labelled with a styled name, so none falls back to the neutral colour, and
      the eleven lessons get eleven different labels. */
  lemma LessonLabelsStyled()
    ensures forall i :: 0 <= i < 11 ==> LessonLabel(ClassesChart.ClassKeys[i]) in StyledLessons
    ensures forall i, j :: 0 <= i < j < 11 ==>
              LessonLabel(ClassesChart.ClassKeys[i]) != LessonLabel(ClassesChart.ClassKeys[j])
    ensures LessonLabel("Group_Lesson_Kickboxen") == "Kickboxing"
    ensures LessonLabel("Group_Lesson_LesMiles") == "Les Miles"
  {
    ClassesChart.LabelsMatchKeys();
    ChipTextsDistinct();
    forall i | 0 <= i < 11
      ensures LessonLabel(ClassesChart.ClassKeys[i]) == ChipTexts[i]
    {
      var key := ClassesChart.ClassKeys[i];
      assert StartsWith(key, LessonPrefix);
      assert key[|LessonPrefix|..] == ClassesChart.ClassLabels[i];
    }
  }

  /** The chips' texts for the eleven lesson columns, in the columns' order. */
  const ChipTexts: seq<string> := [
    "Kickboxing", "BodyPump", "Zumba", "XCore", "Running", "Yoga",
    "Les Miles", "Pilates", "HIT", "Spinning", "BodyBalance"]

  /** No two chip texts are alike: each differs from the others in its first letter or its length. */
  lemma ChipTextsDistinct()
    ensures NoDuplicates(ChipTexts) && |ChipTexts| == 11
  {
    forall i, j | 0 <= i < j < |ChipTexts|
      ensures ChipTexts[i] != ChipTexts[j]
    {
      assert ChipTexts[i][0] != ChipTexts[j][0] || |ChipTexts[i]| != |ChipTexts[j]|;
    }
  }

}
