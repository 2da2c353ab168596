/** The favourite-class bar chart: for each of the eleven group lessons, the number
    of members whose lesson column holds a set flag. */
module ClassesChart {
  import opened JsValues
  import opened Seqs

  const ClassKeys: seq<string> := [
    "Group_Lesson_Kickboxen", "Group_Lesson_BodyPump", "Group_Lesson_Zumba",
    "Group_Lesson_XCore", "Group_Lesson_Running", "Group_Lesson_Yoga",
    "Group_Lesson_LesMiles", "Group_Lesson_Pilates", "Group_Lesson_HIT",
    "Group_Lesson_Spinning", "Group_Lesson_BodyBalance"]

  const ClassLabels: seq<string> := [
    "Kickboxen", "BodyPump", "Zumba", "XCore", "Running", "Yoga",
    "LesMiles", "Pilates", "HIT", "Spinning", "BodyBalance"]

  /** The chart's state: bar labels and bar heights. */
  datatype ChartState = ChartState(labels: seq<string>, counts: seq<nat>)

  /** Each bar's label is its column name without the `Group_Lesson_` prefix. */
  lemma LabelsMatchKeys()
    ensures |ClassKeys| == |ClassLabels| == 11
    ensures forall i :: 0 <= i < 11 ==> ClassKeys[i] == "Group_Lesson_" + ClassLabels[i]
  {
    var p := "Group_Lesson_";
    assert ClassKeys[0] == p + ClassLabels[0] && ClassKeys[1] == p + ClassLabels[1];
    assert ClassKeys[2] == p + ClassLabels[2] && ClassKeys[3] == p + ClassLabels[3];
    assert ClassKeys[4] == p + ClassLabels[4] && ClassKeys[5] == p + ClassLabels[5];
    assert ClassKeys[6] == p + ClassLabels[6] && ClassKeys[7] == p + ClassLabels[7];
    assert ClassKeys[8] == p + ClassLabels[8] && ClassKeys[9] == p + ClassLabels[9];
    assert ClassKeys[10] == p + ClassLabels[10];
  }

  /** `data.reduce((acc, row) => flag ? acc + 1 : acc, 0)` for one class column. */
  function FlagCount(data: seq<Row>, key: string): (n: nat)
    ensures n <= |data|
    ensures n == |Filter(data, FlagIn(key))|
  {
    CountFacts(data, FlagIn(key));
    Count(data, FlagIn(key))
  }

  /** The counts, index for index with the class keys. */
  function ClassCounts(data: seq<Row>): (counts: seq<nat>)
    ensures |counts| == |ClassKeys|
    ensures forall i :: 0 <= i < |ClassKeys| ==> counts[i] <= |data|
  {
    seq(|ClassKeys|, i requires 0 <= i < |ClassKeys| => FlagCount(data, ClassKeys[i]))
  }

  /** The effect: without data the previous chart stays; otherwise eleven labelled counts. */
  function ChartAfter(previous: ChartState, data: Option<seq<Row>>): (next: ChartState)
    ensures data.None? ==> next == previous
    ensures data.Some? ==>
              next.labels == ClassLabels && |next.counts| == |ClassLabels|
              && forall i :: 0 <= i < |ClassLabels| ==>
                   next.counts[i] <= |data.value|
                   && next.counts[i] == |Filter(data.value, FlagIn("Group_Lesson_" + next.labels[i]))|
  {
    LabelsMatchKeys();
    match data
    case None => previous
    case Some(rows) => ChartState(ClassLabels, ClassCounts(rows))
  }

  /** One more member adds one to exactly the classes whose column holds a set flag. */
  lemma CountsGrowByRow(data: seq<Row>, row: Row, i: nat)
    requires i < |ClassKeys|
    ensures ClassCounts(data + [row])[i] == ClassCounts(data)[i] + (if IsFlagSet(Get(row, ClassKeys[i])) then 1 else 0)
  {
    CountAppend(data, row, FlagIn(ClassKeys[i]));
  }
}
