/** The favourite-drink bar chart: six fixed drinks, each counting the members whose
    drink column holds a set flag. The chart keeps its previous state when there
    are no rows. */
module DrinkChart {
  import opened JsValues
  import opened Seqs

  /** The keys of `drinkCounts`, in creation order, which `Object.keys` keeps. */
  const DrinkLabels: seq<string> := [
    "Berry Boost", "Lemon", "Passion Fruit", "Coconut Pineapple", "Orange", "Black Currant"]

  /** The member column checked for each drink, index for index with the labels. */
  const DrinkColumns: seq<string> := [
    "fav_drink_berryboost", "fav_drink_lemon", "fav_drink_passion_fruit",
    "fav_drink_coconut_pineapple", "fav_drink_orange", "fav_drink_black_currant"]

  /** The `drinkCounts` object: one counter per drink. */
  datatype DrinkCounts = DrinkCounts(
    berryBoost: nat, lemon: nat, passionFruit: nat, coconutPineapple: nat, orange: nat, blackCurrant: nat)

  /** `Object.values(drinkCounts)`, in the order of `DrinkLabels`. */
  function Values(c: DrinkCounts): seq<nat>
  {
    [c.berryBoost, c.lemon, c.passionFruit, c.coconutPineapple, c.orange, c.blackCurrant]
  }

  /** 1 when the member's `column` holds a set flag, else 0. */
  function Tick(member: Row, column: string): nat
  {
    if IsFlagSet(Get(member, column)) then 1 else 0
  }

  /** The counters after one more member. */
  function Bump(c: DrinkCounts, member: Row): DrinkCounts
  {
    DrinkCounts(
      c.berryBoost + Tick(member, "fav_drink_berryboost"),
      c.lemon + Tick(member, "fav_drink_lemon"),
      c.passionFruit + Tick(member, "fav_drink_passion_fruit"),
      c.coconutPineapple + Tick(member, "fav_drink_coconut_pineapple"),
      c.orange + Tick(member, "fav_drink_orange"),
      c.blackCurrant + Tick(member, "fav_drink_black_currant"))
  }

  /** The counters after the members of `rows`, in order. */
  function Tally(rows: seq<Row>): DrinkCounts
  {
    if rows == [] then DrinkCounts(0, 0, 0, 0, 0, 0) else Bump(Tally(rows[..|rows| - 1]), rows[|rows| - 1])
  }

  /** Each counter of the tally is the number of members with that drink's flag set. */
  lemma {:induction false} TallyCounts(rows: seq<Row>, k: int)
    requires 0 <= k < |DrinkColumns|
    ensures Values(Tally(rows))[k] == Count(rows, FlagIn(DrinkColumns[k])) <= |rows|
  {
    CountFacts(rows, FlagIn(DrinkColumns[k]));
    if rows != [] {
      TallyCounts(rows[..|rows| - 1], k);
    }
  }

  /** `drinkCounts` after the `forEach`: one pass over the members, six checks each. */
  method CountDrinks(data: seq<Row>) returns (counts: seq<nat>)
    ensures |counts| == |DrinkLabels|
    ensures forall k :: 0 <= k < |DrinkColumns| ==> counts[k] == Count(data, FlagIn(DrinkColumns[k])) <= |data|
  {
    var c := DrinkCounts(0, 0, 0, 0, 0, 0);
    var i := 0;
    while i < |data|
      invariant 0 <= i <= |data|
      invariant c == Tally(data[..i])
    {
      assert data[..i + 1][..i] == data[..i];
      c := CountMember(c, data[i]);
      i := i + 1;
    }
    assert data[..|data|] == data;
    counts := Values(c);
    TallyValues(data);
  }

  /** The `forEach` callback: each drink whose flag the member sets gains one. */
  method CountMember(c: DrinkCounts, member: Row) returns (c': DrinkCounts)
    ensures c' == Bump(c, member)
  {
    var berryBoost := c.berryBoost;
    if IsFlagSet(Get(member, "fav_drink_berryboost")) { berryBoost := berryBoost + 1; }
    var lemon := c.lemon;
    if IsFlagSet(Get(member, "fav_drink_lemon")) { lemon := lemon + 1; }
    var passionFruit := c.passionFruit;
    if IsFlagSet(Get(member, "fav_drink_passion_fruit")) { passionFruit := passionFruit + 1; }
    var coconutPineapple := c.coconutPineapple;
    if IsFlagSet(Get(member, "fav_drink_coconut_pineapple")) { coconutPineapple := coconutPineapple + 1; }
    var orange := c.orange;
    if IsFlagSet(Get(member, "fav_drink_orange")) { orange := orange + 1; }
    var blackCurrant := c.blackCurrant;
    if IsFlagSet(Get(member, "fav_drink_black_currant")) { blackCurrant := blackCurrant + 1; }
    c' := DrinkCounts(berryBoost, lemon, passionFruit, coconutPineapple, orange, blackCurrant);
  }

  /** All six counters of the tally at once. */
  lemma TallyValues(rows: seq<Row>)
    ensures |Values(Tally(rows))| == |DrinkLabels|
    ensures forall k :: 0 <= k < |DrinkColumns| ==>
              Values(Tally(rows))[k] == Count(rows, FlagIn(DrinkColumns[k])) <= |rows|
  {
    forall k | 0 <= k < |DrinkColumns|
      ensures Values(Tally(rows))[k] == Count(rows, FlagIn(DrinkColumns[k])) <= |rows|
    {
      TallyCounts(rows, k);
    }
  }

  /** The chart component's state. */
  class DrinkChartView {
    var labels: seq<string>
    var counts: seq<nat>

    constructor ()
      ensures labels == [] && counts == []
    {
      labels := [];
      counts := [];
    }

    /** The effect on new data: no rows (missing or empty) returns early and keeps the
        previous chart; otherwise the six drinks with their counts. */
    method Update(data: Option<seq<Row>>)
      modifies this
      ensures data.None? || data.value == [] ==> labels == old(labels) && counts == old(counts)
      ensures data.Some? && data.value != [] ==>
                labels == DrinkLabels && |counts| == |labels|
                && forall k :: 0 <= k < |DrinkColumns| ==>
                     counts[k] == Count(data.value, FlagIn(DrinkColumns[k])) <= |data.value|
    {
      if data.None? || |data.value| == 0 {
        return;
      }
      var drinkCounts := CountDrinks(data.value);
      labels := DrinkLabels;
      counts := drinkCounts;
    }
  }
}
