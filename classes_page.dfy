/** The group-classes page: the membership types found in the rows, the rows of the
    chosen type (strict equality, no stringification), and the share of them that
    attend a favourite group lesson. */
module ClassesPage {
  import opened JsValues
  import opened Seqs
  import DrinksPage

  function TypeOf(d: Row): Value
  {
    Get(d, "abonoment_type")
  }

  /** `data.map(d => d.abonoment_type).filter(Boolean)`. */
  function TruthyTypes(data: seq<Row>): seq<Value>
  {
    if data == [] then []
    else
      var v := TypeOf(data[|data| - 1]);
      TruthyTypes(data[..|data| - 1]) + (if Truthy(v) then [v] else [])
  }

  lemma {:induction false} TruthyTypesMember(data: seq<Row>, v: Value)
    ensures v in TruthyTypes(data) <==> exists i :: 0 <= i < |data| && Truthy(TypeOf(data[i])) && TypeOf(data[i]) == v
  {
    if data != [] {
      var init := data[..|data| - 1];
      TruthyTypesMember(init, v);
      if exists i :: 0 <= i < |data| && Truthy(TypeOf(data[i])) && TypeOf(data[i]) == v {
        var i :| 0 <= i < |data| && Truthy(TypeOf(data[i])) && TypeOf(data[i]) == v;
        if i < |init| {
          assert init[i] == data[i];
        }
      }
      if v in TruthyTypes(init) {
        var i :| 0 <= i < |init| && Truthy(TypeOf(init[i])) && TypeOf(init[i]) == v;
        assert data[i] == init[i];
      }
    }
  }

  /** `membershipTypes`: each truthy type once, in the order first seen; values are kept
      as they are, not stringified. */
  function MembershipTypes(data: seq<Row>): (types: seq<Value>)
    ensures NoDuplicates(types)
    ensures forall v :: v in types <==> exists i :: 0 <= i < |data| && Truthy(TypeOf(data[i])) && TypeOf(data[i]) == v
    ensures forall v :: v in types ==> Truthy(v)
    ensures forall i, j :: 0 <= i < j < |types| ==>
              types[i] in TruthyTypes(data) && types[j] in TruthyTypes(data) &&
              IndexOf(TruthyTypes(data), types[i]) < IndexOf(TruthyTypes(data), types[j])
  {
    DistinctFacts(TruthyTypes(data));
    forall v ensures v in TruthyTypes(data) <==> exists i :: 0 <= i < |data| && Truthy(TypeOf(data[i])) && TypeOf(data[i]) == v {
      TruthyTypesMember(data, v);
    }
    Distinct(TruthyTypes(data))
  }

  /** `d.abonoment_type === membershipFilter`: a string only equals a string. */
  function TypeIs(choice: string): Row -> bool
  {
    d => TypeOf(d) == Str(choice)
  }

  /** `filteredData`: every row for "All", otherwise the rows whose type is exactly the chosen string. */
  function FilteredData(data: seq<Row>, choice: string): (r: seq<Row>)
    ensures choice == "All" ==> r == data
    ensures IsSubsequence(r, data)
    ensures choice != "All" ==> forall d :: d in r <==> d in data && TypeOf(d) == Str(choice)
    ensures choice != "All" ==> |r| == Count(data, TypeIs(choice))
  {
    if choice == "All" then SubsequenceOfItself(data); data
    else
      FilterFacts(data, TypeIs(choice));
      FilterIsSubsequence(data, TypeIs(choice));
      CountFacts(data, TypeIs(choice));
      Filter(data, TypeIs(choice))
  }

  /** On a row whose `abonoment_type` is text, as the CSV parser gives it, this page's
      strict rule and the drinks page's stringifying rule agree. */
  lemma FilterRulesAgreeOnText(row: Row, choice: string)
    requires Get(row, "abonoment_type").Str?
    ensures TypeIs(choice)(row) <==> DrinksPage.SubscriptionIs(choice)(row)
  {
    assert DrinksPage.SubscriptionOf(row) == Get(row, "abonoment_type");
  }

  /** They differ on a row without `abonoment_type` that spells the column `abonnement_type`:
      the drinks page falls back to that spelling and keeps the row, this page drops it. */
  lemma FilterRulesDiffer(row: Row, choice: string)
    requires Get(row, "abonoment_type") == Undefined && Get(row, "abonnement_type") == Str(choice)
    ensures DrinksPage.SubscriptionIs(choice)(row) && !TypeIs(choice)(row)
  {
    assert DrinksPage.SubscriptionOf(row) == Str(choice);
  }

  /** `has_fav_group_lesson` is exactly '1', 'True' or 'Yes'. */
  function Attends(): Row -> bool
  {
    m => Get(m, "has_fav_group_lesson") in {Str("1"), Str("True"), Str("Yes")}
  }

  /** `attendeesCount`. */
  function AttendeesCount(rows: seq<Row>): (n: nat)
    ensures n == Count(rows, Attends())
    ensures n <= |rows|
  {
    CountFacts(rows, Attends());
    |Filter(rows, Attends())|
  }

  /** The attendance percentage before rounding. */
  function AttendancePercentage(rows: seq<Row>): (pct: real)
    ensures 0.0 <= pct <= 100.0
    ensures rows == [] ==> pct == 0.0
    ensures AttendeesCount(rows) == |rows| && rows != [] ==> pct == 100.0
  {
    var n := AttendeesCount(rows);
    var t := LengthOrOne(rows);
    ShareBounds(n, t);
    n as real / t as real * 100.0
  }

}
