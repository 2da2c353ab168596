/** The drinks page: a subscription-type select built from the rows, the rows of the
    chosen subscription type, and the share of them that subscribe to drinks. */
module DrinksPage {
  import opened JsValues
  import opened Seqs
  import FilterBar

  /** `r.abonoment_type ?? r.abonnement_type ?? r.abonement_type`: the first of the three
      spellings that is neither null nor undefined. */
  function SubscriptionOf(r: Row): (v: Value)
    ensures !IsNullish(Get(r, "abonoment_type")) ==> v == Get(r, "abonoment_type")
    ensures IsNullish(Get(r, "abonoment_type")) && !IsNullish(Get(r, "abonnement_type")) ==>
              v == Get(r, "abonnement_type")
    ensures IsNullish(Get(r, "abonoment_type")) && IsNullish(Get(r, "abonnement_type")) ==>
              v == Get(r, "abonement_type")
  {
    Coalesce(Coalesce(Get(r, "abonoment_type"), Get(r, "abonnement_type")), Get(r, "abonement_type"))
  }

  /** The string form of every subscription value that is not undefined, null or "", row by row. */
  function SubscriptionValues(data: seq<Row>): seq<string>
  {
    if data == [] then []
    else
      var v := SubscriptionOf(data[|data| - 1]);
      SubscriptionValues(data[..|data| - 1]) + (if FilterBar.IsOption(v) then [ToStr(v)] else [])
  }

  /** Row `r` contributes the option `o` to the select. */
  predicate Offers(r: Row, o: string)
  {
    FilterBar.IsOption(SubscriptionOf(r)) && ToStr(SubscriptionOf(r)) == o
  }

  lemma {:induction false} SubscriptionValuesMember(data: seq<Row>, o: string)
    ensures o in SubscriptionValues(data) <==> exists i :: 0 <= i < |data| && Offers(data[i], o)
  {
    if data != [] {
      var init, last := data[..|data| - 1], data[|data| - 1];
      SubscriptionValuesMember(init, o);
      assert o in SubscriptionValues(data) <==> o in SubscriptionValues(init) || Offers(last, o);
      if exists i :: 0 <= i < |data| && Offers(data[i], o) {
        var i :| 0 <= i < |data| && Offers(data[i], o);
        if i < |init| {
          assert init[i] == data[i];
        }
      }
      if o in SubscriptionValues(init) {
        var i :| 0 <= i < |init| && Offers(init[i], o);
        assert data[i] == init[i];
      }
      assert Offers(data[|data| - 1], o) == Offers(last, o);
    }
  }

  /** `subscriptionOptions`: a `Set` of strings filled row by row, spread after "All". */
  method SubscriptionOptions(data: seq<Row>) returns (options: seq<string>)
    ensures options == ["All"] + Distinct(SubscriptionValues(data))
    ensures |options| >= 1 && options[0] == "All"
    ensures NoDuplicates(options[1..])
    ensures forall o :: o in options[1..] <==>
              exists i :: 0 <= i < |data| && FilterBar.IsOption(SubscriptionOf(data[i])) && ToStr(SubscriptionOf(data[i])) == o
  {
    var seen: seq<string> := [];
    var i := 0;
    while i < |data|
      invariant 0 <= i <= |data|
      invariant seen == Distinct(SubscriptionValues(data[..i]))
    {
      assert data[..i + 1][..i] == data[..i];
      var v := SubscriptionOf(data[i]);
      assert SubscriptionValues(data[..i + 1]) ==
             SubscriptionValues(data[..i]) + (if FilterBar.IsOption(v) then [ToStr(v)] else []);
      if FilterBar.IsOption(v) {
        DistinctAppend(SubscriptionValues(data[..i]), ToStr(v));
        if ToStr(v) !in seen {
          seen := seen + [ToStr(v)];
        }
      } else {
        assert SubscriptionValues(data[..i + 1]) == SubscriptionValues(data[..i]);
      }
      i := i + 1;
    }
    assert data[..|data|] == data;
    options := ["All"] + seen;
    assert options[1..] == seen;
    DistinctFacts(SubscriptionValues(data));
    forall o ensures o in options[1..] <==>
        exists i :: 0 <= i < |data| && FilterBar.IsOption(SubscriptionOf(data[i])) && ToStr(SubscriptionOf(data[i])) == o {
      SubscriptionValuesMember(data, o);
    }
  }

  /** The row's subscription, stringified, equals the chosen option. */
  predicate HasSubscription(r: Row, choice: string)
  {
    ToStr(SubscriptionOf(r)) == choice
  }

  function SubscriptionIs(choice: string): Row -> bool
  {
    r => HasSubscription(r, choice)
  }

  /** `filteredData`: no rows for no data, every row for an empty choice or "All", otherwise
      the rows whose stringified subscription equals the choice, in order. */
  function FilteredData(data: seq<Row>, choice: string): (r: seq<Row>)
    ensures choice == "" || choice == "All" ==> r == data
    ensures IsSubsequence(r, data)
    ensures choice != "" && choice != "All" ==>
              forall row :: row in r <==> row in data && HasSubscription(row, choice)
    ensures choice != "" && choice != "All" ==> |r| == Count(data, SubscriptionIs(choice))
  {
    if |data| == 0 then []
    else if choice == "" || choice == "All" then SubsequenceOfItself(data); data
    else
      FilterFacts(data, SubscriptionIs(choice));
      FilterIsSubsequence(data, SubscriptionIs(choice));
      CountFacts(data, SubscriptionIs(choice));
      Filter(data, SubscriptionIs(choice))
  }

  /** `String(member.drink_abo) === '1'`. */
  function DrinkSubscriber(): Row -> bool
  {
    member => ToStr(Get(member, "drink_abo")) == "1"
  }

  /** `subscribersCount`: the rows that subscribe to drinks. */
  function SubscribersCount(rows: seq<Row>): (n: nat)
    ensures n == Count(rows, DrinkSubscriber())
    ensures n <= |rows|
  {
    CountFacts(rows, DrinkSubscriber());
    |Filter(rows, DrinkSubscriber())|
  }

  /** The subscription percentage before rounding: defined for every row list, 0 for none. */
  function SubscriptionPercentage(rows: seq<Row>): (pct: real)
    ensures 0.0 <= pct <= 100.0
    ensures rows == [] ==> pct == 0.0
    ensures SubscribersCount(rows) == |rows| && rows != [] ==> pct == 100.0
  {
    var n := SubscribersCount(rows);
    var t := LengthOrOne(rows);
    ShareBounds(n, t);
    n as real / t as real * 100.0
  }
}
