/** The filter bar above the dashboard table: one select per filter field, whose
    options are "All" followed by the values the rows hold, and whose change
    handler rewrites that one field of the filter object. */
module FilterBar {
  import opened JsValues
  import opened Seqs

  /** The dashboard's filter object: field name to the chosen option. */
  type Filters = map<string, Value>

  /** `v !== undefined && v !== null && v !== ""`: no coercion, so `0` and `false` are options. */
  predicate IsOption(v: Value)
  {
    v != Undefined && v != Null && v != Str("")
  }

  /** The string form of every option-worthy value of `field`, row by row. */
  function OptionValues(data: seq<Row>, field: string): seq<string>
  {
    if data == [] then []
    else
      var v := Get(data[|data| - 1], field);
      OptionValues(data[..|data| - 1], field) + (if IsOption(v) then [ToStr(v)] else [])
  }

  /** A string is among the option values exactly when some row's value has it as its string form. */
  lemma {:induction false} OptionValuesMember(data: seq<Row>, field: string, o: string)
    ensures o in OptionValues(data, field) <==>
            exists i :: 0 <= i < |data| && IsOption(Get(data[i], field)) && ToStr(Get(data[i], field)) == o
  {
    if data != [] {
      var init := data[..|data| - 1];
      OptionValuesMember(init, field, o);
      if exists i :: 0 <= i < |data| && IsOption(Get(data[i], field)) && ToStr(Get(data[i], field)) == o {
        var i :| 0 <= i < |data| && IsOption(Get(data[i], field)) && ToStr(Get(data[i], field)) == o;
        if i < |init| {
          assert init[i] == data[i];
        }
      }
      if o in OptionValues(init, field) {
        var i :| 0 <= i < |init| && IsOption(Get(init[i], field)) && ToStr(Get(init[i], field)) == o;
        assert data[i] == init[i];
      }
    }
  }

  /** `unique(field)`: a `Set` filled in row order, spread after "All". */
  method Unique(data: seq<Row>, field: string) returns (options: seq<string>)
    ensures options == ["All"] + Distinct(OptionValues(data, field))
    ensures |options| >= 1 && options[0] == "All"
    ensures NoDuplicates(options[1..])
    ensures forall o :: o in options[1..] <==> o in OptionValues(data, field)
  {
    var vals: seq<string> := [];
    var i := 0;
    while i < |data|
      invariant 0 <= i <= |data|
      invariant vals == Distinct(OptionValues(data[..i], field))
    {
      assert data[..i + 1][..i] == data[..i];
      var v := Get(data[i], field);
      assert OptionValues(data[..i + 1], field) ==
             OptionValues(data[..i], field) + (if IsOption(v) then [ToStr(v)] else []);
      if IsOption(v) {
        DistinctAppend(OptionValues(data[..i], field), ToStr(v));
        if ToStr(v) !in vals {
          vals := vals + [ToStr(v)];
        }
      } else {
        assert OptionValues(data[..i + 1], field) == OptionValues(data[..i], field);
      }
      i := i + 1;
    }
    assert data[..|data|] == data;
    options := ["All"] + vals;
    assert options[1..] == vals;
    DistinctFacts(OptionValues(data, field));
  }

  /** The change handler `{ ...p, [field]: value }`: that field now holds the chosen option
      and every other filter is kept. */
  function SetFilter(filters: Filters, field: string, value: string): (r: Filters)
    ensures r.Keys == filters.Keys + {field}
    ensures Get(r, field) == Str(value)
    ensures forall k :: k != field ==> Get(r, k) == Get(filters, k)
  {
    filters[field := Str(value)]
  }

  /** The select's shown value `filters[field] || "All"`. */
  function DisplayedFilter(filters: Filters, field: string): (shown: string)
    ensures field !in filters ==> shown == "All"
    ensures forall s :: Get(filters, field) == Str(s) && s != "" ==> shown == s
    ensures Get(filters, field) in {Str(""), Null, Undefined} ==> shown == "All"
  {
    var v := Get(filters, field);
    if Truthy(v) then ToStr(v) else "All"
  }
}
