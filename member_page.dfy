/** The member page: the gym row and the health row of the member in the route, and the
    single record that merges them, the gym row taking precedence. */
module MemberPage {
  import opened JsValues
  import opened Seqs

  /** `String(r.id) === String(id) || String(r.ID) === String(id)` */
  predicate HasId(r: Row, id: string)
  {
    ToStr(Get(r, "id")) == id || ToStr(Get(r, "ID")) == id
  }

  /** `rows.find(...)`: the first row whose id or ID stringifies to the route id. */
  function FindById(rows: seq<Row>, id: string): (r: Option<Row>)
    ensures r.Some? ==> exists i :: 0 <= i < |rows| && rows[i] == r.value && HasId(rows[i], id)
                                    && forall j :: 0 <= j < i ==> !HasId(rows[j], id)
    ensures r.None? ==> forall i :: 0 <= i < |rows| ==> !HasId(rows[i], id)
  {
    if rows == [] then None
    else if HasId(rows[0], id) then Some(rows[0])
    else
      var r := FindById(rows[1..], id);
      if r.Some? then
        var i :| 0 <= i < |rows[1..]| && rows[1..][i] == r.value && HasId(rows[1..][i], id)
                 && forall j :: 0 <= j < i ==> !HasId(rows[1..][j], id);
        assert rows[i + 1] == r.value;
        r
      else r
  }

  /** `state?.row || gymParsed.find(...)`: a row handed over by the table wins. */
  function GymRow(stateRow: Option<Row>, gym: seq<Row>, id: string): Option<Row>
  {
    if stateRow.Some? then stateRow else FindById(gym, id)
  }

  /** `merged[k] == null || merged[k] === ''` */
  predicate Blank(v: Value)
  {
    IsNullish(v) || v == Str("")
  }

  /** The key a differing health value is stored under. */
  function HealthKey(k: string): string
  {
    "health_" + k
  }

  /** One key of the health row: fill a blank slot; otherwise, when the stringified values
      differ, keep the gym value and store the health value under `health_<key>`. */
  function MergeKey(merged: Row, k: string, v: Value): Row
  {
    if Blank(Get(merged, k)) then merged[k := v]
    else if ToStr(Get(merged, k)) != ToStr(v) then merged[HealthKey(k) := v]
    else merged
  }

  /** The merged record after the health keys `ks`, in order. */
  function MergeFrom(merged: Row, health: Row, ks: seq<string>): Row
    requires forall k :: k in ks ==> k in health
  {
    if ks == [] then merged
    else MergeKey(MergeFrom(merged, health, ks[..|ks| - 1]), ks[|ks| - 1], health[ks[|ks| - 1]])
  }

  /** `healthKeys` lists the keys of the health row, as `Object.keys` does: each once. */
  ghost predicate KeysOf(row: Row, keys: seq<string>)
  {
    NoDuplicates(keys) && forall k :: k in keys <==> k in row
  }

  /** The record the page shows. */
  function Merged(gymRow: Option<Row>, healthRow: Option<Row>, healthKeys: seq<string>): Row
    requires healthRow.Some? ==> KeysOf(healthRow.value, healthKeys)
  {
    var base := if gymRow.Some? then gymRow.value else map[];
    if healthRow.Some? then MergeFrom(base, healthRow.value, healthKeys) else base
  }

  /** The merge in `loadAndMerge`: copy the gym row, then visit the health keys in order. */
  method Merge(gymRow: Option<Row>, healthRow: Option<Row>, healthKeys: seq<string>) returns (merged: Row)
    requires healthRow.Some? ==> KeysOf(healthRow.value, healthKeys)
    ensures merged == Merged(gymRow, healthRow, healthKeys)
  {
    merged := map[];
    if gymRow.Some? {
      merged := gymRow.value;
    }
    if healthRow.Some? {
      var health := healthRow.value;
      ghost var base := merged;
      var i := 0;
      while i < |healthKeys|
        invariant 0 <= i <= |healthKeys|
        invariant merged == MergeFrom(base, health, healthKeys[..i])
      {
        assert healthKeys[..i + 1][..i] == healthKeys[..i];
        var k := healthKeys[i];
        if Blank(Get(merged, k)) {
          merged := merged[k := health[k]];
        } else if ToStr(Get(merged, k)) != ToStr(health[k]) {
          var hk := "health_" + k;
          merged := merged[hk := health[k]];
        }
        i := i + 1;
      }
      assert healthKeys[..|healthKeys|] == healthKeys;
    }
  }

  /** Without a health row the record is the gym row (or empty). */
  lemma NoHealthRow(gymRow: Option<Row>, healthKeys: seq<string>)
    ensures Merged(gymRow, None, healthKeys) == if gymRow.Some? then gymRow.value else map[]
  {
  }

  /** Without a gym row every health value is taken as it is, since every slot starts empty. */
  lemma {:induction false} MergeIntoEmpty(health: Row, ks: seq<string>)
    requires NoDuplicates(ks) && forall k :: k in ks ==> k in health
    ensures MergeFrom(map[], health, ks) == map k | k in ks :: health[k]
  {
    if ks != [] {
      var init := ks[..|ks| - 1];
      var k := ks[|ks| - 1];
      MergeIntoEmpty(health, init);
      assert k !in init;
      assert Get(MergeFrom(map[], health, init), k) == Undefined;
    }
  }

  lemma NoGymRow(healthRow: Row, healthKeys: seq<string>)
    requires KeysOf(healthRow, healthKeys)
    ensures Merged(None, Some(healthRow), healthKeys) == healthRow
  {
    MergeIntoEmpty(healthRow, healthKeys);
  }

  /** `k` starts with `health_`. */
  predicate Prefixed(k: string)
  {
    StartsWith(k, "health_")
  }

  lemma HealthKeyFacts(a: string, b: string)
    ensures Prefixed(HealthKey(a))
    ensures HealthKey(a) == HealthKey(b) ==> a == b
  {
    assert HealthKey(a)[..7] == "health_";
    if HealthKey(a) == HealthKey(b) {
      assert a == HealthKey(a)[7..] && b == HealthKey(b)[7..];
    }
  }

  /** What the merge does to each health key when neither row has `health_` keys: a blank
      gym slot takes the health value; a differing value keeps the gym value and adds the
      health value under `health_<key>`; an equal value adds and changes nothing; every other
      key keeps its gym value. */
  lemma {:induction false} MergeFromMeaning(gym: Row, health: Row, ks: seq<string>, k: string)
    requires NoDuplicates(ks) && forall j :: j in ks ==> j in health && !Prefixed(j)
    requires forall j :: j in gym ==> !Prefixed(j)
    ensures var m := MergeFrom(gym, health, ks);
            (k in ks && Blank(Get(gym, k)) ==> Get(m, k) == health[k] && Get(m, HealthKey(k)) == Undefined)
            && (k in ks && !Blank(Get(gym, k)) && ToStr(Get(gym, k)) != ToStr(health[k]) ==>
                  Get(m, k) == Get(gym, k) && Get(m, HealthKey(k)) == health[k])
            && (k in ks && !Blank(Get(gym, k)) && ToStr(Get(gym, k)) == ToStr(health[k]) ==>
                  Get(m, k) == Get(gym, k) && Get(m, HealthKey(k)) == Undefined)
            && (k !in ks && !Prefixed(k) ==> Get(m, k) == Get(gym, k))
            && (k !in ks ==> Get(m, HealthKey(k)) == Undefined)
  {
    HealthKeyFacts(k, k);
    assert Get(gym, HealthKey(k)) == Undefined;
    if ks != [] {
      var init := ks[..|ks| - 1];
      var last := ks[|ks| - 1];
      MergeFromMeaning(gym, health, init, k);
      MergeFromMeaning(gym, health, init, last);
      HealthKeyFacts(last, k);
      var m := MergeFrom(gym, health, init);
      assert last !in init;
      assert Get(m, last) == Get(gym, last);
      HealthKeyFacts(last, last);
      assert last != HealthKey(k);
      if !Prefixed(k) {
        assert HealthKey(last) != k;
      }
      if k in init {
        assert k != last;
        assert HealthKey(last) != HealthKey(k);
      }
    }
  }

  /** The gym row's non-blank values survive the merge when no key starts with `health_`. */
  lemma GymValuesKept(gym: Row, health: Row, healthKeys: seq<string>, k: string)
    requires KeysOf(health, healthKeys) && (forall j :: j in health ==> !Prefixed(j))
    requires forall j :: j in gym ==> !Prefixed(j)
    requires k in gym && !Blank(gym[k])
    ensures Get(Merged(Some(gym), Some(health), healthKeys), k) == gym[k]
  {
    MergeFromMeaning(gym, health, healthKeys, k);
  }

  /** A gym key that itself starts with `health_` is not protected: a differing health value
      for `x` overwrites the gym value of `health_x`. */
  lemma PrefixedGymKeyOverwritten()
    ensures var gym := map["x" := Str("1"), "health_x" := Str("a")];
            var health := map["x" := Str("2")];
            Get(Merged(Some(gym), Some(health), ["x"]), "health_x") == Str("2")
  {
    var gym: Row := map["x" := Str("1"), "health_x" := Str("a")];
    var health: Row := map["x" := Str("2")];
    assert ["x"][..0] == [];
    assert ToStr(Str("1")) != ToStr(Str("2")) by {
      assert "1"[0] != "2"[0];
    }
    assert HealthKey("x") == "health_x";
  }
}
