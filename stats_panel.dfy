/** The descriptive-statistics panel: count, mean, minimum, maximum and the
    population variance of one numeric field over the filtered rows. */
module StatsPanel {
  import opened JsValues

  datatype Stats = Stats(count: nat, mean: real, min: real, max: real, variance: real)

  /** The values of `field` whose JS type is number and that are finite, row by row:
      numeric strings are not coerced. */
  function Numbers(data: seq<Row>, field: string): seq<real>
  {
    if data == [] then []
    else
      var v := Get(data[|data| - 1], field);
      Numbers(data[..|data| - 1], field) + (if v.Num? then [v.x] else [])
  }

  function Sum(s: seq<real>): real
  {
    if s == [] then 0.0 else Sum(s[..|s| - 1]) + s[|s| - 1]
  }

  /** Sum of squared deviations from `m`. */
  function SquaredDeviations(s: seq<real>, m: real): real
  {
    if s == [] then 0.0 else SquaredDeviations(s[..|s| - 1], m) + (s[|s| - 1] - m) * (s[|s| - 1] - m)
  }

  /** A number is used exactly when some row holds it as a finite number. */
  lemma {:induction false} NumbersMember(data: seq<Row>, field: string, x: real)
    ensures x in Numbers(data, field) <==> exists i :: 0 <= i < |data| && Get(data[i], field) == Num(x)
  {
    if data != [] {
      var init := data[..|data| - 1];
      NumbersMember(init, field, x);
      if exists i :: 0 <= i < |data| && Get(data[i], field) == Num(x) {
        var i :| 0 <= i < |data| && Get(data[i], field) == Num(x);
        if i < |init| {
          assert init[i] == data[i];
        }
      }
      if x in Numbers(init, field) {
        var i :| 0 <= i < |init| && Get(init[i], field) == Num(x);
        assert data[i] == init[i];
      }
    }
  }

  /** A sum of terms between `lo` and `hi` lies between `n * lo` and `n * hi`. */
  lemma {:induction false} SumBounds(s: seq<real>, lo: real, hi: real)
    requires forall i :: 0 <= i < |s| ==> lo <= s[i] <= hi
    ensures |s| as real * lo <= Sum(s) <= |s| as real * hi
  {
    if s != [] {
      SumBounds(s[..|s| - 1], lo, hi);
    }
  }

  lemma {:induction false} SquaredDeviationsNonNegative(s: seq<real>, m: real)
    ensures SquaredDeviations(s, m) >= 0.0
  {
    if s != [] {
      SquaredDeviationsNonNegative(s[..|s| - 1], m);
      var d := s[|s| - 1] - m;
      assert d * d >= 0.0;
    }
  }

  /** The mean of numbers between `lo` and `hi` lies between them. */
  lemma MeanBetween(s: seq<real>, lo: real, hi: real)
    requires s != []
    requires forall i :: 0 <= i < |s| ==> lo <= s[i] <= hi
    ensures lo <= Sum(s) / |s| as real <= hi
  {
    SumBounds(s, lo, hi);
    var n := |s| as real;
    var mean := Sum(s) / n;
    assert mean * n == Sum(s);
  }

  /** The first loop of `computeStats`: push every finite number of `field`. */
  method CollectNumbers(rows: seq<Row>, field: string) returns (nums: seq<real>)
    ensures nums == Numbers(rows, field)
    ensures forall x :: x in nums <==> exists i :: 0 <= i < |rows| && Get(rows[i], field) == Num(x)
  {
    nums := [];
    var i := 0;
    while i < |rows|
      invariant 0 <= i <= |rows|
      invariant nums == Numbers(rows[..i], field)
    {
      assert rows[..i + 1][..i] == rows[..i];
      var v := Get(rows[i], field);
      if v.Num? {
        nums := nums + [v.x];
      }
      i := i + 1;
    }
    assert rows[..|rows|] == rows;
    forall x ensures x in nums <==> exists i :: 0 <= i < |rows| && Get(rows[i], field) == Num(x) {
      NumbersMember(rows, field, x);
    }
  }

  /** The second loop: the running sum and the extremes. The source starts the extremes
      at +Infinity and -Infinity; the first number replaces both, so they start there. */
  method SumMinMax(nums: seq<real>) returns (sum: real, min: real, max: real)
    requires nums != []
    ensures sum == Sum(nums)
    ensures min in nums && max in nums
    ensures forall i :: 0 <= i < |nums| ==> min <= nums[i] <= max
  {
    sum := 0.0;
    min := nums[0];
    max := nums[0];
    var i := 0;
    while i < |nums|
      invariant 0 <= i <= |nums|
      invariant sum == Sum(nums[..i])
      invariant min in nums && max in nums
      invariant forall j :: 0 <= j < i ==> min <= nums[j] <= max
    {
      assert nums[..i + 1][..i] == nums[..i];
      var v := nums[i];
      sum := sum + v;
      if v < min {
        min := v;
      }
      if v > max {
        max := v;
      }
      i := i + 1;
    }
    assert nums[..|nums|] == nums;
  }

  /** The third loop: squared deviations from the mean. */
  method SquaredDeviationsFrom(nums: seq<real>, mean: real) returns (sq: real)
    ensures sq == SquaredDeviations(nums, mean)
    ensures sq >= 0.0
  {
    sq := 0.0;
    var i := 0;
    while i < |nums|
      invariant 0 <= i <= |nums|
      invariant sq == SquaredDeviations(nums[..i], mean)
    {
      assert nums[..i + 1][..i] == nums[..i];
      var diff := nums[i] - mean;
      sq := sq + diff * diff;
      i := i + 1;
    }
    assert nums[..|nums|] == nums;
    SquaredDeviationsNonNegative(nums, mean);
  }

  /** `computeStats`: nothing without a field, without an array, or without a finite
      number; otherwise the count of the numbers, their mean, extremes and the
      population variance (squared deviations divided by the count). */
  method ComputeStats(data: Option<seq<Row>>, field: string) returns (r: Option<Stats>)
    ensures r.None? <==> field == "" || data.None? || Numbers(data.value, field) == []
    ensures r.Some? ==>
              var nums := Numbers(data.value, field);
              r.value.count == |nums| > 0
              && r.value.mean == Sum(nums) / |nums| as real
              && r.value.variance == SquaredDeviations(nums, r.value.mean) / |nums| as real
              && r.value.min in nums && r.value.max in nums
              && (forall i :: 0 <= i < |nums| ==> r.value.min <= nums[i] <= r.value.max)
    ensures r.Some? ==> r.value.min <= r.value.mean <= r.value.max && r.value.variance >= 0.0
  {
    if field == "" || data.None? || |data.value| == 0 {
      return None;
    }
    var nums := CollectNumbers(data.value, field);
    if |nums| == 0 {
      return None;
    }
    var count := |nums|;
    var sum, min, max := SumMinMax(nums);
    var mean := sum / count as real;
    var sq := SquaredDeviationsFrom(nums, mean);
    var variance := sq / count as real;
    MeanBetween(nums, min, max);
    r := Some(Stats(count, mean, min, max, variance));
  }
}
