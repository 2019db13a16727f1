/** `GET /api/statistics`: dataset-wide figures recomputed from all records
    on every request. */
module Statistics {
  import opened Wrappers
  import opened Cars
  import opened Numbers
  import opened Distribution

  function MpgValues(cars: seq<Car>): seq<real> {
    seq(|cars|, i requires 0 <= i < |cars| => cars[i].mpg)
  }

  function WeightValues(cars: seq<Car>): seq<real> {
    seq(|cars|, i requires 0 <= i < |cars| => cars[i].weight)
  }

  function YearValues(cars: seq<Car>): seq<real> {
    seq(|cars|, i requires 0 <= i < |cars| => cars[i].modelYear as real)
  }

  function CylinderValues(cars: seq<Car>): seq<int> {
    seq(|cars|, i requires 0 <= i < |cars| => cars[i].cylinders)
  }

  function OriginNames(cars: seq<Car>): seq<string> {
    seq(|cars|, i requires 0 <= i < |cars| => cars[i].originName)
  }

  /** `getCylindersDistribution`: for every cylinder count present, how many
      records have it; the counts add up to the number of records. */
  function CylindersDistribution(cars: seq<Car>): (d: seq<Entry<int>>)
    ensures DistinctKeys(d) && PositiveCounts(d)
    ensures forall k :: k in KeysOf(d) <==> exists i :: 0 <= i < |cars| && cars[i].cylinders == k
    ensures forall k :: CountOf(d, k) == multiset(CylinderValues(cars))[k]
    ensures SumCounts(d) == |cars|
  {
    var keys := CylinderValues(cars);
    var d := Tally(keys);
    assert forall k :: k in keys <==> exists i :: 0 <= i < |cars| && cars[i].cylinders == k by {
      forall k ensures k in keys <==> exists i :: 0 <= i < |cars| && cars[i].cylinders == k {
        if k in keys { var i :| 0 <= i < |keys| && keys[i] == k; }
        if exists i :: 0 <= i < |cars| && cars[i].cylinders == k {
          var i :| 0 <= i < |cars| && cars[i].cylinders == k;
          assert keys[i] == k;
        }
      }
    }
    d
  }

  /** `getOriginDistribution`: the same count, keyed by origin name. */
  function OriginDistribution(cars: seq<Car>): (d: seq<Entry<string>>)
    ensures DistinctKeys(d) && PositiveCounts(d)
    ensures forall k :: k in KeysOf(d) <==> exists i :: 0 <= i < |cars| && cars[i].originName == k
    ensures forall k :: CountOf(d, k) == multiset(OriginNames(cars))[k]
    ensures SumCounts(d) == |cars|
  {
    var keys := OriginNames(cars);
    var d := Tally(keys);
    assert forall k :: k in keys <==> exists i :: 0 <= i < |cars| && cars[i].originName == k by {
      forall k ensures k in keys <==> exists i :: 0 <= i < |cars| && cars[i].originName == k {
        if k in keys { var i :| 0 <= i < |keys| && keys[i] == k; }
        if exists i :: 0 <= i < |cars| && cars[i].originName == k {
          var i :| 0 <= i < |cars| && cars[i].originName == k;
          assert keys[i] == k;
        }
      }
    }
    d
  }

  /** `carsData.filter(car => car.horsepower !== null)` mapped to the values. */
  function HorsepowerReadings(cars: seq<Car>): (r: seq<real>)
    ensures |r| <= |cars|
    ensures |r| == 0 <==> forall i :: 0 <= i < |cars| ==> cars[i].horsepower.None?
  {
    if |cars| == 0 then []
    else
      var init := cars[..|cars| - 1];
      var last := cars[|cars| - 1];
      var rest := HorsepowerReadings(init);
      rest + (if last.horsepower.Some? then [last.horsepower.value] else [])
  }

  /** The readings are exactly the known horsepower values. */
  lemma {:induction false} HorsepowerReadingsMembers(cars: seq<Car>)
    ensures forall i :: 0 <= i < |cars| && cars[i].horsepower.Some? ==> cars[i].horsepower.value in HorsepowerReadings(cars)
    ensures forall x :: x in HorsepowerReadings(cars) ==> exists i :: 0 <= i < |cars| && cars[i].horsepower == Some(x)
    decreases |cars|
  {
    if |cars| > 0 {
      var init := cars[..|cars| - 1];
      HorsepowerReadingsMembers(init);
      assert forall i :: 0 <= i < |init| ==> cars[i] == init[i];
    }
  }

  lemma {:induction false} HorsepowerReadingsConcat(a: seq<Car>, b: seq<Car>)
    ensures HorsepowerReadings(a + b) == HorsepowerReadings(a) + HorsepowerReadings(b)
    decreases |b|
  {
    if |b| > 0 {
      var init := b[..|b| - 1];
      assert (a + b)[..|a + b| - 1] == a + init;
      HorsepowerReadingsConcat(a, init);
    } else {
      assert a + b == a;
    }
  }

  /** `getAvgHorsepower`: the mean over the records whose horsepower is
      known; `None` when there are none (the source divides 0 by 0). */
  function AvgHorsepower(cars: seq<Car>): (r: Option<real>)
    ensures r.None? <==> forall i :: 0 <= i < |cars| ==> cars[i].horsepower.None?
    ensures r.Some? ==> r.value * (|HorsepowerReadings(cars)| as real) == SumOf(HorsepowerReadings(cars))
  {
    Mean(HorsepowerReadings(cars))
  }

  /** A record without horsepower is in neither the numerator nor the
      denominator: adding or removing it does not change the average. */
  lemma UnknownHorsepowerIgnored(a: seq<Car>, c: Car, b: seq<Car>)
    requires c.horsepower.None?
    ensures HorsepowerReadings(a + [c] + b) == HorsepowerReadings(a + b)
    ensures AvgHorsepower(a + [c] + b) == AvgHorsepower(a + b)
  {
    assert HorsepowerReadings([c]) == [] by { assert [c][..0] == []; }
    HorsepowerReadingsConcat(a, [c]);
    HorsepowerReadingsConcat(a + [c], b);
    HorsepowerReadingsConcat(a, b);
  }

  /** The statistics response; `None` stands for the non-numeric values the
      source produces on an empty dataset. */
  datatype Snapshot = Snapshot(
    totalCars: nat,
    avgMpg: Option<real>,
    mpgRange: Option<Range>,
    cylindersDistribution: seq<Entry<int>>,
    originDistribution: seq<Entry<string>>,
    yearRange: Option<Range>,
    avgHorsepower: Option<real>,
    avgWeight: Option<real>)

  /** `mpgRange`: the least and greatest mpg, both attained. */
  function MpgRange(cars: seq<Car>): (r: Option<Range>)
    ensures r.None? <==> |cars| == 0
    ensures r.Some? ==> exists i :: 0 <= i < |cars| && cars[i].mpg == r.value.min
    ensures r.Some? ==> exists i :: 0 <= i < |cars| && cars[i].mpg == r.value.max
    ensures r.Some? ==> forall i :: 0 <= i < |cars| ==> r.value.min <= cars[i].mpg <= r.value.max
  {
    var xs := MpgValues(cars);
    assert forall i :: 0 <= i < |cars| ==> xs[i] in xs && xs[i] == cars[i].mpg;
    var r := Bounds(xs);
    assert r.Some? ==>
      (exists i :: 0 <= i < |cars| && cars[i].mpg == r.value.min) && (exists i :: 0 <= i < |cars| && cars[i].mpg == r.value.max) by {
      if r.Some? {
        var p :| 0 <= p < |xs| && xs[p] == r.value.min;
        var q :| 0 <= q < |xs| && xs[q] == r.value.max;
        assert cars[p].mpg == r.value.min && cars[q].mpg == r.value.max;
      }
    }
    r
  }

  /** `yearRange`: the least and greatest raw two-digit model year. */
  function YearRange(cars: seq<Car>): (r: Option<Range>)
    ensures r.None? <==> |cars| == 0
    ensures r.Some? ==> exists i :: 0 <= i < |cars| && cars[i].modelYear as real == r.value.min
    ensures r.Some? ==> exists i :: 0 <= i < |cars| && cars[i].modelYear as real == r.value.max
    ensures r.Some? ==> forall i :: 0 <= i < |cars| ==> r.value.min <= cars[i].modelYear as real <= r.value.max
  {
    var xs := YearValues(cars);
    assert forall i :: 0 <= i < |cars| ==> xs[i] in xs && xs[i] == cars[i].modelYear as real;
    var r := Bounds(xs);
    assert r.Some? ==>
      (exists i :: 0 <= i < |cars| && cars[i].modelYear as real == r.value.min) && (exists i :: 0 <= i < |cars| && cars[i].modelYear as real == r.value.max) by {
      if r.Some? {
        var p :| 0 <= p < |xs| && xs[p] == r.value.min;
        var q :| 0 <= q < |xs| && xs[q] == r.value.max;
        assert cars[p].modelYear as real == r.value.min && cars[q].modelYear as real == r.value.max;
      }
    }
    r
  }

  /** `avgMpg`: the mean mpg over all records. */
  function AvgMpg(cars: seq<Car>): (r: Option<real>)
    ensures r.None? <==> |cars| == 0
    ensures r.Some? ==> r.value * (|cars| as real) == SumOf(MpgValues(cars))
  {
    Mean(MpgValues(cars))
  }

  /** `avgWeight`: the mean weight over all records. */
  function AvgWeight(cars: seq<Car>): (r: Option<real>)
    ensures r.None? <==> |cars| == 0
    ensures r.Some? ==> r.value * (|cars| as real) == SumOf(WeightValues(cars))
  {
    Mean(WeightValues(cars))
  }

  /** The whole snapshot. Every mean and range is "no data" exactly when the
      dataset is empty, except the horsepower mean, which is "no data"
      exactly when no record has a horsepower. */
  function ComputeStatistics(cars: seq<Car>): (s: Snapshot)
    ensures s.totalCars == |cars|
    ensures s.avgMpg.None? <==> |cars| == 0
    ensures s.avgWeight.None? <==> |cars| == 0
    ensures s.mpgRange.None? <==> |cars| == 0
    ensures s.yearRange.None? <==> |cars| == 0
    ensures s.avgHorsepower.None? <==> forall i :: 0 <= i < |cars| ==> cars[i].horsepower.None?
    ensures SumCounts(s.cylindersDistribution) == |cars| && SumCounts(s.originDistribution) == |cars|
    ensures s.avgMpg == AvgMpg(cars) && s.avgWeight == AvgWeight(cars) && s.avgHorsepower == AvgHorsepower(cars)
    ensures s.mpgRange == MpgRange(cars) && s.yearRange == YearRange(cars)
    ensures s.cylindersDistribution == CylindersDistribution(cars) && s.originDistribution == OriginDistribution(cars)
  {
    Snapshot(
      |cars|,
      AvgMpg(cars),
      MpgRange(cars),
      CylindersDistribution(cars),
      OriginDistribution(cars),
      YearRange(cars),
      AvgHorsepower(cars),
      AvgWeight(cars))
  }
}
