/** Worked examples of the statistics and view operations on small datasets. */
module Examples {
  import opened Wrappers
  import opened Cars
  import opened Distribution
  import opened Statistics
  import opened Grouping
  import opened Numbers

  function Sample3(): seq<Car> {
    [ Car(1, 18.0, 8, 307.0, Some(130.0), 3504.0, 12.0, 70, 1, "chevrolet chevelle malibu", "USA"),
      Car(2, 24.0, 4, 113.0, Some(95.0), 2372.0, 15.0, 70, 3, "toyota corona mark ii", "Japan"),
      Car(3, 24.0, 4, 107.0, None, 2430.0, 14.5, 71, 2, "audi 100 ls", "Europe") ]
  }

  /** Three records with mpg 18, 24, 24 have mean mpg 22. */
  lemma ThreeCarMeanMpg()
    ensures AvgMpg(Sample3()) == Some(22.0)
  {
    assert MpgValues(Sample3()) == [18.0, 24.0, 24.0];
    assert SumOf([18.0, 24.0, 24.0]) == 66.0 by {
      assert [18.0, 24.0, 24.0][..2] == [18.0, 24.0];
      assert [18.0, 24.0][..1] == [18.0];
      assert [18.0][..0] == [];
    }
  }

  /** The tally's entries for cylinders 8, 4, 4, in the model's order of
      first appearance. */
  lemma ThreeCarCylinderEntries()
    ensures CylindersDistribution(Sample3()) == [Entry(8, 1), Entry(4, 2)]
  {
    assert CylinderValues(Sample3()) == [8, 4, 4];
    assert [8, 4, 4][..2] == [8, 4] && [8, 4][..1] == [8] && [8][..0] == [];
    assert Tally([8]) == [Entry(8, 1)];
    assert Bump([Entry(8, 1)], 4) == [Entry(8, 1), Entry(4, 1)];
    assert Tally([8, 4]) == [Entry(8, 1), Entry(4, 1)];
    assert Bump([Entry(8, 1), Entry(4, 1)], 4) == [Entry(8, 1), Entry(4, 2)];
  }

  /** Cylinders 8, 4, 4 give the distribution {8: 1, 4: 2}: two fours and
      one eight, and no other key. */
  lemma ThreeCarCylinders()
    ensures ToMap(CylindersDistribution(Sample3())) == map[8 := 1, 4 := 2]
  {
    ThreeCarCylinderEntries();
    var d := [Entry(8, 1), Entry(4, 2)];
    assert KeysOf(d) == [8, 4];
    assert CountOf(d, 8) == 1 && CountOf(d, 4) == 2;
  }

  /** The record whose horsepower is the `"?"` sentinel is left out of the
      horsepower mean: (130 + 95) / 2. */
  lemma SentinelLeftOutOfHorsepower()
    ensures AvgHorsepower(Sample3()) == Some(112.5)
  {
    var cars := Sample3();
    assert cars[..2][..1] == cars[..1] && cars[..1][..0] == [];
    assert HorsepowerReadings(cars) == [130.0, 95.0];
    assert SumOf([130.0, 95.0]) == 225.0 by {
      assert [130.0, 95.0][..1] == [130.0];
      assert [130.0][..0] == [];
    }
  }

  /** The grouping keys are the model years shifted by 1900. */
  lemma YearSamplesOfSample3()
    ensures YearSamples(Sample3()) == [Sample(1970, 18.0), Sample(1970, 24.0), Sample(1971, 24.0)]
  {
  }

  /** The groups the by-year view must report for the three records. */
  lemma {:induction false} YearExpected(k: int)
    ensures Expected(YearSamples(Sample3()), k) ==
      if k == 1970 then Some(Group(1970, 42.0, 2))
      else if k == 1971 then Some(Group(1971, 24.0, 1))
      else None
  {
    var a, b, c := Sample(1970, 18.0), Sample(1970, 24.0), Sample(1971, 24.0);
    YearSamplesOfSample3();
    var s := YearSamples(Sample3());
    var s0: seq<Sample> := [];
    MpgWithKeySnoc(s0, a, k);
    MpgWithKeySnoc([a], b, k);
    MpgWithKeySnoc([a, b], c, k);
    assert s0 + [a] == [a] && [a] + [b] == [a, b] && [a, b] + [c] == s;
    if k == 1970 {
      assert MpgWithKey(s, k) == [18.0, 24.0];
      assert SumOf([18.0, 24.0]) == 42.0 by {
        assert [18.0, 24.0][..1] == [18.0];
        assert [18.0][..0] == [];
      }
    } else if k == 1971 {
      assert MpgWithKey(s, k) == [24.0];
      assert SumOf([24.0]) == 24.0 by { assert [24.0][..0] == []; }
    } else {
      assert MpgWithKey(s, k) == [];
    }
  }

  /** Model years 70, 70, 71 group into 1970 (two records) and 1971 (one),
      in ascending order. */
  lemma {:induction false} YearGroupingExample()
    ensures MpgByYear(Sample3()) == [Group(1970, 42.0, 2), Group(1971, 24.0, 1)]
  {
    var gs := [Group(1970, 42.0, 2), Group(1971, 24.0, 1)];
    forall k ensures Lookup(gs, k) == Expected(YearSamples(Sample3()), k) {
      YearExpected(k);
    }
    ViewIsUnique(YearSamples(Sample3()), gs);
  }
}
