/** The two visualization views: records grouped by a key, each group
    accumulating `totalMpg` and `count`, the groups then sorted ascending by
    key. */
module Grouping {
  import opened Wrappers
  import opened Cars
  import opened Sorting
  import opened Numbers

  /** One record as a view sees it: its group key and its mpg. */
  datatype Sample = Sample(key: int, mpg: real)

  datatype Group = Group(key: int, totalMpg: real, count: nat)

  /** Reference: the mpg values of the samples with key `k`, in order. */
  function MpgWithKey(samples: seq<Sample>, k: int): seq<real> {
    if |samples| == 0 then []
    else
      var last := samples[|samples| - 1];
      MpgWithKey(samples[..|samples| - 1], k) + (if last.key == k then [last.mpg] else [])
  }

  /** What the view must say about key `k`: nothing when no sample has it,
      otherwise the sum and number of the matching samples. */
  function Expected(samples: seq<Sample>, k: int): Option<Group> {
    var ms := MpgWithKey(samples, k);
    if |ms| == 0 then None else Some(Group(k, SumOf(ms), |ms|))
  }

  /** `data[k]`: the first group with key `k`. */
  function Lookup(gs: seq<Group>, k: int): (r: Option<Group>)
    ensures r.Some? ==> r.value in gs && r.value.key == k
  {
    if |gs| == 0 then None
    else if gs[0].key == k then Some(gs[0])
    else Lookup(gs[1..], k)
  }

  ghost predicate DistinctGroupKeys(gs: seq<Group>) {
    forall i, j :: 0 <= i < j < |gs| ==> gs[i].key != gs[j].key
  }

  function TotalCount(gs: seq<Group>): nat {
    if |gs| == 0 then 0 else gs[0].count + TotalCount(gs[1..])
  }

  /** The group `k` after one more sample `s` with that key. */
  function Added(g: Option<Group>, s: Sample): Group {
    if g.None? then Group(s.key, s.mpg, 1)
    else Group(s.key, g.value.totalMpg + s.mpg, g.value.count + 1)
  }

  /** One step of the `forEach`: create the group on first sight, then add
      the record's mpg and one to its count. */
  function Accumulate(gs: seq<Group>, s: Sample): (r: seq<Group>)
    requires DistinctGroupKeys(gs)
    ensures DistinctGroupKeys(r)
    ensures forall k :: Lookup(r, k) == if k == s.key then Some(Added(Lookup(gs, k), s)) else Lookup(gs, k)
    ensures TotalCount(r) == TotalCount(gs) + 1
  {
    if |gs| == 0 then [Group(s.key, s.mpg, 1)]
    else if gs[0].key == s.key then
      var r := [Added(Some(gs[0]), s)] + gs[1..];
      assert forall k :: k != s.key ==> Lookup(r, k) == Lookup(gs[1..], k) == Lookup(gs, k);
      r
    else
      var rest := Accumulate(gs[1..], s);
      assert forall i :: 0 <= i < |rest| ==> rest[i].key != gs[0].key by {
        forall i | 0 <= i < |rest| ensures rest[i].key != gs[0].key {
          var k := rest[i].key;
          LookupFirst(rest, i);
          if k != s.key {
            var h := Lookup(gs[1..], k).value;
            var p :| 0 <= p < |gs[1..]| && gs[1..][p] == h;
            assert gs[p + 1].key == k;
          }
        }
      }
      [gs[0]] + rest
  }

  /** A present key is found. */
  lemma {:induction false} LookupFirst(gs: seq<Group>, i: int)
    requires 0 <= i < |gs|
    ensures Lookup(gs, gs[i].key).Some?
    decreases i
  {
    if i > 0 && gs[0].key != gs[i].key {
      LookupFirst(gs[1..], i - 1);
    }
  }

  /** With distinct keys, every group is what its key looks up. */
  lemma {:induction false} LookupMember(gs: seq<Group>, g: Group)
    requires DistinctGroupKeys(gs) && g in gs
    ensures Lookup(gs, g.key) == Some(g)
    decreases |gs|
  {
    if gs[0] != g {
      assert g in gs[1..];
      var i :| 0 <= i < |gs[1..]| && gs[1..][i] == g;
      assert gs[0].key != gs[i + 1].key;
      LookupMember(gs[1..], g);
    }
  }

  lemma MpgWithKeySnoc(samples: seq<Sample>, s: Sample, k: int)
    ensures MpgWithKey(samples + [s], k) == MpgWithKey(samples, k) + (if s.key == k then [s.mpg] else [])
  {
    assert (samples + [s])[..|samples|] == samples;
  }

  /** The `forEach` over all samples. */
  function GroupSamples(samples: seq<Sample>): (gs: seq<Group>)
    ensures DistinctGroupKeys(gs)
    ensures forall k :: Lookup(gs, k) == Expected(samples, k)
    ensures TotalCount(gs) == |samples|
  {
    if |samples| == 0 then []
    else
      var init := samples[..|samples| - 1];
      var s := samples[|samples| - 1];
      assert samples == init + [s];
      var prev := GroupSamples(init);
      var r := Accumulate(prev, s);
      forall k ensures Lookup(r, k) == Expected(samples, k) {
        ExpectedSnoc(init, s, k);
      }
      r
  }

  /** What one more sample does to the expected group of each key: the
      reference side of `Accumulate`. */
  lemma ExpectedSnoc(init: seq<Sample>, s: Sample, k: int)
    ensures Expected(init + [s], k) == if k == s.key then Some(Added(Expected(init, k), s)) else Expected(init, k)
  {
    MpgWithKeySnoc(init, s, k);
    var ms := MpgWithKey(init, k);
    SumOfSnoc(ms, s.mpg);
    if k == s.key {
      if |ms| == 0 {
        assert MpgWithKey(init + [s], k) == [s.mpg];
        assert SumOf([s.mpg]) == s.mpg by { SumOfSnoc([], s.mpg); assert [] + [s.mpg] == [s.mpg]; }
      } else {
        assert MpgWithKey(init + [s], k) == ms + [s.mpg];
      }
    } else {
      assert MpgWithKey(init + [s], k) == ms;
    }
  }

  /** Groups in ascending key order with no key twice. */
  ghost predicate StrictlyAscending(gs: seq<Group>) {
    forall i, j :: 0 <= i < j < |gs| ==> gs[i].key < gs[j].key
  }

  function ByKey(): (Group, Group) -> bool {
    (a: Group, b: Group) => a.key <= b.key
  }

  /** `Object.keys(...).map(...).sort((a, b) => a.key - b.key)`. */
  function SortGroups(gs: seq<Group>): (r: seq<Group>)
    requires DistinctGroupKeys(gs)
    ensures multiset(r) == multiset(gs)
    ensures StrictlyAscending(r)
  {
    var r := Sort(gs, ByKey());
    PermutationKeepsDistinct(gs, r);
    r
  }

  lemma {:induction false} DistinctOnce(gs: seq<Group>, x: Group)
    requires DistinctGroupKeys(gs)
    ensures multiset(gs)[x] <= 1
    decreases |gs|
  {
    if |gs| > 0 {
      var init := gs[..|gs| - 1];
      var last := gs[|gs| - 1];
      assert gs == init + [last];
      DistinctOnce(init, x);
      assert forall i :: 0 <= i < |init| ==> init[i].key != last.key;
      assert last !in init;
    }
  }

  lemma TwiceCountsTwice(gs: seq<Group>, i: int, j: int)
    requires 0 <= i < j < |gs|
    ensures gs[i] == gs[j] ==> multiset(gs)[gs[i]] >= 2
  {
    assert gs == gs[..j] + gs[j..];
    assert gs[i] in gs[..j];
    assert gs[j] in gs[j..];
  }

  lemma PermutationKeepsDistinct(a: seq<Group>, b: seq<Group>)
    requires DistinctGroupKeys(a) && multiset(a) == multiset(b)
    ensures DistinctGroupKeys(b)
  {
    forall i, j | 0 <= i < j < |b| ensures b[i].key != b[j].key {
      TwiceCountsTwice(b, i, j);
      DistinctOnce(a, b[i]);
      assert b[i] in multiset(a) && b[j] in multiset(a);
      var p :| 0 <= p < |a| && a[p] == b[i];
      var q :| 0 <= q < |a| && a[q] == b[j];
      assert p < q ==> a[p].key != a[q].key;
      assert q < p ==> a[q].key != a[p].key;
    }
  }

  lemma PermutationKeepsLookup(a: seq<Group>, b: seq<Group>, k: int)
    requires DistinctGroupKeys(a) && DistinctGroupKeys(b) && multiset(a) == multiset(b)
    ensures Lookup(b, k) == Lookup(a, k)
  {
    var la, lb := Lookup(a, k), Lookup(b, k);
    if lb.Some? {
      assert lb.value in multiset(a);
      LookupMember(a, lb.value);
    }
    if la.Some? {
      assert la.value in multiset(b);
      LookupMember(b, la.value);
    }
  }

  lemma {:induction false} TotalCountConcat(a: seq<Group>, b: seq<Group>)
    ensures TotalCount(a + b) == TotalCount(a) + TotalCount(b)
  {
    if |a| > 0 {
      assert (a + b)[1..] == a[1..] + b;
      TotalCountConcat(a[1..], b);
    } else {
      assert a + b == b;
    }
  }

  lemma {:induction false} TotalCountSplit(gs: seq<Group>, i: int)
    requires 0 <= i < |gs|
    ensures TotalCount(gs) == gs[i].count + TotalCount(gs[..i] + gs[i + 1..])
  {
    var tail := [gs[i]] + gs[i + 1..];
    assert gs == gs[..i] + tail;
    assert tail[1..] == gs[i + 1..];
    TotalCountConcat(gs[..i], tail);
    TotalCountConcat(gs[..i], gs[i + 1..]);
  }

  lemma {:induction false} PermutationKeepsSum(a: seq<Group>, b: seq<Group>)
    requires multiset(a) == multiset(b)
    ensures TotalCount(a) == TotalCount(b)
    decreases |a|
  {
    if |a| > 0 {
      assert a == [a[0]] + a[1..];
      assert a[0] in multiset(b);
      var i :| 0 <= i < |b| && b[i] == a[0];
      var rest := b[..i] + b[i + 1..];
      RemoveAt(b, i);
      assert multiset(rest) == multiset(a[1..]);
      PermutationKeepsSum(a[1..], rest);
      TotalCountSplit(b, i);
    } else {
      assert |b| == |multiset(b)| == 0;
    }
  }

  /** Removing the element at `i` removes one copy of it from the multiset. */
  lemma RemoveAt<T>(b: seq<T>, i: int)
    requires 0 <= i < |b|
    ensures multiset(b[..i] + b[i + 1..]) == multiset(b) - multiset{b[i]}
  {
    assert b == b[..i] + [b[i]] + b[i + 1..];
  }

  /** A view: group, then sort ascending by key. Every key of the samples
      has one group holding the sum and number of its mpg values, and the
      counts add up to the number of samples. */
  function GroupedView(samples: seq<Sample>): (r: seq<Group>)
    ensures StrictlyAscending(r)
    ensures forall k :: Lookup(r, k) == Expected(samples, k)
    ensures TotalCount(r) == |samples|
  {
    var gs := GroupSamples(samples);
    var r := SortGroups(gs);
    PermutationKeepsDistinct(gs, r);
    forall k ensures Lookup(r, k) == Expected(samples, k) {
      PermutationKeepsLookup(gs, r, k);
    }
    PermutationKeepsSum(gs, r);
    r
  }

  /** Every group in a view has at least one member. */
  lemma {:induction false} ViewGroupsAreNonEmpty(samples: seq<Sample>, i: int)
    requires 0 <= i < |GroupedView(samples)|
    ensures GroupedView(samples)[i].count >= 1
    ensures Expected(samples, GroupedView(samples)[i].key) == Some(GroupedView(samples)[i])
  {
    var r := GroupedView(samples);
    assert StrictlyAscending(r);
    LookupMember(r, r[i]);
  }

  /** The contract of a view determines it: a strictly ascending list of
      groups that reports every key as the samples do is the view. */
  lemma ViewIsUnique(samples: seq<Sample>, gs: seq<Group>)
    requires StrictlyAscending(gs)
    requires forall k :: Lookup(gs, k) == Expected(samples, k)
    ensures gs == GroupedView(samples)
  {
    AscendingLookupUnique(gs, GroupedView(samples));
  }

  /** In a strictly ascending list, keys below the head's are absent. */
  lemma {:induction false} LookupBelowHead(gs: seq<Group>, k: int)
    requires StrictlyAscending(gs) && |gs| > 0 && k <= gs[0].key
    ensures Lookup(gs[1..], k) == None
  {
  }

  lemma {:induction false} AscendingLookupUnique(a: seq<Group>, b: seq<Group>)
    requires StrictlyAscending(a) && StrictlyAscending(b)
    requires forall k :: Lookup(a, k) == Lookup(b, k)
    ensures a == b
    decreases |a|
  {
    assert |a| > 0 ==> Lookup(a, a[0].key) == Some(a[0]);
    assert |b| > 0 ==> Lookup(b, b[0].key) == Some(b[0]);
    if |a| > 0 && |b| > 0 {
      if a[0].key < b[0].key {
        LookupBelowHead(b, a[0].key);
        assert false;
      } else if b[0].key < a[0].key {
        LookupBelowHead(a, b[0].key);
        assert false;
      }
      assert a[0] == b[0];
      forall k ensures Lookup(a[1..], k) == Lookup(b[1..], k) {
        if k <= a[0].key {
          LookupBelowHead(a, k);
          LookupBelowHead(b, k);
        } else {
          assert Lookup(a, k) == Lookup(a[1..], k);
          assert Lookup(b, k) == Lookup(b[1..], k);
        }
      }
      AscendingLookupUnique(a[1..], b[1..]);
      assert a == [a[0]] + a[1..] && b == [b[0]] + b[1..];
    }
  }

  /** `car.modelYear + 1900` as the group key. */
  function YearSamples(cars: seq<Car>): seq<Sample> {
    seq(|cars|, i requires 0 <= i < |cars| => Sample(cars[i].modelYear + 1900, cars[i].mpg))
  }

  function CylinderSamples(cars: seq<Car>): seq<Sample> {
    seq(|cars|, i requires 0 <= i < |cars| => Sample(cars[i].cylinders, cars[i].mpg))
  }

  /** `GET /api/visualizations/mpg-by-year`. */
  function MpgByYear(cars: seq<Car>): (r: seq<Group>)
    ensures StrictlyAscending(r)
    ensures forall k :: Lookup(r, k) == Expected(YearSamples(cars), k)
    ensures TotalCount(r) == |cars|
  {
    GroupedView(YearSamples(cars))
  }

  /** `GET /api/visualizations/mpg-by-cylinders`. */
  function MpgByCylinders(cars: seq<Car>): (r: seq<Group>)
    ensures StrictlyAscending(r)
    ensures forall k :: Lookup(r, k) == Expected(CylinderSamples(cars), k)
    ensures TotalCount(r) == |cars|
  {
    GroupedView(CylinderSamples(cars))
  }

  /** `totalMpg / count`, exact (the two-decimal rendering is not modelled). */
  function AverageMpg(g: Group): (r: real)
    requires g.count >= 1
    ensures r * (g.count as real) == g.totalMpg
  {
    g.totalMpg / (g.count as real)
  }
}
