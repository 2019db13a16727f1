/** Occurrence counts, as built by `getCylindersDistribution` and
    `getOriginDistribution`: one pass that bumps `distribution[key]`. The
    object is modelled by its key-to-count map (`ToMap`); the entries are
    kept in order of first appearance, which is not a claim about the order
    in which JavaScript lists an object's keys. */
module Distribution {

  datatype Entry<K> = Entry(key: K, count: nat)

  function KeysOf<K>(d: seq<Entry<K>>): seq<K> {
    seq(|d|, i requires 0 <= i < |d| => d[i].key)
  }

  /** `distribution[k] || 0`. */
  function CountOf<K(==)>(d: seq<Entry<K>>, k: K): nat {
    if |d| == 0 then 0
    else if d[0].key == k then d[0].count
    else CountOf(d[1..], k)
  }

  function SumCounts<K>(d: seq<Entry<K>>): nat {
    if |d| == 0 then 0 else d[0].count + SumCounts(d[1..])
  }

  ghost predicate DistinctKeys<K>(d: seq<Entry<K>>) {
    forall i, j :: 0 <= i < j < |d| ==> d[i].key != d[j].key
  }

  /** Every key present was seen at least once. */
  ghost predicate PositiveCounts<K>(d: seq<Entry<K>>) {
    forall i :: 0 <= i < |d| ==> d[i].count >= 1
  }

  /** `distribution[k] = (distribution[k] || 0) + 1`. */
  function Bump<K(==,!new)>(d: seq<Entry<K>>, k: K): (r: seq<Entry<K>>)
    requires DistinctKeys(d)
    ensures DistinctKeys(r)
    ensures PositiveCounts(d) ==> PositiveCounts(r)
    ensures forall j :: CountOf(r, j) == CountOf(d, j) + (if j == k then 1 else 0)
    ensures forall j :: j in KeysOf(r) <==> j in KeysOf(d) || j == k
    ensures SumCounts(r) == SumCounts(d) + 1
  {
    if |d| == 0 then
      assert KeysOf([Entry(k, 1)]) == [k];
      [Entry(k, 1)]
    else
      KeysOfCons(d);
      if d[0].key == k then
        NotInKeysCountsZero(d[1..], k);
        var r := [Entry(k, d[0].count + 1)] + d[1..];
        assert KeysOf(r) == KeysOf(d) by { KeysOfCons(r); }
        r
      else
        var rest := Bump(d[1..], k);
        var r := [d[0]] + rest;
        KeysOfCons(r);
        assert forall i :: 0 <= i < |rest| ==> rest[i].key in KeysOf(rest) by {
          forall i | 0 <= i < |rest| ensures rest[i].key in KeysOf(rest) {
            assert KeysOf(rest)[i] == rest[i].key;
          }
        }
        r
  }

  /** The keys of a non-empty distribution are its head's key and then the
      tail's, the head's key not among the tail's when keys are distinct. */
  lemma KeysOfCons<K>(d: seq<Entry<K>>)
    requires |d| > 0
    ensures KeysOf(d) == [d[0].key] + KeysOf(d[1..])
    ensures DistinctKeys(d) ==> d[0].key !in KeysOf(d[1..]) && DistinctKeys(d[1..])
  {
    assert KeysOf(d) == [d[0].key] + KeysOf(d[1..]);
    if DistinctKeys(d) {
      forall i | 0 <= i < |d[1..]| ensures KeysOf(d[1..])[i] != d[0].key {
        assert d[i + 1].key != d[0].key;
      }
    }
  }

  lemma {:induction false} NotInKeysCountsZero<K>(d: seq<Entry<K>>, k: K)
    requires k !in KeysOf(d)
    ensures CountOf(d, k) == 0
    decreases |d|
  {
    if |d| > 0 {
      assert KeysOf(d) == [d[0].key] + KeysOf(d[1..]);
      NotInKeysCountsZero(d[1..], k);
    }
  }

  /** The distribution of `keys`: one entry per distinct key, in order of
      first appearance, counting its occurrences. */
  function Tally<K(==,!new)>(keys: seq<K>): (d: seq<Entry<K>>)
    ensures DistinctKeys(d)
    ensures PositiveCounts(d)
    ensures forall k :: CountOf(d, k) == multiset(keys)[k]
    ensures forall k :: k in KeysOf(d) <==> k in keys
    ensures SumCounts(d) == |keys|
  {
    if |keys| == 0 then []
    else
      var init := keys[..|keys| - 1];
      var last := keys[|keys| - 1];
      assert keys == init + [last];
      Bump(Tally(init), last)
  }

  /** The distribution as a key-to-count map. */
  function ToMap<K(==,!new)>(d: seq<Entry<K>>): (m: map<K, nat>)
    ensures forall k :: k in m <==> k in KeysOf(d)
    ensures forall k :: k in m ==> m[k] == CountOf(d, k)
  {
    map k | k in KeysOf(d) :: CountOf(d, k)
  }

  /** The map form of a tally: exactly the keys that occur, each with its
      number of occurrences. */
  lemma TallyMap<K(!new)>(keys: seq<K>)
    ensures forall k :: k in ToMap(Tally(keys)) <==> k in keys
    ensures forall k :: k in ToMap(Tally(keys)) ==> ToMap(Tally(keys))[k] == multiset(keys)[k] >= 1
  {
  }
}
