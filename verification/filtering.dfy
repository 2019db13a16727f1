/** The filter chain of `GET /api/cars`: each optional query parameter that
    is switched on narrows the list with one more `Array.prototype.filter`. */
module Filtering {
  import opened Wrappers
  import opened Cars
  import opened Text

  /** A raw query parameter: absent, or given as `text` whose numeric parse
      is `parsed` (`None` when the parse yields `NaN`). */
  datatype Param<T> = Absent | Given(text: string, parsed: Option<T>)

  /** The guard `p && p !== 'null' && !isNaN(parse(p))`: the value a numeric
      filter uses, or `None` when that filter is switched off. */
  function Setting<T>(p: Param<T>): (r: Option<T>)
    ensures r.None? <==> p.Absent? || p.text == "" || p.text == "null" || p.parsed.None?
    ensures r.Some? ==> p.Given? && r == p.parsed
  {
    match p
    case Absent => None
    case Given(text, parsed) => if text != "" && text != "null" then parsed else None
  }

  /** The filter parameters of a listing request. `search` is `None` when it
      is not in the query. */
  datatype Filters = Filters(
    search: Option<string>,
    minMpg: Param<real>,
    maxMpg: Param<real>,
    cylinders: Param<int>,
    origin: Param<int>,
    minYear: Param<int>,
    maxYear: Param<int>)

  /** The needle of the search filter, lower-cased once; `None` when `search`
      is missing or the empty string (both are falsy). */
  function SearchNeedle(f: Filters): Option<string> {
    if f.search.Some? && f.search.value != "" then Some(Lower(f.search.value)) else None
  }

  /** One switched-on filter. */
  datatype Predicate =
    | NameContains(needle: string)
    | MpgAtLeast(minMpg: real)
    | MpgAtMost(maxMpg: real)
    | CylindersAre(cylinders: int)
    | OriginIs(origin: int)
    | YearAtLeast(minYear: int)
    | YearAtMost(maxYear: int)

  predicate Holds(p: Predicate, c: Car) {
    match p
    case NameContains(needle) => Contains(Lower(c.carName), needle)
    case MpgAtLeast(v) => c.mpg >= v
    case MpgAtMost(v) => c.mpg <= v
    case CylindersAre(n) => c.cylinders == n
    case OriginIs(n) => c.origin == n
    case YearAtLeast(y) => c.modelYear >= y
    case YearAtMost(y) => c.modelYear <= y
  }

  /** The seven optional stages, each `None` when its parameter is switched off. */
  function SearchStage(f: Filters): Option<Predicate> {
    if SearchNeedle(f).Some? then Some(NameContains(SearchNeedle(f).value)) else None
  }
  function MinMpgStage(f: Filters): Option<Predicate> {
    if Setting(f.minMpg).Some? then Some(MpgAtLeast(f.minMpg.parsed.value)) else None
  }
  function MaxMpgStage(f: Filters): Option<Predicate> {
    if Setting(f.maxMpg).Some? then Some(MpgAtMost(f.maxMpg.parsed.value)) else None
  }
  function CylindersStage(f: Filters): Option<Predicate> {
    if Setting(f.cylinders).Some? then Some(CylindersAre(f.cylinders.parsed.value)) else None
  }
  function OriginStage(f: Filters): Option<Predicate> {
    if Setting(f.origin).Some? then Some(OriginIs(f.origin.parsed.value)) else None
  }
  function MinYearStage(f: Filters): Option<Predicate> {
    if Setting(f.minYear).Some? then Some(YearAtLeast(f.minYear.parsed.value)) else None
  }
  function MaxYearStage(f: Filters): Option<Predicate> {
    if Setting(f.maxYear).Some? then Some(YearAtMost(f.maxYear.parsed.value)) else None
  }

  /** A record gets through an optional stage. */
  predicate Passes(c: Car, stage: Option<Predicate>) {
    stage.Some? ==> Holds(stage.value, c)
  }

  predicate PassesStages(c: Car, f: Filters) {
    && Passes(c, SearchStage(f)) && Passes(c, MinMpgStage(f)) && Passes(c, MaxMpgStage(f))
    && Passes(c, CylindersStage(f)) && Passes(c, OriginStage(f))
    && Passes(c, MinYearStage(f)) && Passes(c, MaxYearStage(f))
  }

  /** Reference meaning of a filter set, written as the conjunction of the
      optional conditions: inclusive bounds, exact equalities, and a
      case-insensitive substring test on the name. */
  ghost predicate MatchesQuery(c: Car, f: Filters) {
    && (SearchNeedle(f).Some? ==> exists i :: OccursAt(Lower(c.carName), Lower(f.search.value), i))
    && (Setting(f.minMpg).Some? ==> c.mpg >= f.minMpg.parsed.value)
    && (Setting(f.maxMpg).Some? ==> c.mpg <= f.maxMpg.parsed.value)
    && (Setting(f.cylinders).Some? ==> c.cylinders == f.cylinders.parsed.value)
    && (Setting(f.origin).Some? ==> c.origin == f.origin.parsed.value)
    && (Setting(f.minYear).Some? ==> c.modelYear >= f.minYear.parsed.value)
    && (Setting(f.maxYear).Some? ==> c.modelYear <= f.maxYear.parsed.value)
  }

  /** Getting through every stage is meeting the reference conjunction. */
  lemma PassesStagesMeaning(c: Car, f: Filters)
    ensures PassesStages(c, f) <==> MatchesQuery(c, f)
  {
    if SearchNeedle(f).Some? {
      ContainsIffOccurs(Lower(c.carName), Lower(f.search.value));
    }
  }

  /** The search ignores the case of its needle: searching for `s` and for
      its lower-case form lets the same records through. */
  lemma SearchIgnoresNeedleCase(c: Car, f: Filters, s: string)
    ensures PassesStages(c, f.(search := Some(Lower(s)))) == PassesStages(c, f.(search := Some(s)))
  {
    LowerIdempotent(s);
  }

  /** `a` is `b` with some elements removed and the rest in their order. */
  ghost predicate IsSubsequence<T>(a: seq<T>, b: seq<T>)
    decreases |b|
  {
    if |a| == 0 then true
    else if |b| == 0 then false
    else (a[0] == b[0] && IsSubsequence(a[1..], b[1..])) || IsSubsequence(a, b[1..])
  }

  lemma {:induction false} SubsequenceTransitive<T>(a: seq<T>, b: seq<T>, c: seq<T>)
    requires IsSubsequence(a, b) && IsSubsequence(b, c)
    ensures IsSubsequence(a, c)
    decreases |c|
  {
    if |a| > 0 {
      if b[0] == c[0] && IsSubsequence(b[1..], c[1..]) {
        if a[0] == b[0] && IsSubsequence(a[1..], b[1..]) {
          SubsequenceTransitive(a[1..], b[1..], c[1..]);
        } else {
          SubsequenceTransitive(a, b[1..], c[1..]);
        }
      } else {
        SubsequenceTransitive(a, b, c[1..]);
      }
    }
  }

  /** One `filter` pass. */
  function Keep(cars: seq<Car>, p: Predicate): (r: seq<Car>)
    ensures IsSubsequence(r, cars)
    ensures forall c :: c in r <==> c in cars && Holds(p, c)
    ensures forall c :: multiset(r)[c] == if Holds(p, c) then multiset(cars)[c] else 0
  {
    if |cars| == 0 then []
    else
      assert forall c :: c in cars <==> c == cars[0] || c in cars[1..] by {
        assert cars == [cars[0]] + cars[1..];
      }
      assert multiset(cars) == multiset{cars[0]} + multiset(cars[1..]) by {
        assert cars == [cars[0]] + cars[1..];
      }
      var rest := Keep(cars[1..], p);
      if Holds(p, cars[0]) then
        assert ([cars[0]] + rest)[1..] == rest;
        [cars[0]] + rest
      else rest
  }

  /** `filter` on a list whose every element passes changes nothing. */
  lemma {:induction false} KeepAllPass(cars: seq<Car>, p: Predicate)
    requires forall c :: c in cars ==> Holds(p, c)
    ensures Keep(cars, p) == cars
    decreases |cars|
  {
    if |cars| > 0 {
      assert cars[0] in cars;
      assert forall c :: c in cars[1..] ==> c in cars;
      KeepAllPass(cars[1..], p);
      assert cars == [cars[0]] + cars[1..];
    }
  }

  /** One optional stage of the handler: `if (active) list = list.filter(...)`. */
  function Pass(cars: seq<Car>, stage: Option<Predicate>): (r: seq<Car>)
    ensures IsSubsequence(r, cars)
    ensures forall c :: c in r <==> c in cars && Passes(c, stage)
    ensures forall c :: multiset(r)[c] == if Passes(c, stage) then multiset(cars)[c] else 0
  {
    if stage.Some? then Keep(cars, stage.value)
    else
      SubsequenceReflexive(cars);
      cars
  }

  lemma {:induction false} SubsequenceReflexive<T>(s: seq<T>)
    ensures IsSubsequence(s, s)
    decreases |s|
  {
    if |s| > 0 {
      SubsequenceReflexive(s[1..]);
    }
  }

  /** The filter chain of the listing handler, stage by stage in source order. */
  function ApplyFilters(cars: seq<Car>, f: Filters): (r: seq<Car>)
    ensures IsSubsequence(r, cars)
    ensures forall c :: c in r <==> c in cars && MatchesQuery(c, f)
    ensures forall c :: multiset(r)[c] == if MatchesQuery(c, f) then multiset(cars)[c] else 0
  {
    var s1 := Pass(cars, SearchStage(f));
    var s2 := Pass(s1, MinMpgStage(f));
    var s3 := Pass(s2, MaxMpgStage(f));
    var s4 := Pass(s3, CylindersStage(f));
    var s5 := Pass(s4, OriginStage(f));
    var s6 := Pass(s5, MinYearStage(f));
    var s7 := Pass(s6, MaxYearStage(f));
    SubsequenceTransitive(s2, s1, cars);
    SubsequenceTransitive(s3, s2, cars);
    SubsequenceTransitive(s4, s3, cars);
    SubsequenceTransitive(s5, s4, cars);
    SubsequenceTransitive(s6, s5, cars);
    SubsequenceTransitive(s7, s6, cars);
    forall c ensures c in s7 <==> c in cars && MatchesQuery(c, f) {
      PassesStagesMeaning(c, f);
    }
    forall c ensures multiset(s7)[c] == if MatchesQuery(c, f) then multiset(cars)[c] else 0 {
      PassesStagesMeaning(c, f);
    }
    s7
  }

  /** A filter set with nothing switched on. */
  predicate NothingSwitchedOn(f: Filters) {
    && SearchNeedle(f).None?
    && Setting(f.minMpg).None? && Setting(f.maxMpg).None?
    && Setting(f.cylinders).None? && Setting(f.origin).None?
    && Setting(f.minYear).None? && Setting(f.maxYear).None?
  }

  /** Parameters that are absent, the literal "null", unparseable, or an
      empty search leave the list exactly as loaded. */
  lemma SwitchedOffFiltersKeepEverything(cars: seq<Car>, f: Filters)
    requires NothingSwitchedOn(f)
    ensures ApplyFilters(cars, f) == cars
  {
  }

  /** Filtering twice with the same parameters is filtering once. */
  lemma FilterIdempotent(cars: seq<Car>, f: Filters)
    ensures ApplyFilters(ApplyFilters(cars, f), f) == ApplyFilters(cars, f)
  {
    var r := ApplyFilters(cars, f);
    forall c | c in r ensures PassesStages(c, f) {
      PassesStagesMeaning(c, f);
    }
    PassAllPass(r, SearchStage(f));
    PassAllPass(r, MinMpgStage(f));
    PassAllPass(r, MaxMpgStage(f));
    PassAllPass(r, CylindersStage(f));
    PassAllPass(r, OriginStage(f));
    PassAllPass(r, MinYearStage(f));
    PassAllPass(r, MaxYearStage(f));
  }

  lemma PassAllPass(cars: seq<Car>, stage: Option<Predicate>)
    requires forall c :: c in cars ==> Passes(c, stage)
    ensures Pass(cars, stage) == cars
  {
    if stage.Some? {
      KeepAllPass(cars, stage.value);
    }
  }
}
