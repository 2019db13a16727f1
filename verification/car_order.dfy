/** The comparator of `GET /api/cars`: records ordered by one of their fields,
    strings compared after lower-casing, ascending only for `sortOrder=asc`. */
module CarOrder {
  import opened Wrappers
  import opened Cars
  import opened Text
  import opened Sorting

  /** The record fields `sortBy` can name. */
  datatype SortField =
    | Id | Mpg | Cylinders | Displacement | Horsepower | Weight | Acceleration
    | ModelYear | Origin | CarName | OriginName

  /** The field a `sortBy` value names, `None` for any other property name. */
  function FieldNamed(name: string): Option<SortField> {
    match name
    case "id" => Some(Id)
    case "mpg" => Some(Mpg)
    case "cylinders" => Some(Cylinders)
    case "displacement" => Some(Displacement)
    case "horsepower" => Some(Horsepower)
    case "weight" => Some(Weight)
    case "acceleration" => Some(Acceleration)
    case "modelYear" => Some(ModelYear)
    case "origin" => Some(Origin)
    case "carName" => Some(CarName)
    case "originName" => Some(OriginName)
    case _ => None
  }

  /** The value the comparator sees: a number, or a lower-cased string. */
  datatype SortKey = Number(n: real) | Text(s: string)

  /** `a[sortBy]`, lowered when it is a string. A `null` horsepower takes
      part in `<` and `>` as the number 0. */
  function KeyOf(c: Car, f: SortField): SortKey {
    match f
    case Id => Number(c.id as real)
    case Mpg => Number(c.mpg)
    case Cylinders => Number(c.cylinders as real)
    case Displacement => Number(c.displacement)
    case Horsepower => Number(c.horsepower.GetOr(0.0))
    case Weight => Number(c.weight)
    case Acceleration => Number(c.acceleration)
    case ModelYear => Number(c.modelYear as real)
    case Origin => Number(c.origin as real)
    case CarName => Text(Lower(c.carName))
    case OriginName => Text(Lower(c.originName))
  }

  /** A missing horsepower sorts as 0, since `<` and `>` read `null` as 0. */
  lemma NullHorsepowerSortsAsZero(c: Car)
    ensures c.horsepower.None? ==> KeyOf(c, Horsepower) == Number(0.0)
    ensures c.horsepower.Some? ==> KeyOf(c, Horsepower) == Number(c.horsepower.value)
  {
  }

  /** `a <= b` on keys of one field; numbers are put below strings only so
      that the order is total on all keys. */
  predicate KeyLe(a: SortKey, b: SortKey) {
    match (a, b)
    case (Number(x), Number(y)) => x <= y
    case (Text(x), Text(y)) => LexLe(x, y)
    case (Number(_), Text(_)) => true
    case (Text(_), Number(_)) => false
  }

  lemma KeyLeTotalPreorder(a: SortKey, b: SortKey, c: SortKey)
    ensures KeyLe(a, b) || KeyLe(b, a)
    ensures KeyLe(a, b) && KeyLe(b, c) ==> KeyLe(a, c)
    ensures KeyLe(a, b) && KeyLe(b, a) ==> a == b
  {
    if a.Text? && b.Text? {
      LexLeTotal(a.s, b.s);
      if KeyLe(a, b) && KeyLe(b, a) {
        LexLeAntisymmetric(a.s, b.s);
      }
      if c.Text? && KeyLe(a, b) && KeyLe(b, c) {
        LexLeTransitive(a.s, b.s, c.s);
      }
    }
  }

  /** `sortOrder === 'asc'`; anything else, including no parameter, is descending. */
  function IsAscending(sortOrder: Option<string>): bool {
    sortOrder == Some("asc")
  }

  /** `x` may come before `y` in the requested direction. */
  predicate InOrder(f: SortField, ascending: bool, x: Car, y: Car) {
    if ascending then KeyLe(KeyOf(x, f), KeyOf(y, f)) else KeyLe(KeyOf(y, f), KeyOf(x, f))
  }

  /** The comparator as a "may come first" relation. */
  function CarLe(f: SortField, ascending: bool): (Car, Car) -> bool {
    (a: Car, b: Car) => InOrder(f, ascending, a, b)
  }

  lemma CarLeTotalPreorder(f: SortField, ascending: bool)
    ensures TotalPreorder(CarLe(f, ascending))
  {
    var le := CarLe(f, ascending);
    forall a, b ensures le(a, b) || le(b, a) {
      KeyLeTotalPreorder(KeyOf(a, f), KeyOf(b, f), KeyOf(b, f));
    }
    forall a, b, c | le(a, b) && le(b, c) ensures le(a, c) {
      KeyLeTotalPreorder(KeyOf(a, f), KeyOf(b, f), KeyOf(c, f));
      KeyLeTotalPreorder(KeyOf(c, f), KeyOf(b, f), KeyOf(a, f));
    }
  }

  /** `filteredCars.sort(...)`: a permutation, non-decreasing in the key when
      ascending and non-increasing otherwise. A `sortBy` that names no field
      leaves the order as it was. */
  function SortCars(cars: seq<Car>, field: Option<SortField>, ascending: bool): (r: seq<Car>)
    ensures multiset(r) == multiset(cars)
    ensures field.Some? && ascending ==>
      forall i, j :: 0 <= i < j < |r| ==> KeyLe(KeyOf(r[i], field.value), KeyOf(r[j], field.value))
    ensures field.Some? && !ascending ==>
      forall i, j :: 0 <= i < j < |r| ==> KeyLe(KeyOf(r[j], field.value), KeyOf(r[i], field.value))
  {
    if field.None? then cars
    else
      CarLeTotalPreorder(field.value, ascending);
      var r := Sort(cars, CarLe(field.value, ascending));
      assert forall i, j :: 0 <= i < j < |r| ==> CarLe(field.value, ascending)(r[i], r[j]);
      r
  }

  /** In a sorted list, of two present records with different keys, the one
      the direction puts first comes first. */
  lemma PrecedesByKey(s: seq<Car>, f: SortField, ascending: bool, a: Car, b: Car)
    requires forall i, j :: 0 <= i < j < |s| ==> InOrder(f, ascending, s[i], s[j])
    requires a in s && b in s && KeyOf(a, f) != KeyOf(b, f)
    ensures Precedes(s, a, b) <==> InOrder(f, ascending, a, b)
  {
    KeyLeTotalPreorder(KeyOf(a, f), KeyOf(b, f), KeyOf(a, f));
    var i :| 0 <= i < |s| && s[i] == a;
    var j :| 0 <= j < |s| && s[j] == b;
    assert j < i ==> InOrder(f, ascending, b, a);
    assert i < j ==> Precedes(s, a, b);
    forall i', j' | 0 <= i' < j' < |s| && s[i'] == a && s[j'] == b
      ensures InOrder(f, ascending, a, b)
    {
    }
  }

  /** For two records whose keys differ, sorting ascending and sorting
      descending put them in opposite orders. */
  lemma DirectionsAreReversed(cars: seq<Car>, f: SortField, a: Car, b: Car)
    requires a in cars && b in cars && KeyOf(a, f) != KeyOf(b, f)
    ensures Precedes(SortCars(cars, Some(f), true), a, b) <==> Precedes(SortCars(cars, Some(f), false), b, a)
  {
    var up := SortCars(cars, Some(f), true);
    var down := SortCars(cars, Some(f), false);
    assert a in multiset(up) && b in multiset(up);
    assert a in multiset(down) && b in multiset(down);
    forall i, j | 0 <= i < j < |up| ensures InOrder(f, true, up[i], up[j]) {
    }
    forall i, j | 0 <= i < j < |down| ensures InOrder(f, false, down[i], down[j]) {
    }
    PrecedesByKey(up, f, true, a, b);
    PrecedesByKey(down, f, false, b, a);
  }
}
