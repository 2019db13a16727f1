/** The record shape built by the CSV row handler of `loadData`, the
    origin-code naming, and the lookup behind `GET /api/cars/:id`. */
module Cars {
  import opened Wrappers

  /** One loaded vehicle record. `horsepower` is `None` for the `"?"`
      sentinel of the data file. */
  datatype Car = Car(
    id: int,
    mpg: real,
    cylinders: int,
    displacement: real,
    horsepower: Option<real>,
    weight: real,
    acceleration: real,
    modelYear: int,
    origin: int,
    carName: string,
    originName: string)

  /** One input row with its fields already run through `parseFloat` /
      `parseInt`: `None` is a field that did not parse (`NaN`). For
      `horsepower`, `None` is the `"?"` sentinel; `carName` is `None` when the
      column is missing. */
  datatype Row = Row(
    mpg: Option<real>,
    cylinders: Option<int>,
    displacement: Option<real>,
    horsepower: Option<real>,
    weight: Option<real>,
    acceleration: Option<real>,
    modelYear: Option<int>,
    origin: Option<int>,
    carName: Option<string>)

  /** `getOriginName`: the region a numeric origin code stands for. */
  function OriginName(code: int): string {
    if code == 1 then "USA"
    else if code == 2 then "Europe"
    else if code == 3 then "Japan"
    else "Unknown"
  }

  lemma OriginNameCases(code: int)
    ensures OriginName(code) == "USA" <==> code == 1
    ensures OriginName(code) == "Europe" <==> code == 2
    ensures OriginName(code) == "Japan" <==> code == 3
    ensures OriginName(code) == "Unknown" <==> code != 1 && code != 2 && code != 3
  {
  }

  /** The three known codes are the only ones with a name of their own:
      two different codes share a name only when both are unknown. */
  lemma OriginNameSeparatesKnownCodes(a: int, b: int)
    requires a != b && OriginName(a) == OriginName(b)
    ensures a !in {1, 2, 3} && b !in {1, 2, 3}
    ensures OriginName(a) == "Unknown"
  {
  }

  /** The row handler: `parseFloat(x) || 0` and `parseInt(x) || 0` turn a
      failed parse into 0, and `originName` is computed from the parse of the
      origin column before that defaulting. */
  function MakeCar(id: int, row: Row): Car {
    Car(
      id,
      row.mpg.GetOr(0.0),
      row.cylinders.GetOr(0),
      row.displacement.GetOr(0.0),
      row.horsepower,
      row.weight.GetOr(0.0),
      row.acceleration.GetOr(0.0),
      row.modelYear.GetOr(0),
      row.origin.GetOr(0),
      row.carName.GetOr(""),
      if row.origin.Some? then OriginName(row.origin.value) else "Unknown")
  }

  /** The record's name always agrees with its stored code, including rows
      whose origin column did not parse. */
  lemma MakeCarOriginConsistent(id: int, row: Row)
    ensures MakeCar(id, row).originName == OriginName(MakeCar(id, row).origin)
  {
  }

  /** `loadData`: rows are turned into records one at a time, each getting
      the id `results.length + 1` at the moment it is pushed. */
  function Load(rows: seq<Row>): (cars: seq<Car>)
    ensures |cars| == |rows|
    ensures forall i :: 0 <= i < |rows| ==> cars[i] == MakeCar(i + 1, rows[i])
  {
    if |rows| == 0 then []
    else
      var loaded := Load(rows[..|rows| - 1]);
      loaded + [MakeCar(|loaded| + 1, rows[|rows| - 1])]
  }

  /** Ids are 1..N in load order. */
  ghost predicate DenseIds(cars: seq<Car>) {
    forall i :: 0 <= i < |cars| ==> cars[i].id == i + 1
  }

  /** Every loaded record has the id of its position and a consistent origin name. */
  lemma LoadInvariants(rows: seq<Row>)
    ensures DenseIds(Load(rows))
    ensures forall c :: c in Load(rows) ==> c.originName == OriginName(c.origin)
  {
    var cars := Load(rows);
    forall c | c in cars
      ensures c.originName == OriginName(c.origin)
    {
      var i :| 0 <= i < |cars| && cars[i] == c;
      MakeCarOriginConsistent(i + 1, rows[i]);
    }
  }

  /** `carsData.find(c => c.id === parseInt(id))`: the first record with the
      requested id. `None` for `id` is an id that did not parse, which equals
      no record's id. */
  function FindById(cars: seq<Car>, id: Option<int>): (r: Option<Car>)
    ensures r.Some? ==> id.Some? && r.value.id == id.value
    ensures r.Some? ==> exists i :: 0 <= i < |cars| && cars[i] == r.value && forall j :: 0 <= j < i ==> cars[j].id != id.value
    ensures r.None? <==> id.None? || forall c :: c in cars ==> c.id != id.value
  {
    if id.None? || |cars| == 0 then None
    else if cars[0].id == id.value then Some(cars[0])
    else
      var rest := FindById(cars[1..], id);
      assert forall c :: c in cars[1..] ==> c in cars;
      assert rest.Some? ==> exists i :: 0 <= i < |cars| && cars[i] == rest.value && forall j :: 0 <= j < i ==> cars[j].id != id.value by {
        if rest.Some? {
          var i :| 0 <= i < |cars[1..]| && cars[1..][i] == rest.value && forall j :: 0 <= j < i ==> cars[1..][j].id != id.value;
          assert cars[i + 1] == rest.value;
          assert forall j :: 0 <= j < i + 1 ==> cars[j].id != id.value by {
            forall j | 0 <= j < i + 1 ensures cars[j].id != id.value {
              if j > 0 { assert cars[j] == cars[1..][j - 1]; }
            }
          }
        }
      }
      rest
  }

  /** With dense ids, the record found for id k is the k-th loaded one, and
      every id outside 1..N is not found. */
  lemma FindByIdOnDenseIds(cars: seq<Car>, k: int)
    requires DenseIds(cars)
    ensures FindById(cars, Some(k)) == if 1 <= k <= |cars| then Some(cars[k - 1]) else None
  {
    var r := FindById(cars, Some(k));
    if 1 <= k <= |cars| {
      assert cars[k - 1] in cars;
      var i :| 0 <= i < |cars| && cars[i] == r.value && forall j :: 0 <= j < i ==> cars[j].id != k;
      assert i == k - 1;
    } else {
      forall c | c in cars ensures c.id != k {
        var i :| 0 <= i < |cars| && cars[i] == c;
      }
    }
  }

  /** Looking up id k after loading returns the record built from the k-th row. */
  lemma {:induction false} FindLoadedRow(rows: seq<Row>, k: int)
    ensures FindById(Load(rows), Some(k)) == if 1 <= k <= |rows| then Some(MakeCar(k, rows[k - 1])) else None
  {
    LoadInvariants(rows);
    FindByIdOnDenseIds(Load(rows), k);
  }
}
