/** `GET /api/cars`: filter, sort, paginate, and report the totals. */
module Listing {
  import opened Wrappers
  import opened Cars
  import opened Filtering
  import opened CarOrder
  import opened Pagination

  /** The query string of a listing request. `sortBy` and `sortOrder` are
      `None` when absent; `page` and `limit` are read with `parseInt`. */
  datatype Query = Query(
    filters: Filters,
    sortBy: Option<string>,
    sortOrder: Option<string>,
    page: Param<int>,
    limit: Param<int>)

  /** The response body, less the echo of the raw filter strings. `None` for
      `page`, `limit` or `totalPages` is a `NaN` or `Infinity`, sent as `null`. */
  datatype Response = Response(
    data: seq<Car>,
    page: Option<int>,
    limit: Option<int>,
    total: nat,
    totalPages: Option<int>)

  /** `parseInt(page)` with the default `page = 1` for a missing parameter. */
  function PageNumber(p: Param<int>): Option<int> {
    if p.Absent? then Some(1) else p.parsed
  }

  /** `parseInt(limit)` with the default `limit = 50`. */
  function PageSize(p: Param<int>): Option<int> {
    if p.Absent? then Some(50) else p.parsed
  }

  /** `sortBy` with its default `mpg`, as a field. */
  function SortFieldOf(q: Query): Option<SortField> {
    FieldNamed(q.sortBy.GetOr("mpg"))
  }

  /** With neither `sortBy` nor `sortOrder` given, the list is sorted by mpg,
      highest first; only `sortOrder=asc` sorts ascending. */
  lemma DefaultSort(q: Query)
    ensures q.sortBy.None? ==> SortFieldOf(q) == Some(Mpg)
    ensures IsAscending(q.sortOrder) <==> q.sortOrder == Some("asc")
  {
  }

  /** The filtered list after the sort, before pagination: the matching
      records, ordered by the requested key in the requested direction. */
  function Matching(cars: seq<Car>, q: Query): (r: seq<Car>)
    ensures multiset(r) == multiset(ApplyFilters(cars, q.filters))
    ensures |r| == |ApplyFilters(cars, q.filters)|
    ensures forall c :: c in r <==> c in cars && MatchesQuery(c, q.filters)
    ensures SortFieldOf(q).Some? && IsAscending(q.sortOrder) ==>
      forall i, j :: 0 <= i < j < |r| ==> KeyLe(KeyOf(r[i], SortFieldOf(q).value), KeyOf(r[j], SortFieldOf(q).value))
    ensures SortFieldOf(q).Some? && !IsAscending(q.sortOrder) ==>
      forall i, j :: 0 <= i < j < |r| ==> KeyLe(KeyOf(r[j], SortFieldOf(q).value), KeyOf(r[i], SortFieldOf(q).value))
  {
    var filtered := ApplyFilters(cars, q.filters);
    var r := SortCars(filtered, SortFieldOf(q), IsAscending(q.sortOrder));
    assert forall c :: c in r <==> c in multiset(filtered);
    assert |multiset(r)| == |multiset(filtered)|;
    r
  }

  /** The listing handler. Only records that match every active filter are
      returned; `total` counts all of them whatever the page; a page of a
      positive size holds at most that many records, namely the window
      `[(page-1)*limit, page*limit)` of the sorted matches. */
  function ListCars(cars: seq<Car>, q: Query): (r: Response)
    ensures r.total == |ApplyFilters(cars, q.filters)|
    ensures r.page == PageNumber(q.page) && r.limit == PageSize(q.limit)
    ensures r.totalPages == TotalPages(r.total, r.limit)
    ensures q.page.Absent? && q.limit.Absent? ==> r.data == Matching(cars, q)[..Min(50, r.total)]
  {
    var sorted := Matching(cars, q);
    var page := PageNumber(q.page);
    var limit := PageSize(q.limit);
    PageWindow(sorted, 1, 50);
    Response(PageOf(sorted, page, limit), page, limit, |sorted|, TotalPages(|sorted|, limit))
  }

  /** Page `p` of size `l` is the window `[(p-1)*l, p*l)` of the sorted
      matches, clipped to the list, and holds at most `l` records. */
  lemma {:induction false} ListedPageWindow(cars: seq<Car>, q: Query, p: int, l: int)
    requires PageNumber(q.page) == Some(p) && PageSize(q.limit) == Some(l)
    requires p >= 1 && l >= 0
    ensures (p - 1) * l >= 0
    ensures var data := ListCars(cars, q).data;
      var sorted := Matching(cars, q);
      var start := (p - 1) * l;
      |data| <= l && data == sorted[Min(start, |sorted|)..Min(start + l, |sorted|)]
  {
    var sorted := Matching(cars, q);
    assert ListCars(cars, q).data == PageOf(sorted, Some(p), Some(l));
    PageWindow(sorted, p, l);
  }

  /** Whatever page is asked for, every record it returns is one of the
      loaded records and matches every active filter. */
  lemma {:induction false} ListedCarsMatch(cars: seq<Car>, q: Query)
    ensures forall c :: c in ListCars(cars, q).data ==> c in cars && MatchesQuery(c, q.filters)
  {
    PageMembers(Matching(cars, q), PageNumber(q.page), PageSize(q.limit));
  }
}
