/** Pagination of `GET /api/cars`: `slice(startIndex, endIndex)` over the
    sorted list, with `Array.prototype.slice` reading its indices, and the
    `totalPages` field. */
module Pagination {
  import opened Wrappers

  function Min(a: int, b: int): int { if a <= b then a else b }

  function Max(a: int, b: int): int { if a <= b then b else a }

  /** How `slice` reads an index against a list of length `len`: `NaN`
      (`None`) reads as 0, a negative index counts back from the end, and the
      result is clipped to 0..len. */
  function RelativeIndex(len: nat, x: Option<int>): (r: nat)
    ensures r <= len
  {
    if x.None? then 0
    else if x.value < 0 then Max(len + x.value, 0)
    else Min(x.value, len)
  }

  /** `s.slice(start, end)`. */
  function Slice<T>(s: seq<T>, start: Option<int>, end: Option<int>): seq<T> {
    var a := RelativeIndex(|s|, start);
    var b := RelativeIndex(|s|, end);
    if a < b then s[a..b] else []
  }

  /** `startIndex = (page - 1) * limit`, `endIndex = startIndex + limit`, then
      the slice; `None` for `page` or `limit` is an unparseable value (`NaN`),
      which makes both indices `NaN` and the page empty. A page never holds
      more records than a non-negative limit. */
  function PageOf<T>(s: seq<T>, page: Option<int>, limit: Option<int>): (r: seq<T>)
    ensures page.None? || limit.None? ==> r == []
    ensures limit.Some? && limit.value >= 0 ==> |r| <= limit.value
  {
    if page.Some? && limit.Some? then
      var start := (page.value - 1) * limit.value;
      WindowFacts(s, start, limit.value);
      Slice(s, Some(start), Some(start + limit.value))
    else Slice(s, None, None)
  }

  /** A page only holds elements of the list it was cut from. */
  lemma {:induction false} PageMembers<T>(s: seq<T>, page: Option<int>, limit: Option<int>)
    ensures forall x :: x in PageOf(s, page, limit) ==> x in s
  {
    var a := RelativeIndex(|s|, if page.Some? && limit.Some? then Some((page.value - 1) * limit.value) else None);
    var b := RelativeIndex(|s|, if page.Some? && limit.Some? then Some((page.value - 1) * limit.value + limit.value) else None);
    assert PageOf(s, page, limit) == if a < b then s[a..b] else [];
  }

  /** The window `[start, start + width)` as `slice` reads it. */
  lemma WindowFacts<T>(s: seq<T>, start: int, width: int)
    ensures width >= 0 ==> |Slice(s, Some(start), Some(start + width))| <= width
    ensures start >= 0 && width >= 0 ==> Slice(s, Some(start), Some(start + width)) == s[Min(start, |s|)..Min(start + width, |s|)]
  {
  }

  /** Page `p` of size `l` (with `p >= 1`, `l >= 0`) is the window
      `[(p-1)*l, p*l)` clipped to the list. */
  lemma PageWindow<T>(s: seq<T>, p: int, l: int)
    requires p >= 1 && l >= 0
    ensures (p - 1) * l >= 0
    ensures var start := (p - 1) * l;
      PageOf(s, Some(p), Some(l)) == s[Min(start, |s|)..Min(start + l, |s|)]
  {
    MulNonNegative(p - 1, l);
    WindowFacts(s, (p - 1) * l, l);
  }

  /** A page that starts at or beyond the end of the list is empty. */
  lemma PagePastEnd<T>(s: seq<T>, p: int, l: int)
    requires p >= 1 && l >= 0 && (p - 1) * l >= |s|
    ensures PageOf(s, Some(p), Some(l)) == []
  {
    PageWindow(s, p, l);
  }

  lemma MulPred(a: int, b: int)
    ensures (a - 1) * b == a * b - b
  {
  }

  lemma MulNonNegative(a: int, b: int)
    requires a >= 0 && b >= 0
    ensures a * b >= 0
  {
  }

  /** A page number below 1 does not give an empty page: `slice` counts the
      negative window back from the end of the list, so page 0 is empty and
      page -k is the window k + 1 pages before the end. */
  lemma PageBelowOneCountsFromEnd<T>(s: seq<T>, page: int, limit: int)
    requires page <= 0 && limit >= 1
    ensures page == 0 ==> PageOf(s, Some(page), Some(limit)) == []
    ensures page < 0 ==>
      var a := Max(|s| + (page - 1) * limit, 0);
      var b := Max(|s| + page * limit, 0);
      PageOf(s, Some(page), Some(limit)) == s[a..b]
  {
    assert (page - 1) * limit + limit == page * limit;
    assert (page - 1) * limit < 0 by {
      MulNonNegative(1 - page, limit);
      assert (page - 1) * limit == -((1 - page) * limit);
    }
    if page < 0 {
      MulNonNegative(-page, limit);
      assert page * limit == -((-page) * limit);
    }
  }

  /** A negative limit `-k` turns the window around: page 1 is
      `slice(-0, -k)`, every record but the last `k`, and every other page
      has its end index at or before its start, so it is empty. */
  lemma NegativeLimit<T>(s: seq<T>, page: int, k: int)
    requires k >= 1
    ensures page == 1 ==> PageOf(s, Some(page), Some(-k)) == s[..Max(|s| - k, 0)]
    ensures page != 1 ==> PageOf(s, Some(page), Some(-k)) == []
  {
    var start := (page - 1) * -k;
    assert start == -((page - 1) * k);
    if page > 1 {
      MulNonNegative(page - 2, k);
      assert (page - 1) * k == (page - 2) * k + k;
    } else if page < 1 {
      MulNonNegative(-page, k);
      assert (page - 1) * k == -((-page) * k) - k;
    }
  }

  /** `Math.ceil(total / limit)`; `None` where JavaScript computes `NaN` or
      `Infinity` (an unparseable or zero limit), which JSON renders as `null`. */
  function TotalPages(total: nat, limit: Option<int>): (r: Option<int>)
    ensures r.None? <==> limit.None? || limit.value == 0
    ensures limit.Some? && limit.value > 0 ==> 0 <= r.value && (r.value - 1) * limit.value < total <= r.value * limit.value
    ensures limit.Some? && limit.value < 0 ==> r.value * limit.value <= total < (r.value - 1) * limit.value
  {
    if limit.None? || limit.value == 0 then None
    else if limit.value > 0 then
      var l := limit.value;
      var n := (total + l - 1) / l;
      DivBounds(total + l - 1, l);
      Some(n)
    else
      var l := -limit.value;
      var n := total / l;
      DivBounds(total, l);
      Some(-n)
  }

  /** Euclidean division by a positive divisor. */
  lemma DivBounds(a: int, d: int)
    requires d > 0
    ensures (a / d) * d <= a < (a / d) * d + d
  {
  }

  /** Pages 1..n laid end to end. */
  function Pages<T>(s: seq<T>, limit: int, n: nat): seq<T>
    requires limit >= 1
  {
    if n == 0 then [] else Pages(s, limit, n - 1) + PageOf(s, Some(n), Some(limit))
  }

  /** Pages 1..n cover the first `n * limit` elements, `covered` standing
      for that product. */
  lemma {:induction false} PagesArePrefix<T>(s: seq<T>, limit: int, n: nat, covered: int)
    requires limit >= 1 && covered == n * limit
    ensures covered >= 0
    ensures Pages(s, limit, n) == s[..Min(covered, |s|)]
  {
    MulNonNegative(n, limit);
    if n > 0 {
      var start := covered - limit;
      MulPred(n, limit);
      PagesArePrefix(s, limit, n - 1, start);
      PageWindow(s, n, limit);
      AdjacentWindows(s, start, limit);
    }
  }

  /** A prefix followed by the next window is a longer prefix. */
  lemma AdjacentWindows<T>(s: seq<T>, start: int, width: int)
    requires start >= 0 && width >= 0
    ensures s[..Min(start, |s|)] + s[Min(start, |s|)..Min(start + width, |s|)] == s[..Min(start + width, |s|)]
  {
  }

  /** Concatenating pages 1..totalPages gives back the whole list, each
      record exactly once and in order. */
  lemma {:induction false} AllPagesReassemble<T>(s: seq<T>, limit: int)
    requires limit >= 1
    ensures Pages(s, limit, TotalPages(|s|, Some(limit)).value) == s
  {
    var n := TotalPages(|s|, Some(limit)).value;
    PagesArePrefix(s, limit, n, n * limit);
  }
}
