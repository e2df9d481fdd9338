/** Two pure helpers of the API routes: `paginate_response`, which cuts one page
    out of a list, and `validate_required_fields`, which names the missing or
    blank fields of a request body. */
module RouteHelpers {
  import opened Strings
  import opened Seqs
  import opened Wrappers

  // ---------------------------------------------------------------------------
  // paginate_response

  /** `a // b`: division rounding toward minus infinity. */
  function FloorDiv(a: int, b: int): int
    requires b != 0
  {
    if b > 0 then a / b else (-a) / (-b)
  }

  datatype Pagination = Pagination(page: int, perPage: int, total: nat, pages: int, hasPrev: bool, hasNext: bool)

  datatype PageResponse<T> = PageResponse(items: seq<T>, pagination: Pagination)

  /** `paginate_response`; `per_page == 0` raises `ZeroDivisionError` in the page
      count. */
  function PaginateResponse<T>(data: seq<T>, page: int, perPage: int): Result<PageResponse<T>, PyError> {
    var total := |data|;
    var start := (page - 1) * perPage;
    var end := start + perPage;
    if perPage == 0 then Failure(ZeroDivision)
    else
      Success(PageResponse(PySlice(data, start, end),
                           Pagination(page, perPage, total, FloorDiv(total + perPage - 1, perPage),
                                      page > 1, end < total)))
  }

  /** The items of page `page` for `page, per_page >= 1`: the window starting
      at `(page - 1) * per_page`, cut at the end of the list. */
  function Window<T>(data: seq<T>, page: int, perPage: int): seq<T>
    requires page >= 1 && perPage >= 1
  {
    var lo := (page - 1) * perPage;
    var hi := lo + perPage;
    if lo >= |data| then [] else data[lo..if hi < |data| then hi else |data|]
  }

  lemma ProductNonNegative(a: int, b: int)
    requires a >= 0 && b >= 0
    ensures a * b >= 0
  {
  }

  /** `(total + per_page - 1) // per_page` is the ceiling of `total / per_page`. */
  lemma CeilDiv(total: nat, perPage: int)
    requires perPage >= 1
    ensures var pages := FloorDiv(total + perPage - 1, perPage);
            pages >= 0 && (pages - 1) * perPage < total <= pages * perPage
  {
    var q := (total + perPage - 1) / perPage;
    var r := (total + perPage - 1) % perPage;
    assert total + perPage - 1 == q * perPage + r;
    assert (q - 1) * perPage == q * perPage - perPage;
    if q < 0 {
      assert q <= -1;
      ProductBelow(q, perPage);
    }
  }

  lemma ProductBelow(q: int, p: int)
    requires q <= -1 && p >= 1
    ensures q * p <= -p
  {
  }

  /** `a < b` exactly when `a·p < b·p`, for positive `p`. */
  lemma ScaleLess(a: int, b: int, p: int)
    requires p >= 1
    ensures a < b <==> a * p < b * p
  {
    if a < b {
      assert b * p - a * p == (b - a) * p;
      ProductNonNegative(b - a - 1, p);
    } else {
      assert a * p - b * p == (a - b) * p;
      ProductNonNegative(a - b, p);
    }
  }

  /** For `page, per_page >= 1`: the items are the page's window, at most
      `per_page` of them; the page count is the ceiling of `total / per_page`
      and 0 for no data; there is a previous page exactly when `page > 1` and a
      next one exactly when `page < pages`. */
  lemma PaginateResponseSpec<T>(data: seq<T>, page: int, perPage: int)
    requires page >= 1 && perPage >= 1
    ensures PaginateResponse(data, page, perPage).Success?
    ensures var r := PaginateResponse(data, page, perPage).value;
            && r.items == Window(data, page, perPage)
            && |r.items| <= perPage
            && r.pagination.total == |data|
            && (r.pagination.pages - 1) * perPage < |data| <= r.pagination.pages * perPage
            && (r.pagination.pages == 0 <==> data == [])
            && (r.pagination.hasPrev <==> page > 1)
            && (r.pagination.hasNext <==> page < r.pagination.pages)
  {
    PageItems(data, page, perPage);
    CeilDiv(|data|, perPage);
    PagesZero(|data|, perPage);
    HasNext(|data|, page, perPage);
  }

  lemma PageItems<T>(data: seq<T>, page: int, perPage: int)
    requires page >= 1 && perPage >= 1
    ensures var start := (page - 1) * perPage;
            PySlice(data, start, start + perPage) == Window(data, page, perPage)
    ensures |Window(data, page, perPage)| <= perPage
  {
    ProductNonNegative(page - 1, perPage);
  }

  /** No pages exactly when there is no data. */
  lemma PagesZero(total: nat, perPage: int)
    requires perPage >= 1
    ensures FloorDiv(total + perPage - 1, perPage) == 0 <==> total == 0
  {
    var pages := FloorDiv(total + perPage - 1, perPage);
    CeilDiv(total, perPage);
    if total > 0 && pages <= 0 {
      ProductNonPositive(pages, perPage);
    }
    if total == 0 && pages >= 1 {
      ProductNonNegative(pages - 1, perPage);
    }
  }

  /** `page·per_page < total` exactly when `page < pages`. */
  lemma HasNext(total: nat, page: int, perPage: int)
    requires page >= 1 && perPage >= 1
    ensures (page - 1) * perPage + perPage < total <==> page < FloorDiv(total + perPage - 1, perPage)
  {
    var pages := FloorDiv(total + perPage - 1, perPage);
    CeilDiv(total, perPage);
    assert page * perPage == (page - 1) * perPage + perPage;
    ScaleLess(page, pages, perPage);
    ScaleLess(page, pages - 1 + 1, perPage);
    assert pages * perPage == (pages - 1) * perPage + perPage;
    if page < pages {
      ScaleLess(page, pages, perPage);
      assert page <= pages - 1;
      if page < pages - 1 {
        ScaleLess(page, pages - 1, perPage);
      }
    }
  }

  lemma ProductNonPositive(a: int, b: int)
    requires a <= 0 && b >= 0
    ensures a * b <= 0
  {
  }

  /** The items of pages 1 to `k`, concatenated. */
  function PagesUpTo<T>(data: seq<T>, perPage: int, k: nat): seq<T>
    requires perPage >= 1
  {
    if k == 0 then [] else PagesUpTo(data, perPage, k - 1) + Window(data, k, perPage)
  }

  /** Pages 1 to `k` together are the first `k·per_page` items. */
  lemma {:induction false} PagesUpToPrefix<T>(data: seq<T>, perPage: int, k: nat)
    requires perPage >= 1
    ensures k * perPage >= 0
    ensures PagesUpTo(data, perPage, k) == data[..if k * perPage < |data| then k * perPage else |data|]
  {
    ProductNonNegative(k, perPage);
    if k > 0 {
      PagesUpToPrefix(data, perPage, k - 1);
      var lo := (k - 1) * perPage;
      assert k * perPage == lo + perPage;
    }
  }

  /** Concatenating the items of pages 1 to `pages` gives back the whole list. */
  lemma PagesCoverData<T>(data: seq<T>, perPage: int)
    requires perPage >= 1
    ensures var pages := PaginateResponse(data, 1, perPage).value.pagination.pages;
            pages >= 0 && PagesUpTo(data, perPage, pages) == data
  {
    var pages := FloorDiv(|data| + perPage - 1, perPage);
    CeilDiv(|data|, perPage);
    PagesUpToPrefix(data, perPage, pages);
  }

  /** Page 0 ends its slice at index 0 and is always empty; a negative page does
      not fail but counts from the end of the list. */
  lemma PagesBelowOne<T>(data: seq<T>, perPage: int)
    requires perPage >= 1
    ensures PaginateResponse(data, 0, perPage).value.items == []
    ensures PaginateResponse([1, 2, 3], -1, 1).value.items == [2]
  {
    assert PySlice([1, 2, 3], -2, -1) == [1, 2, 3][1..2];
  }

  /** `per_page == 0` raises. */
  lemma ZeroPerPageRaises<T>(data: seq<T>, page: int)
    ensures PaginateResponse(data, page, 0) == Failure(ZeroDivision)
  {
  }

  // ---------------------------------------------------------------------------
  // validate_required_fields

  /** A request-body value: `None`, a string, or anything else. */
  datatype Value = Null | Str(s: string) | Other

  /** Present, not `None`, and not a blank string. */
  predicate Usable(data: map<string, Value>, f: string) {
    f in data && !data[f].Null? && !(data[f].Str? && Strip(data[f].s) == "")
  }

  predicate Absent(data: map<string, Value>, f: string) {
    f !in data || data[f].Null?
  }

  function RequiredMessage(f: string): string {
    "Field '" + f + "' is required"
  }

  function EmptyMessage(f: string): string {
    "Field '" + f + "' cannot be empty"
  }

  /** The message for each failing required field. */
  function RequiredErrors(data: map<string, Value>, required: seq<string>): map<string, string> {
    map f | f in required && !Usable(data, f) ::
      if Absent(data, f) then RequiredMessage(f) else EmptyMessage(f)
  }

  /** `validate_required_fields`: `None` when every required field is usable,
      otherwise one message per failing field. */
  function ValidateRequiredFields(data: map<string, Value>, required: seq<string>): Option<map<string, string>> {
    var errors := RequiredErrors(data, required);
    if errors == map[] then None else Some(errors)
  }

  /** `None` exactly when every required field is usable; otherwise the keys are
      exactly the failing required fields, and a field's message says 'required'
      when it is missing or `None` and 'cannot be empty' when it is a blank
      string. */
  lemma ValidateRequiredFieldsSpec(data: map<string, Value>, required: seq<string>, f: string)
    ensures ValidateRequiredFields(data, required).None? <==>
      forall k :: 0 <= k < |required| ==> Usable(data, required[k])
    ensures ValidateRequiredFields(data, required).Some? ==>
      ValidateRequiredFields(data, required).value.Keys == set g | g in required && !Usable(data, g)
    ensures ValidateRequiredFields(data, required).Some? && f in ValidateRequiredFields(data, required).value ==>
      && (Absent(data, f) ==> ValidateRequiredFields(data, required).value[f] == RequiredMessage(f))
      && (!Absent(data, f) ==>
            data[f].Str? && Strip(data[f].s) == "" && ValidateRequiredFields(data, required).value[f] == EmptyMessage(f))
  {
    var errors := RequiredErrors(data, required);
    assert ValidateRequiredFields(data, required) == if errors == map[] then None else Some(errors);
    RequiredErrorsEmpty(data, required);
  }

  lemma RequiredErrorsEmpty(data: map<string, Value>, required: seq<string>)
    ensures RequiredErrors(data, required) == map[] <==> forall k :: 0 <= k < |required| ==> Usable(data, required[k])
  {
    var errors := RequiredErrors(data, required);
    if k :| 0 <= k < |required| && !Usable(data, required[k]) {
      assert required[k] in required;
      assert required[k] in errors;
    } else {
      forall g | g in required
        ensures Usable(data, g)
      {
        var k :| 0 <= k < |required| && required[k] == g;
      }
      assert errors.Keys == {};
    }
  }

  /** The two messages of a field differ, so a message tells which test failed. */
  lemma MessagesDiffer(f: string)
    ensures RequiredMessage(f) != EmptyMessage(f)
  {
    var n := |"Field '" + f + "' "|;
    assert RequiredMessage(f)[n] == 'i';
    assert EmptyMessage(f)[n] == 'c';
  }
}
