/**
 * Pagination as ListView applies it with paginate_by = 10: Django's
 * Paginator over the listing (no orphans, an empty first page allowed)
 * and the `page` query parameter, which is a page number or "last".
 */
module Paging {
  import opened Wrappers
  import opened Text

  /** paginate_by */
  const PerPage := 10

  /** Both make the view answer 404. */
  datatype PageError =
    | PageNotAnInteger(raw: string) // int() cannot read the page input and it is not "last"
    | EmptyPage(number: int)        // below 1 or beyond the last page

  /**
   * Paginator.num_pages: enough pages of PerPage rows to hold `count`
   * rows, and one (empty) page when there are none.
   */
  function NumPages(count: nat): (n: nat)
    ensures n >= 1
    ensures count == 0 ==> n == 1
    ensures count > 0 ==> (n - 1) * PerPage < count <= n * PerPage
  {
    if count == 0 then 1 else (count + PerPage - 1) / PerPage
  }

  /**
   * The page number the request asks for: no input (or an empty one) is
   * page 1, "last" is the last page, anything else goes through int().
   */
  function RequestedPage(raw: Option<string>, count: nat): (r: Result<int, PageError>)
    ensures raw == None || raw == Some("") ==> r == Success(1)
    ensures raw == Some("last") ==> r == Success(NumPages(count))
    ensures raw.Some? && raw.value != "" && ParseInt(raw.value).Some? ==> r == Success(ParseInt(raw.value).value)
    ensures r.Failure? <==> raw.Some? && raw.value != "" && raw.value != "last" && ParseInt(raw.value).None?
    ensures r.Failure? ==> r.error == PageNotAnInteger(raw.value)
  {
    LastIsNotANumber();
    match raw
    case None => Success(1)
    case Some(s) =>
      if s == "" then Success(1)
      else
        match ParseInt(s)
        case Some(n) => Success(n)
        case None => if s == "last" then Success(NumPages(count)) else Failure(PageNotAnInteger(s))
  }

  /** int("last") raises ValueError, so "last" reaches the special case. */
  lemma LastIsNotANumber()
    ensures ParseInt("last").None?
  {
    var s := "last";
    assert s[0] == 'l' && s[|s| - 1] == 't';
    StripKeeps(s, IsIntSpace);
    assert !IsDigit(s[0]);
  }

  /** Paginator.validate_number: a page number from 1 to the last page. */
  predicate ValidPage(count: nat, number: int) {
    1 <= number <= NumPages(count)
  }

  /**
   * Paginator.page(number): rows (number - 1) * PerPage up to, not
   * including, number * PerPage, cut at the end of the list.
   */
  function Page<T>(items: seq<T>, number: int): (r: Result<seq<T>, PageError>)
    ensures r.Success? <==> ValidPage(|items|, number)
    ensures r.Failure? ==> r.error == EmptyPage(number)
    ensures r.Success? ==> |r.value| <= PerPage
    ensures r.Success? && number < NumPages(|items|) ==> |r.value| == PerPage
    ensures r.Success? ==> (number - 1) * PerPage + |r.value| <= |items|
    ensures r.Success? ==> forall k :: 0 <= k < |r.value| ==> r.value[k] == items[(number - 1) * PerPage + k]
  {
    if !ValidPage(|items|, number) then Failure(EmptyPage(number))
    else
      var bottom := (number - 1) * PerPage;
      var top := if bottom + PerPage >= |items| then |items| else bottom + PerPage;
      Success(items[bottom..top])
  }

  /** paginate_queryset: resolve the page input, then take that page. */
  function PaginateQueryset<T>(items: seq<T>, raw: Option<string>): (r: Result<(int, seq<T>), PageError>)
    ensures r.Success? ==> ValidPage(|items|, r.value.0) && Page(items, r.value.0) == Success(r.value.1)
    ensures (raw == None || raw == Some("")) ==> r.Success? && r.value.0 == 1
    ensures var asked := RequestedPage(raw, |items|);
      && (asked.Failure? ==> r == Failure(asked.error))
      && (asked.Success? && ValidPage(|items|, asked.value) ==> r == Success((asked.value, Page(items, asked.value).value)))
      && (asked.Success? && !ValidPage(|items|, asked.value) ==> r == Failure(EmptyPage(asked.value)))
  {
    match RequestedPage(raw, |items|)
    case Failure(e) => Failure(e)
    case Success(n) =>
      match Page(items, n)
      case Failure(e) => Failure(e)
      case Success(rows) => Success((n, rows))
  }

  /**
   * A page number written out in the query string serves that page, whenever
   * the page exists and int() accepts the number's length.
   */
  lemma ServesRequestedPage<T>(items: seq<T>, n: nat)
    requires ValidPage(|items|, n)
    ensures |DecimalString(n)| <= MaxStrDigits ==>
      PaginateQueryset(items, Some(DecimalString(n))) == Success((n, Page(items, n).value))
    ensures |DecimalString(n)| > MaxStrDigits ==>
      PaginateQueryset(items, Some(DecimalString(n))) == Failure(PageNotAnInteger(DecimalString(n)))
  {
    ParseDecimalString(n);
    DecimalStringDigits(n);
  }

  /** The pages 1 to n, one after another. */
  function Pages<T>(items: seq<T>, n: nat): seq<T>
    requires n <= NumPages(|items|)
  {
    if n == 0 then [] else Pages(items, n - 1) + Page(items, n).value
  }

  /** The first n pages are the first n * PerPage rows (or all of them). */
  lemma {:induction false} PagesArePrefix<T>(items: seq<T>, n: nat)
    requires n <= NumPages(|items|)
    ensures n * PerPage <= |items| ==> Pages(items, n) == items[..n * PerPage]
    ensures n * PerPage > |items| ==> Pages(items, n) == items
  {
    if n > 0 {
      PagesArePrefix(items, n - 1);
      var bottom := (n - 1) * PerPage;
      assert bottom <= |items| || (|items| == 0 && n == 1);
      var page := Page(items, n).value;
      if bottom + PerPage <= |items| {
        assert page == items[bottom..bottom + PerPage];
        assert items[..bottom] + items[bottom..bottom + PerPage] == items[..bottom + PerPage];
      } else {
        assert page == items[bottom..];
        assert items[..bottom] + items[bottom..] == items;
      }
    }
  }

  /** Walking through every page gives back the whole listing, in order. */
  lemma PagesCoverAll<T>(items: seq<T>)
    ensures Pages(items, NumPages(|items|)) == items
  {
    var n := NumPages(|items|);
    PagesArePrefix(items, n);
    if n * PerPage <= |items| {
      assert items[..n * PerPage] == items;
    }
  }

  /** The row at index i of the listing is entry i % PerPage of page i / PerPage + 1. */
  lemma PageOfIndex<T>(items: seq<T>, i: nat)
    requires i < |items|
    ensures var number := i / PerPage + 1;
      && Page(items, number).Success?
      && i % PerPage < |Page(items, number).value|
      && Page(items, number).value[i % PerPage] == items[i]
  {
    var number := i / PerPage + 1;
    assert (number - 1) * PerPage <= i;
  }
}
