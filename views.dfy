/**
 * ProductListView: the public product listing. A request carries three raw
 * inputs (search text, category id, tag ids); the view keeps the active
 * products that match all of them, drops duplicate rows, orders the rest
 * newest first and serves them ten to a page, with a flag telling the page
 * whether any filter input was given.
 */
module Views {
  import opened Wrappers
  import opened Text
  import opened Models
  import opened Paging

  /**
   * The three inputs as the query string gives them: GET.get("search", ""),
   * GET.get("category", "") and GET.getlist("tags"); an absent parameter is
   * "" (for tags, the empty list).
   */
  datatype Request = Request(search: string, category: string, tags: seq<string>)

  datatype QueryError =
    | InvalidId(raw: string)     // int() of an id failed: the lookup raises ValueError
    | UnknownField(name: string) // a lookup names a field Product does not declare: FieldError

  // ---------------------------------------------------------------------
  // The listing rule, one product at a time
  // ---------------------------------------------------------------------

  /** Q(description__icontains=q) | Q(name__icontains=q). */
  predicate MatchesSearch(p: Product, q: string) {
    IContains(p.description, q) || IContains(p.name, q)
  }

  /** A non-empty id input that int() cannot read. */
  predicate Malformed(raw: string) {
    raw != "" && ParseInt(raw).None?
  }

  /** filter(category_id=...) when the category input is non-empty. */
  predicate InCategory(p: Product, raw: string) {
    raw != "" && ParseInt(raw).Some? ==> p.categoryId == ParseInt(raw).value
  }

  /** filter(tags__id=...) for one tag input; an empty input adds no filter. */
  predicate HasTag(p: Product, raw: string) {
    raw != "" && ParseInt(raw).Some? ==> ParseInt(raw).value in p.tagIds
  }

  /** One filter per tag input: the product carries every listed tag. */
  predicate CarriesTags(p: Product, raws: seq<string>) {
    forall i :: 0 <= i < |raws| ==> HasTag(p, raws[i])
  }

  /** The conditions get_queryset applies before its tag loop. */
  predicate BaseMatch(p: Product, req: Request) {
    p.isActive && MatchesSearch(p, Strip(req.search, IsSpace)) && InCategory(p, req.category)
  }

  /** Everything get_queryset asks of a product. */
  predicate Selected(p: Product, req: Request) {
    BaseMatch(p, req) && CarriesTags(p, req.tags)
  }

  /** The first tag input that int() cannot read, scanning in request order. */
  function FirstMalformed(raws: seq<string>): (r: Option<string>)
    ensures r.None? <==> forall i :: 0 <= i < |raws| ==> !Malformed(raws[i])
    ensures r.Some? ==> r.value in raws && Malformed(r.value)
  {
    if raws == [] then None
    else if Malformed(raws[0]) then Some(raws[0])
    else
      var r := FirstMalformed(raws[1..]);
      assert forall i :: 1 <= i < |raws| ==> raws[i] == raws[1..][i - 1];
      r
  }

  /** With every input before position `i` readable, a malformed input at `i` is the first. */
  lemma {:induction false} FirstMalformedAt(raws: seq<string>, i: nat)
    requires i < |raws| && Malformed(raws[i])
    requires forall j :: 0 <= j < i ==> !Malformed(raws[j])
    ensures FirstMalformed(raws) == Some(raws[i])
  {
    if i > 0 {
      assert forall j :: 0 <= j < i - 1 ==> raws[1..][j] == raws[j + 1];
      FirstMalformedAt(raws[1..], i - 1);
    }
  }

  // ---------------------------------------------------------------------
  // The listing rule, over a sequence of rows
  // ---------------------------------------------------------------------

  /** The selected rows, in their stored order. */
  function Select(products: seq<Product>, req: Request): (r: seq<Product>)
    ensures forall p :: p in r <==> p in products && Selected(p, req)
    ensures |r| <= |products|
  {
    if products == [] then []
    else
      assert forall p :: p in products <==> p == products[0] || p in products[1..];
      (if Selected(products[0], req) then [products[0]] else []) + Select(products[1..], req)
  }

  /** distinct(): each row once, at its first position. */
  function Distinct<T(==,!new)>(s: seq<T>): (r: seq<T>)
    ensures forall x :: x in r <==> x in s
    ensures forall i, j :: 0 <= i < j < |r| ==> r[i] != r[j]
    ensures |r| <= |s|
  {
    if s == [] then []
    else
      var init := s[..|s| - 1];
      var last := s[|s| - 1];
      assert s == init + [last];
      var rest := Distinct(init);
      if last in rest then rest else rest + [last]
  }

  /**
   * The listing rule as one expression: a malformed id fails the request
   * (the category first, then the tags in order); otherwise the selected
   * rows, each once, newest first.
   */
  function Listing(products: seq<Product>, req: Request): Result<seq<Product>, QueryError> {
    if Malformed(req.category) then Failure(InvalidId(req.category))
    else
      match FirstMalformed(req.tags)
      case Some(raw) => Failure(InvalidId(raw))
      case None => Success(OrderProducts(Distinct(Select(products, req))))
  }

  // ---------------------------------------------------------------------
  // A lazy query set: the lookups filter() has added, and distinct()
  // ---------------------------------------------------------------------

  /** One filter() argument of get_queryset. */
  datatype Lookup =
    | IsActive               // is_active=True
    | SearchText(q: string)  // Q(description__icontains=q) | Q(name__icontains=q)
    | CategoryIs(id: int)    // category_id=id
    | HasTagId(id: int)      // tags__id=id

  predicate Holds(l: Lookup, p: Product) {
    match l
    case IsActive => p.isActive
    case SearchText(q) => MatchesSearch(p, q)
    case CategoryIs(id) => p.categoryId == id
    case HasTagId(id) => id in p.tagIds
  }

  /** Product.objects with the lookups added so far (all must hold) and whether distinct() was called. */
  datatype QuerySet = QuerySet(lookups: seq<Lookup>, distinct: bool)

  predicate AllHold(ls: seq<Lookup>, p: Product) {
    forall i :: 0 <= i < |ls| ==> Holds(ls[i], p)
  }

  /** queryset.filter(l): one more condition on the same rows. */
  function Filter(qs: QuerySet, l: Lookup): (r: QuerySet)
    ensures r.distinct == qs.distinct
    ensures forall p :: AllHold(r.lookups, p) == (AllHold(qs.lookups, p) && Holds(l, p))
  {
    var r := qs.(lookups := qs.lookups + [l]);
    assert forall i :: 0 <= i < |qs.lookups| ==> r.lookups[i] == qs.lookups[i];
    assert r.lookups[|qs.lookups|] == l;
    r
  }

  /** The rows of `products` that satisfy every lookup, in their stored order. */
  function Rows(products: seq<Product>, ls: seq<Lookup>): seq<Product> {
    if products == [] then []
    else (if AllHold(ls, products[0]) then [products[0]] else []) + Rows(products[1..], ls)
  }

  /** What the database returns for a query set: its rows, without repeats if distinct(), newest first. */
  function Evaluate(products: seq<Product>, qs: QuerySet): seq<Product> {
    var rows := Rows(products, qs.lookups);
    OrderProducts(if qs.distinct then Distinct(rows) else rows)
  }

  /** Lookups that hold of exactly the selected products give exactly the selected rows. */
  lemma {:induction false} RowsAreSelection(products: seq<Product>, ls: seq<Lookup>, req: Request)
    requires forall p :: AllHold(ls, p) == Selected(p, req)
    ensures Rows(products, ls) == Select(products, req)
  {
    if products != [] {
      RowsAreSelection(products[1..], ls, req);
    }
  }

  // ---------------------------------------------------------------------
  // get_queryset
  // ---------------------------------------------------------------------

  /**
   * One pass of the tag loop: an empty input adds nothing; otherwise int()
   * reads it, raising ValueError when it cannot, and filter(tags__id=...)
   * narrows the query set.
   */
  method FilterTag(qs: QuerySet, raw: string) returns (r: Result<QuerySet, QueryError>)
    ensures r.Failure? <==> Malformed(raw)
    ensures r.Failure? ==> r.error == InvalidId(raw)
    ensures r.Success? ==> r.value.distinct == qs.distinct
    ensures r.Success? ==> forall p :: AllHold(r.value.lookups, p) == (AllHold(qs.lookups, p) && HasTag(p, raw))
  {
    if raw == "" {
      return Success(qs);
    }
    var id := ParseInt(raw);
    if id.None? {
      return Failure(InvalidId(raw));
    }
    return Success(Filter(qs, HasTagId(id.value)));
  }

  /**
   * get_queryset: refines the query set one filter at a time (active, then
   * search, then category, then one filter per non-empty tag input) and
   * asks for distinct rows. The result is what evaluating it returns.
   */
  method GetQueryset(products: seq<Product>, req: Request) returns (r: Result<seq<Product>, QueryError>)
    ensures r == Listing(products, req)
  {
    var queryset := Filter(QuerySet([], false), IsActive);
    var searchQuery := Strip(req.search, IsSpace);
    var categoryId := req.category;
    var tagIds := req.tags;
    queryset := Filter(queryset, SearchText(searchQuery));
    assert forall p :: AllHold(queryset.lookups, p) == (p.isActive && MatchesSearch(p, searchQuery));
    if categoryId != "" {
      var id := ParseInt(categoryId);
      if id.None? {
        return Failure(InvalidId(categoryId));
      }
      queryset := Filter(queryset, CategoryIs(id.value));
    }
    var tagged := FilterTags(queryset, tagIds);
    if tagged.Failure? {
      return Failure(tagged.error);
    }
    queryset := tagged.value.(distinct := true);
    RowsAreSelection(products, queryset.lookups, req);
    return Success(Evaluate(products, queryset));
  }

  /**
   * The tag loop of get_queryset: one pass per tag input, in request order,
   * stopping at the first input int() cannot read.
   */
  method FilterTags(qs: QuerySet, raws: seq<string>) returns (r: Result<QuerySet, QueryError>)
    ensures r.Failure? <==> FirstMalformed(raws).Some?
    ensures r.Failure? ==> r.error == InvalidId(FirstMalformed(raws).value)
    ensures r.Success? ==> r.value.distinct == qs.distinct
    ensures r.Success? ==> forall p :: AllHold(r.value.lookups, p) == (AllHold(qs.lookups, p) && CarriesTags(p, raws))
  {
    var current := qs;
    for i := 0 to |raws|
      invariant FirstMalformed(raws) == FirstMalformed(raws[i..])
      invariant current.distinct == qs.distinct
      invariant forall p :: AllHold(current.lookups, p) == (AllHold(qs.lookups, p) && CarriesTags(p, raws[..i]))
    {
      assert raws[i..] == [raws[i]] + raws[i + 1..];
      var step := FilterTag(current, raws[i]);
      if step.Failure? {
        return Failure(step.error);
      }
      assert raws[..i + 1] == raws[..i] + [raws[i]];
      forall p ensures AllHold(step.value.lookups, p) == (AllHold(qs.lookups, p) && CarriesTags(p, raws[..i + 1])) {
        CarriesTagsSnoc(p, raws[..i], raws[i]);
      }
      current := step.value;
    }
    assert raws[..|raws|] == raws;
    return Success(current);
  }

  /** Adding one tag input to a list adds exactly its condition. */
  lemma CarriesTagsSnoc(p: Product, pre: seq<string>, raw: string)
    ensures CarriesTags(p, pre + [raw]) == (CarriesTags(p, pre) && HasTag(p, raw))
  {
    var next := pre + [raw];
    assert forall j :: 0 <= j < |pre| ==> next[j] == pre[j];
    assert next[|pre|] == raw;
  }

  // ---------------------------------------------------------------------
  // What the listing promises
  // ---------------------------------------------------------------------

  /**
   * What Selected asks, written out: active, matching the stripped search in
   * the name or the description, in the given category when one is given,
   * and carrying every non-empty tag input (AND); empty tag inputs are ignored.
   */
  lemma SelectedMeans(p: Product, req: Request)
    requires !Malformed(req.category)
    requires forall raw :: raw in req.tags ==> !Malformed(raw)
    ensures Selected(p, req) <==>
      && p.isActive
      && (IContains(p.name, Strip(req.search, IsSpace)) || IContains(p.description, Strip(req.search, IsSpace)))
      && (req.category != "" ==> p.categoryId == ParseInt(req.category).value)
      && (forall raw :: raw in req.tags && raw != "" ==> ParseInt(raw).Some? && ParseInt(raw).value in p.tagIds)
  {
    CarriesTagsMeans(p, req.tags);
  }

  /** Tag inputs are ANDed: the product carries the tag of every non-empty input. */
  lemma CarriesTagsMeans(p: Product, raws: seq<string>)
    requires forall raw :: raw in raws ==> !Malformed(raw)
    ensures CarriesTags(p, raws) <==>
      forall raw :: raw in raws && raw != "" ==> ParseInt(raw).Some? && ParseInt(raw).value in p.tagIds
  {
    if CarriesTags(p, raws) {
      forall raw | raw in raws && raw != "" ensures ParseInt(raw).Some? && ParseInt(raw).value in p.tagIds {
        var i :| 0 <= i < |raws| && raws[i] == raw;
        assert HasTag(p, raws[i]);
      }
    }
  }

  /** A malformed id in the category input or in any tag input fails the request, and nothing else does. */
  lemma ListingFailsIffMalformed(products: seq<Product>, req: Request)
    ensures Listing(products, req).Failure? <==> Malformed(req.category) || exists raw :: raw in req.tags && Malformed(raw)
    ensures Listing(products, req).Failure? ==>
      var raw := Listing(products, req).error.raw;
      Malformed(raw) && (raw == req.category || raw in req.tags)
  {
    if exists raw :: raw in req.tags && Malformed(raw) {
      var raw :| raw in req.tags && Malformed(raw);
      var i :| 0 <= i < |req.tags| && req.tags[i] == raw;
      assert FirstMalformed(req.tags).Some?;
    }
  }

  /**
   * A successful listing holds every selected product of `products` and
   * nothing else (sound and complete), each once, newest first.
   */
  lemma ListingShape(products: seq<Product>, req: Request)
    requires Listing(products, req).Success?
    ensures var r := Listing(products, req).value;
      && (forall p :: p in r <==> p in products && Selected(p, req))
      && (forall i, j :: 0 <= i < j < |r| ==> r[i] != r[j])
      && (forall i, j :: 0 <= i < j < |r| ==> r[i].stamps.createdAt >= r[j].stamps.createdAt)
      && |r| <= |products|
  {
    var d := Distinct(Select(products, req));
    OrderingKeepsRows(d);
  }

  /** Ordering a sequence without repeats keeps its members and its length, and adds no repeat. */
  lemma OrderingKeepsRows(d: seq<Product>)
    requires forall i, j :: 0 <= i < j < |d| ==> d[i] != d[j]
    ensures var r := OrderProducts(d);
      && (forall p :: p in r <==> p in d)
      && (forall i, j :: 0 <= i < j < |r| ==> r[i] != r[j])
      && |r| == |d|
  {
    var r := OrderProducts(d);
    assert forall p :: p in r <==> p in multiset(r);
    assert forall p :: p in d <==> p in multiset(d);
    forall i, j | 0 <= i < j < |r| ensures r[i] != r[j] {
      RepeatCountsTwice(r, i, j);
      CountAtMostOnce(d, r[i]);
    }
    assert |r| == |multiset(r)| == |multiset(d)| == |d|;
  }

  /** In a sequence without repeats, no element is counted twice. */
  lemma {:induction false} CountAtMostOnce<T>(s: seq<T>, x: T)
    requires forall i, j :: 0 <= i < j < |s| ==> s[i] != s[j]
    ensures multiset(s)[x] <= 1
  {
    if s != [] {
      var rest := s[1..];
      assert s == [s[0]] + rest;
      forall i, j | 0 <= i < j < |rest| ensures rest[i] != rest[j] {
        assert rest[i] == s[i + 1] && rest[j] == s[j + 1];
      }
      CountAtMostOnce(rest, x);
      if x == s[0] {
        assert x !in rest by {
          forall k | 0 <= k < |rest| ensures rest[k] != x {
            assert rest[k] == s[k + 1];
          }
        }
      }
    }
  }

  /**
   * When product ids are unique among the rows (as in a valid catalog),
   * no product id appears twice in the listing: the many-to-many tag join
   * cannot repeat a product.
   */
  lemma ListingIdsUnique(products: seq<Product>, req: Request)
    requires forall p, q :: p in products && q in products && p.id == q.id ==> p == q
    requires Listing(products, req).Success?
    ensures var r := Listing(products, req).value;
      forall i, j :: 0 <= i < j < |r| ==> r[i].id != r[j].id
  {
    ListingShape(products, req);
  }

  /**
   * A category input that starts or ends with U+001C to U+001F fails the
   * request: int() does not skip those characters, though strip() would.
   */
  lemma SeparatedCategoryFails(products: seq<Product>, req: Request)
    requires req.category != []
    requires '\U{1C}' <= req.category[0] <= '\U{1F}' || '\U{1C}' <= req.category[|req.category| - 1] <= '\U{1F}'
    ensures Listing(products, req) == Failure(InvalidId(req.category))
  {
    ParseIntKeepsSeparators(req.category);
  }

  /** A search input that is empty or all white space strips to "" and imposes no restriction. */
  lemma BlankSearchMatchesAll(p: Product, search: string)
    requires forall i :: 0 <= i < |search| ==> IsSpace(search[i])
    ensures MatchesSearch(p, Strip(search, IsSpace))
  {
    StripEmptyIffBlank(search, IsSpace);
  }

  /** With a blank search and no category or tag filter, the listing is exactly the active products. */
  lemma BlankRequestListsActive(products: seq<Product>, req: Request)
    requires forall i :: 0 <= i < |req.search| ==> IsSpace(req.search[i])
    requires req.category == ""
    requires forall raw :: raw in req.tags ==> raw == ""
    ensures Listing(products, req).Success?
    ensures forall p :: p in Listing(products, req).value <==> p in products && p.isActive
  {
    assert forall i :: 0 <= i < |req.tags| ==> req.tags[i] in req.tags;
    assert FirstMalformed(req.tags).None?;
    forall p ensures Selected(p, req) == p.isActive {
      BlankSearchMatchesAll(p, req.search);
    }
    ListingShape(products, req);
  }

  /** The request Category.get_absolute_url links to: the listing URL with ?category=<pk>. */
  function CategoryLink(c: Category): Request
    requires c.id >= 0
  {
    Request("", DecimalString(c.id), [])
  }

  /**
   * Following a category's link lists exactly the active products of that
   * category; a pk too long for int() fails the request instead.
   */
  lemma CategoryLinkLists(products: seq<Product>, c: Category)
    requires c.id >= 0
    ensures |DecimalString(c.id)| > MaxStrDigits ==>
      Listing(products, CategoryLink(c)) == Failure(InvalidId(DecimalString(c.id)))
    ensures |DecimalString(c.id)| <= MaxStrDigits ==>
      && Listing(products, CategoryLink(c)).Success?
      && forall p :: p in Listing(products, CategoryLink(c)).value <==>
        p in products && p.isActive && p.categoryId == c.id
  {
    var req := CategoryLink(c);
    ParseDecimalString(c.id);
    DecimalStringDigits(c.id);
    if |DecimalString(c.id)| > MaxStrDigits {
      return;
    }
    assert !Malformed(req.category);
    forall p ensures Selected(p, req) == (p.isActive && p.categoryId == c.id) {
      BlankSearchMatchesAll(p, "");
    }
    ListingShape(products, req);
  }

  // ---------------------------------------------------------------------
  // get_context_data
  // ---------------------------------------------------------------------

  /** A value of initial_data: GET.get(...) gives a string, GET.getlist(...) a list. */
  datatype FormValue = Str(text: string) | Values(items: seq<string>)

  /** Python truthiness of a form value: a non-empty string or a non-empty list. */
  predicate Truthy(v: FormValue) {
    match v
    case Str(t) => t != ""
    case Values(l) => l != []
  }

  /** Python's any(): some value is truthy. */
  function AnyTruthy(vs: seq<FormValue>): (r: bool)
    ensures r <==> exists i :: 0 <= i < |vs| && Truthy(vs[i])
  {
    if vs == [] then false
    else
      var rest := AnyTruthy(vs[1..]);
      assert forall i :: 1 <= i < |vs| ==> vs[i] == vs[1..][i - 1];
      assert rest ==> exists i :: 1 <= i < |vs| && Truthy(vs[i]);
      Truthy(vs[0]) || rest
  }

  /** initial_data, the raw inputs the filter form is pre-filled with (search, category, tags). */
  function InitialData(req: Request): (d: seq<(string, FormValue)>)
    ensures |d| == 3
    ensures d[0] == ("search", Str(req.search)) && d[1] == ("category", Str(req.category))
    ensures d[2] == ("tags", Values(req.tags))
  {
    [("search", Str(req.search)), ("category", Str(req.category)), ("tags", Values(req.tags))]
  }

  /**
   * active_filters = any(initial_data.values()): true exactly when some raw
   * input is non-empty, before strip() or the empty-tag skip.
   */
  function ActiveFilters(req: Request): (r: bool)
    ensures r <==> req.search != "" || req.category != "" || req.tags != []
  {
    var d := InitialData(req);
    var values := seq(|d|, i requires 0 <= i < |d| => d[i].1);
    assert values == [Str(req.search), Str(req.category), Values(req.tags)];
    assert Truthy(values[0]) == (req.search != "");
    assert Truthy(values[1]) == (req.category != "");
    assert Truthy(values[2]) == (req.tags != []);
    AnyTruthy(values)
  }

  /**
   * The flag reads the raw inputs: a search of white space and empty tag
   * inputs raise it, yet list exactly what a request with no inputs lists.
   */
  lemma FlagWithoutNarrowing(products: seq<Product>, search: string, tags: seq<string>)
    requires forall i :: 0 <= i < |search| ==> IsSpace(search[i])
    requires forall raw :: raw in tags ==> raw == ""
    ensures ActiveFilters(Request(search, "", tags)) <==> search != "" || tags != []
    ensures Listing(products, Request(search, "", tags)) == Listing(products, Request("", "", []))
  {
    var req := Request(search, "", tags);
    var none := Request("", "", []);
    forall p ensures Selected(p, req) == Selected(p, none) {
      BlankInputsSelectActive(p, search, tags);
      BlankInputsSelectActive(p, "", []);
    }
    SameSelection(products, req, none);
    assert forall i :: 0 <= i < |tags| ==> tags[i] in tags;
    assert FirstMalformed(tags).None?;
  }

  /** A blank search and only empty tag inputs leave just the is_active condition. */
  lemma BlankInputsSelectActive(p: Product, search: string, tags: seq<string>)
    requires forall i :: 0 <= i < |search| ==> IsSpace(search[i])
    requires forall raw :: raw in tags ==> raw == ""
    ensures Selected(p, Request(search, "", tags)) == p.isActive
  {
    BlankSearchMatchesAll(p, search);
    assert forall i :: 0 <= i < |tags| ==> tags[i] in tags;
  }

  /** Requests that select the same products select the same rows. */
  lemma {:induction false} SameSelection(products: seq<Product>, a: Request, b: Request)
    requires forall p :: Selected(p, a) == Selected(p, b)
    ensures Select(products, a) == Select(products, b)
  {
    if products != [] {
      SameSelection(products[1..], a, b);
    }
  }

  /** What the template receives: the page of products, the paginator's state, the form's initial data and the flag. */
  datatype Context = Context(
    products: seq<Product>,
    pageNumber: int,
    numPages: nat,
    isPaginated: bool,
    initial: seq<(string, FormValue)>,
    activeFilters: bool)

  /** Why the view fails: get_queryset raises, or the page input finds no page (404). */
  datatype ViewError = Query(q: QueryError) | NotFound(p: PageError)

  /**
   * ListView.get for this view: the listing, the requested page of it, and
   * the context get_context_data adds (initial_data and active_filters).
   */
  function GetContextData(products: seq<Product>, req: Request, page: Option<string>): (r: Result<Context, ViewError>)
    ensures Listing(products, req).Failure? ==> r == Failure(Query(Listing(products, req).error))
    ensures r.Success? ==>
      var c := r.value;
      var all := Listing(products, req).value;
      && Listing(products, req).Success?
      && |c.products| <= PerPage
      && (forall p :: p in c.products ==> p in all)
      && Page(all, c.pageNumber) == Success(c.products)
      && c.numPages == NumPages(|all|)
      && (c.isPaginated <==> |all| > PerPage)
      && c.initial == InitialData(req)
      && (c.activeFilters <==> req.search != "" || req.category != "" || req.tags != [])
    ensures Listing(products, req).Success? ==>
      var served := PaginateQueryset(Listing(products, req).value, page);
      && (r.Success? <==> served.Success?)
      && (served.Failure? ==> r == Failure(NotFound(served.error)))
      && (served.Success? ==> (r.value.pageNumber, r.value.products) == served.value)
  {
    match Listing(products, req)
    case Failure(e) => Failure(Query(e))
    case Success(all) =>
      match PaginateQueryset(all, page)
      case Failure(e) => Failure(NotFound(e))
      case Success((n, rows)) =>
        Success(Context(rows, n, NumPages(|all|), NumPages(|all|) > 1, InitialData(req), ActiveFilters(req)))
  }

  // ---------------------------------------------------------------------
  // The listing as written: Product declares no description field
  // ---------------------------------------------------------------------

  /** The field names Product declares (with its inherited timestamps, the id, djmoney's currency column and the foreign key's column). */
  const DeclaredProductFields: set<string> :=
    {"id", "created_at", "updated_at", "name", "slug", "price", "price_currency",
     "category", "category_id", "tags", "is_active"}

  /** The field names of the corrected Product, which carries a description. */
  const ProductFields: set<string> := DeclaredProductFields + {"description"}

  /** The fields that the filters get_queryset always builds name, in order: is_active, then the search's two. */
  const AlwaysLookedUp: seq<string> := ["is_active", "description", "name"]

  /** The first name the model does not declare; Django raises FieldError on it. */
  function FirstUnknown(fields: set<string>, names: seq<string>): (r: Option<string>)
    ensures r.None? <==> forall i :: 0 <= i < |names| ==> names[i] in fields
    ensures r.Some? ==> r.value in names && r.value !in fields
  {
    if names == [] then None
    else if names[0] !in fields then Some(names[0])
    else
      assert forall i :: 1 <= i < |names| ==> names[i] == names[1..][i - 1];
      FirstUnknown(fields, names[1..])
  }

  /** get_queryset over a Product with the given fields: a lookup on an undeclared field fails first. */
  function ListingOver(fields: set<string>, products: seq<Product>, req: Request): Result<seq<Product>, QueryError> {
    match FirstUnknown(fields, AlwaysLookedUp)
    case Some(f) => Failure(UnknownField(f))
    case None => Listing(products, req)
  }

  /** As written, every request fails: the search filter names description, which Product does not declare. */
  lemma AsWrittenAlwaysFails(products: seq<Product>, req: Request)
    ensures ListingOver(DeclaredProductFields, products, req) == Failure(UnknownField("description"))
  {
    assert "is_active" in DeclaredProductFields && "description" !in DeclaredProductFields;
    assert FirstUnknown(DeclaredProductFields, AlwaysLookedUp[1..]) == Some("description");
  }

  /** With the description field declared, every lookup resolves and the listing rule applies. */
  lemma CorrectedResolves(products: seq<Product>, req: Request)
    ensures ListingOver(ProductFields, products, req) == Listing(products, req)
  {
    assert forall i :: 0 <= i < |AlwaysLookedUp| ==> AlwaysLookedUp[i] in ProductFields;
  }
}
