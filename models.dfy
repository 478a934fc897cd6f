/**
 * The catalog's records: Category, Tag and Product with the timestamps they
 * inherit from TimeStampedModel, the two currencies a price may carry, the
 * column limits the schema declares, and each model's default ordering.
 */
module Models {
  import opened Wrappers
  import opened Text
  import opened Sorting

  /** max_length of every name column. */
  const NameMaxLength := 255
  /** max_length of every slug column. */
  const SlugMaxLength := 150
  /** max_digits and decimal_places of the price column. */
  const PriceMaxDigits := 14
  const PriceDecimalPlaces := 2
  /** The largest amount the price column holds, in minor units (cents): 999 999 999 999.99. */
  const MaxMinorUnits := 99_999_999_999_999

  // ---------------------------------------------------------------------
  // TimeStampedModel
  // ---------------------------------------------------------------------

  /** created_at (auto_now_add) and updated_at (auto_now); times are clock readings supplied by the caller. */
  datatype Stamps = Stamps(createdAt: int, updatedAt: int)

  /**
   * The stamps of a newly inserted row. Each field's pre_save reads the
   * clock on its own (created_at first, then updated_at), so the two are
   * successive readings and need not be equal.
   */
  function Inserted(createdNow: int, updatedNow: int): (t: Stamps)
    ensures t.createdAt == createdNow && t.updatedAt == updatedNow
  {
    Stamps(createdNow, updatedNow)
  }

  /** The stamps of a row saved again at time `now`: created_at is kept, updated_at is refreshed. */
  function Resaved(s: Stamps, now: int): (t: Stamps)
    ensures t.createdAt == s.createdAt && t.updatedAt == now
  {
    s.(updatedAt := now)
  }

  /**
   * The stamps after a row is inserted (created_at reading `createdNow`,
   * updated_at reading `nows[0]`) and saved again at each later reading of `nows`.
   */
  function History(createdNow: int, nows: seq<int>): Stamps
    requires nows != []
  {
    if |nows| == 1 then Inserted(createdNow, nows[0])
    else Resaved(History(createdNow, nows[..|nows| - 1]), nows[|nows| - 1])
  }

  /** However many times a row is saved, created_at is its insertion time and updated_at its last save. */
  lemma {:induction false} HistoryStamps(createdNow: int, nows: seq<int>)
    requires nows != []
    ensures History(createdNow, nows).createdAt == createdNow
    ensures History(createdNow, nows).updatedAt == nows[|nows| - 1]
  {
    if |nows| > 1 {
      HistoryStamps(createdNow, nows[..|nows| - 1]);
    }
  }

  // ---------------------------------------------------------------------
  // Currency and price
  // ---------------------------------------------------------------------

  /** Currency.choices: the only two currencies a price may carry. */
  datatype Currency = CAD | USD

  /** The stored value of a currency choice. */
  function CurrencyCode(c: Currency): string {
    match c
    case CAD => "CAD"
    case USD => "USD"
  }

  /** The human-readable label of a currency choice. */
  function CurrencyLabel(c: Currency): string {
    match c
    case CAD => "Canadian Dollar"
    case USD => "US Dollar"
  }

  /** Reads a stored currency code back; any code other than the two choices is rejected. */
  function ParseCurrency(code: string): (r: Option<Currency>)
    ensures r.Some? <==> code == "CAD" || code == "USD"
    ensures r.Some? ==> CurrencyCode(r.value) == code
  {
    if code == "CAD" then Some(CAD) else if code == "USD" then Some(USD) else None
  }

  lemma CurrencyCodeRoundTrip(c: Currency)
    ensures ParseCurrency(CurrencyCode(c)) == Some(c)
    ensures CurrencyLabel(c) != CurrencyCode(c)
  {
  }

  /** A price: an exact amount in minor units (two decimal places) and its currency. */
  datatype Money = Money(minorUnits: int, currency: Currency)

  function Abs(n: int): nat {
    if n < 0 then -n else n
  }

  function Pow10(d: nat): (p: nat)
    ensures p >= 1
  {
    if d == 0 then 1 else 10 * Pow10(d - 1)
  }

  /** The amount, written with its two decimal places, has at most max_digits digits. */
  predicate PriceFits(m: Money) {
    |DecimalString(Abs(m.minorUnits))| <= PriceMaxDigits
  }

  /** A number has at most `d` decimal digits exactly when it is below 10^d. */
  lemma {:induction false} DigitCount(n: nat, d: nat)
    requires d >= 1
    ensures |DecimalString(n)| <= d <==> n < Pow10(d)
  {
    if n >= 10 {
      if d == 1 {
        assert |DecimalString(n)| == |DecimalString(n / 10)| + 1;
      } else {
        DigitCount(n / 10, d - 1);
        assert n / 10 < Pow10(d - 1) <==> n < 10 * Pow10(d - 1);
      }
    } else {
      if d > 1 { assert Pow10(d) == 10 * Pow10(d - 1); }
    }
  }

  /** The digit limit of the price column, as a bound on the amount in minor units. */
  lemma PriceFitsBound(m: Money)
    ensures PriceFits(m) <==> -MaxMinorUnits <= m.minorUnits <= MaxMinorUnits
  {
    DigitCount(Abs(m.minorUnits), PriceMaxDigits);
    assert Pow10(PriceMaxDigits) == MaxMinorUnits + 1;
  }

  // ---------------------------------------------------------------------
  // Records
  // ---------------------------------------------------------------------

  datatype Category = Category(id: int, name: string, slug: string, description: string, stamps: Stamps)

  datatype Tag = Tag(id: int, name: string, slug: string, stamps: Stamps)

  /**
   * A product references exactly one category by id and any set of tags
   * (the rows of the many-to-many table). `description` is the field the
   * listing searches; models.py does not declare it (see the Views module).
   */
  datatype Product = Product(
    id: int,
    name: string,
    slug: string,
    description: string,
    price: Money,
    categoryId: int,
    tagIds: set<int>,
    isActive: bool,
    stamps: Stamps)

  /** The column limits of a category or tag row: its name and its slug. */
  predicate NameSlugFit(name: string, slug: string) {
    |name| <= NameMaxLength && |slug| <= SlugMaxLength
  }

  /** The column limits of a product row. */
  predicate ProductFits(name: string, slug: string, price: Money) {
    |name| <= NameMaxLength && |slug| <= SlugMaxLength && PriceFits(price)
  }

  // ---------------------------------------------------------------------
  // Meta.ordering
  // ---------------------------------------------------------------------

  /** Category ordering = ["name"]. */
  predicate CategoryBefore(a: Category, b: Category) {
    LexLeq(a.name, b.name)
  }

  /** Tag ordering = ["name"]. */
  predicate TagBefore(a: Tag, b: Tag) {
    LexLeq(a.name, b.name)
  }

  /** Product ordering = ["-created_at"]: newest first. */
  predicate NewestFirst(a: Product, b: Product) {
    a.stamps.createdAt >= b.stamps.createdAt
  }

  lemma CategoryOrderTotal()
    ensures TotalPreorder(CategoryBefore)
  {
    forall a: Category, b: Category ensures CategoryBefore(a, b) || CategoryBefore(b, a) {
      LexLeqTotal(a.name, b.name);
    }
    forall a: Category, b: Category, c: Category | CategoryBefore(a, b) && CategoryBefore(b, c)
      ensures CategoryBefore(a, c)
    {
      LexLeqTransitive(a.name, b.name, c.name);
    }
  }

  lemma TagOrderTotal()
    ensures TotalPreorder(TagBefore)
  {
    forall a: Tag, b: Tag ensures TagBefore(a, b) || TagBefore(b, a) {
      LexLeqTotal(a.name, b.name);
    }
    forall a: Tag, b: Tag, c: Tag | TagBefore(a, b) && TagBefore(b, c)
      ensures TagBefore(a, c)
    {
      LexLeqTransitive(a.name, b.name, c.name);
    }
  }

  /** Categories as Category.objects.all() returns them: the same rows, by name. */
  function OrderCategories(cs: seq<Category>): (r: seq<Category>)
    ensures multiset(r) == multiset(cs)
    ensures SortedBy(r, CategoryBefore)
  {
    CategoryOrderTotal();
    SortBySorted(cs, CategoryBefore);
    SortBy(cs, CategoryBefore)
  }

  /** Tags as Tag.objects.all() returns them: the same rows, by name. */
  function OrderTags(ts: seq<Tag>): (r: seq<Tag>)
    ensures multiset(r) == multiset(ts)
    ensures SortedBy(r, TagBefore)
  {
    TagOrderTotal();
    SortBySorted(ts, TagBefore);
    SortBy(ts, TagBefore)
  }

  /** Products as any product query returns them: the same rows, newest first. */
  function OrderProducts(ps: seq<Product>): (r: seq<Product>)
    ensures multiset(r) == multiset(ps)
    ensures forall i, j :: 0 <= i < j < |r| ==> r[i].stamps.createdAt >= r[j].stamps.createdAt
  {
    SortBySorted(ps, NewestFirst);
    SortBy(ps, NewestFirst)
  }

  /** With unique names, the name order is strict: no two categories tie. */
  lemma OrderedNamesStrict(cs: seq<Category>)
    requires forall i, j :: 0 <= i < j < |cs| ==> cs[i].name != cs[j].name
    ensures var r := OrderCategories(cs);
      forall i, j :: 0 <= i < j < |r| ==> r[i].name != r[j].name && LexLeq(r[i].name, r[j].name)
  {
    var r := OrderCategories(cs);
    forall i, j | 0 <= i < j < |r| ensures r[i].name != r[j].name {
      assert r[i] in multiset(cs) && r[j] in multiset(cs);
      var a :| 0 <= a < |cs| && cs[a] == r[i];
      var b :| 0 <= b < |cs| && cs[b] == r[j];
      UniqueNameCountsOnce(cs, a);
      RepeatCountsTwice(r, i, j);
    }
  }

  /** An element found at two positions occurs at least twice. */
  lemma RepeatCountsTwice<T>(r: seq<T>, i: int, j: int)
    requires 0 <= i < j < |r|
    ensures r[i] == r[j] ==> multiset(r)[r[i]] >= 2
  {
    assert r == r[..i] + [r[i]] + r[i + 1..];
    assert r[i + 1..][j - i - 1] == r[j];
    assert multiset(r) == multiset(r[..i]) + multiset{r[i]} + multiset(r[i + 1..]);
  }

  /** A category whose name is unique in `cs` occurs in `cs` exactly once. */
  lemma UniqueNameCountsOnce(cs: seq<Category>, a: int)
    requires forall x, y :: 0 <= x < y < |cs| ==> cs[x].name != cs[y].name
    requires 0 <= a < |cs|
    ensures multiset(cs)[cs[a]] == 1
  {
    assert cs == cs[..a] + [cs[a]] + cs[a + 1..];
    assert multiset(cs) == multiset(cs[..a]) + multiset{cs[a]} + multiset(cs[a + 1..]);
    forall k | 0 <= k < |cs| && k != a ensures cs[k] != cs[a] {
      if k < a { assert cs[k].name != cs[a].name; } else { assert cs[a].name != cs[k].name; }
    }
    assert cs[a] !in cs[..a];
    assert cs[a] !in cs[a + 1..];
  }
}
