/**
 * The rows of the three product tables and the writes the schema allows on
 * them: insert, save and delete for each model, plus setting a product's
 * tags (the many-to-many rows). Each write either succeeds and keeps every
 * constraint, or is refused with the database's reason and changes nothing.
 */
module Store {
  import opened Wrappers
  import opened Models

  /** Why the database refuses a write. */
  datatype DbError =
    | NameTaken        // unique=True on a name column
    | SlugTaken        // unique=True on a slug column
    | ValueTooLong     // a max_length, or the price's max_digits
    | UnknownCategory  // the category foreign key names no category
    | UnknownTag       // a many-to-many row names no tag
    | NoSuchRow        // the row to save or delete is not there
    | Protected        // on_delete=PROTECT: products still reference the category

  /** Row `id` is not `except` (None: every row counts). */
  predicate IsOther(id: int, except: Option<int>) {
    except.None? || id != except.value
  }

  // ---------------------------------------------------------------------
  // Table constraints
  // ---------------------------------------------------------------------

  function CategoryIds(cs: seq<Category>): set<int> {
    set c | c in cs :: c.id
  }

  function TagIds(ts: seq<Tag>): set<int> {
    set t | t in ts :: t.id
  }

  /** Ids, names and slugs are unique; ids come from the counter; every row fits its columns. */
  predicate CategoriesValid(cs: seq<Category>, next: int) {
    && next >= 1
    && (forall c :: c in cs ==> 1 <= c.id < next && NameSlugFit(c.name, c.slug))
    && (forall i, j :: 0 <= i < j < |cs| ==> cs[i].id != cs[j].id && cs[i].name != cs[j].name && cs[i].slug != cs[j].slug)
  }

  /** Ids, names and slugs are unique; ids come from the counter; every row fits its columns. */
  predicate TagsValid(ts: seq<Tag>, next: int) {
    && next >= 1
    && (forall t :: t in ts ==> 1 <= t.id < next && NameSlugFit(t.name, t.slug))
    && (forall i, j :: 0 <= i < j < |ts| ==> ts[i].id != ts[j].id && ts[i].name != ts[j].name && ts[i].slug != ts[j].slug)
  }

  /** Ids and slugs are unique (names may repeat); each row references one existing category and existing tags only. */
  predicate ProductsValid(ps: seq<Product>, next: int, cs: seq<Category>, ts: seq<Tag>) {
    && next >= 1
    && (forall p :: p in ps ==> 1 <= p.id < next && ProductFits(p.name, p.slug, p.price))
    && (forall p :: p in ps ==> p.categoryId in CategoryIds(cs) && p.tagIds <= TagIds(ts))
    && (forall i, j :: 0 <= i < j < |ps| ==> ps[i].id != ps[j].id && ps[i].slug != ps[j].slug)
  }

  // ---------------------------------------------------------------------
  // Row lookup and the checks the database makes before a write
  // ---------------------------------------------------------------------

  function FindCategory(cs: seq<Category>, id: int): (r: Option<nat>)
    ensures r.Some? ==> r.value < |cs| && cs[r.value].id == id
    ensures r.None? <==> id !in CategoryIds(cs)
  {
    if cs == [] then None
    else if cs[|cs| - 1].id == id then Some(|cs| - 1)
    else
      var r := FindCategory(cs[..|cs| - 1], id);
      assert cs == cs[..|cs| - 1] + [cs[|cs| - 1]];
      r
  }

  function FindTag(ts: seq<Tag>, id: int): (r: Option<nat>)
    ensures r.Some? ==> r.value < |ts| && ts[r.value].id == id
    ensures r.None? <==> id !in TagIds(ts)
  {
    if ts == [] then None
    else if ts[|ts| - 1].id == id then Some(|ts| - 1)
    else
      var r := FindTag(ts[..|ts| - 1], id);
      assert ts == ts[..|ts| - 1] + [ts[|ts| - 1]];
      r
  }

  function FindProduct(ps: seq<Product>, id: int): (r: Option<nat>)
    ensures r.Some? ==> r.value < |ps| && ps[r.value].id == id
    ensures r.None? <==> forall p :: p in ps ==> p.id != id
  {
    if ps == [] then None
    else if ps[|ps| - 1].id == id then Some(|ps| - 1)
    else
      var r := FindProduct(ps[..|ps| - 1], id);
      assert ps == ps[..|ps| - 1] + [ps[|ps| - 1]];
      r
  }

  /** The checks made before a category row `except` (None: a new row) is written with this name and slug. */
  function CheckCategory(cs: seq<Category>, name: string, slug: string, except: Option<int>): (o: Outcome<DbError>)
    ensures o.Pass? <==>
      && NameSlugFit(name, slug)
      && (forall c :: c in cs && IsOther(c.id, except) ==> c.name != name && c.slug != slug)
    ensures o == Fail(NameTaken) <==>
      NameSlugFit(name, slug) && exists c :: c in cs && IsOther(c.id, except) && c.name == name
  {
    if !NameSlugFit(name, slug) then Fail(ValueTooLong)
    else if exists c :: c in cs && IsOther(c.id, except) && c.name == name then Fail(NameTaken)
    else if exists c :: c in cs && IsOther(c.id, except) && c.slug == slug then Fail(SlugTaken)
    else Pass
  }

  /** The checks made before a tag row is written with this name and slug. */
  function CheckTag(ts: seq<Tag>, name: string, slug: string, except: Option<int>): (o: Outcome<DbError>)
    ensures o.Pass? <==>
      && NameSlugFit(name, slug)
      && (forall t :: t in ts && IsOther(t.id, except) ==> t.name != name && t.slug != slug)
    ensures o == Fail(NameTaken) <==>
      NameSlugFit(name, slug) && exists t :: t in ts && IsOther(t.id, except) && t.name == name
  {
    if !NameSlugFit(name, slug) then Fail(ValueTooLong)
    else if exists t :: t in ts && IsOther(t.id, except) && t.name == name then Fail(NameTaken)
    else if exists t :: t in ts && IsOther(t.id, except) && t.slug == slug then Fail(SlugTaken)
    else Pass
  }

  /** The checks made before a product row is written; a product's name need not be unique. */
  function CheckProduct(ps: seq<Product>, cs: seq<Category>, name: string, slug: string,
                        price: Money, categoryId: int, except: Option<int>): (o: Outcome<DbError>)
    ensures o.Pass? <==>
      && ProductFits(name, slug, price)
      && categoryId in CategoryIds(cs)
      && (forall p :: p in ps && IsOther(p.id, except) ==> p.slug != slug)
  {
    if !ProductFits(name, slug, price) then Fail(ValueTooLong)
    else if exists p :: p in ps && IsOther(p.id, except) && p.slug == slug then Fail(SlugTaken)
    else if categoryId !in CategoryIds(cs) then Fail(UnknownCategory)
    else Pass
  }

  /** Some product still references category `id`. */
  predicate Referenced(ps: seq<Product>, id: int) {
    exists p :: p in ps && p.categoryId == id
  }

  /** The sequence without its element at `k`. */
  function RemoveAt<T>(s: seq<T>, k: nat): (r: seq<T>)
    requires k < |s|
    ensures |r| == |s| - 1
    ensures forall i :: 0 <= i < |r| ==> r[i] == s[if i < k then i else i + 1]
    ensures forall x :: x in r ==> x in s
  {
    s[..k] + s[k + 1..]
  }

  /** The many-to-many rows of tag `id` are deleted with the tag; product rows are untouched otherwise. */
  function WithoutTag(ps: seq<Product>, id: int): (r: seq<Product>)
    ensures |r| == |ps|
    ensures forall i :: 0 <= i < |ps| ==> r[i] == ps[i].(tagIds := ps[i].tagIds - {id})
  {
    seq(|ps|, i requires 0 <= i < |ps| => ps[i].(tagIds := ps[i].tagIds - {id}))
  }

  // ---------------------------------------------------------------------
  // The catalog
  // ---------------------------------------------------------------------

  class Catalog {
    var categories: seq<Category>
    var tags: seq<Tag>
    var products: seq<Product>
    /** The id the next inserted row of each table receives (an auto-increment key). */
    var nextCategoryId: int
    var nextTagId: int
    var nextProductId: int

    ghost predicate Valid()
      reads this
    {
      && CategoriesValid(categories, nextCategoryId)
      && TagsValid(tags, nextTagId)
      && ProductsValid(products, nextProductId, categories, tags)
    }

    constructor ()
      ensures Valid()
      ensures categories == [] && tags == [] && products == []
      ensures nextCategoryId == 1 && nextTagId == 1 && nextProductId == 1
    {
      categories, tags, products := [], [], [];
      nextCategoryId, nextTagId, nextProductId := 1, 1, 1;
    }

    // --- Category ---

    /** Inserts a category; the new row gets the next id and is stamped with the two clock readings its fields take. */
    method AddCategory(name: string, slug: string, description: string, createdNow: int, updatedNow: int) returns (r: Result<int, DbError>)
      requires Valid()
      modifies this
      ensures Valid()
      ensures var o := CheckCategory(old(categories), name, slug, None);
        && (o.Fail? ==> r == Failure(o.error) && unchanged(this))
        && (o.Pass? ==>
              && r == Success(old(nextCategoryId))
              && categories == old(categories) + [Category(old(nextCategoryId), name, slug, description, Inserted(createdNow, updatedNow))]
              && nextCategoryId == old(nextCategoryId) + 1
              && tags == old(tags) && products == old(products)
              && nextTagId == old(nextTagId) && nextProductId == old(nextProductId))
    {
      var o := CheckCategory(categories, name, slug, None);
      if o.Fail? {
        return Failure(o.error);
      }
      var c := Category(nextCategoryId, name, slug, description, Inserted(createdNow, updatedNow));
      categories := categories + [c];
      assert CategoryIds(categories) == CategoryIds(old(categories)) + {c.id};
      r := Success(nextCategoryId);
      nextCategoryId := nextCategoryId + 1;
    }

    /** Saves category `id` with new field values: created_at is kept and updated_at becomes `now`. */
    method SaveCategory(id: int, name: string, slug: string, description: string, now: int) returns (r: Outcome<DbError>)
      requires Valid()
      modifies this
      ensures Valid()
      ensures var k := FindCategory(old(categories), id);
        && (k.None? ==> r == Fail(NoSuchRow) && unchanged(this))
        && (k.Some? ==>
              var o := CheckCategory(old(categories), name, slug, Some(id));
              && (o.Fail? ==> r == o && unchanged(this))
              && (o.Pass? ==>
                    && r == Pass
                    && categories == old(categories)[k.value := Category(id, name, slug, description,
                                                                Resaved(old(categories)[k.value].stamps, now))]
                    && tags == old(tags) && products == old(products)
                    && nextCategoryId == old(nextCategoryId) && nextTagId == old(nextTagId)
                    && nextProductId == old(nextProductId)))
    {
      var k := FindCategory(categories, id);
      if k.None? {
        return Fail(NoSuchRow);
      }
      r := CheckCategory(categories, name, slug, Some(id));
      if r.Fail? {
        return;
      }
      var saved := categories[k.value];
      categories := categories[k.value := Category(id, name, slug, description, Resaved(saved.stamps, now))];
      assert CategoryIds(categories) == CategoryIds(old(categories)) by {
        UpdatedMembers(old(categories), k.value, categories[k.value]);
      }
    }

    /** Deletes category `id`, unless a product still references it (on_delete=PROTECT). */
    method DeleteCategory(id: int) returns (r: Outcome<DbError>)
      requires Valid()
      modifies this
      ensures Valid()
      ensures var k := FindCategory(old(categories), id);
        && (k.None? ==> r == Fail(NoSuchRow) && unchanged(this))
        && (k.Some? && Referenced(old(products), id) ==> r == Fail(Protected) && unchanged(this))
        && (k.Some? && !Referenced(old(products), id) ==>
              && r == Pass
              && categories == RemoveAt(old(categories), k.value)
              && tags == old(tags) && products == old(products)
              && nextCategoryId == old(nextCategoryId) && nextTagId == old(nextTagId)
              && nextProductId == old(nextProductId))
    {
      var k := FindCategory(categories, id);
      if k.None? {
        return Fail(NoSuchRow);
      }
      if exists p :: p in products && p.categoryId == id {
        return Fail(Protected);
      }
      categories := RemoveAt(categories, k.value);
      assert CategoryIds(categories) == CategoryIds(old(categories)) - {id} by {
        RemovedIds(old(categories), k.value);
      }
      r := Pass;
    }

    // --- Tag ---

    /** Inserts a tag; the new row gets the next id and is stamped with the two clock readings its fields take. */
    method AddTag(name: string, slug: string, createdNow: int, updatedNow: int) returns (r: Result<int, DbError>)
      requires Valid()
      modifies this
      ensures Valid()
      ensures var o := CheckTag(old(tags), name, slug, None);
        && (o.Fail? ==> r == Failure(o.error) && unchanged(this))
        && (o.Pass? ==>
              && r == Success(old(nextTagId))
              && tags == old(tags) + [Tag(old(nextTagId), name, slug, Inserted(createdNow, updatedNow))]
              && nextTagId == old(nextTagId) + 1
              && categories == old(categories) && products == old(products)
              && nextCategoryId == old(nextCategoryId) && nextProductId == old(nextProductId))
    {
      var o := CheckTag(tags, name, slug, None);
      if o.Fail? {
        return Failure(o.error);
      }
      var t := Tag(nextTagId, name, slug, Inserted(createdNow, updatedNow));
      tags := tags + [t];
      assert TagIds(tags) == TagIds(old(tags)) + {t.id};
      r := Success(nextTagId);
      nextTagId := nextTagId + 1;
    }

    /** Saves tag `id` with new field values: created_at is kept and updated_at becomes `now`. */
    method SaveTag(id: int, name: string, slug: string, now: int) returns (r: Outcome<DbError>)
      requires Valid()
      modifies this
      ensures Valid()
      ensures var k := FindTag(old(tags), id);
        && (k.None? ==> r == Fail(NoSuchRow) && unchanged(this))
        && (k.Some? ==>
              var o := CheckTag(old(tags), name, slug, Some(id));
              && (o.Fail? ==> r == o && unchanged(this))
              && (o.Pass? ==>
                    && r == Pass
                    && tags == old(tags)[k.value := Tag(id, name, slug, Resaved(old(tags)[k.value].stamps, now))]
                    && categories == old(categories) && products == old(products)
                    && nextCategoryId == old(nextCategoryId) && nextTagId == old(nextTagId)
                    && nextProductId == old(nextProductId)))
    {
      var k := FindTag(tags, id);
      if k.None? {
        return Fail(NoSuchRow);
      }
      r := CheckTag(tags, name, slug, Some(id));
      if r.Fail? {
        return;
      }
      var saved := tags[k.value];
      tags := tags[k.value := Tag(id, name, slug, Resaved(saved.stamps, now))];
      assert TagIds(tags) == TagIds(old(tags)) by {
        UpdatedMembers(old(tags), k.value, tags[k.value]);
      }
    }

    /** Deletes tag `id` together with its many-to-many rows: no product carries it afterwards. */
    method DeleteTag(id: int) returns (r: Outcome<DbError>)
      requires Valid()
      modifies this
      ensures Valid()
      ensures var k := FindTag(old(tags), id);
        && (k.None? ==> r == Fail(NoSuchRow) && unchanged(this))
        && (k.Some? ==>
              && r == Pass
              && tags == RemoveAt(old(tags), k.value)
              && products == WithoutTag(old(products), id)
              && categories == old(categories)
              && nextCategoryId == old(nextCategoryId) && nextTagId == old(nextTagId)
              && nextProductId == old(nextProductId))
    {
      var k := FindTag(tags, id);
      if k.None? {
        return Fail(NoSuchRow);
      }
      tags := RemoveAt(tags, k.value);
      assert TagIds(tags) == TagIds(old(tags)) - {id} by {
        RemovedTagIds(old(tags), k.value);
      }
      var ps := WithoutTag(products, id);
      assert forall p :: p in ps ==> exists q :: q in products && p == q.(tagIds := q.tagIds - {id}) by {
        forall p | p in ps ensures exists q :: q in products && p == q.(tagIds := q.tagIds - {id}) {
          var i :| 0 <= i < |ps| && ps[i] == p;
          assert products[i] in products;
        }
      }
      products := ps;
      r := Pass;
    }

    // --- Product ---

    /**
     * Inserts a product with no tags; `isActive` defaults to true when not
     * given. The new row gets the next id and is stamped with the two clock readings its fields take.
     */
    method AddProduct(name: string, slug: string, description: string, price: Money, categoryId: int,
                      isActive: Option<bool>, createdNow: int, updatedNow: int) returns (r: Result<int, DbError>)
      requires Valid()
      modifies this
      ensures Valid()
      ensures var o := CheckProduct(old(products), old(categories), name, slug, price, categoryId, None);
        && (o.Fail? ==> r == Failure(o.error) && unchanged(this))
        && (o.Pass? ==>
              && r == Success(old(nextProductId))
              && products == old(products) + [Product(old(nextProductId), name, slug, description, price, categoryId,
                                                      {}, if isActive.Some? then isActive.value else true, Inserted(createdNow, updatedNow))]
              && nextProductId == old(nextProductId) + 1
              && categories == old(categories) && tags == old(tags)
              && nextCategoryId == old(nextCategoryId) && nextTagId == old(nextTagId))
    {
      var o := CheckProduct(products, categories, name, slug, price, categoryId, None);
      if o.Fail? {
        return Failure(o.error);
      }
      var active := if isActive.Some? then isActive.value else true;
      products := products + [Product(nextProductId, name, slug, description, price, categoryId, {}, active, Inserted(createdNow, updatedNow))];
      r := Success(nextProductId);
      nextProductId := nextProductId + 1;
    }

    /** Saves product `id` with new field values; its tags are kept, created_at is kept, updated_at becomes `now`. */
    method SaveProduct(id: int, name: string, slug: string, description: string, price: Money, categoryId: int,
                       isActive: bool, now: int) returns (r: Outcome<DbError>)
      requires Valid()
      modifies this
      ensures Valid()
      ensures var k := FindProduct(old(products), id);
        && (k.None? ==> r == Fail(NoSuchRow) && unchanged(this))
        && (k.Some? ==>
              var o := CheckProduct(old(products), old(categories), name, slug, price, categoryId, Some(id));
              var p := old(products)[k.value];
              && (o.Fail? ==> r == o && unchanged(this))
              && (o.Pass? ==>
                    && r == Pass
                    && products == old(products)[k.value := Product(id, name, slug, description, price, categoryId,
                                                              p.tagIds, isActive, Resaved(p.stamps, now))]
                    && categories == old(categories) && tags == old(tags)
                    && nextCategoryId == old(nextCategoryId) && nextTagId == old(nextTagId)
                    && nextProductId == old(nextProductId)))
    {
      var k := FindProduct(products, id);
      if k.None? {
        return Fail(NoSuchRow);
      }
      r := CheckProduct(products, categories, name, slug, price, categoryId, Some(id));
      if r.Fail? {
        return;
      }
      var p := products[k.value];
      products := products[k.value := Product(id, name, slug, description, price, categoryId,
                                              p.tagIds, isActive, Resaved(p.stamps, now))];
    }

    /**
     * Replaces the tags of product `id` (the many-to-many rows). The product
     * row itself is not saved, so its stamps do not change.
     */
    method SetProductTags(id: int, tagIds: set<int>) returns (r: Outcome<DbError>)
      requires Valid()
      modifies this
      ensures Valid()
      ensures var k := FindProduct(old(products), id);
        && (k.None? ==> r == Fail(NoSuchRow) && unchanged(this))
        && (k.Some? && !(tagIds <= TagIds(old(tags))) ==> r == Fail(UnknownTag) && unchanged(this))
        && (k.Some? && tagIds <= TagIds(old(tags)) ==>
              && r == Pass
              && products == old(products)[k.value := old(products)[k.value].(tagIds := tagIds)]
              && categories == old(categories) && tags == old(tags)
              && nextCategoryId == old(nextCategoryId) && nextTagId == old(nextTagId)
              && nextProductId == old(nextProductId))
    {
      var k := FindProduct(products, id);
      if k.None? {
        return Fail(NoSuchRow);
      }
      if !(tagIds <= TagIds(tags)) {
        return Fail(UnknownTag);
      }
      products := products[k.value := products[k.value].(tagIds := tagIds)];
      r := Pass;
    }

    /** Deletes product `id` together with its many-to-many rows. */
    method DeleteProduct(id: int) returns (r: Outcome<DbError>)
      requires Valid()
      modifies this
      ensures Valid()
      ensures var k := FindProduct(old(products), id);
        && (k.None? ==> r == Fail(NoSuchRow) && unchanged(this))
        && (k.Some? ==>
              && r == Pass
              && products == RemoveAt(old(products), k.value)
              && categories == old(categories) && tags == old(tags)
              && nextCategoryId == old(nextCategoryId) && nextTagId == old(nextTagId)
              && nextProductId == old(nextProductId))
    {
      var k := FindProduct(products, id);
      if k.None? {
        return Fail(NoSuchRow);
      }
      products := RemoveAt(products, k.value);
      r := Pass;
    }
  }

  /** Overwriting position `k` replaces the element there and keeps every other one. */
  lemma UpdatedMembers<T>(s: seq<T>, k: nat, v: T)
    requires k < |s|
    ensures forall x :: x in s[k := v] ==> x == v || x in s
    ensures forall x :: x in s ==> x == s[k] || x in s[k := v]
  {
    forall x | x in s ensures x == s[k] || x in s[k := v] {
      var i :| 0 <= i < |s| && s[i] == x;
      if i != k { assert s[k := v][i] == x; }
    }
  }

  /** Removing the row at `k` removes its id and no other, when ids are unique. */
  lemma RemovedIds(cs: seq<Category>, k: nat)
    requires k < |cs|
    requires forall i, j :: 0 <= i < j < |cs| ==> cs[i].id != cs[j].id
    ensures CategoryIds(RemoveAt(cs, k)) == CategoryIds(cs) - {cs[k].id}
  {
    var r := RemoveAt(cs, k);
    forall x | x in CategoryIds(cs) - {cs[k].id} ensures x in CategoryIds(r) {
      var c :| c in cs && c.id == x;
      var i :| 0 <= i < |cs| && cs[i] == c;
      assert r[if i < k then i else i - 1] == c;
    }
    forall x | x in CategoryIds(r) ensures x != cs[k].id {
      var c :| c in r && c.id == x;
      var i :| 0 <= i < |r| && r[i] == c;
      assert c == cs[if i < k then i else i + 1];
    }
  }

  lemma RemovedTagIds(ts: seq<Tag>, k: nat)
    requires k < |ts|
    requires forall i, j :: 0 <= i < j < |ts| ==> ts[i].id != ts[j].id
    ensures TagIds(RemoveAt(ts, k)) == TagIds(ts) - {ts[k].id}
  {
    var r := RemoveAt(ts, k);
    forall x | x in TagIds(ts) - {ts[k].id} ensures x in TagIds(r) {
      var t :| t in ts && t.id == x;
      var i :| 0 <= i < |ts| && ts[i] == t;
      assert r[if i < k then i else i - 1] == t;
    }
    forall x | x in TagIds(r) ensures x != ts[k].id {
      var t :| t in r && t.id == x;
      var i :| 0 <= i < |r| && r[i] == t;
      assert t == ts[if i < k then i else i + 1];
    }
  }

  /**
   * Why on_delete=PROTECT refuses: removing a category some product still
   * references would leave that product pointing at no category.
   */
  lemma ProtectedDeleteWouldDangle(ps: seq<Product>, next: int, cs: seq<Category>, ts: seq<Tag>, k: nat)
    requires k < |cs|
    requires forall i, j :: 0 <= i < j < |cs| ==> cs[i].id != cs[j].id
    requires Referenced(ps, cs[k].id)
    ensures !ProductsValid(ps, next, RemoveAt(cs, k), ts)
  {
    RemovedIds(cs, k);
  }

  /** A category that no product references can go: every product still references an existing category. */
  lemma UnreferencedDeleteKeepsProducts(ps: seq<Product>, next: int, cs: seq<Category>, ts: seq<Tag>, k: nat)
    requires k < |cs|
    requires forall i, j :: 0 <= i < j < |cs| ==> cs[i].id != cs[j].id
    requires ProductsValid(ps, next, cs, ts)
    requires !Referenced(ps, cs[k].id)
    ensures ProductsValid(ps, next, RemoveAt(cs, k), ts)
  {
    RemovedIds(cs, k);
  }
}
