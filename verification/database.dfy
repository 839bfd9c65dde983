/**
  The data-access services of `services/database.js`: `productService`,
  `categoryService` and `orderService`. Each operation is a function of the
  client (present or `null`), the outcome of the one remote query it would
  issue, and, for reads, the compiled-in dataset it falls back to.

  Reads never fail: without a client, or when the query errs, they compute
  their answer from the compiled-in dataset. Writes have no fallback: without
  a client the call throws inside its `try` and, like any remote error,
  ends as `null`, `false` or `[]`. No operation takes the dataset as
  something it could change.
 */
module Database {
  import opened Js
  import opened Supabase
  import opened Catalog

  /** An id as a caller may pass it: a number or a string. */
  datatype IdArg = Num(n: int) | Text(s: string)

  // ---------------------------------------------------------------------------
  // The shared shapes of a read and of a row-returning write
  // ---------------------------------------------------------------------------

  /**
    A read: the remote data verbatim when a client exists and the query
    succeeded, and otherwise the fallback computed locally.
   */
  function ReadThrough<T>(client: Option<Client>, remote: Remote<T>, fallback: T): (r: T)
    ensures r == fallback || (IsConfigured(client) && remote == Ok(r))
    ensures IsConfigured(client) && remote.Ok? ==> r == remote.data
  {
    if IsConfigured(client) && remote.Ok? then remote.data else fallback
  }

  /**
    An insert or update followed by `.select()`, returning `data[0]`:
    `null` on a missing client or an error, `undefined` when no row came back.
   */
  function FirstRow<T>(client: Option<Client>, remote: Remote<seq<T>>): (r: Nullish<T>)
    ensures r.Null? <==> !IsConfigured(client) || remote.Err?
    ensures r.Undefined? <==> IsConfigured(client) && remote == Ok([])
    ensures r.Has? ==> remote.Ok? && remote.data != [] && r.value == remote.data[0]
  {
    if !IsConfigured(client) then Null
    else match remote
      case Err => Null
      case Ok(rows) => if rows == [] then Undefined else Has(rows[0])
  }

  // ---------------------------------------------------------------------------
  // The local computations the reads fall back to
  // ---------------------------------------------------------------------------

  /** `parseInt(id)`: a number is first turned into its decimal string. */
  function ParseIdArg(id: IdArg): (k: Option<int>)
    ensures id.Num? ==> k == Some(id.n)
    ensures id.Text? ==> k == ParseInt(id.s)
  {
    match id
    case Num(n) => ParseDecimal(n); ParseInt(IntToDecimal(n))
    case Text(s) => ParseInt(s)
  }

  /** `p => p.id === parseInt(id)`; `NaN` equals nothing. */
  function HasId(k: Option<int>): (test: Product -> bool)
    ensures k.None? ==> forall p :: !test(p)
    ensures k.Some? ==> forall p :: test(p) <==> p.id == k.value
  {
    (p: Product) => k.Some? && p.id == k.value
  }

  /** `p => p.category === category`. */
  function InCategory(category: string): (test: Product -> bool)
    ensures forall p :: test(p) <==> p.category == category
  {
    (p: Product) => p.category == category
  }

  /** `products.find(p => p.id === parseInt(id))`. */
  function FindById(local: seq<Product>, id: IdArg): (r: Nullish<Product>)
    ensures r.Undefined? <==> ParseIdArg(id).None? ||
                              forall j :: 0 <= j < |local| ==> local[j].id != ParseIdArg(id).value
    ensures r.Has? ==> r.value in local && Some(r.value.id) == ParseIdArg(id)
    ensures r.Has? ==> exists i :: 0 <= i < |local| && local[i] == r.value &&
                        forall j :: 0 <= j < i ==> Some(local[j].id) != ParseIdArg(id)
  {
    Find(local, HasId(ParseIdArg(id)))
  }

  // ---------------------------------------------------------------------------
  // productService
  // ---------------------------------------------------------------------------

  /** `getAllProducts()`. */
  function GetAllProducts(client: Option<Client>, remote: Remote<seq<Product>>, local: seq<Product>)
    : (r: seq<Product>)
    ensures !IsConfigured(client) || remote.Err? ==> r == local
    ensures IsConfigured(client) && remote.Ok? ==> r == remote.data
  {
    ReadThrough(client, remote, local)
  }

  /** `getProductById(id)`: the remote `.single()` row, or the local lookup. */
  function GetProductById(client: Option<Client>, remote: Remote<Product>, local: seq<Product>, id: IdArg)
    : (r: Nullish<Product>)
    ensures !r.Null?
    ensures !IsConfigured(client) || remote.Err? ==> r == FindById(local, id)
    ensures IsConfigured(client) && remote.Ok? ==> r == Has(remote.data)
  {
    if IsConfigured(client) && remote.Ok? then Has(remote.data) else FindById(local, id)
  }

  /** `getProductsByCategory(category)`. */
  function GetProductsByCategory(client: Option<Client>, remote: Remote<seq<Product>>,
                                 local: seq<Product>, category: string): (r: seq<Product>)
    ensures !IsConfigured(client) || remote.Err? ==>
      && |r| <= |local|
      && (forall p ::
            && multiset(r)[p] == (if p.category == category then multiset(local)[p] else 0)
            && (p in r <==> p in local && p.category == category))
    ensures IsConfigured(client) && remote.Ok? ==> r == remote.data
  {
    var kept := Filter(local, InCategory(category));
    assert forall p ::
      && multiset(kept)[p] == (if p.category == category then multiset(local)[p] else 0)
      && (p in kept <==> p in local && p.category == category)
    by {
      forall p ensures multiset(kept)[p] == (if p.category == category then multiset(local)[p] else 0)
                    && (p in kept <==> p in local && p.category == category) {
        FilterCounts(local, InCategory(category), p);
      }
    }
    ReadThrough(client, remote, kept)
  }

  /** `addProduct(product)`: the inserted row, `null` on any failure. */
  function AddProduct(client: Option<Client>, remote: Remote<seq<Product>>): (r: Nullish<Product>)
    ensures r.Null? <==> !IsConfigured(client) || remote.Err?
    ensures r.Undefined? <==> IsConfigured(client) && remote == Ok([])
    ensures r.Has? ==> remote.Ok? && remote.data != [] && r.value == remote.data[0]
  {
    FirstRow(client, remote)
  }

  /** `updateProduct(id, updates)`: the updated row, `null` on any failure. */
  function UpdateProduct(client: Option<Client>, remote: Remote<seq<Product>>): (r: Nullish<Product>)
    ensures r.Null? <==> !IsConfigured(client) || remote.Err?
    ensures r.Undefined? <==> IsConfigured(client) && remote == Ok([])
    ensures r.Has? ==> remote.Ok? && remote.data != [] && r.value == remote.data[0]
  {
    FirstRow(client, remote)
  }

  /** `deleteProduct(id)`: whether the delete ran without error. */
  function DeleteProduct(client: Option<Client>, remote: Remote<()>): (deleted: bool)
    ensures deleted <==> IsConfigured(client) && remote.Ok?
  {
    IsConfigured(client) && remote.Ok?
  }

  // ---------------------------------------------------------------------------
  // categoryService and orderService
  // ---------------------------------------------------------------------------

  /** `getAllCategories()`. */
  function GetAllCategories(client: Option<Client>, remote: Remote<seq<Category>>, local: seq<Category>)
    : (r: seq<Category>)
    ensures !IsConfigured(client) || remote.Err? ==> r == local
    ensures IsConfigured(client) && remote.Ok? ==> r == remote.data
  {
    ReadThrough(client, remote, local)
  }

  /** `createOrder(orderData)`: the inserted order, `null` on any failure. */
  function CreateOrder(client: Option<Client>, remote: Remote<seq<Order>>): (r: Nullish<Order>)
    ensures r.Null? <==> !IsConfigured(client) || remote.Err?
    ensures r.Undefined? <==> IsConfigured(client) && remote == Ok([])
    ensures r.Has? ==> remote.Ok? && remote.data != [] && r.value == remote.data[0]
  {
    FirstRow(client, remote)
  }

  /** `getUserOrders(userId)`: the remote rows, `[]` on any failure. */
  function GetUserOrders(client: Option<Client>, remote: Remote<seq<Order>>): (r: seq<Order>)
    ensures !IsConfigured(client) || remote.Err? ==> r == []
    ensures IsConfigured(client) && remote.Ok? ==> r == remote.data
  {
    ReadThrough(client, remote, [])
  }

  // ---------------------------------------------------------------------------
  // Properties relating the operations
  // ---------------------------------------------------------------------------

  /** Without a client no read looks at the remote outcome: two outcomes give the same answers. */
  lemma UnconfiguredReadsIgnoreRemote(local: seq<Product>, cats: seq<Category>, id: IdArg, category: string,
                                      a: Remote<seq<Product>>, b: Remote<seq<Product>>,
                                      x: Remote<Product>, y: Remote<Product>,
                                      c: Remote<seq<Category>>, d: Remote<seq<Category>>)
    ensures GetAllProducts(None, a, local) == GetAllProducts(None, b, local) == local
    ensures GetProductById(None, x, local, id) == GetProductById(None, y, local, id)
    ensures GetProductsByCategory(None, a, local, category) == GetProductsByCategory(None, b, local, category)
    ensures GetAllCategories(None, c, cats) == GetAllCategories(None, d, cats) == cats
  {
  }

  /**
    Whenever the category read falls back, it is the full listing's
    fallback filtered by category, in the listing's order.
   */
  lemma CategoryFallbackFiltersListing(client: Option<Client>, remote: Remote<seq<Product>>,
                                       local: seq<Product>, category: string)
    requires !IsConfigured(client) || remote.Err?
    ensures GetProductsByCategory(client, remote, local, category)
         == Filter(GetAllProducts(client, remote, local), InCategory(category))
  {
  }

  /** A number and its decimal string find the same record, on every path. */
  lemma NumberAndStringIdsAgree(client: Option<Client>, remote: Remote<Product>, local: seq<Product>, n: int)
    ensures GetProductById(client, remote, local, Num(n))
         == GetProductById(client, remote, local, Text(IntToDecimal(n)))
  {
    ParseDecimal(n);
  }

  /** An id `parseInt` cannot read finds nothing locally. */
  lemma UnparsableIdFindsNothing(local: seq<Product>, s: string)
    requires ParseInt(s).None?
    ensures FindById(local, Text(s)) == Undefined
  {
  }

  /** With distinct ids, the local lookup of a record's id returns that record. */
  lemma LookupInDistinctIds(local: seq<Product>, i: nat)
    requires ProductIdsDistinct(local)
    requires i < |local|
    ensures FindById(local, Num(local[i].id)) == Has(local[i])
  {
    var p := HasId(Some(local[i].id));
    var j := FindIndex(local, p);
    assert p(local[i]);
    assert j <= i;
    assert local[j].id == local[i].id;
    assert j == i;
  }

  /** A lookup by a string holding a number's decimal numeral is the lookup by that number. */
  lemma LookupByNumeral(local: seq<Product>, n: int)
    ensures FindById(local, Text(IntToDecimal(n))) == FindById(local, Num(n))
  {
    ParseDecimal(n);
  }

  /** An id found in neither source reads as `undefined`, not as an error. */
  lemma MissingEverywhereIsUndefined(client: Option<Client>, local: seq<Product>, id: IdArg)
    requires forall j :: 0 <= j < |local| ==> Some(local[j].id) != ParseIdArg(id)
    ensures GetProductById(client, Err, local, id) == Undefined
  {
  }

  // ---------------------------------------------------------------------------
  // The compiled-in dataset seen through the services
  // ---------------------------------------------------------------------------

  /** In a list whose ids are its positions counted from 1, id `k` finds the `k`-th record. */
  lemma LookupByPosition(ps: seq<Product>, k: int)
    requires forall i :: 0 <= i < |ps| ==> ps[i].id == i + 1
    ensures 1 <= k <= |ps| ==> FindById(ps, Num(k)) == Has(ps[k - 1])
    ensures 1 <= k <= |ps| ==> FindById(ps, Text(IntToDecimal(k))) == Has(ps[k - 1])
    ensures !(1 <= k <= |ps|) ==> FindById(ps, Num(k)) == Undefined
  {
    LookupByNumeral(ps, k);
    if 1 <= k <= |ps| {
      LookupInDistinctIds(ps, k - 1);
    } else {
      assert ParseIdArg(Num(k)) == Some(k);
    }
  }

  /** Locally, `getProductById` finds product `k` for `k` in 1..6, by number or by string, and nothing else. */
  lemma FallbackLookup(k: int)
    ensures 1 <= k <= 6 ==> FindById(Products, Num(k)) == Has(Products[k - 1])
    ensures 1 <= k <= 6 ==> FindById(Products, Text(IntToDecimal(k))) == Has(Products[k - 1])
    ensures !(1 <= k <= 6) ==> FindById(Products, Num(k)) == Undefined
  {
    ProductIdsOneToSix();
    LookupByPosition(Products, k);
  }

  /** Locally, the `"decor"` category is products 4, 5 and 6, in that order. */
  lemma DecorFallback()
    ensures Filter(Products, InCategory("decor")) == Products[3..]
    ensures |Products[3..]| == 3
    ensures Products[3].id == 4 && Products[4].id == 5 && Products[5].id == 6
  {
    FallbackCategoryNames();
    ProductIdsOneToSix();
    FilterSplit(Products, 3, InCategory("decor"));
  }

  /** Locally, no product is in the `"textiles"` category, although it is listed. */
  lemma TextilesFallbackEmpty()
    ensures IsCategoryId(Categories, "textiles")
    ensures Filter(Products, InCategory("textiles")) == []
  {
    assert Categories[3].id == "textiles";
    FallbackCategoryNames();
    FilterDropsAll(Products, InCategory("textiles"));
  }
}
