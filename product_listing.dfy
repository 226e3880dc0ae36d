/**
 * The shop's product listing page (Product-Listing-Page/Frontend/components/Products.jsx):
 * a category filter, a maximum-price filter on the discounted price, and three
 * sort orders, applied to a copy of the fetched product list.
 *
 * The page's `useState` hooks are the fields of `ProductsPage`. The copy that the
 * source sorts in place with `Array.prototype.sort` is an array here, sorted in
 * place by insertion sort.
 */
module ProductListing {
  import opened Wrappers
  import opened ProductSchema

  // ---------------------------------------------------------------------------
  // Filters
  // ---------------------------------------------------------------------------

  /** `product.disc || 0`. */
  function DiscOrZero(p: Product): real {
    if p.disc.Some? then p.disc.value else 0.0
  }

  /** The category test; "All" lets every product through. */
  predicate InCategory(p: Product, category: string) {
    category == "All" || p.category == Some(category)
  }

  /** The price test: the discounted price is at most the slider value (no price: `NaN`, never). */
  predicate WithinPrice(p: Product, maxPrice: real) {
    p.price.Some? && FinalPrice(p.price.value, DiscOrZero(p)) <= maxPrice
  }

  function ByCategory(ps: seq<Product>, category: string): (r: seq<Product>)
    ensures |r| <= |ps|
  {
    if ps == [] then []
    else (if InCategory(ps[0], category) then [ps[0]] else []) + ByCategory(ps[1..], category)
  }

  function ByPrice(ps: seq<Product>, maxPrice: real): (r: seq<Product>)
    ensures |r| <= |ps|
  {
    if ps == [] then []
    else (if WithinPrice(ps[0], maxPrice) then [ps[0]] else []) + ByPrice(ps[1..], maxPrice)
  }

  /** The category step (skipped for "All"), then the price step. */
  function Filtered(ps: seq<Product>, category: string, maxPrice: real): seq<Product> {
    ByPrice(if category != "All" then ByCategory(ps, category) else ps, maxPrice)
  }

  lemma {:induction false} ByCategoryMembers(ps: seq<Product>, category: string)
    ensures forall p :: p in ByCategory(ps, category) <==> p in ps && InCategory(p, category)
  {
    if ps != [] {
      ByCategoryMembers(ps[1..], category);
      assert forall p :: p in ps <==> p == ps[0] || p in ps[1..];
    }
  }

  lemma {:induction false} ByPriceMembers(ps: seq<Product>, maxPrice: real)
    ensures forall p :: p in ByPrice(ps, maxPrice) <==> p in ps && WithinPrice(p, maxPrice)
  {
    if ps != [] {
      ByPriceMembers(ps[1..], maxPrice);
      assert forall p :: p in ps <==> p == ps[0] || p in ps[1..];
    }
  }

  /** Each product of the category is kept as often as it was fetched, and no other product is kept. */
  lemma {:induction false} ByCategoryCounts(ps: seq<Product>, category: string)
    ensures forall p ::
      multiset(ByCategory(ps, category))[p] == (if InCategory(p, category) then multiset(ps)[p] else 0)
  {
    if ps != [] {
      ByCategoryCounts(ps[1..], category);
      assert ps == [ps[0]] + ps[1..];
    }
  }

  /** Each product within the price is kept as often as it was fetched, and no other product is kept. */
  lemma {:induction false} ByPriceCounts(ps: seq<Product>, maxPrice: real)
    ensures forall p ::
      multiset(ByPrice(ps, maxPrice))[p] == (if WithinPrice(p, maxPrice) then multiset(ps)[p] else 0)
  {
    if ps != [] {
      ByPriceCounts(ps[1..], maxPrice);
      assert ps == [ps[0]] + ps[1..];
    }
  }

  /**
   * A product is listed iff it is in the fetched list, in the chosen category
   * (any, for "All"), and its discounted price is at most the maximum.
   */
  lemma FilteredMembers(ps: seq<Product>, category: string, maxPrice: real)
    ensures forall p :: p in Filtered(ps, category, maxPrice) <==>
      p in ps && InCategory(p, category) && WithinPrice(p, maxPrice)
  {
    ByCategoryMembers(ps, category);
    ByPriceMembers(if category != "All" then ByCategory(ps, category) else ps, maxPrice);
  }

  // ---------------------------------------------------------------------------
  // Sort orders
  // ---------------------------------------------------------------------------

  datatype SortMode = HighToLow | LowToHigh | Latest | Unsorted

  /** The `switch (sortBy)`: any value other than the three keys leaves the order alone. */
  function ModeOf(sortBy: string): SortMode {
    if sortBy == "htol" then HighToLow
    else if sortBy == "ltoh" then LowToHigh
    else if sortBy == "latest" then Latest
    else Unsorted
  }

  /** The price compared by the two price orders; every product that reaches the sort has a price. */
  function Key(p: Product): real {
    if p.price.Some? then FinalPrice(p.price.value, DiscOrZero(p)) else 0.0
  }

  /** Lexicographic order on ids (the `_id` strings are ASCII hex). */
  predicate LexLe(a: string, b: string) {
    a == [] || (b != [] && (a[0] < b[0] || (a[0] == b[0] && LexLe(a[1..], b[1..]))))
  }

  lemma {:induction false} LexLeTotal(a: string, b: string)
    ensures LexLe(a, b) || LexLe(b, a)
  {
    if a != [] && b != [] && a[0] == b[0] {
      LexLeTotal(a[1..], b[1..]);
    }
  }

  lemma {:induction false} LexLeTrans(a: string, b: string, c: string)
    requires LexLe(a, b) && LexLe(b, c)
    ensures LexLe(a, c)
  {
    if a != [] && a[0] == b[0] && b[0] == c[0] {
      LexLeTrans(a[1..], b[1..], c[1..]);
    }
  }

  /**
   * Whether `x` may come before `y` under the comparator: a comparator result
   * that is not positive. "htol" compares `priceB - priceA`, "ltoh" `priceA - priceB`,
   * "latest" `b._id.localeCompare(a._id)`.
   */
  predicate Before(mode: SortMode, x: Product, y: Product) {
    match mode
    case HighToLow => Key(y) <= Key(x)
    case LowToHigh => Key(x) <= Key(y)
    case Latest => LexLe(y.id, x.id)
    case Unsorted => true
  }

  lemma BeforeTotal(mode: SortMode, x: Product, y: Product)
    ensures Before(mode, x, y) || Before(mode, y, x)
  {
    if mode == Latest {
      LexLeTotal(x.id, y.id);
    }
  }

  lemma BeforeTrans(mode: SortMode, x: Product, y: Product, z: Product)
    requires Before(mode, x, y) && Before(mode, y, z)
    ensures Before(mode, x, z)
  {
    if mode == Latest {
      LexLeTrans(z.id, y.id, x.id);
    }
  }

  ghost predicate SortedBy(s: seq<Product>, mode: SortMode) {
    forall i, j :: 0 <= i < j < |s| ==> Before(mode, s[i], s[j])
  }

  /** Sorts `a` in place into the order of `mode`, keeping the same products. */
  method InsertionSort(a: array<Product>, mode: SortMode)
    modifies a
    ensures SortedBy(a[..], mode)
    ensures multiset(a[..]) == multiset(old(a[..]))
  {
    var i := 0;
    while i < a.Length
      invariant 0 <= i <= a.Length
      invariant SortedBy(a[..i], mode)
      invariant multiset(a[..]) == multiset(old(a[..]))
    {
      Insert(a, i, mode);
      i := i + 1;
    }
    assert a[..a.Length] == a[..];
  }

  /** Moves `a[i]` left into the sorted prefix `a[..i]`. */
  method Insert(a: array<Product>, i: nat, mode: SortMode)
    requires i < a.Length && SortedBy(a[..i], mode)
    modifies a
    ensures SortedBy(a[..i + 1], mode)
    ensures multiset(a[..]) == multiset(old(a[..]))
  {
    var j := i;
    while j > 0 && !Before(mode, a[j - 1], a[j])
      invariant 0 <= j <= i
      invariant forall k, l :: 0 <= k < l <= i && k != j && l != j ==> Before(mode, a[k], a[l])
      invariant forall l :: j < l <= i ==> Before(mode, a[j], a[l])
      invariant multiset(a[..]) == multiset(old(a[..]))
    {
      BeforeTotal(mode, a[j - 1], a[j]);
      Swap(a, j);
      j := j - 1;
    }
    forall k, l | 0 <= k < l <= i
      ensures Before(mode, a[k], a[l])
    {
      if l == j && k < j - 1 {
        BeforeTrans(mode, a[k], a[j - 1], a[j]);
      }
    }
  }

  /** Exchanges `a[j - 1]` and `a[j]`. */
  method Swap(a: array<Product>, j: nat)
    requires 0 < j < a.Length
    modifies a
    ensures a[..] == old(a[..])[j - 1 := old(a[j])][j := old(a[j - 1])]
    ensures multiset(a[..]) == multiset(old(a[..]))
  {
    a[j - 1], a[j] := a[j], a[j - 1];
  }

  // ---------------------------------------------------------------------------
  // The page
  // ---------------------------------------------------------------------------

  const MaxPriceLimit := 10000.0

  class ProductsPage {
    var maxPrice: real
    var category: string
    var sortBy: string
    var products: seq<Product>

    constructor()
      ensures maxPrice == MaxPriceLimit && category == "All" && sortBy == [] && products == []
    {
      maxPrice := MaxPriceLimit;
      category := "All";
      sortBy := [];
      products := [];
    }

    /** The fetched list arrives. */
    method ProductsLoaded(data: seq<Product>)
      modifies this
      ensures products == data
      ensures maxPrice == old(maxPrice) && category == old(category) && sortBy == old(sortBy)
    {
      products := data;
    }

    /** "Clear All Filters": the slider, category and sort go back to their start values. */
    method ClearFilters()
      modifies this
      ensures maxPrice == MaxPriceLimit && category == "All" && sortBy == []
      ensures products == old(products)
    {
      maxPrice := MaxPriceLimit;
      category := "All";
      sortBy := [];
    }

    /**
     * `getFilteredAndSortedProducts`: the filtered products, reordered by the
     * chosen sort. The page's own list is not touched; an unknown sort key keeps
     * the filtered order.
     */
    method GetFilteredAndSortedProducts() returns (r: seq<Product>)
      ensures multiset(r) == multiset(Filtered(products, category, maxPrice))
      ensures SortedBy(r, ModeOf(sortBy))
      ensures ModeOf(sortBy) == Unsorted ==> r == Filtered(products, category, maxPrice)
    {
      var filtered := Filtered(products, category, maxPrice);
      var mode := ModeOf(sortBy);
      if mode == Unsorted {
        return filtered;
      }
      var copy := new Product[|filtered|](i requires 0 <= i < |filtered| => filtered[i]);
      assert copy[..] == filtered;
      InsertionSort(copy, mode);
      r := copy[..];
    }
  }

  /** Every listed product passes both filters, whatever the sort. */
  lemma ListedProducts(ps: seq<Product>, category: string, maxPrice: real, r: seq<Product>)
    requires multiset(r) == multiset(Filtered(ps, category, maxPrice))
    ensures forall p :: p in r <==> p in ps && InCategory(p, category) && WithinPrice(p, maxPrice)
  {
    FilteredMembers(ps, category, maxPrice);
    assert forall p :: p in r <==> p in multiset(r);
    assert forall p :: p in Filtered(ps, category, maxPrice) <==> p in multiset(Filtered(ps, category, maxPrice));
  }
}
