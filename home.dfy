/**
 * The catalogue page: the search-and-type filter over the product list, the
 * list of product ids named by the download rows passed to the page, and the product
 * grid that hands each shown product its ownership flag.
 */
module Home {
  import opened Wrappers
  import opened Schema
  import opened Text
  import ProductCard

  /** The three filter buttons: "All Products", "Free" and "Premium". */
  datatype FilterType = All | Only(productType: ProductType)

  // ---------------------------------------------------------------------
  // Catalogue filter
  // ---------------------------------------------------------------------

  /** `term` occurs in `s` once both are lower-cased. */
  ghost predicate ContainsIgnoringCase(s: string, term: string) {
    exists i :: OccursAt(Lower(s), Lower(term), i)
  }

  /**
   * The search half of the filter: the lower-cased term occurs in the
   * lower-cased title, or in the lower-cased description when there is one.
   */
  function MatchesSearch(p: Product, searchTerm: string): (m: bool)
    ensures m <==> ContainsIgnoringCase(p.title, searchTerm)
                   || (p.description.Some? && ContainsIgnoringCase(p.description.value, searchTerm))
    ensures p.description.None? ==> (m <==> ContainsIgnoringCase(p.title, searchTerm))
  {
    var term := Lower(searchTerm);
    IncludesIff(Lower(p.title), term);
    Includes(Lower(p.title), term) ||
      match p.description
      case None => false
      case Some(d) => IncludesIff(Lower(d), term); Includes(Lower(d), term)
  }

  /** The type half of the filter. */
  function MatchesFilter(p: Product, filterType: FilterType): (m: bool)
    ensures filterType.All? ==> m
    ensures filterType.Only? ==> (m <==> p.productType == filterType.productType)
  {
    filterType == All || filterType == Only(p.productType)
  }

  /** The per-product test of the filter. */
  function Keep(p: Product, searchTerm: string, filterType: FilterType): (k: bool)
    ensures k <==> (ContainsIgnoringCase(p.title, searchTerm)
                    || (p.description.Some? && ContainsIgnoringCase(p.description.value, searchTerm)))
                   && (filterType.All? || filterType.productType == p.productType)
  {
    MatchesSearch(p, searchTerm) && MatchesFilter(p, filterType)
  }

  /** `products.filter(...)`: the products passing both tests, in catalogue order. */
  function FilteredProducts(products: seq<Product>, searchTerm: string, filterType: FilterType): (kept: seq<Product>)
    ensures |kept| <= |products|
    ensures forall p :: p in kept <==> p in products && Keep(p, searchTerm, filterType)
  {
    if products == [] then []
    else
      var rest := FilteredProducts(products[1..], searchTerm, filterType);
      if Keep(products[0], searchTerm, filterType) then [products[0]] + rest else rest
  }

  /** `xs` is obtained from `ys` by deleting elements, without reordering. */
  ghost predicate IsSubsequence<T>(xs: seq<T>, ys: seq<T>)
    decreases |ys|
  {
    if xs == [] then true
    else if ys == [] then false
    else (xs[0] == ys[0] && IsSubsequence(xs[1..], ys[1..])) || IsSubsequence(xs, ys[1..])
  }

  /** The filter only drops products: the result is a subsequence of the catalogue. */
  lemma {:induction false} FilterIsSubsequence(products: seq<Product>, searchTerm: string, filterType: FilterType)
    ensures IsSubsequence(FilteredProducts(products, searchTerm, filterType), products)
  {
    if products != [] {
      FilterIsSubsequence(products[1..], searchTerm, filterType);
    }
  }

  /** Each kept product appears exactly as often as in the catalogue; each other product not at all. */
  lemma {:induction false} FilterCounts(products: seq<Product>, searchTerm: string, filterType: FilterType, p: Product)
    ensures multiset(FilteredProducts(products, searchTerm, filterType))[p]
         == if Keep(p, searchTerm, filterType) then multiset(products)[p] else 0
  {
    if products != [] {
      FilterCounts(products[1..], searchTerm, filterType, p);
      assert products == [products[0]] + products[1..];
    }
  }

  /** Filtering an already filtered list with the same term and type changes nothing. */
  lemma {:induction false} FilterIdempotent(products: seq<Product>, searchTerm: string, filterType: FilterType)
    ensures var once := FilteredProducts(products, searchTerm, filterType);
            FilteredProducts(once, searchTerm, filterType) == once
  {
    if products != [] {
      FilterIdempotent(products[1..], searchTerm, filterType);
      var rest := FilteredProducts(products[1..], searchTerm, filterType);
      if Keep(products[0], searchTerm, filterType) {
        assert ([products[0]] + rest)[1..] == rest;
      }
    }
  }

  /** An empty search under "All Products" shows the whole catalogue, unchanged. */
  lemma {:induction false} EmptySearchShowsAll(products: seq<Product>)
    ensures FilteredProducts(products, "", All) == products
  {
    if products != [] {
      EmptySearchShowsAll(products[1..]);
      IncludesEmpty(Lower(products[0].title));
      assert products == [products[0]] + products[1..];
    }
  }

  /** Two search terms that agree once lower-cased select the same products. */
  lemma {:induction false} FilterIgnoresCase(products: seq<Product>, term1: string, term2: string, filterType: FilterType)
    requires Lower(term1) == Lower(term2)
    ensures FilteredProducts(products, term1, filterType) == FilteredProducts(products, term2, filterType)
  {
    if products != [] {
      FilterIgnoresCase(products[1..], term1, term2, filterType);
      assert MatchesSearch(products[0], term1) == MatchesSearch(products[0], term2);
    }
  }

  /** In particular, a term and its lower-cased form give the same result. */
  lemma SearchTermCaseIrrelevant(products: seq<Product>, searchTerm: string, filterType: FilterType)
    ensures FilteredProducts(products, searchTerm, filterType)
         == FilteredProducts(products, Lower(searchTerm), filterType)
  {
    LowerIdempotent(searchTerm);
    FilterIgnoresCase(products, searchTerm, Lower(searchTerm), filterType);
  }

  /** Under the "Free" or "Premium" button every shown product has that type. */
  lemma FilterByTypeOnly(products: seq<Product>, searchTerm: string, t: ProductType)
    ensures forall p :: p in FilteredProducts(products, searchTerm, Only(t)) ==> p.productType == t
  {
  }

  /** "Free" and "Premium" split what "All Products" shows: the counts add up. */
  lemma {:induction false} FreeAndPaidPartitionAll(products: seq<Product>, searchTerm: string)
    ensures |FilteredProducts(products, searchTerm, All)|
         == |FilteredProducts(products, searchTerm, Only(Free))|
          + |FilteredProducts(products, searchTerm, Only(Paid))|
  {
    if products != [] {
      FreeAndPaidPartitionAll(products[1..], searchTerm);
      assert products[0].productType == Free || products[0].productType == Paid;
    }
  }

  // ---------------------------------------------------------------------
  // Ownership
  // ---------------------------------------------------------------------

  /** The `product_id` column of the user's download rows, in row order. */
  function ProductIds(rows: seq<UserDownload>): (ids: seq<string>)
    ensures |ids| == |rows|
    ensures forall i :: 0 <= i < |rows| ==> ids[i] == rows[i].productId
    ensures forall id :: id in ids <==> exists r :: r in rows && r.productId == id
  {
    if rows == [] then []
    else [rows[0].productId] + ProductIds(rows[1..])
  }

  /** `data?.map(d => d.product_id) || []`: a null result gives no ids. */
  function UserDownloadIds(data: Option<seq<UserDownload>>): (ids: seq<string>)
    ensures data.None? ==> ids == []
    ensures data.Some? ==> |ids| == |data.value|
    ensures data.Some? ==> forall i :: 0 <= i < |ids| ==> ids[i] == data.value[i].productId
  {
    match data
    case None => []
    case Some(rows) => ProductIds(rows)
  }

  /** `userDownloads.includes(id)`: a scan of the id list from the front. */
  function ListIncludes(userDownloads: seq<string>, id: string): (found: bool)
    ensures found <==> id in userDownloads
  {
    if userDownloads == [] then false
    else userDownloads[0] == id || ListIncludes(userDownloads[1..], id)
  }

  /** The ownership flag passed to a product's card. */
  function UserHasAccess(userDownloads: seq<string>, p: Product): (owned: bool)
    ensures owned <==> p.id in userDownloads
  {
    ListIncludes(userDownloads, p.id)
  }

  /** A product is owned exactly when one of the download rows passed to the page names it. */
  lemma AccessIffDownloadRow(data: Option<seq<UserDownload>>, p: Product)
    ensures UserHasAccess(UserDownloadIds(data), p)
        <==> data.Some? && exists r :: r in data.value && r.productId == p.id
  {
  }

  // ---------------------------------------------------------------------
  // Product grid
  // ---------------------------------------------------------------------

  /** The cards of the grid: one per filtered product, in order, each told whether it is owned. */
  function ProductGrid(products: seq<Product>, searchTerm: string, filterType: FilterType,
                       userDownloads: seq<string>): (cards: seq<ProductCard.CardView>)
    ensures |cards| == |FilteredProducts(products, searchTerm, filterType)| <= |products|
    ensures var shown := FilteredProducts(products, searchTerm, filterType);
            forall i :: 0 <= i < |cards| ==>
              cards[i] == ProductCard.Render(shown[i], Some(UserHasAccess(userDownloads, shown[i])))
  {
    var shown := FilteredProducts(products, searchTerm, filterType);
    seq(|shown|, i requires 0 <= i < |shown| =>
      ProductCard.Render(shown[i], Some(UserHasAccess(userDownloads, shown[i]))))
  }

  /**
   * On the page, a card carries the OWNED badge and offers "Download" exactly
   * when one of the download rows passed to the page names its product.
   */
  lemma GridShowsOwnership(products: seq<Product>, searchTerm: string, filterType: FilterType,
                           data: Option<seq<UserDownload>>, i: nat)
    requires i < |FilteredProducts(products, searchTerm, filterType)|
    ensures var p := FilteredProducts(products, searchTerm, filterType)[i];
            var card := ProductGrid(products, searchTerm, filterType, UserDownloadIds(data))[i];
            && (card.ownedBadge <==> data.Some? && exists r :: r in data.value && r.productId == p.id)
            && (card.actionLabel == "Download" <==> card.ownedBadge)
  {
    var p := FilteredProducts(products, searchTerm, filterType)[i];
    AccessIffDownloadRow(data, p);
  }
}
