/** The product catalogue and the category filter applied to it. */
module Catalog {

  import opened Seqs

  /** One entry of the catalogue. Products are identified by `id` and never mutated. */
  datatype Product = Product(
    id: string,
    name: string,
    brand: string,
    category: string,
    description: string,
    image: string
  )

  /** The filter callback of the category-change handler: strict string equality. */
  function InCategory(category: string): Product -> bool
  {
    (p: Product) => p.category == category
  }

  /** The products shown after choosing `category`: those whose category is
      exactly `category`, in catalogue order, each as often as in the catalogue. */
  function FilterByCategory(products: seq<Product>, category: string): (r: seq<Product>)
    ensures IsSubsequence(r, products)
    ensures forall i :: 0 <= i < |r| ==> r[i].category == category
    ensures forall p :: p in r <==> p in products && p.category == category
    ensures forall p :: multiset(r)[p] == if p.category == category then multiset(products)[p] else 0
  {
    Keep(products, InCategory(category))
  }

  /** The filter's result is determined by its contract: any order-preserving
      subsequence with exactly the matching products is the filter's result. */
  lemma FilterByCategoryIsUnique(products: seq<Product>, category: string, r: seq<Product>)
    requires IsSubsequence(r, products)
    requires forall p :: multiset(r)[p] == if p.category == category then multiset(products)[p] else 0
    ensures r == FilterByCategory(products, category)
  {
    KeepIsUnique(products, InCategory(category), r);
  }

  /** Filtering a catalogue made of two parts filters each part in place. */
  lemma FilterByCategoryConcat(a: seq<Product>, b: seq<Product>, category: string)
    ensures FilterByCategory(a + b, category) == FilterByCategory(a, category) + FilterByCategory(b, category)
  {
    KeepConcat(a, b, InCategory(category));
  }

  /** Filtering the shown list again by the same category changes nothing. */
  lemma FilterByCategoryIdempotent(products: seq<Product>, category: string)
    ensures FilterByCategory(FilterByCategory(products, category), category) == FilterByCategory(products, category)
  {
  }
}
