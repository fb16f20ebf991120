/** The product grid as far as selection is concerned: one card per shown
    product, carrying the product id and whether it is marked selected. */
module Grid {

  import opened Catalog
  import opened Selection

  /** A rendered card: its `data-id` and whether it has the `selected` class. */
  datatype Card = Card(id: string, selected: bool)

  /** The highlight pass over the grid: a card is marked selected exactly
      when some selected product has the card's id. */
  function Highlight(cards: seq<Card>, sel: seq<Product>): (r: seq<Card>)
    ensures |r| == |cards|
    ensures forall i :: 0 <= i < |r| ==> r[i].id == cards[i].id
    ensures Matches(r, sel)
  {
    seq(|cards|, i requires 0 <= i < |cards| => Card(cards[i].id, Find(sel, cards[i].id).Some?))
  }

  /** Every card's marker agrees with the selection. */
  predicate Matches(cards: seq<Card>, sel: seq<Product>)
  {
    forall i :: 0 <= i < |cards| ==> (cards[i].selected <==> HasId(sel, cards[i].id))
  }

  /** Running the highlight pass again changes nothing. */
  lemma HighlightIdempotent(cards: seq<Card>, sel: seq<Product>)
    ensures Highlight(Highlight(cards, sel), sel) == Highlight(cards, sel)
  {
  }

  /** The highlight pass is the identity exactly on grids that already match the selection. */
  lemma HighlightFixesMatching(cards: seq<Card>, sel: seq<Product>)
    ensures Highlight(cards, sel) == cards <==> Matches(cards, sel)
  {
    if Matches(cards, sel) {
      var r := Highlight(cards, sel);
      forall i | 0 <= i < |cards| ensures r[i] == cards[i] {
      }
    }
  }

  /** After a card click and the highlight pass, exactly the clicked
      product's cards change their marker; every other card keeps it. */
  lemma HighlightAfterToggle(cards: seq<Card>, sel: seq<Product>, p: Product)
    ensures forall i :: 0 <= i < |cards| ==>
      Highlight(cards, Toggle(sel, p))[i].selected ==
        if cards[i].id == p.id then !Highlight(cards, sel)[i].selected else Highlight(cards, sel)[i].selected
  {
  }

  /** The grid rendered for `products`: one card per product, in order, then highlighted. */
  function Show(products: seq<Product>, sel: seq<Product>): (r: seq<Card>)
    ensures |r| == |products|
    ensures forall i :: 0 <= i < |r| ==> r[i].id == products[i].id
    ensures Matches(r, sel)
  {
    var blank := seq(|products|, i requires 0 <= i < |products| => Card(products[i].id, false));
    Highlight(blank, sel)
  }
}
