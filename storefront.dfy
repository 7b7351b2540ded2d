/**
 * The session state of the storefront page: the `cart` state cell of
 * src/pages/Index.tsx:90, replaced wholesale by each transition, the
 * checkout confirmation that empties it, and the guards the page renders
 * from it.
 */
module Storefront {
  import opened Items
  import Totals
  import Transitions
  import Catalog

  /** The checkout panel, with its confirm button, is rendered only for a cart with rows (line 209). */
  predicate CheckoutOffered(cart: seq<CartItem>)
  {
    |cart| > 0
  }

  /** The badge on the cart button is rendered only when the item count is positive (line 155). */
  predicate BadgeShown(cart: seq<CartItem>)
  {
    Totals.CartCount(cart) > 0
  }

  /** The sheet says the cart is empty when the item count is 0 (line 166). */
  predicate EmptyMessageShown(cart: seq<CartItem>)
  {
    Totals.CartCount(cart) == 0
  }

  /** With quantities of at least 1 the three guards agree: the empty-cart message appears exactly
      when checkout is not offered, and the badge exactly when it is. */
  lemma GuardsAgree(cart: seq<CartItem>)
    requires AllPositive(cart)
    ensures EmptyMessageShown(cart) <==> !CheckoutOffered(cart)
    ensures BadgeShown(cart) <==> CheckoutOffered(cart)
  {
    Totals.CountZeroIffEmpty(cart);
  }

  /** Under the catalog, re-adding a product raises `totalPrice` by that product's price whether it
      grows a row or appends one, since the row already there holds the same catalog product. */
  lemma AddCatalogProductPrice(cart: seq<CartItem>, product: Product)
    requires ValidCart(cart) && Catalog.RowsFromCatalog(cart)
    requires product in Catalog.Products
    ensures Totals.TotalPrice(Transitions.AddToCart(cart, product)) == Totals.TotalPrice(cart) + product.price
  {
    if HasId(cart, product.id) {
      var k :| 0 <= k < |cart| && cart[k].id == product.id;
      Transitions.AddExistingTotals(cart, product, k);
      Catalog.CatalogIdDetermines(ProductOf(cart[k]), product);
    } else {
      Transitions.AddAbsentTotals(cart, product);
    }
  }

  /** `addToCart` of a catalog product keeps every row a catalog product. */
  lemma AddKeepsCatalogRows(cart: seq<CartItem>, product: Product)
    requires Catalog.RowsFromCatalog(cart)
    requires product in Catalog.Products
    ensures Catalog.RowsFromCatalog(Transitions.AddToCart(cart, product))
  {
    var added := Transitions.AddToCart(cart, product);
    forall i | 0 <= i < |added| ensures ProductOf(added[i]) in Catalog.Products {
      if i < |cart| {
        assert ProductOf(added[i]) == ProductOf(cart[i]);
      } else {
        assert added[i] == WithQuantity(product, 1);
      }
    }
  }

  /** `removeFromCart` keeps every row a catalog product. */
  lemma RemoveKeepsCatalogRows(cart: seq<CartItem>, id: int)
    requires Catalog.RowsFromCatalog(cart)
    ensures Catalog.RowsFromCatalog(Transitions.RemoveFromCart(cart, id))
  {
    var removed := Transitions.RemoveFromCart(cart, id);
    forall i | 0 <= i < |removed| ensures ProductOf(removed[i]) in Catalog.Products {
      assert removed[i] in cart;
    }
  }

  /** `updateQuantity` keeps every row a catalog product. */
  lemma UpdateKeepsCatalogRows(cart: seq<CartItem>, id: int, delta: int)
    requires Catalog.RowsFromCatalog(cart)
    ensures Catalog.RowsFromCatalog(Transitions.UpdateQuantity(cart, id, delta))
  {
    var adjusted := Transitions.AdjustMatching(cart, id, delta);
    var updated := Transitions.UpdateQuantity(cart, id, delta);
    forall i | 0 <= i < |updated| ensures ProductOf(updated[i]) in Catalog.Products {
      var j :| 0 <= j < |adjusted| && adjusted[j] == updated[i];
      assert ProductOf(adjusted[j]) == ProductOf(cart[j]);
    }
  }

  /** The page's `cart` state cell. Its invariant: distinct ids, quantities of at least 1, and each
      row a catalog product with a quantity. */
  class CartState {
    var items: seq<CartItem>

    ghost predicate Valid()
      reads this
    {
      ValidCart(items) && Catalog.RowsFromCatalog(items)
    }

    /** `useState<CartItem[]>([])` */
    constructor ()
      ensures Valid() && items == []
    {
      items := [];
    }

    /** The Add button of a catalog card (line 292) calling `addToCart(product)`. */
    method AddToCart(product: Product)
      requires Valid() && product in Catalog.Products
      modifies this
      ensures Valid()
      ensures items == Transitions.AddToCart(old(items), product)
      ensures Totals.CartCount(items) == Totals.CartCount(old(items)) + 1
      ensures Totals.TotalPrice(items) == Totals.TotalPrice(old(items)) + product.price
    {
      Transitions.AddPreservesInvariant(items, product);
      AddCatalogProductPrice(items, product);
      AddKeepsCatalogRows(items, product);
      items := Transitions.AddToCart(items, product);
    }

    /** `removeFromCart(id)` */
    method RemoveFromCart(id: int)
      requires Valid()
      modifies this
      ensures Valid()
      ensures items == Transitions.RemoveFromCart(old(items), id)
      ensures !HasId(items, id)
    {
      Transitions.RemovePreservesInvariant(items, id);
      RemoveKeepsCatalogRows(items, id);
      items := Transitions.RemoveFromCart(items, id);
    }

    /** `updateQuantity(id, delta)`, called with -1 and +1 by the minus and plus buttons. */
    method UpdateQuantity(id: int, delta: int)
      requires Valid()
      modifies this
      ensures Valid()
      ensures items == Transitions.UpdateQuantity(old(items), id, delta)
      ensures |items| == |old(items)|
      ensures forall i :: 0 <= i < |items| ==> items[i].id == old(items)[i].id
    {
      Transitions.UpdatePreservesInvariant(items, id, delta);
      Transitions.UpdateRows(items, id, delta);
      UpdateKeepsCatalogRows(items, id, delta);
      items := Transitions.UpdateQuantity(items, id, delta);
    }

    /** The confirm button of the checkout panel (lines 218-222): it exists only while the cart has
        rows, and it empties the cart. */
    method ConfirmOrder()
      requires Valid() && CheckoutOffered(items)
      modifies this
      ensures Valid() && items == []
      ensures Totals.TotalPrice(items) == 0 && Totals.CartCount(items) == 0
    {
      items := [];
    }

    /** `totalPrice`, recomputed from the rows on every read. */
    method TotalPrice() returns (total: int)
      requires Valid()
      ensures total == Totals.Sum(Totals.LineTotal, items)
      ensures total >= 0
    {
      CatalogPricesNonNegative();
      Totals.TotalPriceNonNegative(items);
      total := Totals.TotalPrice(items);
    }

    /** `cartCount`, recomputed from the rows on every read; 0 exactly when the cart is empty. */
    method CartCount() returns (count: int)
      requires Valid()
      ensures count == Totals.Sum(Totals.LineQuantity, items)
      ensures count == 0 <==> items == []
      ensures count >= |items|
    {
      Totals.CountAtLeastRows(items);
      count := Totals.CartCount(items);
    }

    /** Rows taken from the catalog carry non-negative prices. */
    lemma CatalogPricesNonNegative()
      requires Valid()
      ensures forall i :: 0 <= i < |items| ==> items[i].price >= 0
    {
      Catalog.CatalogShape();
      forall i | 0 <= i < |items| ensures items[i].price >= 0 {
        var p := ProductOf(items[i]);
        assert p in Catalog.Products;
        var j :| 0 <= j < |Catalog.Products| && Catalog.Products[j] == p;
      }
    }
  }

  /** The sample session with catalog products 1 (price 850) and 2 (price 950): add product 1 twice
      and product 2 once, then press minus on product 1 twice. The first press lowers it to 1; the
      second leaves the cart as it is, since `updateQuantity` keeps a row whose quantity would drop
      to 0. */
  lemma SampleSession()
    ensures
      var p1 := Catalog.Products[0];
      var p2 := Catalog.Products[1];
      var c3 := Transitions.AddToCart(Transitions.AddToCart(Transitions.AddToCart([], p1), p1), p2);
      var c4 := Transitions.UpdateQuantity(c3, 1, -1);
      && c3 == [WithQuantity(p1, 2), WithQuantity(p2, 1)]
      && Totals.TotalPrice(c3) == 2650 && Totals.CartCount(c3) == 3
      && c4 == [WithQuantity(p1, 1), WithQuantity(p2, 1)] && Totals.TotalPrice(c4) == 1800
      && Transitions.UpdateQuantity(c4, 1, -1) == c4
  {
    var p1 := Catalog.Products[0];
    var p2 := Catalog.Products[1];
    SampleAdds(p1, p2);
    SampleFirstMinus(p1, p2);
    Transitions.UpdateToZeroIsNoOp([WithQuantity(p1, 1), WithQuantity(p2, 1)], 1, -1);
  }

  /** The three adds of the sample session. */
  lemma SampleAdds(p1: Product, p2: Product)
    requires p1.id == 1 && p1.price == 850 && p2.id == 2 && p2.price == 950
    ensures Transitions.AddToCart(Transitions.AddToCart(Transitions.AddToCart([], p1), p1), p2) ==
            [WithQuantity(p1, 2), WithQuantity(p2, 1)]
    ensures Totals.TotalPrice([WithQuantity(p1, 2), WithQuantity(p2, 1)]) == 2650
    ensures Totals.CartCount([WithQuantity(p1, 2), WithQuantity(p2, 1)]) == 3
  {
    var c1 := Transitions.AddToCart([], p1);
    Transitions.AddAbsent([], p1);
    var c2 := Transitions.AddToCart(c1, p1);
    Transitions.AddExisting(c1, p1, 0);
    assert c2 == [WithQuantity(p1, 2)];
    Transitions.AddAbsent(c2, p2);
    assert c2 + [WithQuantity(p2, 1)] == [WithQuantity(p1, 2), WithQuantity(p2, 1)];
    Totals.TotalsAppend([], WithQuantity(p1, 2));
    Totals.TotalsAppend(c2, WithQuantity(p2, 1));
  }

  /** The first minus press of the sample session. */
  lemma SampleFirstMinus(p1: Product, p2: Product)
    requires p1.id == 1 && p1.price == 850 && p2.id == 2 && p2.price == 950
    ensures Transitions.UpdateQuantity([WithQuantity(p1, 2), WithQuantity(p2, 1)], 1, -1) ==
            [WithQuantity(p1, 1), WithQuantity(p2, 1)]
    ensures Totals.TotalPrice([WithQuantity(p1, 1), WithQuantity(p2, 1)]) == 1800
  {
    var c3 := [WithQuantity(p1, 2), WithQuantity(p2, 1)];
    Transitions.UpdateReplacesRow(c3, 1, -1, 0);
    assert c3[0 := c3[0].(quantity := 1)] == [WithQuantity(p1, 1), WithQuantity(p2, 1)];
    assert [WithQuantity(p1, 1)] + [WithQuantity(p2, 1)] == [WithQuantity(p1, 1), WithQuantity(p2, 1)];
    Totals.TotalsAppend([], WithQuantity(p1, 1));
    Totals.TotalsAppend([WithQuantity(p1, 1)], WithQuantity(p2, 1));
  }

  /** The sample session driven through the page's state cell, ending with the checkout
      confirmation. What it returns follows from the contracts of `CartState` alone. */
  method SampleCheckout() returns (beforeCheckout: int, afterCheckout: int)
    ensures beforeCheckout == 1800 && afterCheckout == 0
  {
    var p1 := Catalog.Products[0];
    var p2 := Catalog.Products[1];
    SampleAdds(p1, p2);
    SampleFirstMinus(p1, p2);
    Transitions.UpdateToZeroIsNoOp([WithQuantity(p1, 1), WithQuantity(p2, 1)], 1, -1);
    var cart := new CartState();
    cart.AddToCart(p1);
    cart.AddToCart(p1);
    cart.AddToCart(p2);
    assert cart.items == [WithQuantity(p1, 2), WithQuantity(p2, 1)];
    cart.UpdateQuantity(1, -1);
    cart.UpdateQuantity(1, -1);
    assert cart.items == [WithQuantity(p1, 1), WithQuantity(p2, 1)];
    beforeCheckout := cart.TotalPrice();
    cart.ConfirmOrder();
    afterCheckout := cart.TotalPrice();
  }
}
