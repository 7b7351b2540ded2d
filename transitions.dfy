/**
 * The three cart transitions of src/pages/Index.tsx, each a function from
 * the previous cart to the next one, written as the source writes them:
 * `find`, `map` and `filter` over the rows, with object spread building
 * new rows and no row changed in place.
 */
module Transitions {
  import opened Wrappers
  import opened Items
  import opened Totals

  // ---------------------------------------------------------------- addToCart

  /** `cart.find(item => item.id === id)`: the first row carrying `id`, if any. */
  function Find(cart: seq<CartItem>, id: int): (r: Option<CartItem>)
    ensures r.None? <==> !HasId(cart, id)
    ensures r.Some? ==> exists k :: 0 <= k < |cart| && cart[k] == r.value && r.value.id == id &&
                                   forall i :: 0 <= i < k ==> cart[i].id != id
  {
    if cart == [] then None
    else if cart[0].id == id then Some(cart[0])
    else
      var r := Find(cart[1..], id);
      assert HasId(cart[1..], id) ==> HasId(cart, id) by {
        if HasId(cart[1..], id) {
          var i :| 0 <= i < |cart[1..]| && cart[1..][i].id == id;
          assert cart[i + 1].id == id;
        }
      }
      assert HasId(cart, id) ==> HasId(cart[1..], id) by {
        if HasId(cart, id) {
          var i :| 0 <= i < |cart| && cart[i].id == id;
          assert i > 0 && cart[1..][i - 1].id == id;
        }
      }
      if r.Some? then
        assert exists k :: 0 <= k < |cart| && cart[k] == r.value && r.value.id == id &&
                              forall i :: 0 <= i < k ==> cart[i].id != id by {
          var k :| 0 <= k < |cart[1..]| && cart[1..][k] == r.value && r.value.id == id &&
                   forall i :: 0 <= i < k ==> cart[1..][i].id != id;
          assert cart[k + 1] == r.value;
          forall i | 0 <= i < k + 1 ensures cart[i].id != id {
            if i > 0 { assert cart[i] == cart[1..][i - 1]; }
          }
        }
        r
      else
        r
  }

  /** The callback of the `map` at lines 97-101: a row carrying `id` gets one more, every other row
      is returned as it is; the product fields never change. */
  function Incremented(item: CartItem, id: int): (r: CartItem)
    ensures ProductOf(r) == ProductOf(item)
    ensures r.quantity == if item.id == id then item.quantity + 1 else item.quantity
  {
    if item.id == id then item.(quantity := item.quantity + 1) else item
  }

  /** The `map` at lines 97-101: every row carrying `id` gets one more, every other row is kept. */
  function IncrementMatching(cart: seq<CartItem>, id: int): (r: seq<CartItem>)
    ensures |r| == |cart|
    ensures forall i :: 0 <= i < |cart| ==>
              r[i] == if cart[i].id == id then cart[i].(quantity := cart[i].quantity + 1) else cart[i]
  {
    if cart == [] then [] else [Incremented(cart[0], id)] + IncrementMatching(cart[1..], id)
  }

  /** `addToCart(product)`, lines 93-104. */
  function AddToCart(cart: seq<CartItem>, product: Product): (r: seq<CartItem>)
    ensures HasId(cart, product.id) ==>
              |r| == |cart| &&
              forall i :: 0 <= i < |cart| ==>
                r[i] == if cart[i].id == product.id then cart[i].(quantity := cart[i].quantity + 1) else cart[i]
    ensures !HasId(cart, product.id) ==> r == cart + [WithQuantity(product, 1)]
  {
    var existing := Find(cart, product.id);
    if existing.Some? then IncrementMatching(cart, product.id)
    else cart + [WithQuantity(product, 1)]
  }

  /** Re-adding a product already in the cart (row `k`) raises that row's quantity by one and
      leaves the cart's length, its order and every other row as they were. */
  lemma AddExisting(cart: seq<CartItem>, product: Product, k: int)
    requires DistinctIds(cart)
    requires 0 <= k < |cart| && cart[k].id == product.id
    ensures AddToCart(cart, product) == cart[k := cart[k].(quantity := cart[k].quantity + 1)]
  {
    var r := AddToCart(cart, product);
    var expected := cart[k := cart[k].(quantity := cart[k].quantity + 1)];
    assert HasId(cart, product.id);
    forall i | 0 <= i < |cart| ensures r[i] == expected[i] {
      if i != k {
        SameIdSameRow(cart, i, k);
      }
    }
  }

  /** Adding a product not yet in the cart appends `{ ...product, quantity: 1 }` at the end. */
  lemma AddAbsent(cart: seq<CartItem>, product: Product)
    requires !HasId(cart, product.id)
    ensures AddToCart(cart, product) == cart + [WithQuantity(product, 1)]
  {
  }

  /** Re-adding the product of row `k` raises `cartCount` by one and `totalPrice` by that row's price. */
  lemma AddExistingTotals(cart: seq<CartItem>, product: Product, k: int)
    requires DistinctIds(cart)
    requires 0 <= k < |cart| && cart[k].id == product.id
    ensures CartCount(AddToCart(cart, product)) == CartCount(cart) + 1
    ensures TotalPrice(AddToCart(cart, product)) == TotalPrice(cart) + cart[k].price
  {
    AddExisting(cart, product, k);
    TotalsReplace(cart, k, cart[k].(quantity := cart[k].quantity + 1));
    Distributes(cart[k].price, cart[k].quantity, 1);
  }

  /** Adding a product not yet in the cart raises `cartCount` by one and `totalPrice` by its price. */
  lemma AddAbsentTotals(cart: seq<CartItem>, product: Product)
    requires !HasId(cart, product.id)
    ensures CartCount(AddToCart(cart, product)) == CartCount(cart) + 1
    ensures TotalPrice(AddToCart(cart, product)) == TotalPrice(cart) + product.price
  {
    TotalsAppend(cart, WithQuantity(product, 1));
  }

  /** `addToCart` keeps ids distinct and quantities at least 1, and raises `cartCount` by one. */
  lemma AddPreservesInvariant(cart: seq<CartItem>, product: Product)
    requires ValidCart(cart)
    ensures ValidCart(AddToCart(cart, product))
    ensures CartCount(AddToCart(cart, product)) == CartCount(cart) + 1
  {
    if HasId(cart, product.id) {
      var k :| 0 <= k < |cart| && cart[k].id == product.id;
      AddExisting(cart, product, k);
      AddExistingTotals(cart, product, k);
    } else {
      AddAbsentTotals(cart, product);
    }
  }

  // ----------------------------------------------------------- removeFromCart

  /** `removeFromCart(id)`, line 109: `cart.filter(item => item.id !== id)`. */
  function RemoveFromCart(cart: seq<CartItem>, id: int): (r: seq<CartItem>)
    ensures forall i :: 0 <= i < |r| ==> r[i] in cart && r[i].id != id
    ensures |r| <= |cart|
  {
    if cart == [] then []
    else if cart[0].id != id then [cart[0]] + RemoveFromCart(cart[1..], id)
    else RemoveFromCart(cart[1..], id)
  }

  /** Every row not carrying `id` survives the removal. */
  lemma {:induction false} RemoveKeepsOthers(cart: seq<CartItem>, id: int, x: CartItem)
    requires x in cart && x.id != id
    ensures x in RemoveFromCart(cart, id)
  {
    if cart[0] != x {
      assert x in cart[1..];
      RemoveKeepsOthers(cart[1..], id, x);
    }
  }

  /** An id not in the cart leaves the cart unchanged. */
  lemma {:induction false} RemoveAbsent(cart: seq<CartItem>, id: int)
    requires !HasId(cart, id)
    ensures RemoveFromCart(cart, id) == cart
  {
    if cart != [] {
      assert !HasId(cart[1..], id) by {
        forall i | 0 <= i < |cart[1..]| ensures cart[1..][i].id != id {
          assert cart[1..][i] == cart[i + 1];
        }
      }
      RemoveAbsent(cart[1..], id);
      assert cart == [cart[0]] + cart[1..];
    }
  }

  /** Removing the row `k` that carries `id` deletes exactly that row; the rows before and after it
      keep their order. */
  lemma {:induction false} RemoveRow(cart: seq<CartItem>, id: int, k: int)
    requires DistinctIds(cart)
    requires 0 <= k < |cart| && cart[k].id == id
    ensures RemoveFromCart(cart, id) == cart[..k] + cart[k+1..]
  {
    if k == 0 {
      FirstIdNotInTail(cart);
      RemoveAbsent(cart[1..], id);
    } else {
      SameIdSameRow(cart, 0, k);
      DistinctTail(cart);
      RemoveRow(cart[1..], id, k - 1);
      SliceTail(cart, k);
    }
  }

  /** Deleting row `k > 0` and then putting the first row back in front is deleting it from the cart. */
  lemma SliceTail(cart: seq<CartItem>, k: int)
    requires 0 < k < |cart|
    ensures [cart[0]] + (cart[1..][..k-1] + cart[1..][k..]) == cart[..k] + cart[k+1..]
  {
    assert cart[1..][..k-1] == cart[1..k];
    assert cart[1..][k..] == cart[k+1..];
    assert [cart[0]] + cart[1..k] == cart[..k];
  }

  /** Removing twice is removing once. */
  lemma RemoveIdempotent(cart: seq<CartItem>, id: int)
    ensures RemoveFromCart(RemoveFromCart(cart, id), id) == RemoveFromCart(cart, id)
  {
    RemoveAbsent(RemoveFromCart(cart, id), id);
  }

  /** `removeFromCart` keeps the cart invariant and lowers `cartCount` and `totalPrice` by the
      removed row's share. */
  lemma RemovePreservesInvariant(cart: seq<CartItem>, id: int)
    requires ValidCart(cart)
    ensures ValidCart(RemoveFromCart(cart, id))
    ensures forall k :: 0 <= k < |cart| && cart[k].id == id ==>
              CartCount(RemoveFromCart(cart, id)) == CartCount(cart) - cart[k].quantity &&
              TotalPrice(RemoveFromCart(cart, id)) == TotalPrice(cart) - cart[k].price * cart[k].quantity
  {
    forall k | 0 <= k < |cart| && cart[k].id == id
      ensures CartCount(RemoveFromCart(cart, id)) == CartCount(cart) - cart[k].quantity
      ensures TotalPrice(RemoveFromCart(cart, id)) == TotalPrice(cart) - cart[k].price * cart[k].quantity
    {
      RemoveRow(cart, id, k);
      TotalsWithout(cart, k);
    }
    if HasId(cart, id) {
      var k :| 0 <= k < |cart| && cart[k].id == id;
      RemoveRow(cart, id, k);
      ValidWithout(cart, k);
    } else {
      RemoveAbsent(cart, id);
    }
  }

  // ----------------------------------------------------------- updateQuantity

  /** The callback of the `map` at lines 115-120: the row carrying `id` takes the new quantity
      when it is positive and is returned unchanged otherwise; other rows are returned as they are. */
  function Adjusted(item: CartItem, id: int, delta: int): (r: CartItem)
    ensures ProductOf(r) == ProductOf(item)
    ensures item.id == id && item.quantity + delta > 0 ==> r.quantity == item.quantity + delta
    ensures !(item.id == id && item.quantity + delta > 0) ==> r == item
    ensures item.quantity > 0 ==> r.quantity > 0
  {
    if item.id == id then
      var newQuantity := item.quantity + delta;
      if newQuantity > 0 then item.(quantity := newQuantity) else item
    else item
  }

  /** The `map` at lines 115-120. */
  function AdjustMatching(cart: seq<CartItem>, id: int, delta: int): (r: seq<CartItem>)
    ensures |r| == |cart|
    ensures forall i :: 0 <= i < |cart| ==> r[i] == Adjusted(cart[i], id, delta)
  {
    if cart == [] then [] else [Adjusted(cart[0], id, delta)] + AdjustMatching(cart[1..], id, delta)
  }

  /** The `filter` of line 121: keeps the rows whose quantity is positive. */
  function KeepPositive(cart: seq<CartItem>): (r: seq<CartItem>)
    ensures forall i :: 0 <= i < |r| ==> r[i] in cart && r[i].quantity > 0
    ensures |r| <= |cart|
  {
    if cart == [] then []
    else if cart[0].quantity > 0 then [cart[0]] + KeepPositive(cart[1..])
    else KeepPositive(cart[1..])
  }

  /** `updateQuantity(id, delta)`, lines 113-123: the `map` with the callback of line 118, then the
      `filter` of line 121. The result holds no row with a quantity below 1, and from a cart whose
      quantities are all at least 1 it drops no row. */
  function UpdateQuantity(cart: seq<CartItem>, id: int, delta: int): (r: seq<CartItem>)
    ensures forall i :: 0 <= i < |r| ==> r[i].quantity > 0
    ensures |r| <= |cart|
    ensures AllPositive(cart) ==> |r| == |cart|
  {
    AdjustedFilterKeepsAll(cart, id, delta);
    KeepPositive(AdjustMatching(cart, id, delta))
  }

  /** From a cart whose quantities are all at least 1, the `map` of lines 115-120 keeps them so, and
      the `filter` of line 121 then returns what the `map` produced. */
  lemma AdjustedFilterKeepsAll(cart: seq<CartItem>, id: int, delta: int)
    ensures AllPositive(cart) ==> AllPositive(AdjustMatching(cart, id, delta))
    ensures AllPositive(cart) ==> KeepPositive(AdjustMatching(cart, id, delta)) == AdjustMatching(cart, id, delta)
  {
    var adjusted := AdjustMatching(cart, id, delta);
    if AllPositive(cart) {
      assert AllPositive(adjusted) by {
        forall i | 0 <= i < |adjusted| ensures adjusted[i].quantity >= 1 {
          assert adjusted[i] == Adjusted(cart[i], id, delta);
        }
      }
      KeepPositiveKeepsAll(adjusted);
    }
  }

  /** Every row with a positive quantity survives the filter of line 121. */
  lemma {:induction false} KeepPositiveKeepsPositive(cart: seq<CartItem>, x: CartItem)
    requires x in cart && x.quantity > 0
    ensures x in KeepPositive(cart)
  {
    if cart[0] != x {
      assert x in cart[1..];
      KeepPositiveKeepsPositive(cart[1..], x);
    }
  }

  /** When every quantity is already positive, the filter of line 121 keeps every row. */
  lemma {:induction false} KeepPositiveKeepsAll(cart: seq<CartItem>)
    requires AllPositive(cart)
    ensures KeepPositive(cart) == cart
  {
    if cart != [] {
      assert AllPositive(cart[1..]) by {
        forall i | 0 <= i < |cart[1..]| ensures cart[1..][i].quantity >= 1 {
          assert cart[1..][i] == cart[i + 1];
        }
      }
      KeepPositiveKeepsAll(cart[1..]);
      assert cart == [cart[0]] + cart[1..];
    }
  }

  /** Given quantities of at least 1, `updateQuantity` removes no row and reorders nothing: the row
      carrying `id` takes `quantity + delta` exactly when that is positive and otherwise keeps its
      old quantity, and every other row is untouched. */
  lemma UpdateRows(cart: seq<CartItem>, id: int, delta: int)
    requires AllPositive(cart)
    ensures |UpdateQuantity(cart, id, delta)| == |cart|
    ensures forall i :: 0 <= i < |cart| ==>
              var r := UpdateQuantity(cart, id, delta);
              (cart[i].id == id && cart[i].quantity + delta > 0 ==>
                 r[i] == cart[i].(quantity := cart[i].quantity + delta)) &&
              (cart[i].id != id || cart[i].quantity + delta <= 0 ==> r[i] == cart[i])
  {
    AdjustedFilterKeepsAll(cart, id, delta);
  }

  /** Under the cart invariant, a change to row `k` that stays positive replaces that one row. */
  lemma UpdateReplacesRow(cart: seq<CartItem>, id: int, delta: int, k: int)
    requires ValidCart(cart)
    requires 0 <= k < |cart| && cart[k].id == id && cart[k].quantity + delta > 0
    ensures UpdateQuantity(cart, id, delta) == cart[k := cart[k].(quantity := cart[k].quantity + delta)]
  {
    UpdateRows(cart, id, delta);
    var r := UpdateQuantity(cart, id, delta);
    var expected := cart[k := cart[k].(quantity := cart[k].quantity + delta)];
    forall i | 0 <= i < |cart| ensures r[i] == expected[i] {
      SameIdSameRow(cart, i, k);
    }
  }

  /** `updateQuantity` keeps ids distinct and quantities at least 1. */
  lemma UpdatePreservesInvariant(cart: seq<CartItem>, id: int, delta: int)
    requires ValidCart(cart)
    ensures ValidCart(UpdateQuantity(cart, id, delta))
  {
    UpdateRows(cart, id, delta);
    var r := UpdateQuantity(cart, id, delta);
    assert forall i :: 0 <= i < |cart| ==> r[i].id == cart[i].id && r[i].quantity >= 1;
  }

  /** `updateQuantity` moves `cartCount` by `delta` and `totalPrice` by `price * delta` when it
      changes the row carrying `id`. */
  lemma UpdateTotals(cart: seq<CartItem>, id: int, delta: int, k: int)
    requires ValidCart(cart)
    requires 0 <= k < |cart| && cart[k].id == id && cart[k].quantity + delta > 0
    ensures CartCount(UpdateQuantity(cart, id, delta)) == CartCount(cart) + delta
    ensures TotalPrice(UpdateQuantity(cart, id, delta)) == TotalPrice(cart) + cart[k].price * delta
  {
    UpdateReplacesRow(cart, id, delta, k);
    TotalsReplace(cart, k, cart[k].(quantity := cart[k].quantity + delta));
    Distributes(cart[k].price, cart[k].quantity, delta);
  }

  /** Given quantities of at least 1, an id not in the cart leaves the cart unchanged. */
  lemma UpdateAbsent(cart: seq<CartItem>, id: int, delta: int)
    requires AllPositive(cart)
    requires !HasId(cart, id)
    ensures UpdateQuantity(cart, id, delta) == cart
  {
    UpdateRows(cart, id, delta);
  }

  /** A change that would take the row to 0 or below leaves the whole cart unchanged: lowering a
      quantity-1 row by one removes nothing and keeps its quantity at 1. */
  lemma UpdateToZeroIsNoOp(cart: seq<CartItem>, id: int, delta: int)
    requires AllPositive(cart)
    requires forall k :: 0 <= k < |cart| && cart[k].id == id ==> cart[k].quantity + delta <= 0
    ensures UpdateQuantity(cart, id, delta) == cart
  {
    UpdateRows(cart, id, delta);
  }
}
