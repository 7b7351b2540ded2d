/**
 * The two derived values of the cart, recomputed from the rows on every
 * render with `Array.prototype.reduce` (src/pages/Index.tsx:125-126).
 */
module Totals {
  import opened Items

  /** `cart.reduce(step, acc)`: a left fold that feeds each row, first to last, into `step`. */
  function Reduce(step: (int, CartItem) -> int, acc: int, cart: seq<CartItem>): int
    decreases |cart|
  {
    if cart == [] then acc else Reduce(step, step(acc, cart[0]), cart[1..])
  }

  /** Reference definition: the sum of `term(row)` over the rows. */
  function Sum(term: CartItem -> int, cart: seq<CartItem>): int
  {
    if cart == [] then 0 else term(cart[0]) + Sum(term, cart[1..])
  }

  /** A fold whose step adds `term(row)` to the running sum computes `acc + Sum(term, cart)`. */
  lemma {:induction false} ReduceIsSum(step: (int, CartItem) -> int, term: CartItem -> int,
                                        acc: int, cart: seq<CartItem>)
    requires forall s, item :: step(s, item) == s + term(item)
    ensures Reduce(step, acc, cart) == acc + Sum(term, cart)
    decreases |cart|
  {
    if cart != [] {
      ReduceIsSum(step, term, step(acc, cart[0]), cart[1..]);
    }
  }

  /** Sums split over concatenation. */
  lemma {:induction false} SumAppend(term: CartItem -> int, a: seq<CartItem>, b: seq<CartItem>)
    ensures Sum(term, a + b) == Sum(term, a) + Sum(term, b)
  {
    if a == [] {
      assert a + b == b;
    } else {
      assert (a + b)[1..] == a[1..] + b;
      SumAppend(term, a[1..], b);
    }
  }

  /** Sums of a non-negative term are non-negative. */
  lemma {:induction false} SumNonNegative(term: CartItem -> int, cart: seq<CartItem>)
    requires forall i :: 0 <= i < |cart| ==> term(cart[i]) >= 0
    ensures Sum(term, cart) >= 0
  {
    if cart != [] {
      SumNonNegative(term, cart[1..]);
    }
  }

  function LineTotal(item: CartItem): int { item.price * item.quantity }

  function LineQuantity(item: CartItem): int { item.quantity }

  /** The reducer of line 125: `(sum, item) => sum + item.price * item.quantity`. */
  function PriceStep(sum: int, item: CartItem): int { sum + item.price * item.quantity }

  /** The reducer of line 126: `(sum, item) => sum + item.quantity`. */
  function CountStep(sum: int, item: CartItem): int { sum + item.quantity }

  /** `totalPrice`: the sum of `price * quantity` over the rows. */
  function TotalPrice(cart: seq<CartItem>): (total: int)
    ensures total == Sum(LineTotal, cart)
  {
    ReduceIsSum(PriceStep, LineTotal, 0, cart);
    Reduce(PriceStep, 0, cart)
  }

  /** `cartCount`: the sum of the quantities over the rows. */
  function CartCount(cart: seq<CartItem>): (count: int)
    ensures count == Sum(LineQuantity, cart)
  {
    ReduceIsSum(CountStep, LineQuantity, 0, cart);
    Reduce(CountStep, 0, cart)
  }

  /** Both totals of the empty cart are 0. */
  lemma EmptyTotals()
    ensures TotalPrice([]) == 0 && CartCount([]) == 0
  {
  }

  /** Appending one row adds that row's share to both totals. */
  lemma TotalsAppend(cart: seq<CartItem>, item: CartItem)
    ensures TotalPrice(cart + [item]) == TotalPrice(cart) + item.price * item.quantity
    ensures CartCount(cart + [item]) == CartCount(cart) + item.quantity
  {
    SumAppend(LineTotal, cart, [item]);
    SumAppend(LineQuantity, cart, [item]);
  }

  /** Removing row `k` subtracts that row's share from both totals. */
  lemma TotalsWithout(cart: seq<CartItem>, k: int)
    requires 0 <= k < |cart|
    ensures TotalPrice(cart[..k] + cart[k+1..]) == TotalPrice(cart) - cart[k].price * cart[k].quantity
    ensures CartCount(cart[..k] + cart[k+1..]) == CartCount(cart) - cart[k].quantity
  {
    assert cart == cart[..k] + ([cart[k]] + cart[k+1..]);
    SumAppend(LineTotal, cart[..k], [cart[k]] + cart[k+1..]);
    SumAppend(LineQuantity, cart[..k], [cart[k]] + cart[k+1..]);
    SumAppend(LineTotal, cart[..k], cart[k+1..]);
    SumAppend(LineQuantity, cart[..k], cart[k+1..]);
  }

  /** Replacing row `k` by `item` changes each total by the difference of the two rows' shares. */
  lemma TotalsReplace(cart: seq<CartItem>, k: int, item: CartItem)
    requires 0 <= k < |cart|
    ensures TotalPrice(cart[k := item]) ==
            TotalPrice(cart) - cart[k].price * cart[k].quantity + item.price * item.quantity
    ensures CartCount(cart[k := item]) == CartCount(cart) - cart[k].quantity + item.quantity
  {
    var updated := cart[k := item];
    assert cart == cart[..k] + ([cart[k]] + cart[k+1..]);
    assert updated == cart[..k] + ([item] + cart[k+1..]);
    SumAppend(LineTotal, cart[..k], [cart[k]] + cart[k+1..]);
    SumAppend(LineQuantity, cart[..k], [cart[k]] + cart[k+1..]);
    SumAppend(LineTotal, cart[..k], [item] + cart[k+1..]);
    SumAppend(LineQuantity, cart[..k], [item] + cart[k+1..]);
  }

  /** Multiplication distributes over addition: `price * (quantity + delta)` splits into the old
      line total and `price * delta`. */
  lemma Distributes(a: int, b: int, c: int)
    ensures a * (b + c) == a * b + a * c
  {
  }

  /** With every quantity at least 1 the item count is at least the number of rows. */
  lemma {:induction false} CountAtLeastRows(cart: seq<CartItem>)
    requires AllPositive(cart)
    ensures CartCount(cart) >= |cart|
  {
    if cart != [] {
      assert AllPositive(cart[1..]) by {
        forall i | 0 <= i < |cart| - 1 ensures cart[1..][i].quantity >= 1 {
          assert cart[1..][i] == cart[i + 1];
        }
      }
      CountAtLeastRows(cart[1..]);
    }
  }

  /** With every quantity at least 1, the item count is 0 exactly when the cart has no rows. */
  lemma CountZeroIffEmpty(cart: seq<CartItem>)
    requires AllPositive(cart)
    ensures CartCount(cart) == 0 <==> cart == []
    ensures CartCount(cart) > 0 <==> cart != []
  {
    CountAtLeastRows(cart);
  }

  /** With non-negative prices and positive quantities the total price is never negative. */
  lemma TotalPriceNonNegative(cart: seq<CartItem>)
    requires AllPositive(cart)
    requires forall i :: 0 <= i < |cart| ==> cart[i].price >= 0
    ensures TotalPrice(cart) >= 0
  {
    forall i | 0 <= i < |cart| ensures LineTotal(cart[i]) >= 0 {
      assert cart[i].price >= 0 && cart[i].quantity >= 1;
    }
    SumNonNegative(LineTotal, cart);
  }
}
