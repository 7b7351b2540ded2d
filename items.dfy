/**
 * The records of the storefront: a catalog `Product` and a cart line item,
 * which is the product's fields with a `quantity` added (TypeScript's
 * `interface CartItem extends Product`), and the invariant the cart keeps.
 */
module Items {

  datatype Product = Product(id: int, name: string, price: int, image: string, description: string)

  /** The fields of a `Product`, spread into a new object, plus `quantity`. */
  datatype CartItem = CartItem(id: int, name: string, price: int, image: string, description: string,
                               quantity: int)

  /** `{ ...product, quantity: q }`: every product field is kept and the quantity is `q`. */
  function WithQuantity(p: Product, q: int): (item: CartItem)
    ensures ProductOf(item) == p && item.quantity == q
  {
    CartItem(p.id, p.name, p.price, p.image, p.description, q)
  }

  /** The product fields of a line item, without its quantity. */
  function ProductOf(item: CartItem): Product
  {
    Product(item.id, item.name, item.price, item.image, item.description)
  }

  /** A line item is its product fields and its quantity, nothing else. */
  lemma ItemRoundTrip(item: CartItem)
    ensures WithQuantity(ProductOf(item), item.quantity) == item
  {
  }

  /** Some row of the cart carries product id `id`. */
  predicate HasId(cart: seq<CartItem>, id: int)
  {
    exists i :: 0 <= i < |cart| && cart[i].id == id
  }

  /** At most one line item per product id. */
  ghost predicate DistinctIds(cart: seq<CartItem>)
  {
    forall i, j :: 0 <= i < j < |cart| ==> cart[i].id != cart[j].id
  }

  /** No line item is held with a quantity below 1. */
  ghost predicate AllPositive(cart: seq<CartItem>)
  {
    forall i :: 0 <= i < |cart| ==> cart[i].quantity >= 1
  }

  /** The cart invariant: distinct ids and quantities of at least 1. */
  ghost predicate ValidCart(cart: seq<CartItem>)
  {
    DistinctIds(cart) && AllPositive(cart)
  }

  /** Under distinct ids, two rows carry the same id exactly when they are the same row. */
  lemma SameIdSameRow(cart: seq<CartItem>, i: int, j: int)
    requires DistinctIds(cart)
    requires 0 <= i < |cart| && 0 <= j < |cart|
    ensures cart[i].id == cart[j].id <==> i == j
  {
  }

  /** Deleting one row keeps the cart invariant. */
  lemma ValidWithout(cart: seq<CartItem>, k: int)
    requires ValidCart(cart)
    requires 0 <= k < |cart|
    ensures ValidCart(cart[..k] + cart[k+1..])
  {
    var r := cart[..k] + cart[k+1..];
    assert forall i :: 0 <= i < |r| ==> r[i] == cart[if i < k then i else i + 1];
  }

  /** Dropping the first row keeps ids distinct. */
  lemma DistinctTail(cart: seq<CartItem>)
    requires DistinctIds(cart) && |cart| > 0
    ensures DistinctIds(cart[1..])
  {
    var tail := cart[1..];
    forall i, j | 0 <= i < j < |tail| ensures tail[i].id != tail[j].id {
      assert tail[i] == cart[i + 1] && tail[j] == cart[j + 1];
    }
  }

  /** Under distinct ids, the id of the first row appears nowhere after it. */
  lemma FirstIdNotInTail(cart: seq<CartItem>)
    requires DistinctIds(cart) && |cart| > 0
    ensures !HasId(cart[1..], cart[0].id)
  {
    var tail := cart[1..];
    forall i | 0 <= i < |tail| ensures tail[i].id != cart[0].id {
      assert tail[i] == cart[i + 1];
    }
  }
}
