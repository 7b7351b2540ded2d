/** The static product catalog of src/pages/Index.tsx:25-68. */
module Catalog {
  import opened Items

  const PeonyImage := "https://cdn.poehali.dev/files/672fd281-fed2-4926-8701-66ba1e95e09a.jpg"
  const ScorpioImage := "https://cdn.poehali.dev/files/ed76217a-855a-4612-b216-ecf4675c0e43.jpg"

  const Products: seq<Product> := [
    Product(1, "Открытка \"Пион\"", 850, PeonyImage,
            "Нежная открытка с вышивкой розового пиона на изумрудном фоне"),
    Product(2, "Открытка \"Скорпион\"", 950, ScorpioImage,
            "Яркая открытка с вышитым золотым скорпионом в стиле знаков зодиака"),
    Product(3, "Открытка \"Пион\"", 850, PeonyImage,
            "Элегантная открытка с пышным цветком пиона"),
    Product(4, "Открытка \"Скорпион\"", 950, ScorpioImage,
            "Стильная открытка со знаком зодиака Скорпион"),
    Product(5, "Открытка \"Пион\"", 850, PeonyImage,
            "Ароматная открытка с изысканным пионом"),
    Product(6, "Открытка \"Скорпион\"", 950, ScorpioImage,
            "Волшебная открытка с мистическим скорпионом")
  ]

  /** The catalog's ids are 1 to 6, in order, and its prices are non-negative. */
  lemma CatalogShape()
    ensures |Products| == 6
    ensures forall i :: 0 <= i < |Products| ==> Products[i].id == i + 1 && Products[i].price >= 0
  {
  }

  /** Two catalog products with the same id are the same product. */
  lemma CatalogIdDetermines(p: Product, q: Product)
    requires p in Products && q in Products
    requires p.id == q.id
    ensures p == q
  {
    CatalogShape();
    var i :| 0 <= i < |Products| && Products[i] == p;
    var j :| 0 <= j < |Products| && Products[j] == q;
    assert i == j;
  }

  /** Every row of the cart is a catalog product with a quantity added. */
  ghost predicate RowsFromCatalog(cart: seq<CartItem>)
  {
    forall i :: 0 <= i < |cart| ==> ProductOf(cart[i]) in Products
  }
}
