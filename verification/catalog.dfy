/**
  The store's records and the compiled-in dataset (`data/products.js`) that
  every read falls back to. Prices are held in integer cents and ratings in
  tenths of a star, so `899.99` is `89999` and `4.5` is `45`.
 */
module Catalog {
  import opened Js

  datatype Product = Product(
    id: int,
    name: string,
    priceCents: int,
    image: string,
    category: string,
    description: string,
    ratingTenths: int,
    reviews: int,
    stockQuantity: Option<int>,   // absent in the compiled-in records
    isFeatured: Option<bool>)     // absent in the compiled-in records

  datatype Category = Category(id: string, name: string, icon: string)

  datatype OrderItem = OrderItem(productId: int, quantity: int)

  datatype Order = Order(id: int, userId: string, items: seq<OrderItem>)

  /** A compiled-in product: the dataset gives no stock or featured flag. */
  function Item(id: int, name: string, priceCents: int, image: string, category: string,
                description: string, ratingTenths: int, reviews: int): Product
  {
    Product(id, name, priceCents, image, category, description, ratingTenths, reviews, None, None)
  }

  const Products: seq<Product> := [
    Item(1, "Modern Sofa Set", 89999,
         "https://images.unsplash.com/photo-1555041469-a586c61ea9bc?w=500&q=80", "furniture",
         "Comfortable 3-piece sofa set perfect for modern living rooms", 45, 128),
    Item(2, "Coffee Table", 29999,
         "https://images.unsplash.com/photo-1549497538-303791108f95?w=500&q=80", "furniture",
         "Elegant wooden coffee table with storage compartments", 43, 89),
    Item(3, "Table Lamp", 7999,
         "https://images.unsplash.com/photo-1507473885765-e6ed057f782c?w=500&q=80", "lighting",
         "Modern minimalist table lamp with adjustable brightness", 47, 203),
    Item(4, "Decorative Vase", 4999,
         "https://images.unsplash.com/photo-1578662996442-48f60103fc96?w=500&q=80", "decor",
         "Handcrafted ceramic vase perfect for fresh flowers", 44, 156),
    Item(5, "Throw Pillows Set", 3999,
         "https://images.unsplash.com/photo-1586023492125-27b2c045efd7?w=500&q=80", "decor",
         "Set of 4 comfortable throw pillows in various colors", 46, 312),
    Item(6, "Wall Art Canvas", 12999,
         "https://images.unsplash.com/photo-1513475382585-d06e58bcb0e0?w=500&q=80", "decor",
         "Beautiful abstract canvas art to enhance your walls", 42, 95)
  ]

  const Categories: seq<Category> := [
    Category("furniture", "Furniture", "\U{1FA91}"),
    Category("lighting", "Lighting", "\U{1F4A1}"),
    Category("decor", "Decor", "\U{1F3FA}"),
    Category("textiles", "Textiles", "\U{1F6CF}\U{FE0F}")
  ]

  predicate ProductIdsDistinct(ps: seq<Product>) {
    forall i, j :: 0 <= i < j < |ps| ==> ps[i].id != ps[j].id
  }

  predicate CategoryIdsDistinct(cs: seq<Category>) {
    forall i, j :: 0 <= i < j < |cs| ==> cs[i].id != cs[j].id
  }

  predicate IsCategoryId(cs: seq<Category>, c: string) {
    exists j :: 0 <= j < |cs| && cs[j].id == c
  }

  /** Every product names a category that exists. */
  predicate CategoriesResolve(ps: seq<Product>, cs: seq<Category>) {
    forall i :: 0 <= i < |ps| ==> IsCategoryId(cs, ps[i].category)
  }

  /** Prices and counts are never negative and ratings lie between 0 and 5 stars. */
  predicate FiguresInRange(ps: seq<Product>) {
    forall i :: 0 <= i < |ps| ==>
      ps[i].priceCents >= 0 && ps[i].reviews >= 0 && 0 <= ps[i].ratingTenths <= 50
  }

  /** The invariants the store's data model states for any pair of product and category lists. */
  predicate Consistent(ps: seq<Product>, cs: seq<Category>) {
    ProductIdsDistinct(ps) && CategoryIdsDistinct(cs) && CategoriesResolve(ps, cs) && FiguresInRange(ps)
  }

  /** The compiled-in products carry ids 1 to 6, in that order. */
  lemma ProductIdsOneToSix()
    ensures |Products| == 6
    ensures forall i :: 0 <= i < |Products| ==> Products[i].id == i + 1
  {
  }

  /** The category each compiled-in product names: furniture, furniture, lighting, then decor. */
  lemma FallbackCategoryNames()
    ensures |Products| == 6
    ensures Products[0].category == "furniture" && Products[1].category == "furniture"
    ensures Products[2].category == "lighting"
    ensures forall i :: 3 <= i < 6 ==> Products[i].category == "decor"
  {
  }

  lemma FallbackProductIdsDistinct()
    ensures ProductIdsDistinct(Products)
  {
    ProductIdsOneToSix();
  }

  lemma FallbackCategoryIdsDistinct()
    ensures CategoryIdsDistinct(Categories)
  {
    assert Categories[0].id == "furniture" && Categories[1].id == "lighting";
    assert Categories[2].id == "decor" && Categories[3].id == "textiles";
  }

  /** Each compiled-in product's category is one of the first three categories. */
  lemma FallbackCategoriesResolve()
    ensures CategoriesResolve(Products, Categories)
  {
    forall i | 0 <= i < |Products| ensures IsCategoryId(Categories, Products[i].category) {
      var k := if i < 2 then 0 else if i == 2 then 1 else 2;
      assert Categories[k].id == Products[i].category;
    }
  }

  lemma FallbackFiguresInRange()
    ensures FiguresInRange(Products)
  {
  }

  /** The compiled-in dataset meets the data model's invariants. */
  lemma FallbackConsistent()
    ensures Consistent(Products, Categories)
  {
    FallbackProductIdsDistinct();
    FallbackCategoryIdsDistinct();
    FallbackCategoriesResolve();
    FallbackFiguresInRange();
  }
}
