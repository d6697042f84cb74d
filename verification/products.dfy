/** The catalog record shared by the cart and the catalog query. */
module Products {

  /** A product as the generator builds it: id, name, description, price,
      image URL, category, rating and stock. Prices are exact reals; the
      source stores them as IEEE doubles, whose rounding is not modelled. */
  datatype Product = Product(
    id: int,
    name: string,
    description: string,
    price: real,
    image: string,
    category: string,
    rating: int,
    stock: int)

  /** A value that may be missing: a JavaScript `undefined` or `null`. */
  datatype Option<+T> = None | Some(value: T)
}
