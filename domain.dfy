/** The identifiers the estimator works with. */
module Domain {

  /** A NUTS-3 region of the country, as an index 0..n-1 into the fixed region universe. */
  type Region = nat

  /** A product name. */
  type Product = string

  /** An ordered (origin, destination) region pair. */
  datatype Pair = Pair(origin: Region, destination: Region)

  /** A (product, region) index label of a production or consumption table. */
  datatype Site = Site(product: Product, region: Region)
}
