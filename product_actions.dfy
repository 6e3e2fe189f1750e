/** The actions the product list reacts to, and their three creators. */
module ProductActions {
  import opened Products

  /** A tagged action. The three creators produce the first three tags;
      `Other` stands for any other tag the store delivers (its own
      initialisation action, say), which the reducer ignores. DELETE carries
      the list that is to remain, as its one caller builds it. */
  datatype Action =
    | Add(product: Product)
    | Update(product: Product)
    | Delete(remaining: seq<Product>)
    | Other

  /** `addProduct`: tagged ADD, payload passed through unchanged. */
  function AddProduct(p: Product): (a: Action)
    ensures a.Add? && a.product == p
  {
    Add(p)
  }

  /** `updateProduct`: tagged UPDATE, payload passed through unchanged. */
  function UpdateProduct(p: Product): (a: Action)
    ensures a.Update? && a.product == p
  {
    Update(p)
  }

  /** `deleteProduct`: tagged DELETE, payload passed through unchanged. */
  function DeleteProduct(remaining: seq<Product>): (a: Action)
    ensures a.Delete? && a.remaining == remaining
  {
    Delete(remaining)
  }
}
