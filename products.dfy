/** The product record that the reducer stores and the view edits, and the
    identity facts about product lists that the other modules state. */
module Products {

  /** One catalogue entry; `id` is its identity key. */
  datatype Product = Product(id: int, title: string, description: string, price: int)

  /** The ids of a list, position by position. */
  function Ids(s: seq<Product>): seq<int>
  {
    seq(|s|, i requires 0 <= i < |s| => s[i].id)
  }

  /** No two entries of the list share an id. */
  predicate UniqueIds(s: seq<Product>)
  {
    forall i, j :: 0 <= i < j < |s| ==> s[i].id != s[j].id
  }

  /** No entry of the list has the given id. */
  predicate Lacks(s: seq<Product>, id: int)
  {
    forall i :: 0 <= i < |s| ==> s[i].id != id
  }
}
