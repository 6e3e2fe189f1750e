/** The product reducer: the pure transition from the current product list
    and an action to the next product list, and the store's state as the
    reducer folded over the actions dispatched so far. */
module ProductReducer {
  import opened Products
  import opened ProductActions

  /** The state the store starts from: no products, so trivially no
      duplicate ids. */
  function InitialState(): (s: seq<Product>)
    ensures |s| == 0 && UniqueIds(s)
  {
    []
  }

  /** The UPDATE branch's `map`: every entry whose id is the payload's id is
      replaced by the payload; the others pass through. */
  function ReplaceMatching(state: seq<Product>, p: Product): (r: seq<Product>)
    ensures |r| == |state|
    ensures forall i :: 0 <= i < |state| ==> r[i] == if state[i].id == p.id then p else state[i]
  {
    if state == [] then []
    else [if state[0].id == p.id then p else state[0]] + ReplaceMatching(state[1..], p)
  }

  /** The reducer, branch by branch: ADD appends, UPDATE replaces every
      match in place, DELETE adopts its payload whatever the state was, and
      any other tag leaves the state as it is. */
  function Reduce(state: seq<Product>, action: Action): (r: seq<Product>)
    ensures action.Add? ==>
      |r| == |state| + 1 && r[..|state|] == state && r[|state|] == action.product
    ensures action.Update? ==>
      |r| == |state| &&
      forall i :: 0 <= i < |state| ==>
        r[i] == if state[i].id == action.product.id then action.product else state[i]
    ensures action.Delete? ==> r == action.remaining
    ensures action.Other? ==> r == state
  {
    match action
    case Add(p) => state + [p]
    case Update(p) => ReplaceMatching(state, p)
    case Delete(remaining) => remaining
    case Other => state
  }

  /** The store's state after dispatching `actions` in order from `state`. */
  function Replay(state: seq<Product>, actions: seq<Action>): seq<Product>
    decreases actions
  {
    if actions == [] then state else Replay(Reduce(state, actions[0]), actions[1..])
  }

  /** Dispatching one more action reduces the state reached so far. */
  lemma {:induction false} ReplaySnoc(state: seq<Product>, actions: seq<Action>, a: Action)
    ensures Replay(state, actions + [a]) == Reduce(Replay(state, actions), a)
    decreases actions
  {
    if actions == [] {
      assert actions + [a] == [a];
    } else {
      assert (actions + [a])[1..] == actions[1..] + [a];
      ReplaySnoc(Reduce(state, actions[0]), actions[1..], a);
    }
  }

  /** The creators composed with the reducer: ADD is append, DELETE is
      replacement by the payload. */
  lemma AddProductAppends(state: seq<Product>, p: Product)
    ensures Reduce(state, AddProduct(p)) == state + [p]
  {
  }

  lemma DeleteProductAdoptsPayload(state: seq<Product>, remaining: seq<Product>)
    ensures Reduce(state, DeleteProduct(remaining)) == remaining
  {
  }

  /** UPDATE keeps the sequence of ids as it was. */
  lemma UpdatePreservesIds(state: seq<Product>, p: Product)
    ensures Ids(Reduce(state, Update(p))) == Ids(state)
  {
  }

  /** Hence UPDATE keeps ids unique. */
  lemma UpdateKeepsUniqueIds(state: seq<Product>, p: Product)
    requires UniqueIds(state)
    ensures UniqueIds(Reduce(state, Update(p)))
  {
  }

  /** UPDATE with an id that no entry has changes nothing. */
  lemma UpdateOfAbsentIdIsIdentity(state: seq<Product>, p: Product)
    requires Lacks(state, p.id)
    ensures Reduce(state, Update(p)) == state
  {
  }

  /** UPDATE with the id of entry `k`, ids being unique: entry `k` becomes
      the payload and every other entry stays as it was. */
  lemma UpdateOfPresentId(state: seq<Product>, p: Product, k: int)
    requires UniqueIds(state)
    requires 0 <= k < |state| && state[k].id == p.id
    ensures |Reduce(state, Update(p))| == |state|
    ensures Reduce(state, Update(p))[k] == p
    ensures forall i :: 0 <= i < |state| && i != k ==> Reduce(state, Update(p))[i] == state[i]
  {
  }

  /** ADD of a product whose id is new keeps ids unique. */
  lemma AddKeepsUniqueIds(state: seq<Product>, p: Product)
    requires UniqueIds(state) && Lacks(state, p.id)
    ensures UniqueIds(Reduce(state, Add(p)))
  {
  }

  /** Two ADDs from the empty list and an UPDATE of the first product. */
  lemma AddAddUpdateScenario()
    ensures
      var a := Product(1, "A", "d", 10);
      var b := Product(2, "B", "e", 20);
      var a2 := Product(1, "A2", "d", 15);
      Replay(InitialState(), [Add(a), Add(b), Update(a2)]) == [a2, b]
  {
    var a := Product(1, "A", "d", 10);
    var b := Product(2, "B", "e", 20);
    var a2 := Product(1, "A2", "d", 15);
    var actions := [Add(a), Add(b), Update(a2)];
    assert actions[1..] == [Add(b), Update(a2)] && actions[1..][1..] == [Update(a2)];
    assert Reduce(InitialState(), Add(a)) == [a];
    assert Reduce([a], Add(b)) == [a, b];
    assert Reduce([a, b], Update(a2)) == [a2, b];
    calc {
      Replay(InitialState(), actions);
      Replay([a], [Add(b), Update(a2)]);
      Replay([a, b], [Update(a2)]);
      Replay([a2, b], []);
    }
  }
}
