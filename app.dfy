/** The product page's handlers: the edit-mode state machine (`editMode`,
    `editedProduct`), the delete filter that builds the DELETE payload, the
    field override of an input change, and the one-ADD-per-product loop run
    when the product list arrives. The store the page dispatches to is the
    field `products`, updated by the reducer on every dispatch. */
module App {
  import opened Products
  import opened ProductActions
  import opened ProductReducer

  datatype Option<T> = None | Some(value: T)

  /** An input event on one of the three editable fields, with its new value. */
  datatype FieldEdit =
    | SetTitle(title: string)
    | SetDescription(description: string)
    | SetPrice(price: int)

  /** `handleDelete`'s filter: the entries whose id is not `id`, in order. */
  function WithoutId(s: seq<Product>, id: int): (r: seq<Product>)
    ensures |r| <= |s|
    ensures Lacks(r, id)
    ensures forall x :: x in r <==> x in s && x.id != id
  {
    if s == [] then []
    else if s[0].id == id then WithoutId(s[1..], id)
    else [s[0]] + WithoutId(s[1..], id)
  }

  /** The filter distributes over concatenation, so the kept entries keep
      their relative order. */
  lemma {:induction false} WithoutIdAppend(a: seq<Product>, b: seq<Product>, id: int)
    ensures WithoutId(a + b, id) == WithoutId(a, id) + WithoutId(b, id)
  {
    if a == [] {
      assert a + b == b;
    } else {
      assert (a + b)[0] == a[0];
      assert (a + b)[1..] == a[1..] + b;
      WithoutIdAppend(a[1..], b, id);
    }
  }

  /** Filtering out an id that no entry has returns the list unchanged. */
  lemma {:induction false} WithoutAbsentId(s: seq<Product>, id: int)
    requires Lacks(s, id)
    ensures WithoutId(s, id) == s
  {
    if s != [] {
      WithoutAbsentId(s[1..], id);
      assert [s[0]] + s[1..] == s;
    }
  }

  /** Filtering keeps ids unique. */
  lemma {:induction false} WithoutIdKeepsUniqueIds(s: seq<Product>, id: int)
    requires UniqueIds(s)
    ensures UniqueIds(WithoutId(s, id))
  {
    if s != [] {
      assert UniqueIds(s[1..]) by {
        forall i, j | 0 <= i < j < |s[1..]| ensures s[1..][i].id != s[1..][j].id {
          assert s[1..][i] == s[i + 1] && s[1..][j] == s[j + 1];
        }
      }
      WithoutIdKeepsUniqueIds(s[1..], id);
      var rest := WithoutId(s[1..], id);
      if s[0].id != id {
        forall j | 0 <= j < |rest| ensures rest[j].id != s[0].id {
          assert rest[j] in s[1..];
          var k :| 0 <= k < |s[1..]| && s[1..][k] == rest[j];
          assert s[k + 1] == rest[j];
        }
        var r := [s[0]] + rest;
        forall i, j | 0 <= i < j < |r| ensures r[i].id != r[j].id {
          if i == 0 {
            assert r[j] == rest[j - 1];
          } else {
            assert r[i] == rest[i - 1] && r[j] == rest[j - 1];
          }
        }
      }
    }
  }

  /** Deleting by id, end to end: the reducer adopts the filtered list, so
      afterwards exactly the entries of another id remain. */
  lemma DeleteByIdRemovesOnlyThatId(s: seq<Product>, id: int)
    ensures Lacks(Reduce(s, DeleteProduct(WithoutId(s, id))), id)
    ensures forall x :: x in Reduce(s, DeleteProduct(WithoutId(s, id))) <==> x in s && x.id != id
  {
  }

  /** `handleInputChange`'s object spread: the named field takes the new
      value, every other field, the id included, is kept. */
  function WithField(p: Product, edit: FieldEdit): (q: Product)
    ensures q.id == p.id
    ensures q.title == if edit.SetTitle? then edit.title else p.title
    ensures q.description == if edit.SetDescription? then edit.description else p.description
    ensures q.price == if edit.SetPrice? then edit.price else p.price
  {
    match edit
    case SetTitle(t) => p.(title := t)
    case SetDescription(d) => p.(description := d)
    case SetPrice(n) => p.(price := n)
  }

  /** Two edits of the same field: the later one wins. */
  lemma WithFieldLastWins(p: Product, e1: FieldEdit, e2: FieldEdit)
    requires (e1.SetTitle? && e2.SetTitle?) || (e1.SetDescription? && e2.SetDescription?)
          || (e1.SetPrice? && e2.SetPrice?)
    ensures WithField(WithField(p, e1), e2) == WithField(p, e2)
  {
  }

  /** Edits of different fields commute. */
  lemma WithFieldCommutes(p: Product, e1: FieldEdit, e2: FieldEdit)
    requires !((e1.SetTitle? && e2.SetTitle?) || (e1.SetDescription? && e2.SetDescription?)
            || (e1.SetPrice? && e2.SetPrice?))
    ensures WithField(WithField(p, e1), e2) == WithField(WithField(p, e2), e1)
  {
  }

  /** The ADD actions the fetch callback dispatches, one per product, in order. */
  function AddsOf(ps: seq<Product>): seq<Action>
  {
    seq(|ps|, i requires 0 <= i < |ps| => AddProduct(ps[i]))
  }

  lemma AddsOfSnoc(ps: seq<Product>, p: Product)
    ensures AddsOf(ps + [p]) == AddsOf(ps) + [AddProduct(p)]
  {
  }

  /** Replaying one ADD per product appends the products in order. */
  lemma {:induction false} ReplayAddsAppends(state: seq<Product>, ps: seq<Product>)
    ensures Replay(state, AddsOf(ps)) == state + ps
    decreases ps
  {
    if ps == [] {
      assert AddsOf(ps) == [];
      assert state + ps == state;
    } else {
      assert AddsOf(ps)[0] == Add(ps[0]);
      assert AddsOf(ps)[1..] == AddsOf(ps[1..]);
      ReplayAddsAppends(state + [ps[0]], ps[1..]);
      assert state + [ps[0]] + ps[1..] == state + ps;
    }
  }

  /** From the initial state, the fetched list is exactly what the store holds. */
  lemma FetchFromInitialState(ps: seq<Product>)
    ensures Replay(InitialState(), AddsOf(ps)) == ps
  {
    ReplayAddsAppends(InitialState(), ps);
  }

  /** The product page: the store's list and the edit-mode state. */
  class ProductApp {
    var products: seq<Product>
    var editMode: bool
    var editedProduct: Option<Product>
    /** Every action dispatched to the store so far. */
    ghost var dispatched: seq<Action>

    /** Edit mode is on exactly when a product is being edited, and the store
        holds the reducer folded over what was dispatched. */
    ghost predicate Valid()
      reads this
    {
      (editMode <==> editedProduct.Some?) &&
      products == Replay(InitialState(), dispatched)
    }

    /** A row shows its inputs when it is the product being edited. */
    predicate EditingRow(p: Product)
      reads this
    {
      editMode && editedProduct.Some? && editedProduct.value.id == p.id
    }

    constructor ()
      ensures Valid()
      ensures products == InitialState() && dispatched == []
      ensures !editMode && editedProduct == None
    {
      products := InitialState();
      editMode := false;
      editedProduct := None;
      dispatched := [];
    }

    /** The store's `dispatch`: the reducer computes the next list. */
    method Dispatch(a: Action)
      requires Valid()
      modifies this
      ensures Valid()
      ensures products == Reduce(old(products), a)
      ensures dispatched == old(dispatched) + [a]
      ensures editMode == old(editMode) && editedProduct == old(editedProduct)
    {
      ReplaySnoc(InitialState(), dispatched, a);
      products := Reduce(products, a);
      dispatched := dispatched + [a];
    }

    /** `handleEdit`: enter edit mode on `p`; nothing is dispatched. */
    method HandleEdit(p: Product)
      requires Valid()
      modifies this
      ensures Valid()
      ensures editMode && editedProduct == Some(p)
      ensures products == old(products) && dispatched == old(dispatched)
    {
      editMode := true;
      editedProduct := Some(p);
    }

    /** `handleSave`: with a product being edited, dispatch one UPDATE
        carrying it and leave edit mode; otherwise do nothing. */
    method HandleSave()
      requires Valid()
      modifies this
      ensures Valid()
      ensures old(editedProduct).Some? ==>
        && dispatched == old(dispatched) + [UpdateProduct(old(editedProduct).value)]
        && products == Reduce(old(products), UpdateProduct(old(editedProduct).value))
        && !editMode && editedProduct == None
      ensures old(editedProduct).None? ==>
        && dispatched == old(dispatched) && products == old(products)
        && editMode == old(editMode) && editedProduct == old(editedProduct)
      ensures UniqueIds(old(products)) ==> UniqueIds(products)
    {
      if editedProduct.Some? {
        if UniqueIds(products) {
          UpdateKeepsUniqueIds(products, editedProduct.value);
        }
        Dispatch(UpdateProduct(editedProduct.value));
        editMode := false;
        editedProduct := None;
      }
    }

    /** `handleCancel`: leave edit mode; the list is untouched. */
    method HandleCancel()
      requires Valid()
      modifies this
      ensures Valid()
      ensures !editMode && editedProduct == None
      ensures products == old(products) && dispatched == old(dispatched)
    {
      editMode := false;
      editedProduct := None;
    }

    /** `handleDelete`: dispatch DELETE with the entries of other ids; the
        store then holds no entry with that id. */
    method HandleDelete(id: int)
      requires Valid()
      modifies this
      ensures Valid()
      ensures dispatched == old(dispatched) + [DeleteProduct(WithoutId(old(products), id))]
      ensures products == WithoutId(old(products), id)
      ensures Lacks(products, id)
      ensures UniqueIds(old(products)) ==> UniqueIds(products)
      ensures editMode == old(editMode) && editedProduct == old(editedProduct)
    {
      var remaining := WithoutId(products, id);
      if UniqueIds(products) {
        WithoutIdKeepsUniqueIds(products, id);
      }
      Dispatch(DeleteProduct(remaining));
    }

    /** `handleInputChange`: override one field of the product being edited;
        with none being edited, nothing happens. */
    method HandleInputChange(edit: FieldEdit)
      requires Valid()
      modifies this
      ensures Valid()
      ensures editedProduct ==
        if old(editedProduct).Some? then Some(WithField(old(editedProduct).value, edit)) else None
      ensures editMode == old(editMode)
      ensures products == old(products) && dispatched == old(dispatched)
      ensures forall p :: EditingRow(p) == old(EditingRow(p))
    {
      if editedProduct.Some? {
        editedProduct := Some(WithField(editedProduct.value, edit));
      }
    }

    /** The fetch callback: dispatch one ADD per fetched product, in order. */
    method ReceiveProducts(fetched: seq<Product>)
      requires Valid()
      modifies this
      ensures Valid()
      ensures dispatched == old(dispatched) + AddsOf(fetched)
      ensures products == old(products) + fetched
      ensures editMode == old(editMode) && editedProduct == old(editedProduct)
    {
      for i := 0 to |fetched|
        invariant Valid()
        invariant dispatched == old(dispatched) + AddsOf(fetched[..i])
        invariant products == old(products) + fetched[..i]
        invariant editMode == old(editMode) && editedProduct == old(editedProduct)
      {
        Dispatch(AddProduct(fetched[i]));
        assert fetched[..i + 1] == fetched[..i] + [fetched[i]];
        AddsOfSnoc(fetched[..i], fetched[i]);
      }
      assert fetched[..|fetched|] == fetched;
    }
  }

  /** One editing session on a freshly loaded page: the products arrive,
      the user edits row `k`, types a new title and saves. Ids being unique,
      row `k` gets the new title and nothing else in the list changes. */
  method EditTitleSession(fetched: seq<Product>, k: int, title: string)
    returns (final: seq<Product>)
    requires UniqueIds(fetched) && 0 <= k < |fetched|
    ensures |final| == |fetched|
    ensures final[k] == fetched[k].(title := title)
    ensures forall i :: 0 <= i < |fetched| && i != k ==> final[i] == fetched[i]
  {
    var page := new ProductApp();
    page.ReceiveProducts(fetched);
    page.HandleEdit(fetched[k]);
    page.HandleInputChange(SetTitle(title));
    page.HandleSave();
    UpdateOfPresentId(fetched, fetched[k].(title := title), k);
    final := page.products;
  }
}
