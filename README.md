# Product list state container

A model of the client-side state of a small product catalogue page: a list
of products (`id`, `title`, `description`, `price`) held by a store and
changed only through three tagged actions, plus the page's handlers that
build and dispatch those actions.

- `products.dfy` (module `Products`): the `Product` record and the
  predicates `UniqueIds` (no two entries share an id) and `Lacks` (no entry
  has a given id).
- `product_actions.dfy` (module `ProductActions`): the action sum type
  `Add(product) | Update(product) | Delete(remaining) | Other` and the three
  creators `AddProduct`, `UpdateProduct`, `DeleteProduct`. `deleteProduct`
  is declared with a numeric `productId` parameter, but its only caller
  passes it the already-filtered product list, and the reducer adopts that
  payload as the new state. The model follows the call, so DELETE carries a
  `seq<Product>`. `Other` stands for every tag the reducer does not know.
- `product_reducer.dfy` (module `ProductReducer`): `InitialState`, the
  reducer `Reduce` with the UPDATE branch's `map` as `ReplaceMatching`, and
  `Replay`, the store's state after a sequence of dispatches (the reducer
  folded over them from a given state). The lemmas state what each branch
  means for the list and for unique ids.
- `app.dfy` (module `App`): the pure parts of the page's handlers as
  functions (`WithoutId` is the delete filter, `WithField` the field
  override of an input change). The stateful part is the class `ProductApp`.
  It has the store's list `products`, the edit state `editMode` and
  `editedProduct`, and a ghost history `dispatched` of every action sent to
  the store. Its invariant `Valid()` says two things. Edit mode is on
  exactly when a product is being edited. The list is `Replay` of the
  history from the initial state. Each handler is a method that keeps
  `Valid()` and states its whole new state. `ReceiveProducts` is the fetch
  callback's loop, which sends one ADD per fetched product.
  `EditTitleSession` composes the handlers end to end.

The code has no presence or positivity check on title, description or
price before any dispatch, and the model adds none. A guard of that kind is
sometimes described for this page, but it is not in the code.

## Model

| member | source | states |
|---|---|---|
| ProductActions.AddProduct | src/actions/productActions.ts:3-6 | the action is tagged ADD and carries the product unchanged; total |
| ProductActions.UpdateProduct | src/actions/productActions.ts:8-11 | the action is tagged UPDATE and carries the product unchanged; total |
| ProductActions.DeleteProduct | src/actions/productActions.ts:13-16 | the action is tagged DELETE and carries its payload (the remaining list) unchanged; total |
| ProductReducer.InitialState | src/reducers/productReducer.ts:15 | the store starts with no products, which trivially has unique ids |
| ProductReducer.ReplaceMatching | src/reducers/productReducer.ts:22-24 | same length; each position holds the payload if the old entry's id equals the payload's id, else the old entry; every match is replaced, not just the first |
| ProductReducer.Reduce | src/reducers/productReducer.ts:17-30 | ADD: one longer, old entries unchanged and in order, payload last; UPDATE: pointwise replacement of every match; DELETE: the payload, whatever the state; any other tag: the state unchanged |
| ProductReducer.AddProductAppends | src/reducers/productReducer.ts:19-20 | reducing an `addProduct(p)` action yields `state + [p]` |
| ProductReducer.DeleteProductAdoptsPayload | src/reducers/productReducer.ts:25-26 | reducing a `deleteProduct(rest)` action yields `rest`, regardless of the previous state |
| ProductReducer.UpdatePreservesIds | src/reducers/productReducer.ts:21-24 | UPDATE leaves the sequence of ids exactly as it was |
| ProductReducer.UpdateKeepsUniqueIds | src/reducers/productReducer.ts:21-24 | if ids were unique before an UPDATE they are unique after it |
| ProductReducer.UpdateOfAbsentIdIsIdentity | src/reducers/productReducer.ts:21-24 | UPDATE with an id no entry has returns the list with the same content |
| ProductReducer.UpdateOfPresentId | src/reducers/productReducer.ts:21-24 | with unique ids and entry k carrying the payload's id, UPDATE puts the payload at k and leaves every other entry as it was |
| ProductReducer.AddKeepsUniqueIds | src/reducers/productReducer.ts:19-20 | ADD of a product whose id is absent keeps ids unique |
| ProductReducer.AddAddUpdateScenario | src/reducers/productReducer.ts:17-30 | from the empty list, ADD {1,A,d,10}, ADD {2,B,e,20}, UPDATE {1,A2,d,15} yields [{1,A2,d,15}, {2,B,e,20}] |
| App.WithoutId | src/App.tsx:56-58 | the result is no longer than the list, no entry has the deleted id, and an entry is kept exactly when it was in the list with another id |
| App.WithoutIdAppend | src/App.tsx:56-58 | the filter distributes over concatenation, so kept entries stay in their original order |
| App.WithoutAbsentId | src/App.tsx:56-58 | filtering out an id no entry has returns the list unchanged |
| App.WithoutIdKeepsUniqueIds | src/App.tsx:56-58 | filtering keeps ids unique |
| App.DeleteByIdRemovesOnlyThatId | src/App.tsx:55-59 | after the reducer adopts the filtered list, no entry has the deleted id and every entry of another id is still there |
| App.WithField | src/App.tsx:66-71 | the named field takes the new value; the id and the other two fields are kept |
| App.WithFieldLastWins | src/App.tsx:67-70 | two edits of the same field: the later one wins |
| App.WithFieldCommutes | src/App.tsx:67-70 | edits of different fields commute |
| App.ReplayAddsAppends | src/App.tsx:24-27 | dispatching one ADD per product, in order, appends the products in order to whatever the state was |
| App.FetchFromInitialState | src/App.tsx:24-27 | from the initial state, one ADD per fetched product yields exactly the fetched list |
| App.ProductApp.constructor | src/App.tsx:34-35 | not in edit mode, nothing being edited, the store empty with nothing dispatched |
| App.ProductApp.Dispatch | src/App.tsx:17 | the store's list becomes the reducer's result and the action joins the history; the edit state is untouched |
| App.ProductApp.HandleEdit | src/App.tsx:37-40 | edit mode on with the given product being edited; nothing dispatched, the list unchanged |
| App.ProductApp.HandleSave | src/App.tsx:42-48 | with a product being edited: exactly one UPDATE carrying it is dispatched and the edit state is cleared; with none, nothing changes; unique ids stay unique |
| App.ProductApp.HandleCancel | src/App.tsx:50-53 | the edit state is cleared; nothing dispatched, the list unchanged |
| App.ProductApp.HandleDelete | src/App.tsx:55-60 | exactly one DELETE carrying the filtered list is dispatched; afterwards no entry has that id, the rest are kept in order, unique ids stay unique; the edit state is untouched |
| App.ProductApp.HandleInputChange | src/App.tsx:62-72 | the edited product gets the one field overridden; with none being edited nothing changes; edit mode, the list and which row is in edit mode are unchanged |
| App.ProductApp.ReceiveProducts | src/App.tsx:23-28 | one ADD per fetched product is dispatched, in order, and the list becomes the old list followed by the fetched products |
| App.EditTitleSession | src/App.tsx:37-48 | loading unique-id products, editing row k, typing a title and saving changes row k's title and nothing else in the list |

`ProductApp.Valid()` is kept by every handler. It holds `editMode <==>
editedProduct != null` (src/App.tsx:34-53) and ties the list to the
dispatch history. `ProductApp.EditingRow(p)` is the condition under which a
row shows its inputs (src/App.tsx:92).

## Left out

- The network fetch, JSON decoding and error logging (src/App.tsx:20-31) are I/O. The model starts from the fetched list, passed to `ReceiveProducts`.
- Fetched objects may carry fields beyond the four of `Product`. The reducer passes them through, but the model's `Product` has only the four fields.
- The JSX rendering (src/App.tsx:74-143) is UI. Only its edit-row condition is kept, as `EditingRow`.
- src/index.tsx only wires the page to the store. The store module and the action-type constants are not part of this model. The store is the field `products`, and the tags are the constructors of `Action`.
- Subscriptions and re-render notification are not modelled. Neither is the reference identity of the arrays the reducer returns, such as a fresh array from UPDATE even when no entry matched.
- React applies state setters at the next render, and `handleDelete` filters the list as of the last render. The model applies every update immediately, which gives the same result for handlers that run one after another.
- App.WithField: price is an `int` and `SetPrice` carries a number. The source writes the input's raw string into `price`, and that string-to-number coercion is not modelled.
- App.ProductApp.HandleInputChange: only the three field names the page passes (title, description, price) are modelled. The source's computed key would also accept any other name, `id` included.
- JavaScript `number` semantics for `id` and `price` (floating point, NaN) are not modelled. Both are unbounded integers.
