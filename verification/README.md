# LlistaCompra shopping-list screen, modelled in Dafny

LlistaCompra is an Android shopping-list app. Its main screen (`MainActivity`) keeps three
pieces of state in memory:

- the categories (`totesCategories`, each an `id` and a `nom`);
- the products (`totsProductes`, each an `id`, an `idCategoria`, a `nom` and a `comprat` flag);
- the id of the selected category (`categoriaSeleccionadaId`), or none.

Its handlers change that state in place. They add, rename and delete categories, where deleting
a category also deletes its products. They add, rename, delete and tick products. They reload
both lists from the document store. After each product change, and whenever the selection
changes, the screen hands the selected category's products to the product view. A category rename
(line 419) and a category added next to existing ones (line 309) leave the view as it was.

The model keeps that state as the fields of one class, `MainScreen.ShoppingList`. The handlers
are methods that reassign those fields. The class has one more field, `shown`, for the list last
passed to the product view. Each method's `ensures` gives the whole new state in terms of the
old state. The methods also preserve the object invariant `Valid()`:

- a category is selected exactly when there is at least one category;
- the selected category exists;
- the view shows exactly the selected category's products, in their stored order.

The pure parts are functions with proved lemmas, grouped by what they come from:

- `Text`: Kotlin's `trim`, `isBlank` and `isWhitespace`.
- `Lists`: Kotlin's `indexOfFirst`, `remove(element)`, `filter` and `removeAll`.
- `Records`: the store's typed getters and the decoding loop.
- `Shopping`: categories, products, the category filter and the document decoders.

A second predicate, `Referential()`, says that every product belongs to an existing category.
Every edit keeps it. A load keeps every stored product, whatever its category (lines 362-372),
so `Referential()` can fail after a load.

Ids are random UUIDs in the app. In the model the caller supplies them (`freshId`), and no
contract depends on them being unique.

### Behaviour of the app that the model keeps

- Categories and products are single global collections in the store.
- Renames change only the in-memory state. Nothing is written to the store (lines 195-211 and
  411-422).
- Renaming a product to its current name changes nothing (line 203).
- Ticking a product changes the state only when a product with its id is present (lines 137-139).
- A new category is appended in memory when its write to the store starts (lines 303-307). The
  app does not wait for the write to complete.

## Model

| member | source | states |
|---|---|---|
| `Text.FirstKept` | app/src/main/java/com/guillem/llistacompra/MainActivity.kt:297 | the forward scan of `trim()` stops at the first non-whitespace character at or after its start, and everything it passed over is whitespace |
| `Text.LastKept` | app/src/main/java/com/guillem/llistacompra/MainActivity.kt:297 | the backward scan of `trim()` stops just after the last non-whitespace character before its end, and everything it passed over is whitespace |
| `Text.TrimStart` | app/src/main/java/com/guillem/llistacompra/MainActivity.kt:297 | the result is a suffix of the input, everything cut off is whitespace, and it starts with a non-whitespace character unless it is empty, which happens exactly for a blank input |
| `Text.TrimEnd` | app/src/main/java/com/guillem/llistacompra/MainActivity.kt:297 | the result is a prefix of the input, everything cut off is whitespace, and it ends with a non-whitespace character unless it is empty, which happens exactly for a blank input |
| `Text.Trim` | app/src/main/java/com/guillem/llistacompra/MainActivity.kt:296-301 | `trim()` gives the empty string exactly for a blank name, and a trimmed name is blank only when it is empty, so `trim()` followed by `isBlank()` tests for emptiness; a non-empty result starts and ends with a non-whitespace character |
| `Text.TrimIsSlice` | app/src/main/java/com/guillem/llistacompra/MainActivity.kt:196 | the trimmed name is a contiguous slice of the input, with only whitespace cut off on either side |
| `Text.TrimmedIsFixed` | app/src/main/java/com/guillem/llistacompra/MainActivity.kt:412-417 | a name that has no whitespace at either end is its own trim |
| `Text.TrimIdempotent` | app/src/main/java/com/guillem/llistacompra/MainActivity.kt:412-417 | trimming twice is trimming once; a name stored by an add or a rename is a `trim()` result, so entering it again as the new name is a no-op |
| `Lists.IndexOfFirst` | app/src/main/java/com/guillem/llistacompra/MainActivity.kt:138 | `indexOfFirst` gives -1 exactly when no element matches, and otherwise a matching index with no match before it |
| `Lists.IndexOf` | app/src/main/java/com/guillem/llistacompra/MainActivity.kt:442 | the index of the first element equal to the given one, or -1 exactly when it is absent |
| `Lists.RemoveFirst` | app/src/main/java/com/guillem/llistacompra/MainActivity.kt:152 | `remove(element)` leaves the list unchanged when the element is absent, and otherwise makes it exactly one shorter |
| `Lists.RemoveFirstCount` | app/src/main/java/com/guillem/llistacompra/MainActivity.kt:152 | exactly one copy of the element goes, if there is one, and every other element stays as often as it was there |
| `Lists.RemoveFirstMembers` | app/src/main/java/com/guillem/llistacompra/MainActivity.kt:152 | removal adds nothing, and every element different from the removed one is still in the list |
| `Lists.RemoveFirstAt` | app/src/main/java/com/guillem/llistacompra/MainActivity.kt:152 | removal cuts out exactly the element `indexOf` finds: the elements before it keep their place and the ones after it move up by one, in order |
| `Lists.Filter` | app/src/main/java/com/guillem/llistacompra/MainActivity.kt:131 | every element the filter keeps satisfies the predicate, and there are no more of them than in the input |
| `Lists.FilterMembers` | app/src/main/java/com/guillem/llistacompra/MainActivity.kt:131 | the filter keeps exactly the elements that satisfy the predicate: each kept element comes from the input, and each input element that satisfies it is kept |
| `Lists.FilterAppend` | app/src/main/java/com/guillem/llistacompra/MainActivity.kt:131 | filtering two joined lists filters each list and joins the results, which is order preservation |
| `Lists.FilterKeepsAll` | app/src/main/java/com/guillem/llistacompra/MainActivity.kt:131 | a list whose every element satisfies the predicate is its own filter |
| `Lists.FilterPartition` | app/src/main/java/com/guillem/llistacompra/MainActivity.kt:441 | a predicate and its negation split a list: each element goes to exactly one of the two filters |
| `Records.DecodeAll` | app/src/main/java/com/guillem/llistacompra/MainActivity.kt:352-357 | the decoding loop appends at most one item per document |
| `Records.DecodeAllComplete` | app/src/main/java/com/guillem/llistacompra/MainActivity.kt:352-357 | the loop reads every document exactly when no getter raises on any of them |
| `Records.DecodeAllStep` | app/src/main/java/com/guillem/llistacompra/MainActivity.kt:353-357 | one turn of the loop after a clean prefix: a document without an id adds nothing, a decoded one is appended at the end, and one whose getter raises ends the loop with the items read so far |
| `Records.DecodeAllFault` | app/src/main/java/com/guillem/llistacompra/MainActivity.kt:353-357 | the first document whose getter raises ends the loop: the items read before it are the whole result |
| `Records.DecodeAllAppend` | app/src/main/java/com/guillem/llistacompra/MainActivity.kt:365-372 | decoding a result in two parts appends the second part's items after the first part's, and reads the second part only when the first part raised nothing |
| `Records.DecodeAllItems` | app/src/main/java/com/guillem/llistacompra/MainActivity.kt:353-356 | every decoded item comes from a document of the result, and after a complete loop every document that decodes to an item has contributed it |
| `Shopping.FirstSelection` | app/src/main/java/com/guillem/llistacompra/MainActivity.kt:114-116 | the default selection is none exactly when there are no categories, and otherwise the id of an existing category |
| `Shopping.WithCategory` | app/src/main/java/com/guillem/llistacompra/MainActivity.kt:131 | the filtered products all have the given category, all come from the product list, and every product of that category is among them |
| `Shopping.WithoutCategory` | app/src/main/java/com/guillem/llistacompra/MainActivity.kt:441 | after `removeAll`, no product has the deleted category, and every product of another category is kept |
| `Shopping.ProductIndex` | app/src/main/java/com/guillem/llistacompra/MainActivity.kt:205 | the index of the first product with the given id, or -1 exactly when no product has it |
| `Shopping.WithCategoryAppend` | app/src/main/java/com/guillem/llistacompra/MainActivity.kt:130-133 | the category filter keeps the products' original relative order |
| `Shopping.WithoutCategoryAppend` | app/src/main/java/com/guillem/llistacompra/MainActivity.kt:441 | deleting a category's products keeps the other products in their original order |
| `Shopping.CategorySplit` | app/src/main/java/com/guillem/llistacompra/MainActivity.kt:428-441 | the products deleted with a category are exactly the products the confirmation dialog counts for it: the two filters split the products |
| `Shopping.WithCategoryKeepsAll` | app/src/main/java/com/guillem/llistacompra/MainActivity.kt:337-338 | products that all belong to the category are shown whole and in order, so the product just added shows up at the end of the view |
| `Shopping.CategorizedAfterUpdate` | app/src/main/java/com/guillem/llistacompra/MainActivity.kt:137-149 | changing a product in place without changing its category keeps every product in an existing category |
| `Shopping.CategorizedAfterRemove` | app/src/main/java/com/guillem/llistacompra/MainActivity.kt:151-152 | removing a product keeps every other product in an existing category |
| `Shopping.CategorizedAfterAddProduct` | app/src/main/java/com/guillem/llistacompra/MainActivity.kt:329-337 | a product appended under an existing category keeps every product categorized |
| `Shopping.CategorizedAfterAddCategory` | app/src/main/java/com/guillem/llistacompra/MainActivity.kt:303-304 | appending a category keeps every existing category id, so every product stays categorized |
| `Shopping.CategoryRenameKeepsIds` | app/src/main/java/com/guillem/llistacompra/MainActivity.kt:417-418 | renaming a category keeps every category id, so the selection and every product still refer to an existing category |
| `Shopping.CategorizedAfterDelete` | app/src/main/java/com/guillem/llistacompra/MainActivity.kt:440-442 | deleting a category together with its products leaves no product without a category |
| `Shopping.DecodeCategory` | app/src/main/java/com/guillem/llistacompra/MainActivity.kt:353-356 | a document without an `id` (or with a null `id`) is skipped; a missing `nom` gives `""`; a field that is not a string raises |
| `Shopping.DecodeProduct` | app/src/main/java/com/guillem/llistacompra/MainActivity.kt:366-371 | a document without an `id` is skipped; a missing `idCategoria` or `nom` gives `""` and a missing `comprat` gives false; a mistyped field raises |
| `MainScreen.ShoppingList.constructor` | app/src/main/java/com/guillem/llistacompra/MainActivity.kt:50-53 | the screen starts with no categories, no products, no selection and an empty view, which satisfies both invariants |
| `MainScreen.ShoppingList.ShowCategory` | app/src/main/java/com/guillem/llistacompra/MainActivity.kt:130-133 | the view receives exactly the products of the given category |
| `MainScreen.ShoppingList.RefreshSelected` | app/src/main/java/com/guillem/llistacompra/MainActivity.kt:147 | the view is refreshed with the selected category's products when a category is selected, and is left alone otherwise |
| `MainScreen.ShoppingList.SetupSpinner` | app/src/main/java/com/guillem/llistacompra/MainActivity.kt:94-118 | with no categories the selection is cleared and the view emptied; with `selectFirst` the first category is selected and shown; otherwise selection and view stay |
| `MainScreen.ShoppingList.ReplaceProduct` | app/src/main/java/com/guillem/llistacompra/MainActivity.kt:140-147 | one product changes in place at the given index, keeping its category; the view is refreshed and both invariants are kept |
| `MainScreen.ShoppingList.UpdatePurchased` | app/src/main/java/com/guillem/llistacompra/MainActivity.kt:137-149 | only the purchased flag of the first product with the given id changes, and nothing changes when no product has that id; the invariants are kept |
| `MainScreen.ShoppingList.DeleteProduct` | app/src/main/java/com/guillem/llistacompra/MainActivity.kt:151-158 | the product list becomes `remove(p)` of the old list, so one copy of the product leaves it and all the others stay (`Lists.RemoveFirstCount`); the view is refreshed and both invariants are kept |
| `MainScreen.ShoppingList.RenameProduct` | app/src/main/java/com/guillem/llistacompra/MainActivity.kt:195-211 | a blank name or the unchanged name is a no-op; otherwise only the `nom` of the first product with that id becomes the trimmed name, and its id, category and flag stay |
| `MainScreen.ShoppingList.AddCategory` | app/src/main/java/com/guillem/llistacompra/MainActivity.kt:296-318 | a blank name changes nothing; otherwise exactly one category with the trimmed name is appended at the end, and it becomes the selection only when it is the only category |
| `MainScreen.ShoppingList.AddProduct` | app/src/main/java/com/guillem/llistacompra/MainActivity.kt:320-345 | a blank name or no selection changes nothing; otherwise one unpurchased product of the selected category with the trimmed name is appended, and it appears at the end of the view |
| `MainScreen.ShoppingList.RenameCategory` | app/src/main/java/com/guillem/llistacompra/MainActivity.kt:411-422 | a blank name or the unchanged name is a no-op; otherwise only that category's `nom` becomes the trimmed name, at the same position and with the same id; products, selection and view stay |
| `MainScreen.ShoppingList.DeleteCategory` | app/src/main/java/com/guillem/llistacompra/MainActivity.kt:440-457 | no product of the deleted category remains and every other product is kept in order; the categories become `remove(c)` of the old list; the first remaining category, or none, is selected; both invariants are kept |
| `MainScreen.ShoppingList.LoadCategories` | app/src/main/java/com/guillem/llistacompra/MainActivity.kt:349-359 | the categories are replaced by the decoded documents in order, and then the first one (or none) is selected; if a getter raises, the list holds what was decoded before it |
| `MainScreen.ShoppingList.LoadProducts` | app/src/main/java/com/guillem/llistacompra/MainActivity.kt:362-374 | the products are replaced by the decoded documents in order, and the view is refreshed for the selection; if a getter raises, the list holds what was decoded before it |

## Left out

- Store calls are not modelled. This covers the `set`, `update`, `delete` and `get` calls and
  their asynchronous completion. It also covers the store-side deletion of a deleted category's
  products (lines 446-454), which is a network round trip. A load is modelled as the body of its
  success listener, applied to the documents the query returned. The two listeners may run in
  either order.
- The Android user interface is not modelled: dialogs, toasts, input fields and margins, the
  spinner's adapter, and the `ProducteAdapter` class. `shown` stands for the list passed to
  `updateList`.
- The spinner's `onItemSelected` listener (lines 120-126) is not modelled. Choosing a category by
  hand is therefore not an operation of the model. The model also leaves out the calls Android
  itself makes to that listener:
  - Android calls `onItemSelected` for position 0 after each `setAdapter` (lines 101 and 112).
  - The listener installed at line 120 stays attached across later `setupSpinner` calls.
  - So in the app, each `setupSpinner(false)` re-selects the first category and shows its
    products (lines 309 and 419).
  - Emptying a category list that was shown once makes the old listener read position 0 of the
    empty `totesCategories` (line 122). This happens when the last category is deleted, or when
    a category load finds no documents. The read very likely throws.
  - The method contracts describe the handlers' own code, not these listener calls. This
    behaviour comes from Android's Spinner, which is not part of this model.
- `MainScreen.ShoppingList.AddCategory` and `MainScreen.ShoppingList.RenameCategory`: when other
  categories exist, the contracts keep the selection and the view. The spinner listener's
  re-selection of the first category, described above, is not part of them.
- `MainScreen.ShoppingList.DeleteCategory`: the contract ends with no selection and an empty view
  when the last category goes. It leaves out the listener call that very likely throws at that
  point, described above.
- `TrimmedIsFixed`: the model proves no invariant that the names held in the state are trimmed.
  Adds and renames store `trim()` results (`Text.TrimIdempotent`). Loads copy names as they are
  stored (lines 355 and 369). So a loaded name with whitespace at an end changes when it is
  entered again as the new name.
- Aliasing is not modelled. In the app the product view's items are the same objects as the
  entries of `totsProductes`, and the checkbox writes `comprat` on that shared object before it
  calls `actualitzarEstatProducte`. The model passes the product by value, carrying its new
  flag.
- Object identity is modelled by value. A category handed to the rename or delete dialog is
  located as the first category equal to it, which is what `remove` does (data-class equality).
  It is exactly the dialog's object unless an identical copy comes before it, or a category load
  replaced the list while the rename dialog was open (lines 352-356). In that case the app writes
  the new name only to the dialog's object, which is no longer listed, so the list keeps the old
  name. `MainScreen.ShoppingList.RenameCategory` instead renames an equal copy, if the load
  brought one back. Deleting is not affected, because `remove` compares by value (line 442).
- `MainScreen.ShoppingList.RenameCategory`: the contract locates the category by value. It does
  not capture a rename through a dialog object that a load has dropped from the list, which leaves
  the app's list unchanged (see the line above).
- `MainScreen.ShoppingList.LoadCategories`: when a getter raises, the model stops the loop and
  returns `false`. In the app the exception is not caught, and the app stops. The model makes no
  promise about `Valid()` after that point.
- `MainScreen.ShoppingList.LoadProducts`: the same as for `LoadCategories` when a getter raises.
- Strings are sequences of Unicode characters, not UTF-16 code units. Every character that
  `isWhitespace` accepts is a single code unit, so trimming agrees.
- UUID generation (lines 27 and 32) is not modelled. Fresh ids are parameters.
- `LoginActivity` is not part of this model. It passes a non-blank email and password to the
  authentication service.
