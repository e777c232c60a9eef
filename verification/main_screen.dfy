/** The state of the shopping-list screen (`MainActivity`) and the operations that change it:
    the category list, the product list, the selected category and the list last handed to
    the product view, each updated in place as the screen's handlers do. */
module MainScreen {
  import opened Text
  import opened Lists
  import opened Records
  import opened Shopping

  class ShoppingList {
    /** `totesCategories`. */
    var categories: seq<Category>
    /** `totsProductes`. */
    var products: seq<Product>
    /** `categoriaSeleccionadaId`. */
    var selected: Option<Id>
    /** The list last passed to the product view's `updateList`. */
    var shown: seq<Product>

    /** A category is selected exactly when there are categories, and the selected one exists. */
    ghost predicate SelectionValid()
      reads this
    {
      (selected.None? <==> categories == []) &&
      (selected.Some? ==> HasCategory(categories, selected.value))
    }

    /** The screen's invariant: the selection is valid and the product view shows the selected
        category's products. */
    ghost predicate Valid()
      reads this
    {
      SelectionValid() && shown == Shown(products, selected)
    }

    /** Every product belongs to a category on the screen. The loads do not keep this (all
        stored products are loaded, whatever their category); the edits do. */
    ghost predicate Referential()
      reads this
    {
      AllCategorized(categories, products)
    }

    /** The state `onCreate` sets up before the first load: empty lists, an empty product view
        and, as `setupSpinner` finds no categories, no selection. */
    constructor ()
      ensures Valid() && Referential()
      ensures categories == [] && products == [] && selected == None && shown == []
    {
      categories := [];
      products := [];
      selected := None;
      shown := [];
    }

    /** `carregarProductesPerCategoria(categoryId)`: the view shows that category's products. */
    method ShowCategory(categoryId: Id)
      modifies this`shown
      ensures shown == WithCategory(products, categoryId)
      ensures forall k :: 0 <= k < |shown| ==> shown[k].categoryId == categoryId
    {
      shown := WithCategory(products, categoryId);
    }

    /** `categoriaSeleccionadaId?.let { carregarProductesPerCategoria(it) }`. */
    method RefreshSelected()
      modifies this`shown
      ensures shown == if selected.Some? then WithCategory(products, selected.value) else old(shown)
      ensures SelectionValid() && (selected.None? ==> old(shown) == []) ==> Valid()
    {
      if selected.Some? {
        ShowCategory(selected.value);
      }
    }

    /** The selection part of `setupSpinner(selectFirst)`: with no categories nothing is
        selected and the view is emptied; otherwise, when asked to, the first category is
        selected and shown; otherwise selection and view stay. */
    method SetupSpinner(selectFirst: bool)
      modifies this`selected, this`shown
      ensures categories == [] ==> selected == None && shown == []
      ensures categories != [] && selectFirst ==>
                selected == FirstSelection(categories) && shown == WithCategory(products, categories[0].id)
      ensures categories != [] && !selectFirst ==> selected == old(selected) && shown == old(shown)
      ensures selectFirst ==> selected == FirstSelection(categories) && Valid()
    {
      if categories == [] {
        selected := None;
        shown := [];
        return;
      }
      if selectFirst {
        selected := Some(categories[0].id);
        ShowCategory(categories[0].id);
      }
    }

    /** The in-place edit of one product (`totsProductes[index].field = value`) followed by the
        refresh of the view; the product keeps its category. */
    method ReplaceProduct(index: nat, updated: Product)
      requires Valid() && index < |products| && updated.categoryId == products[index].categoryId
      modifies this`products, this`shown
      ensures Valid()
      ensures products == old(products)[index := updated]
      ensures old(Referential()) ==> Referential()
    {
      CategorizedAfterUpdate(categories, products, index, updated);
      products := products[index := updated];
      RefreshSelected();
    }

    /** `actualitzarEstatProducte(p)`: the first product with `p`'s id takes `p`'s purchased
        flag; when no product has that id nothing changes. */
    method UpdatePurchased(p: Product)
      requires Valid()
      modifies this`products, this`shown
      ensures Valid()
      ensures var i := ProductIndex(old(products), p.id);
              products == if i == -1 then old(products) else old(products)[i := old(products)[i].(purchased := p.purchased)]
      ensures old(Referential()) ==> Referential()
    {
      var index := ProductIndex(products, p.id);
      if index != -1 {
        ReplaceProduct(index, products[index].(purchased := p.purchased));
      }
    }

    /** `eliminarProducte(p)`: the first product equal to `p` is removed. */
    method DeleteProduct(p: Product)
      requires Valid()
      modifies this`products, this`shown
      ensures Valid()
      ensures products == RemoveFirst(old(products), p)
      ensures old(Referential()) ==> Referential()
    {
      CategorizedAfterRemove(categories, products, p);
      products := RemoveFirst(products, p);
      RefreshSelected();
    }

    /** `editarNomProducte(p, newName)`: a blank name, or a trimmed name equal to `p`'s, changes
        nothing; otherwise the first product with `p`'s id takes the trimmed name and keeps
        its id, category and purchased flag. */
    method RenameProduct(p: Product, newName: string)
      requires Valid()
      modifies this`products, this`shown
      ensures Valid()
      ensures var t, i := Trim(newName), ProductIndex(old(products), p.id);
              products == if t == [] || t == p.name || i == -1 then old(products)
                          else old(products)[i := old(products)[i].(name := t)]
      ensures old(Referential()) ==> Referential()
    {
      var nameTrim := Trim(newName);
      if IsBlank(nameTrim) {
        assert nameTrim == [];
        return;
      }
      if nameTrim == p.name {
        return;
      }
      var index := ProductIndex(products, p.id);
      if index != -1 {
        ReplaceProduct(index, products[index].(name := nameTrim));
      }
    }

    /** `afegirNovaCategoria(name)`: a blank name changes nothing; otherwise a category with the
        trimmed name and the fresh id is appended, and it is selected and shown when it is the
        only category. */
    method AddCategory(name: string, freshId: Id)
      requires Valid()
      modifies this`categories, this`selected, this`shown
      ensures Valid()
      ensures Trim(name) == [] ==> categories == old(categories) && selected == old(selected) && shown == old(shown)
      ensures Trim(name) != [] ==> categories == old(categories) + [Category(freshId, Trim(name))]
      ensures Trim(name) != [] && old(categories) == [] ==>
                selected == Some(freshId) && shown == WithCategory(products, freshId)
      ensures Trim(name) != [] && old(categories) != [] ==> selected == old(selected) && shown == old(shown)
      ensures old(Referential()) ==> Referential()
    {
      var cleanName := Trim(name);
      if IsBlank(cleanName) {
        assert cleanName == [];
        return;
      }
      var category := Category(freshId, cleanName);
      CategorizedAfterAddCategory(categories, products, category);
      categories := categories + [category];
      assert categories[|categories| - 1].id == freshId;
      SetupSpinner(false);
      if |categories| == 1 {
        selected := Some(category.id);
        ShowCategory(category.id);
      }
    }

    /** `afegirNouProducte(name)`: a blank name, or no selected category, changes nothing;
        otherwise a product of the selected category with the trimmed name, not purchased, is
        appended, and it appears at the end of the view. */
    method AddProduct(name: string, freshId: Id)
      requires Valid()
      modifies this`products, this`shown
      ensures Valid()
      ensures Trim(name) == [] || selected.None? ==> products == old(products) && shown == old(shown)
      ensures Trim(name) != [] && selected.Some? ==>
                var added := Product(freshId, selected.value, Trim(name), false);
                products == old(products) + [added] && shown == old(shown) + [added]
      ensures old(Referential()) ==> Referential()
    {
      var cleanName := Trim(name);
      if IsBlank(cleanName) {
        assert cleanName == [];
        return;
      }
      if selected.Some? {
        var categoryId := selected.value;
        var added := Product(freshId, categoryId, cleanName, false);
        WithCategoryAppend(products, [added], categoryId);
        WithCategoryKeepsAll([added], categoryId);
        CategorizedAfterAddProduct(categories, products, added);
        products := products + [added];
        ShowCategory(categoryId);
      }
    }

    /** `editarNomCategoria(c)` on "save": a blank name, or a trimmed name equal to `c`'s,
        changes nothing; otherwise the category object `c` (the first category equal to it)
        takes the trimmed name and keeps its id and its place in the list. */
    method RenameCategory(c: Category, newName: string)
      requires Valid()
      modifies this`categories, this`selected, this`shown
      ensures Valid()
      ensures var t, i := Trim(newName), IndexOf(old(categories), c);
              categories == if t == [] || t == c.name || i == -1 then old(categories)
                            else old(categories)[i := Category(c.id, t)]
      ensures products == old(products) && selected == old(selected) && shown == old(shown)
      ensures old(Referential()) ==> Referential()
    {
      var nameTrim := Trim(newName);
      if IsBlank(nameTrim) {
        return;
      }
      if nameTrim != c.name {
        var index := IndexOf(categories, c);
        if index != -1 {
          CategoryRenameKeepsIds(categories, products, index, nameTrim);
          categories := categories[index := categories[index].(name := nameTrim)];
        }
        SetupSpinner(false);
      }
    }

    /** `eliminarCategoria(c)`: the products of `c`'s category go, the first category equal to
        `c` goes, and the first remaining category (or none) becomes the selection. */
    method DeleteCategory(c: Category)
      requires Valid()
      modifies this`categories, this`products, this`selected, this`shown
      ensures Valid()
      ensures products == WithoutCategory(old(products), c.id)
      ensures forall k :: 0 <= k < |products| ==> products[k].categoryId != c.id
      ensures categories == RemoveFirst(old(categories), c)
      ensures selected == FirstSelection(categories)
      ensures old(Referential()) ==> Referential()
    {
      CategorizedAfterDelete(categories, products, c);
      products := WithoutCategory(products, c.id);
      categories := RemoveFirst(categories, c);
      SetupSpinner(true);
    }

    /** The `categories` success listener of `carregarDadesDeFirestore`: the list is cleared,
        each document decoded in order is appended, and the first category is selected. A
        getter that raises leaves the list with what was appended before it. */
    method LoadCategories(docs: seq<Record>) returns (ok: bool)
      modifies this`categories, this`selected, this`shown
      ensures categories == DecodeAll(docs, DecodeCategory).items
      ensures ok == DecodeAll(docs, DecodeCategory).complete
      ensures ok ==> Valid() && selected == FirstSelection(categories)
      ensures !ok ==> selected == old(selected) && shown == old(shown)
    {
      categories := [];
      ok := true;
      var i := 0;
      while i < |docs|
        invariant 0 <= i <= |docs|
        invariant DecodeAll(docs[..i], DecodeCategory) == Batch(categories, true)
        invariant selected == old(selected) && shown == old(shown)
      {
        DecodeAllStep(docs, i, DecodeCategory);
        match DecodeCategory(docs[i]) {
          case Skip =>
          case Item(category) =>
            categories := categories + [category];
          case Fault =>
            DecodeAllFault(docs, i, DecodeCategory);
            ok := false;
            return;
        }
        i := i + 1;
      }
      assert docs[..i] == docs;
      SetupSpinner(true);
    }

    /** The `productes` success listener of `carregarDadesDeFirestore`: the list is cleared,
        each document decoded in order is appended, and the selected category is shown again.
        A getter that raises leaves the list with what was appended before it. */
    method LoadProducts(docs: seq<Record>) returns (ok: bool)
      requires Valid()
      modifies this`products, this`shown
      ensures products == DecodeAll(docs, DecodeProduct).items
      ensures ok == DecodeAll(docs, DecodeProduct).complete
      ensures ok ==> Valid()
      ensures !ok ==> shown == old(shown)
    {
      products := [];
      ok := true;
      var i := 0;
      while i < |docs|
        invariant 0 <= i <= |docs|
        invariant DecodeAll(docs[..i], DecodeProduct) == Batch(products, true)
        invariant shown == old(shown)
      {
        DecodeAllStep(docs, i, DecodeProduct);
        match DecodeProduct(docs[i]) {
          case Skip =>
          case Item(product) =>
            products := products + [product];
          case Fault =>
            DecodeAllFault(docs, i, DecodeProduct);
            ok := false;
            return;
        }
        i := i + 1;
      }
      assert docs[..i] == docs;
      RefreshSelected();
    }
  }
}
