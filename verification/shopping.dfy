/** The values the shopping-list screen keeps in memory: categories (`Categoria`), products
    (`Producte`), the optional selected category, the category filter that feeds the product
    view, and the decoding of stored documents into categories and products. */
module Shopping {
  import opened Lists
  import opened Records

  /** Identifiers are the strings of random UUIDs, supplied by the caller. */
  type Id = string

  datatype Option<T> = None | Some(value: T)

  /** `Categoria(id, nom)`. */
  datatype Category = Category(id: Id, name: string)

  /** `Producte(id, idCategoria, nom, comprat)`. */
  datatype Product = Product(id: Id, categoryId: Id, name: string, purchased: bool)

  /** Some category of `cs` has the id `id`. */
  predicate HasCategory(cs: seq<Category>, id: Id)
  {
    exists k :: 0 <= k < |cs| && cs[k].id == id
  }

  /** The selection the spinner falls back to when it selects the first category: that
      category's id, or none when there are no categories. */
  function FirstSelection(cs: seq<Category>): (sel: Option<Id>)
    ensures sel.None? <==> cs == []
    ensures sel.Some? ==> HasCategory(cs, sel.value)
  {
    if cs == [] then None else Some(cs[0].id)
  }

  /** The filter of `carregarProductesPerCategoria`: the products of category `id`. */
  function WithCategory(ps: seq<Product>, id: Id): (r: seq<Product>)
    ensures forall k :: 0 <= k < |r| ==> r[k].categoryId == id && r[k] in ps
    ensures forall k :: 0 <= k < |ps| && ps[k].categoryId == id ==> ps[k] in r
  {
    var inCategory := (p: Product) => p.categoryId == id;
    FilterMembers(ps, inCategory);
    Filter(ps, inCategory)
  }

  /** What `removeAll { it.idCategoria == id }` leaves: the products of every other category. */
  function WithoutCategory(ps: seq<Product>, id: Id): (r: seq<Product>)
    ensures forall k :: 0 <= k < |r| ==> r[k].categoryId != id && r[k] in ps
    ensures forall k :: 0 <= k < |ps| && ps[k].categoryId != id ==> ps[k] in r
  {
    var elsewhere := (p: Product) => p.categoryId != id;
    FilterMembers(ps, elsewhere);
    Filter(ps, elsewhere)
  }

  /** The list the product view shows for a selection: the selected category's products, or
      nothing when no category is selected. */
  function Shown(ps: seq<Product>, selected: Option<Id>): seq<Product>
  {
    if selected.Some? then WithCategory(ps, selected.value) else []
  }

  /** `indexOfFirst { it.id == id }` over the products. */
  function ProductIndex(ps: seq<Product>, id: Id): (r: int)
    ensures -1 <= r < |ps|
    ensures r == -1 <==> forall k :: 0 <= k < |ps| ==> ps[k].id != id
    ensures 0 <= r ==> ps[r].id == id && forall k :: 0 <= k < r ==> ps[k].id != id
  {
    IndexOfFirst(ps, (p: Product) => p.id == id)
  }

  /** The category filter keeps the relative order of the products: filtering a list made of
      two parts filters each part and puts the results one after the other. */
  lemma WithCategoryAppend(a: seq<Product>, b: seq<Product>, id: Id)
    ensures WithCategory(a + b, id) == WithCategory(a, id) + WithCategory(b, id)
  {
    FilterAppend(a, b, (p: Product) => p.categoryId == id);
  }

  /** Deleting a category's products keeps the other products in order. */
  lemma WithoutCategoryAppend(a: seq<Product>, b: seq<Product>, id: Id)
    ensures WithoutCategory(a + b, id) == WithoutCategory(a, id) + WithoutCategory(b, id)
  {
    FilterAppend(a, b, (p: Product) => p.categoryId != id);
  }

  /** The products removed with a category are exactly the ones the view showed for it: the
      two filters split the products between them. */
  lemma CategorySplit(ps: seq<Product>, id: Id)
    ensures multiset(WithCategory(ps, id)) + multiset(WithoutCategory(ps, id)) == multiset(ps)
  {
    FilterPartition(ps, (p: Product) => p.categoryId == id, (p: Product) => p.categoryId != id);
  }

  /** A list of products that all belong to category `id` is shown whole and in order, as the
      product just added to the selected category is. */
  lemma WithCategoryKeepsAll(ps: seq<Product>, id: Id)
    requires forall k :: 0 <= k < |ps| ==> ps[k].categoryId == id
    ensures WithCategory(ps, id) == ps
  {
    FilterKeepsAll(ps, (p: Product) => p.categoryId == id);
  }

  /** Every product belongs to one of the categories. */
  predicate AllCategorized(cs: seq<Category>, ps: seq<Product>)
  {
    forall k :: 0 <= k < |ps| ==> HasCategory(cs, ps[k].categoryId)
  }

  /** Changing one product without moving it to another category keeps every product in an
      existing category. */
  lemma CategorizedAfterUpdate(cs: seq<Category>, ps: seq<Product>, i: nat, q: Product)
    requires i < |ps| && q.categoryId == ps[i].categoryId
    ensures AllCategorized(cs, ps) ==> AllCategorized(cs, ps[i := q])
  {
    if AllCategorized(cs, ps) {
      var r := ps[i := q];
      forall k | 0 <= k < |r|
        ensures HasCategory(cs, r[k].categoryId)
      {
        assert r[k].categoryId == ps[k].categoryId;
      }
    }
  }

  /** Removing a product keeps the others in their categories. */
  lemma CategorizedAfterRemove(cs: seq<Category>, ps: seq<Product>, p: Product)
    ensures AllCategorized(cs, ps) ==> AllCategorized(cs, RemoveFirst(ps, p))
  {
    if AllCategorized(cs, ps) {
      var r := RemoveFirst(ps, p);
      RemoveFirstMembers(ps, p);
      forall k | 0 <= k < |r|
        ensures HasCategory(cs, r[k].categoryId)
      {
        var j :| 0 <= j < |ps| && ps[j] == r[k];
      }
    }
  }

  /** A product added to an existing category keeps every product categorized. */
  lemma CategorizedAfterAddProduct(cs: seq<Category>, ps: seq<Product>, p: Product)
    requires HasCategory(cs, p.categoryId)
    ensures AllCategorized(cs, ps) ==> AllCategorized(cs, ps + [p])
  {
    if AllCategorized(cs, ps) {
      var r := ps + [p];
      forall k | 0 <= k < |r|
        ensures HasCategory(cs, r[k].categoryId)
      {
        if k < |ps| {
          assert r[k] == ps[k];
        }
      }
    }
  }

  /** Appending a category keeps every id that named a category, so every product stays
      categorized. */
  lemma CategorizedAfterAddCategory(cs: seq<Category>, ps: seq<Product>, c: Category)
    ensures forall id :: HasCategory(cs, id) ==> HasCategory(cs + [c], id)
    ensures AllCategorized(cs, ps) ==> AllCategorized(cs + [c], ps)
  {
    forall id | HasCategory(cs, id)
      ensures HasCategory(cs + [c], id)
    {
      var j :| 0 <= j < |cs| && cs[j].id == id;
      assert (cs + [c])[j] == cs[j];
    }
  }

  /** Renaming a category keeps its id, so every id that named a category still does. */
  lemma CategoryRenameKeepsIds(cs: seq<Category>, ps: seq<Product>, i: nat, name: string)
    requires i < |cs|
    ensures forall id :: HasCategory(cs, id) ==> HasCategory(cs[i := cs[i].(name := name)], id)
    ensures AllCategorized(cs, ps) ==> AllCategorized(cs[i := cs[i].(name := name)], ps)
  {
    var r := cs[i := cs[i].(name := name)];
    forall id | HasCategory(cs, id)
      ensures HasCategory(r, id)
    {
      var j :| 0 <= j < |cs| && cs[j].id == id;
      assert r[j].id == id;
    }
  }

  /** Deleting a category together with its products leaves no product without a category. */
  lemma CategorizedAfterDelete(cs: seq<Category>, ps: seq<Product>, c: Category)
    ensures AllCategorized(cs, ps) ==> AllCategorized(RemoveFirst(cs, c), WithoutCategory(ps, c.id))
  {
    if AllCategorized(cs, ps) {
      var rc, rp := RemoveFirst(cs, c), WithoutCategory(ps, c.id);
      RemoveFirstMembers(cs, c);
      forall k | 0 <= k < |rp|
        ensures HasCategory(rc, rp[k].categoryId)
      {
        var p := rp[k];
        var i :| 0 <= i < |ps| && ps[i] == p;
        var j :| 0 <= j < |cs| && cs[j].id == p.categoryId;
        assert cs[j] != c;
        assert cs[j] in rc;
        var m :| 0 <= m < |rc| && rc[m] == cs[j];
      }
    }
  }

  // Field names of the stored documents.
  const IdField := "id"
  const NameField := "nom"
  const CategoryField := "idCategoria"
  const PurchasedField := "comprat"

  /** One document of the `categories` collection: skipped without an `id`, its name `""`
      when `nom` is missing, and a fault when a field has another type than a string. */
  function DecodeCategory(r: Record): (d: Decoded<Category>)
    ensures d.Skip? <==> IdField !in r || r[IdField] == Null
    ensures d.Fault? <==> MistypedString(r, IdField) || (!d.Skip? && MistypedString(r, NameField))
    ensures d.Item? ==> r[IdField] == Str(d.value.id)
    ensures d.Item? ==> d.value.name == if NameField in r && r[NameField].Str? then r[NameField].s else ""
  {
    match GetString(r, IdField)
    case Missing => Skip
    case WrongType => Fault
    case Found(id) =>
      var nom := GetString(r, NameField);
      if nom.WrongType? then Fault else Item(Category(id, nom.OrElse("")))
  }

  /** One document of the `productes` collection: skipped without an `id`; a missing
      `idCategoria` or `nom` becomes `""` and a missing `comprat` becomes false; a field of
      another type is a fault. */
  function DecodeProduct(r: Record): (d: Decoded<Product>)
    ensures d.Skip? <==> IdField !in r || r[IdField] == Null
    ensures d.Fault? <==> MistypedString(r, IdField) ||
                          (!d.Skip? && (MistypedString(r, CategoryField) || MistypedString(r, NameField) ||
                                        MistypedBoolean(r, PurchasedField)))
    ensures d.Item? ==> r[IdField] == Str(d.value.id)
    ensures d.Item? ==> d.value.categoryId == if CategoryField in r && r[CategoryField].Str? then r[CategoryField].s else ""
    ensures d.Item? ==> d.value.name == if NameField in r && r[NameField].Str? then r[NameField].s else ""
    ensures d.Item? ==> d.value.purchased == (PurchasedField in r && r[PurchasedField] == Bool(true))
  {
    match GetString(r, IdField)
    case Missing => Skip
    case WrongType => Fault
    case Found(id) =>
      var categoryId, nom := GetString(r, CategoryField), GetString(r, NameField);
      var comprat := GetBoolean(r, PurchasedField);
      if categoryId.WrongType? || nom.WrongType? || comprat.WrongType? then Fault
      else Item(Product(id, categoryId.OrElse(""), nom.OrElse(""), comprat.OrElse(false)))
  }
}
