/**
 * The fixed category catalog of the expense screen, and the lookups that
 * decorate a category name with its colour and icon, falling back to a
 * default when the name is not in the catalog.
 */
module Catalog {

  import opened Wrappers

  /** A spending category: id, display name, icon glyph name and colour. */
  datatype Category = Category(id: string, name: string, icon: string, color: string)

  /** The five categories offered by the picker, in display order. */
  const Categories: seq<Category> := [
    Category("1", "Food & Dining", "fast-food", "#FF6B6B"),
    Category("2", "Transport", "bus", "#4ECDC4"),
    Category("3", "Books & Supplies", "book", "#45B7D1"),
    Category("4", "Entertainment", "game-controller", "#96CEB4"),
    Category("5", "Personal Care", "medkit", "#FFEEAD")
  ]

  /** Colour and icon used by the breakdown for a name the catalog lacks. */
  const FallbackColor: string := "#ccc"
  const FallbackIcon: string := "ellipse"

  /** No two catalog entries share a name. */
  predicate UniqueNames(catalog: seq<Category>) {
    forall i, j | 0 <= i < j < |catalog| :: catalog[i].name != catalog[j].name
  }

  /** Every entry has a non-empty colour and icon, so `|| fallback` never fires for it. */
  predicate Decorated(catalog: seq<Category>) {
    forall i | 0 <= i < |catalog| :: catalog[i].color != "" && catalog[i].icon != ""
  }

  /** Position of the first entry called `name`, scanning from the front as `find` does. */
  function FindIndex(catalog: seq<Category>, name: string): (r: Option<nat>)
    ensures r.Some? ==> r.value < |catalog| && catalog[r.value].name == name
    ensures r.Some? ==> forall j | 0 <= j < r.value :: catalog[j].name != name
    ensures r.None? <==> forall j | 0 <= j < |catalog| :: catalog[j].name != name
  {
    if |catalog| == 0 then None
    else if catalog[0].name == name then Some(0)
    else match FindIndex(catalog[1..], name)
      case None => None
      case Some(k) => Some(k + 1)
  }

  /** The first entry called `name`, if any. */
  function Find(catalog: seq<Category>, name: string): (r: Option<Category>)
    ensures r.Some? ==> r.value in catalog && r.value.name == name
    ensures r.None? <==> forall i | 0 <= i < |catalog| :: catalog[i].name != name
    ensures UniqueNames(catalog) ==>
      forall i | 0 <= i < |catalog| && catalog[i].name == name :: r == Some(catalog[i])
  {
    match FindIndex(catalog, name)
    case None => None
    case Some(k) => Some(catalog[k])
  }

  /** JavaScript `s || fallback` on a string: only the empty string is falsy. */
  function OrElse(s: string, fallback: string): string {
    if s == "" then fallback else s
  }

  /** Colour of the first entry called `name`, or `fallback`; the default is applied here, at the call site. */
  function ColorOr(catalog: seq<Category>, name: string, fallback: string): string {
    match Find(catalog, name)
    case None => fallback
    case Some(c) => OrElse(c.color, fallback)
  }

  /** Icon of the first entry called `name`, or `fallback`. */
  function IconOr(catalog: seq<Category>, name: string, fallback: string): string {
    match Find(catalog, name)
    case None => fallback
    case Some(c) => OrElse(c.icon, fallback)
  }

  /** A name the catalog lacks gets exactly the fallbacks. */
  lemma UnknownNameFallsBack(catalog: seq<Category>, name: string, colorDefault: string, iconDefault: string)
    requires forall i | 0 <= i < |catalog| :: catalog[i].name != name
    ensures ColorOr(catalog, name, colorDefault) == colorDefault
    ensures IconOr(catalog, name, iconDefault) == iconDefault
  {
  }

  /** In a catalog with unique names and non-empty fields, a catalog name gets that entry's own colour and icon. */
  lemma KnownNameKeepsDecoration(catalog: seq<Category>, i: nat, colorDefault: string, iconDefault: string)
    requires UniqueNames(catalog) && Decorated(catalog)
    requires i < |catalog|
    ensures ColorOr(catalog, catalog[i].name, colorDefault) == catalog[i].color
    ensures IconOr(catalog, catalog[i].name, iconDefault) == catalog[i].icon
  {
    assert Find(catalog, catalog[i].name) == Some(catalog[i]);
  }

  /** No entry of the shipped catalog uses the fallback colour or icon. */
  lemma CatalogAvoidsFallbacks(c: Category)
    requires c in Categories
    ensures c.color != FallbackColor && c.icon != FallbackIcon
  {
  }

  /** The shipped catalog has unique names and every entry carries a colour and an icon. */
  lemma CategoriesWellFormed()
    ensures UniqueNames(Categories) && Decorated(Categories)
  {
  }
}
