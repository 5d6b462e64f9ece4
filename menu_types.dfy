/** The entities of the menu (src/types.ts). */
module MenuTypes {

  datatype Option<T> = None | Some(value: T)

  /** A dish on the menu. `specialNotes` and `tag` hold "" when absent; every reader
      of the record treats a missing value and "" alike. `tag` holds a tag id, or "".
      `category` holds a category id, or "" while the form has none selected.
      `image` is an opaque displayable reference (a data URL in the browser). */
  datatype MenuItem = MenuItem(
    id: string,
    name: string,
    description: string,
    price: string,
    category: string,
    image: string,
    specialNotes: string,
    tag: string,
    allergens: Option<seq<string>>)

  datatype MenuCategory = MenuCategory(id: string, name: string)

  datatype Tag = Tag(id: string, name: string)

  /** The blank form: the initial draft and the draft after every successful commit. */
  const EmptyItem := MenuItem("", "", "", "", "", "", "", "", Some([]))

  function ItemId(item: MenuItem): string { item.id }

  function CategoryId(category: MenuCategory): string { category.id }

  function TagId(tag: Tag): string { tag.id }

  /** No item carries `id`. */
  predicate ItemIdFree(items: seq<MenuItem>, id: string) {
    forall i :: 0 <= i < |items| ==> items[i].id != id
  }

  /** No category carries `id`. */
  predicate CategoryIdFree(categories: seq<MenuCategory>, id: string) {
    forall i :: 0 <= i < |categories| ==> categories[i].id != id
  }

  /** No tag carries `id`. */
  predicate TagIdFree(tags: seq<Tag>, id: string) {
    forall i :: 0 <= i < |tags| ==> tags[i].id != id
  }
}
