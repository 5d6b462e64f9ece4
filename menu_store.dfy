/** The collection updates the menu editor's handlers apply
    (src/components/MenuCreator.tsx): `filter` for deletions, `map` for in-place
    updates, and the record spread that sets one field of the draft. */
module MenuStore {
  import opened MenuTypes
  import opened Seqs

  /** JavaScript truthiness of a `string | null` editing pointer: null and "" are false. */
  predicate IsSet(editingId: Option<string>) {
    editingId.Some? && editingId.value != ""
  }

  /** The presence check of `addMenuItem`: name, price and category are all non-empty. */
  predicate CanCommit(draft: MenuItem) {
    draft.name != "" && draft.price != "" && draft.category != ""
  }

  /** `menuItems.filter(item => item.id !== id)`: every item whose id differs, as often
      as before and in order; none with the id. */
  function WithoutItem(items: seq<MenuItem>, id: string): (r: seq<MenuItem>)
    ensures forall x :: x in r <==> x in items && x.id != id
    ensures forall x :: multiset(r)[x] == if x.id != id then multiset(items)[x] else 0
    ensures IsSubsequence(r, items)
    ensures (forall i :: 0 <= i < |items| ==> items[i].id != id) ==> r == items
  {
    var keep := (x: MenuItem) => x.id != id;
    FilterAllKeptWhen(items, keep);
    FilterCounts(items, keep);
    Filter(items, keep)
  }

  /** `menuItems.filter(item => item.category !== id)`: the cascade of a category deletion. */
  function WithoutCategoryItems(items: seq<MenuItem>, categoryId: string): (r: seq<MenuItem>)
    ensures forall x :: x in r <==> x in items && x.category != categoryId
    ensures forall x :: multiset(r)[x] == if x.category != categoryId then multiset(items)[x] else 0
    ensures IsSubsequence(r, items)
    ensures (forall i :: 0 <= i < |items| ==> items[i].category != categoryId) ==> r == items
  {
    var keep := (x: MenuItem) => x.category != categoryId;
    FilterAllKeptWhen(items, keep);
    FilterCounts(items, keep);
    Filter(items, keep)
  }

  /** `categories.filter(category => category.id !== id)`. */
  function WithoutCategory(categories: seq<MenuCategory>, id: string): (r: seq<MenuCategory>)
    ensures forall c :: c in r <==> c in categories && c.id != id
    ensures forall c :: multiset(r)[c] == if c.id != id then multiset(categories)[c] else 0
    ensures IsSubsequence(r, categories)
    ensures (forall i :: 0 <= i < |categories| ==> categories[i].id != id) ==> r == categories
  {
    var keep := (c: MenuCategory) => c.id != id;
    FilterAllKeptWhen(categories, keep);
    FilterCounts(categories, keep);
    Filter(categories, keep)
  }

  /** `tags.filter(tag => tag.id !== id)`. */
  function WithoutTag(tags: seq<Tag>, id: string): (r: seq<Tag>)
    ensures forall t :: t in r <==> t in tags && t.id != id
    ensures forall t :: multiset(r)[t] == if t.id != id then multiset(tags)[t] else 0
    ensures IsSubsequence(r, tags)
    ensures (forall i :: 0 <= i < |tags| ==> tags[i].id != id) ==> r == tags
  {
    var keep := (t: Tag) => t.id != id;
    FilterAllKeptWhen(tags, keep);
    FilterCounts(tags, keep);
    Filter(tags, keep)
  }

  /** FilterAllKept, in the conditional form the ensures clauses above use. */
  lemma FilterAllKeptWhen<T(!new)>(s: seq<T>, keep: T -> bool)
    ensures (forall i :: 0 <= i < |s| ==> keep(s[i])) ==> Filter(s, keep) == s
  {
    if forall i :: 0 <= i < |s| ==> keep(s[i]) {
      FilterAllKept(s, keep);
    }
  }

  /** `menuItems.map(item => item.tag === id ? { ...item, tag: '' } : item)`: the cascade
      of a tag deletion. Every item survives, in place; the ones that referenced the
      tag lose the reference and nothing else. */
  function ClearTagReferences(items: seq<MenuItem>, tagId: string): (r: seq<MenuItem>)
    ensures |r| == |items|
    ensures forall i :: 0 <= i < |items| && items[i].tag == tagId ==> r[i] == items[i].(tag := "")
    ensures forall i :: 0 <= i < |items| && items[i].tag != tagId ==> r[i] == items[i]
    decreases |items|
  {
    if items == [] then []
    else
      var head := if items[0].tag == tagId then items[0].(tag := "") else items[0];
      var rest := ClearTagReferences(items[1..], tagId);
      assert forall i :: 1 <= i < |items| ==> items[1..][i - 1] == items[i];
      [head] + rest
  }

  /** `menuItems.map(item => item.id === id ? { ...draft, id } : item)`: the edit commit.
      Every item carrying the id becomes the draft under that id; the others stay. */
  function ReplaceItemsWithId(items: seq<MenuItem>, id: string, draft: MenuItem): (r: seq<MenuItem>)
    ensures |r| == |items|
    ensures forall i :: 0 <= i < |items| && items[i].id == id ==> r[i] == draft.(id := id)
    ensures forall i :: 0 <= i < |items| && items[i].id != id ==> r[i] == items[i]
    decreases |items|
  {
    if items == [] then []
    else
      var head := if items[0].id == id then draft.(id := id) else items[0];
      var rest := ReplaceItemsWithId(items[1..], id, draft);
      assert forall i :: 1 <= i < |items| ==> items[1..][i - 1] == items[i];
      [head] + rest
  }

  /** `tags.map(tag => tag.id === id ? { ...tag, name } : tag)`: the tag edit commit. */
  function RenameTags(tags: seq<Tag>, id: string, name: string): (r: seq<Tag>)
    ensures |r| == |tags|
    ensures forall i :: 0 <= i < |tags| && tags[i].id == id ==> r[i] == Tag(id, name)
    ensures forall i :: 0 <= i < |tags| && tags[i].id != id ==> r[i] == tags[i]
    decreases |tags|
  {
    if tags == [] then []
    else
      var head := if tags[0].id == id then tags[0].(name := name) else tags[0];
      var rest := RenameTags(tags[1..], id, name);
      assert forall i :: 1 <= i < |tags| ==> tags[1..][i - 1] == tags[i];
      [head] + rest
  }

  /** The form inputs that report through `handleItemChange`, by their `name` attribute. */
  datatype ItemField = NameField | PriceField | DescriptionField | CategoryField | TagField | SpecialNotesField

  /** The value of one form input in a draft. */
  function FieldValue(item: MenuItem, field: ItemField): string {
    match field
    case NameField => item.name
    case PriceField => item.price
    case DescriptionField => item.description
    case CategoryField => item.category
    case TagField => item.tag
    case SpecialNotesField => item.specialNotes
  }

  /** `{ ...newItem, [name]: value }`: the named input reads `value` afterwards and every
      other input, the id, the image and the allergens keep theirs. */
  function WithField(item: MenuItem, field: ItemField, value: string): (r: MenuItem)
    ensures FieldValue(r, field) == value
    ensures forall g :: g != field ==> FieldValue(r, g) == FieldValue(item, g)
    ensures r.id == item.id && r.image == item.image && r.allergens == item.allergens
  {
    match field
    case NameField => item.(name := value)
    case PriceField => item.(price := value)
    case DescriptionField => item.(description := value)
    case CategoryField => item.(category := value)
    case TagField => item.(tag := value)
    case SpecialNotesField => item.(specialNotes := value)
  }
}
