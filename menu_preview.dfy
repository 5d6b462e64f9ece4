/** The read-only menu preview (src/components/MenuPreview.tsx): one group per
    category, in category order, each listing the items filed under it in item order,
    with each item's tag resolved to a name by the first tag carrying its id. */
module MenuPreview {
  import opened MenuTypes
  import opened Seqs
  import Allergens

  /** The tag pill after an item's name: absent when the item has no tag; present but
      possibly empty (`?.name` of a failed lookup) when it has one. */
  datatype TagBadge = NoBadge | Badge(tagName: Option<string>)

  /** What the preview shows of one item. Optional parts are None when not rendered. */
  datatype ItemEntry = ItemEntry(
    key: string,
    image: Option<string>,
    name: string,
    badge: TagBadge,
    description: string,
    specialNotes: Option<string>,
    allergenLine: Option<string>,
    price: string)

  /** One category heading and the entries listed under it. */
  datatype CategoryGroup = CategoryGroup(key: string, heading: string, entries: seq<ItemEntry>)

  /** `tags.find(t => t.id === id)?.name`: nothing exactly when no tag carries the id
      (FindTagNameFirst: otherwise the name of the first one); a missing tag is never
      an error. */
  function FindTagName(tags: seq<Tag>, id: string): (r: Option<string>)
    ensures r.None? <==> forall i :: 0 <= i < |tags| ==> tags[i].id != id
    decreases |tags|
  {
    if tags == [] then None
    else if tags[0].id == id then Some(tags[0].name)
    else
      var r := FindTagName(tags[1..], id);
      assert forall i :: 1 <= i < |tags| ==> tags[1..][i - 1] == tags[i];
      r
  }

  /** The lookup finds the first tag carrying the id. */
  lemma {:induction false} FindTagNameFirst(tags: seq<Tag>, id: string, i: int)
    requires 0 <= i < |tags| && tags[i].id == id
    requires forall j :: 0 <= j < i ==> tags[j].id != id
    ensures FindTagName(tags, id) == Some(tags[i].name)
    decreases i
  {
    if i > 0 {
      var rest := tags[1..];
      forall j | 0 <= j < i - 1 ensures rest[j].id != id {
        assert rest[j] == tags[j + 1];
      }
      FindTagNameFirst(rest, id, i - 1);
    }
  }

  /** `item.tag && <span>{…}</span>`: a badge exactly for the items with a tag id. */
  function BadgeOf(item: MenuItem, tags: seq<Tag>): (r: TagBadge)
    ensures r.NoBadge? <==> item.tag == ""
    ensures r.Badge? ==> r.tagName == FindTagName(tags, item.tag)
  {
    if item.tag == "" then NoBadge else Badge(FindTagName(tags, item.tag))
  }

  /** `item.allergens && item.allergens.length > 0 && …join(', ')`: a line exactly when
      the list is present and non-empty; parsed back, the line gives the list again
      whenever the list is one the allergen input can produce. */
  function AllergenLine(allergens: Option<seq<string>>): (r: Option<string>)
    ensures r.Some? <==> allergens.Some? && |allergens.value| > 0
    ensures r.Some? ==> r.value == Allergens.Join(allergens.value, ", ")
    ensures r.Some? && (forall i :: 0 <= i < |allergens.value| ==> Allergens.IsEntry(allergens.value[i])) ==>
      Allergens.Parse(r.value) == allergens.value
  {
    if allergens.Some? && |allergens.value| > 0 then
      var line := Allergens.Join(allergens.value, ", ");
      assert (forall i :: 0 <= i < |allergens.value| ==> Allergens.IsEntry(allergens.value[i])) ==>
        Allergens.Parse(line) == allergens.value by {
        if forall i :: 0 <= i < |allergens.value| ==> Allergens.IsEntry(allergens.value[i]) {
          Allergens.ParseJoin(allergens.value);
        }
      }
      Some(line)
    else None
  }

  /** A text shown only when it is non-empty (`item.image &&`, `item.specialNotes &&`). */
  function IfPresent(s: string): (r: Option<string>)
    ensures r.Some? <==> s != ""
    ensures r.Some? ==> r.value == s
  {
    if s == "" then None else Some(s)
  }

  /** The `<li>` of one item, keyed by its id: name, description and price always; the
      image and the notes only when non-empty; a badge exactly when the item has a tag;
      an allergen line exactly when its list is present and non-empty. */
  function EntryOf(item: MenuItem, tags: seq<Tag>): (r: ItemEntry)
    ensures r.key == item.id && r.name == item.name
    ensures r.description == item.description && r.price == item.price
    ensures r.image.Some? <==> item.image != ""
    ensures r.image.Some? ==> r.image.value == item.image
    ensures r.specialNotes.Some? <==> item.specialNotes != ""
    ensures r.specialNotes.Some? ==> r.specialNotes.value == item.specialNotes
    ensures r.badge.NoBadge? <==> item.tag == ""
    ensures r.badge.Badge? ==> r.badge.tagName == FindTagName(tags, item.tag)
    ensures r.allergenLine.Some? <==> item.allergens.Some? && |item.allergens.value| > 0
    ensures r.allergenLine.Some? ==> r.allergenLine.value == Allergens.Join(item.allergens.value, ", ")
  {
    ItemEntry(item.id, IfPresent(item.image), item.name, BadgeOf(item, tags), item.description,
              IfPresent(item.specialNotes), AllergenLine(item.allergens), item.price)
  }

  /** `.map(item => <li …>)`: one entry per item, in order. */
  function Entries(items: seq<MenuItem>, tags: seq<Tag>): (r: seq<ItemEntry>)
    ensures |r| == |items|
    ensures forall j :: 0 <= j < |items| ==> r[j].key == items[j].id && r[j] == EntryOf(items[j], tags)
    decreases |items|
  {
    if items == [] then [] else [EntryOf(items[0], tags)] + Entries(items[1..], tags)
  }

  /** `menuItems.filter(item => item.category === categoryId)`: exactly the items filed
      under that category id, each as often as among the items, as a subsequence. */
  function GroupItems(items: seq<MenuItem>, categoryId: string): (r: seq<MenuItem>)
    ensures forall x :: x in r <==> x in items && x.category == categoryId
    ensures forall x :: multiset(r)[x] == if x.category == categoryId then multiset(items)[x] else 0
    ensures IsSubsequence(r, items)
  {
    var keep := (x: MenuItem) => x.category == categoryId;
    FilterCounts(items, keep);
    Filter(items, keep)
  }

  /** The preview: one group per category, in category order, including categories
      with no items; group k lists the entries of the items filed under category k. */
  function Preview(menuItems: seq<MenuItem>, categories: seq<MenuCategory>, tags: seq<Tag>): (r: seq<CategoryGroup>)
    ensures |r| == |categories|
    ensures forall k :: 0 <= k < |categories| ==>
      && r[k].key == categories[k].id
      && r[k].heading == categories[k].name
      && r[k].entries == Entries(GroupItems(menuItems, categories[k].id), tags)
    decreases |categories|
  {
    if categories == [] then []
    else
      var c := categories[0];
      [CategoryGroup(c.id, c.name, Entries(GroupItems(menuItems, c.id), tags))] + Preview(menuItems, categories[1..], tags)
  }

  /** An item is listed under category k exactly when it is filed under it; an item
      whose category matches no category is listed nowhere. */
  lemma GroupsOfItem(menuItems: seq<MenuItem>, categories: seq<MenuCategory>, x: MenuItem)
    requires x in menuItems
    ensures forall k :: 0 <= k < |categories| ==>
      (x in GroupItems(menuItems, categories[k].id) <==> x.category == categories[k].id)
    ensures CategoryIdFree(categories, x.category) ==>
      forall k :: 0 <= k < |categories| ==> x !in GroupItems(menuItems, categories[k].id)
  {
  }

  /** With distinct category ids, an item filed under category k is listed under no other. */
  lemma ListedOnce(menuItems: seq<MenuItem>, categories: seq<MenuCategory>, x: MenuItem, k: int)
    requires x in menuItems && 0 <= k < |categories| && x.category == categories[k].id
    requires DistinctKeys(categories, CategoryId)
    ensures x in GroupItems(menuItems, categories[k].id)
    ensures forall m :: 0 <= m < |categories| && m != k ==> x !in GroupItems(menuItems, categories[m].id)
  {
    forall m | 0 <= m < |categories| && m != k ensures categories[m].id != categories[k].id {
      if m < k { assert CategoryId(categories[m]) != CategoryId(categories[k]); }
      else { assert CategoryId(categories[k]) != CategoryId(categories[m]); }
    }
  }

  /** When every item carrying `id` is filed under no listed category, no group shows
      an entry keyed by `id`. */
  lemma NoEntryForUnlistedId(menuItems: seq<MenuItem>, categories: seq<MenuCategory>, tags: seq<Tag>, id: string)
    requires forall z :: z in menuItems && z.id == id ==> CategoryIdFree(categories, z.category)
    ensures forall k, e :: 0 <= k < |categories| && e in Preview(menuItems, categories, tags)[k].entries ==>
      e.key != id
  {
    forall k, e | 0 <= k < |categories| && e in Preview(menuItems, categories, tags)[k].entries
      ensures e.key != id
    {
      var y := ShownItem(menuItems, categories, tags, k, e);
      assert !CategoryIdFree(categories, y.category);
    }
  }

  /** At the level of what is displayed: with distinct item ids, group k shows an entry
      keyed by an item's id exactly when that item is filed under category k. */
  lemma EntryShownIff(menuItems: seq<MenuItem>, categories: seq<MenuCategory>, tags: seq<Tag>, i: int, k: int)
    requires 0 <= i < |menuItems| && 0 <= k < |categories|
    requires DistinctKeys(menuItems, ItemId)
    ensures (exists e :: e in Preview(menuItems, categories, tags)[k].entries && e.key == menuItems[i].id)
        <==> menuItems[i].category == categories[k].id
  {
    if menuItems[i].category == categories[k].id {
      FiledItemIsShown(menuItems, categories, tags, i, k);
    }
    if e :| e in Preview(menuItems, categories, tags)[k].entries && e.key == menuItems[i].id {
      var y := ShownItem(menuItems, categories, tags, k, e);
      var i' :| 0 <= i' < |menuItems| && menuItems[i'] == y;
      SameKeySameIndex(menuItems, ItemId, i, i');
    }
  }

  /** An item filed under category k has its entry in group k. */
  lemma FiledItemIsShown(menuItems: seq<MenuItem>, categories: seq<MenuCategory>, tags: seq<Tag>, i: int, k: int)
    requires 0 <= i < |menuItems| && 0 <= k < |categories|
    requires menuItems[i].category == categories[k].id
    ensures EntryOf(menuItems[i], tags) in Preview(menuItems, categories, tags)[k].entries
  {
    var g := GroupItems(menuItems, categories[k].id);
    assert menuItems[i] in g;
    var j :| 0 <= j < |g| && g[j] == menuItems[i];
    assert Preview(menuItems, categories, tags)[k].entries[j] == EntryOf(menuItems[i], tags);
  }

  /** Every entry of group k is the entry of an item filed under category k. */
  lemma ShownItem(menuItems: seq<MenuItem>, categories: seq<MenuCategory>, tags: seq<Tag>, k: int, e: ItemEntry)
      returns (y: MenuItem)
    requires 0 <= k < |categories| && e in Preview(menuItems, categories, tags)[k].entries
    ensures y in menuItems && y.category == categories[k].id && e == EntryOf(y, tags)
  {
    var g := GroupItems(menuItems, categories[k].id);
    var es := Entries(g, tags);
    var j :| 0 <= j < |es| && es[j] == e;
    y := g[j];
  }
}
