/** The editor's state and its handlers as state transitions
    (src/components/MenuCreator.tsx, lines 22-123). Each handler of the component is
    one atomic step from one `EditorState` to the next; the class in
    menu_creator.dfy performs these steps on its fields. */
module MenuSession {
  import opened MenuTypes
  import opened Seqs
  import opened MenuStore
  import Allergens

  /** The three collections the component edits and its five pieces of session state:
      the item draft, the category and tag name drafts and the two editing pointers. */
  datatype EditorState = EditorState(
    menuItems: seq<MenuItem>,
    categories: seq<MenuCategory>,
    tags: seq<Tag>,
    newItem: MenuItem,
    newCategory: string,
    newTag: string,
    editingItemId: Option<string>,
    editingTagId: Option<string>)

  /** The state right after the component mounts over the given collections. */
  function Mount(menuItems: seq<MenuItem>, categories: seq<MenuCategory>, tags: seq<Tag>): (s: EditorState)
    ensures s.menuItems == menuItems && s.categories == categories && s.tags == tags
    ensures s.newItem == EmptyItem && s.newCategory == "" && s.newTag == ""
    ensures s.editingItemId == None && s.editingTagId == None
  {
    EditorState(menuItems, categories, tags, EmptyItem, "", "", None, None)
  }

  /** `handleItemChange`: one input of the item form changes; nothing else does. */
  function HandleItemChange(s: EditorState, field: ItemField, value: string): (r: EditorState)
    ensures FieldValue(r.newItem, field) == value
    ensures forall g :: g != field ==> FieldValue(r.newItem, g) == FieldValue(s.newItem, g)
    ensures r.newItem.id == s.newItem.id && r.newItem.image == s.newItem.image
    ensures r.newItem.allergens == s.newItem.allergens
    ensures r.(newItem := s.newItem) == s
  {
    s.(newItem := WithField(s.newItem, field, value))
  }

  /** The allergen input: the draft's list becomes the parse of the typed text. */
  function HandleAllergensChange(s: EditorState, text: string): (r: EditorState)
    ensures r.newItem.allergens == Some(Allergens.Parse(text))
    ensures |r.newItem.allergens.value| == Allergens.Occurrences(text, ',') + 1
    ensures r.newItem.(allergens := s.newItem.allergens) == s.newItem
    ensures r.(newItem := s.newItem) == s
  {
    s.(newItem := s.newItem.(allergens := Some(Allergens.Parse(text))))
  }

  /** The category name input. */
  function HandleCategoryNameChange(s: EditorState, text: string): (r: EditorState)
    ensures r.newCategory == text && r.(newCategory := s.newCategory) == s
  {
    s.(newCategory := text)
  }

  /** The tag name input. */
  function HandleTagNameChange(s: EditorState, text: string): (r: EditorState)
    ensures r.newTag == text && r.(newTag := s.newTag) == s
  {
    s.(newTag := text)
  }

  /** `addMenuItem`, with `freshId` standing for `Date.now().toString()`.
      A draft without name, price or category changes nothing at all. Otherwise, when
      an item is being edited, every item with the editing id becomes the draft under
      that id, in place, and the pointer is cleared; when none is, the draft is
      appended under the fresh id and the pointer is left as it was. Either way the
      draft is reset to the blank form. */
  function AddMenuItem(s: EditorState, freshId: string): (r: EditorState)
    requires ItemIdFree(s.menuItems, freshId)
    ensures !CanCommit(s.newItem) ==> r == s
    ensures CanCommit(s.newItem) ==> r.newItem == EmptyItem
    ensures CanCommit(s.newItem) && IsSet(s.editingItemId) ==>
      var e := s.editingItemId.value;
      && r.editingItemId == None
      && |r.menuItems| == |s.menuItems|
      && (forall i :: 0 <= i < |s.menuItems| && s.menuItems[i].id == e ==> r.menuItems[i] == s.newItem.(id := e))
      && (forall i :: 0 <= i < |s.menuItems| && s.menuItems[i].id != e ==> r.menuItems[i] == s.menuItems[i])
    ensures CanCommit(s.newItem) && !IsSet(s.editingItemId) ==>
      && r.editingItemId == s.editingItemId
      && |r.menuItems| == |s.menuItems| + 1
      && r.menuItems[..|s.menuItems|] == s.menuItems
      && r.menuItems[|s.menuItems|] == s.newItem.(id := freshId)
    ensures r.categories == s.categories && r.tags == s.tags
    ensures r.newCategory == s.newCategory && r.newTag == s.newTag && r.editingTagId == s.editingTagId
  {
    if !CanCommit(s.newItem) then s
    else if IsSet(s.editingItemId) then
      s.(menuItems := ReplaceItemsWithId(s.menuItems, s.editingItemId.value, s.newItem),
         editingItemId := None,
         newItem := EmptyItem)
    else
      var items := s.menuItems + [s.newItem.(id := freshId)];
      assert items[..|s.menuItems|] == s.menuItems;
      s.(menuItems := items, newItem := EmptyItem)
  }

  /** `removeMenuItem`: the items without that id, in order; nothing else changes
      (in particular an editing pointer to the removed item stays). */
  function RemoveMenuItem(s: EditorState, id: string): (r: EditorState)
    ensures forall x :: x in r.menuItems <==> x in s.menuItems && x.id != id
    ensures forall x :: multiset(r.menuItems)[x] == if x.id != id then multiset(s.menuItems)[x] else 0
    ensures IsSubsequence(r.menuItems, s.menuItems)
    ensures ItemIdFree(s.menuItems, id) ==> r == s
    ensures r.(menuItems := s.menuItems) == s
  {
    s.(menuItems := WithoutItem(s.menuItems, id))
  }

  /** `startEditingItem`: the form is loaded with the item and the pointer set to its id. */
  function StartEditingItem(s: EditorState, item: MenuItem): (r: EditorState)
    ensures r.newItem == item && r.editingItemId == Some(item.id)
    ensures r.(newItem := s.newItem, editingItemId := s.editingItemId) == s
  {
    s.(newItem := item, editingItemId := Some(item.id))
  }

  /** `addCategory`, with `freshId` standing for `Date.now().toString()`: no-op on an
      empty name, otherwise one category appended and the name input cleared. */
  function AddCategory(s: EditorState, freshId: string): (r: EditorState)
    requires CategoryIdFree(s.categories, freshId)
    ensures s.newCategory == "" ==> r == s
    ensures s.newCategory != "" ==>
      && |r.categories| == |s.categories| + 1
      && r.categories[..|s.categories|] == s.categories
      && r.categories[|s.categories|] == MenuCategory(freshId, s.newCategory)
      && r.newCategory == ""
    ensures r.(categories := s.categories, newCategory := s.newCategory) == s
  {
    if s.newCategory == "" then s
    else
      var categories := s.categories + [MenuCategory(freshId, s.newCategory)];
      assert categories[..|s.categories|] == s.categories;
      s.(categories := categories, newCategory := "")
  }

  /** `removeCategory`: the categories with that id go, and so does every item filed
      under it; survivors keep their order and contents and nothing else changes
      (the draft keeps whatever category it had). */
  function RemoveCategory(s: EditorState, id: string): (r: EditorState)
    ensures forall c :: c in r.categories <==> c in s.categories && c.id != id
    ensures forall c :: multiset(r.categories)[c] == if c.id != id then multiset(s.categories)[c] else 0
    ensures IsSubsequence(r.categories, s.categories)
    ensures forall x :: x in r.menuItems <==> x in s.menuItems && x.category != id
    ensures forall x :: multiset(r.menuItems)[x] == if x.category != id then multiset(s.menuItems)[x] else 0
    ensures IsSubsequence(r.menuItems, s.menuItems)
    ensures r.(menuItems := s.menuItems, categories := s.categories) == s
  {
    s.(categories := WithoutCategory(s.categories, id),
       menuItems := WithoutCategoryItems(s.menuItems, id))
  }

  /** `addTag`, with `freshId` standing for `Date.now().toString()`: no-op on an empty
      name; when a tag is being edited every tag with that id is renamed in place and
      the pointer cleared; otherwise one tag is appended. The name input is cleared. */
  function AddTag(s: EditorState, freshId: string): (r: EditorState)
    requires TagIdFree(s.tags, freshId)
    ensures s.newTag == "" ==> r == s
    ensures s.newTag != "" ==> r.newTag == ""
    ensures s.newTag != "" && IsSet(s.editingTagId) ==>
      var e := s.editingTagId.value;
      && r.editingTagId == None
      && |r.tags| == |s.tags|
      && (forall i :: 0 <= i < |s.tags| ==> r.tags[i].id == s.tags[i].id)
      && (forall i :: 0 <= i < |s.tags| && s.tags[i].id == e ==> r.tags[i].name == s.newTag)
      && (forall i :: 0 <= i < |s.tags| && s.tags[i].id != e ==> r.tags[i] == s.tags[i])
    ensures s.newTag != "" && !IsSet(s.editingTagId) ==>
      && r.editingTagId == s.editingTagId
      && |r.tags| == |s.tags| + 1
      && r.tags[..|s.tags|] == s.tags
      && r.tags[|s.tags|] == Tag(freshId, s.newTag)
    ensures r.(tags := s.tags, newTag := s.newTag, editingTagId := s.editingTagId) == s
  {
    if s.newTag == "" then s
    else if IsSet(s.editingTagId) then
      s.(tags := RenameTags(s.tags, s.editingTagId.value, s.newTag),
         editingTagId := None,
         newTag := "")
    else
      var tags := s.tags + [Tag(freshId, s.newTag)];
      assert tags[..|s.tags|] == s.tags;
      s.(tags := tags, newTag := "")
  }

  /** `removeTag`: the tag goes; every item stays in place, those that referenced the
      tag with the reference cleared; nothing else changes. */
  function RemoveTag(s: EditorState, id: string): (r: EditorState)
    ensures forall t :: t in r.tags <==> t in s.tags && t.id != id
    ensures forall t :: multiset(r.tags)[t] == if t.id != id then multiset(s.tags)[t] else 0
    ensures IsSubsequence(r.tags, s.tags)
    ensures |r.menuItems| == |s.menuItems|
    ensures forall i :: 0 <= i < |s.menuItems| && s.menuItems[i].tag == id ==> r.menuItems[i] == s.menuItems[i].(tag := "")
    ensures forall i :: 0 <= i < |s.menuItems| && s.menuItems[i].tag != id ==> r.menuItems[i] == s.menuItems[i]
    ensures r.(menuItems := s.menuItems, tags := s.tags) == s
  {
    s.(tags := WithoutTag(s.tags, id), menuItems := ClearTagReferences(s.menuItems, id))
  }

  /** `startEditingTag`: the name input gets the tag's name and the pointer its id. */
  function StartEditingTag(s: EditorState, tag: Tag): (r: EditorState)
    ensures r.newTag == tag.name && r.editingTagId == Some(tag.id)
    ensures r.(newTag := s.newTag, editingTagId := s.editingTagId) == s
  {
    s.(newTag := tag.name, editingTagId := Some(tag.id))
  }

  // ---------------------------------------------------------------------------
  // Sequences of user actions

  /** One user action on the editor; the create actions carry the id the clock gave. */
  datatype Action =
    | ChangeItemField(field: ItemField, value: string)
    | ChangeAllergens(text: string)
    | ChangeCategoryName(categoryText: string)
    | ChangeTagName(tagText: string)
    | CommitItem(itemId: string)
    | DeleteItem(deletedItemId: string)
    | EditItem(item: MenuItem)
    | CommitCategory(categoryId: string)
    | DeleteCategory(deletedCategoryId: string)
    | CommitTag(tagId: string)
    | DeleteTag(deletedTagId: string)
    | EditTag(tag: Tag)

  /** The id an action brings in is unused in the collection it would be added to. */
  predicate FreshFor(s: EditorState, a: Action) {
    match a
    case CommitItem(id) => ItemIdFree(s.menuItems, id)
    case CommitCategory(id) => CategoryIdFree(s.categories, id)
    case CommitTag(id) => TagIdFree(s.tags, id)
    case _ => true
  }

  /** The handler an action triggers. */
  function Apply(s: EditorState, a: Action): EditorState
    requires FreshFor(s, a)
  {
    match a
    case ChangeItemField(f, v) => HandleItemChange(s, f, v)
    case ChangeAllergens(text) => HandleAllergensChange(s, text)
    case ChangeCategoryName(text) => HandleCategoryNameChange(s, text)
    case ChangeTagName(text) => HandleTagNameChange(s, text)
    case CommitItem(id) => AddMenuItem(s, id)
    case DeleteItem(id) => RemoveMenuItem(s, id)
    case EditItem(item) => StartEditingItem(s, item)
    case CommitCategory(id) => AddCategory(s, id)
    case DeleteCategory(id) => RemoveCategory(s, id)
    case CommitTag(id) => AddTag(s, id)
    case DeleteTag(id) => RemoveTag(s, id)
    case EditTag(t) => StartEditingTag(s, t)
  }

  /** Every create action in the run brings an id unused at the moment it happens. */
  predicate FreshRun(s: EditorState, actions: seq<Action>)
    decreases |actions|
  {
    actions == [] || (FreshFor(s, actions[0]) && FreshRun(Apply(s, actions[0]), actions[1..]))
  }

  /** The state after performing the actions one after the other. */
  function Run(s: EditorState, actions: seq<Action>): EditorState
    requires FreshRun(s, actions)
    decreases |actions|
  {
    if actions == [] then s else Run(Apply(s, actions[0]), actions[1..])
  }

  /** Ids are pairwise different within each of the three collections. */
  predicate DistinctIds(s: EditorState) {
    && DistinctKeys(s.menuItems, ItemId)
    && DistinctKeys(s.categories, CategoryId)
    && DistinctKeys(s.tags, TagId)
  }

  /** Appending an element under an unused key keeps keys distinct. */
  lemma AppendFreshKeepsKeysDistinct<T>(s: seq<T>, x: T, key: T -> string)
    requires DistinctKeys(s, key)
    requires forall i :: 0 <= i < |s| ==> key(s[i]) != key(x)
    ensures DistinctKeys(s + [x], key)
  {
    var r := s + [x];
    forall i, j | 0 <= i < j < |r| ensures key(r[i]) != key(r[j]) {
      if j == |s| {
        assert r[i] == s[i] && r[j] == x;
      } else {
        assert r[i] == s[i] && r[j] == s[j];
      }
    }
  }

  /** With every create fed an unused id, no action makes two entries of a collection
      share an id. The source does not enforce this: it relies on the clock. */
  lemma ApplyKeepsIdsDistinct(s: EditorState, a: Action)
    requires DistinctIds(s) && FreshFor(s, a)
    ensures DistinctIds(Apply(s, a))
  {
    ApplyKeepsItemIdsDistinct(s, a);
    ApplyKeepsCategoryIdsDistinct(s, a);
    ApplyKeepsTagIdsDistinct(s, a);
  }

  /** The item part of ApplyKeepsIdsDistinct. */
  lemma ApplyKeepsItemIdsDistinct(s: EditorState, a: Action)
    requires DistinctKeys(s.menuItems, ItemId) && FreshFor(s, a)
    ensures DistinctKeys(Apply(s, a).menuItems, ItemId)
  {
    match a
    case CommitItem(id) =>
      AddMenuItemKeepsItemIdsDistinct(s, id);
    case DeleteItem(id) =>
      RemoveMenuItemKeepsItemIdsDistinct(s, id);
    case DeleteCategory(id) =>
      RemoveCategoryKeepsItemIdsDistinct(s, id);
    case DeleteTag(id) =>
      RemoveTagKeepsItemIdsDistinct(s, id);
    case _ =>
  }

  /** Deleting an item keeps the other item ids distinct. */
  lemma RemoveMenuItemKeepsItemIdsDistinct(s: EditorState, id: string)
    requires DistinctKeys(s.menuItems, ItemId)
    ensures DistinctKeys(RemoveMenuItem(s, id).menuItems, ItemId)
  {
    FilterKeepsKeysDistinct(s.menuItems, (x: MenuItem) => x.id != id, ItemId);
  }

  /** The cascade of a category deletion keeps the surviving item ids distinct. */
  lemma RemoveCategoryKeepsItemIdsDistinct(s: EditorState, id: string)
    requires DistinctKeys(s.menuItems, ItemId)
    ensures DistinctKeys(RemoveCategory(s, id).menuItems, ItemId)
  {
    FilterKeepsKeysDistinct(s.menuItems, (x: MenuItem) => x.category != id, ItemId);
  }

  /** Clearing tag references renames no item. */
  lemma RemoveTagKeepsItemIdsDistinct(s: EditorState, tagId: string)
    requires DistinctKeys(s.menuItems, ItemId)
    ensures DistinctKeys(RemoveTag(s, tagId).menuItems, ItemId)
  {
    var r := RemoveTag(s, tagId);
    assert forall i :: 0 <= i < |s.menuItems| ==> r.menuItems[i].id == s.menuItems[i].id;
  }

  /** Committing the draft under an unused id keeps item ids distinct. */
  lemma AddMenuItemKeepsItemIdsDistinct(s: EditorState, freshId: string)
    requires DistinctKeys(s.menuItems, ItemId) && ItemIdFree(s.menuItems, freshId)
    ensures DistinctKeys(AddMenuItem(s, freshId).menuItems, ItemId)
  {
    var r := AddMenuItem(s, freshId);
    if CanCommit(s.newItem) && !IsSet(s.editingItemId) {
      assert r.menuItems == s.menuItems + [s.newItem.(id := freshId)];
      AppendFreshKeepsKeysDistinct(s.menuItems, s.newItem.(id := freshId), ItemId);
    } else if CanCommit(s.newItem) {
      assert forall i :: 0 <= i < |s.menuItems| ==> r.menuItems[i].id == s.menuItems[i].id;
    }
  }

  /** The category part of ApplyKeepsIdsDistinct. */
  lemma ApplyKeepsCategoryIdsDistinct(s: EditorState, a: Action)
    requires DistinctKeys(s.categories, CategoryId) && FreshFor(s, a)
    ensures DistinctKeys(Apply(s, a).categories, CategoryId)
  {
    var r := Apply(s, a);
    match a
    case CommitCategory(id) =>
      if s.newCategory != "" {
        assert r.categories == s.categories + [MenuCategory(id, s.newCategory)];
        AppendFreshKeepsKeysDistinct(s.categories, MenuCategory(id, s.newCategory), CategoryId);
      }
    case DeleteCategory(id) =>
      FilterKeepsKeysDistinct(s.categories, (c: MenuCategory) => c.id != id, CategoryId);
    case _ =>
  }

  /** The tag part of ApplyKeepsIdsDistinct. */
  lemma ApplyKeepsTagIdsDistinct(s: EditorState, a: Action)
    requires DistinctKeys(s.tags, TagId) && FreshFor(s, a)
    ensures DistinctKeys(Apply(s, a).tags, TagId)
  {
    var r := Apply(s, a);
    match a
    case CommitTag(id) =>
      if s.newTag != "" && !IsSet(s.editingTagId) {
        assert r.tags == s.tags + [Tag(id, s.newTag)];
        AppendFreshKeepsKeysDistinct(s.tags, Tag(id, s.newTag), TagId);
      } else if s.newTag != "" {
        assert forall i :: 0 <= i < |s.tags| ==> r.tags[i].id == s.tags[i].id;
      }
    case DeleteTag(id) =>
      FilterKeepsKeysDistinct(s.tags, (t: Tag) => t.id != id, TagId);
    case _ =>
  }

  /** Over any run with fresh ids, the collections never hold two entries with one id. */
  lemma {:induction false} RunKeepsIdsDistinct(s: EditorState, actions: seq<Action>)
    requires DistinctIds(s) && FreshRun(s, actions)
    ensures DistinctIds(Run(s, actions))
    decreases |actions|
  {
    if actions != [] {
      ApplyKeepsIdsDistinct(s, actions[0]);
      RunKeepsIdsDistinct(Apply(s, actions[0]), actions[1..]);
    }
  }

  // ---------------------------------------------------------------------------
  // Quirks of the handlers

  /** Committing an edit whose item was deleted meanwhile leaves the items as they were,
      yet still clears the pointer and resets the form. */
  lemma CommitOfRemovedItemEdit(s: EditorState, freshId: string)
    requires ItemIdFree(s.menuItems, freshId)
    requires CanCommit(s.newItem) && IsSet(s.editingItemId)
    requires ItemIdFree(s.menuItems, s.editingItemId.value)
    ensures AddMenuItem(s, freshId).menuItems == s.menuItems
    ensures AddMenuItem(s, freshId).editingItemId == None
    ensures AddMenuItem(s, freshId).newItem == EmptyItem
  {
    var r := AddMenuItem(s, freshId);
    assert forall i :: 0 <= i < |s.menuItems| ==> r.menuItems[i] == s.menuItems[i];
  }

  /** Editing an item and committing keeps it at its position under its id, the form's
      values replacing its own; with distinct ids every other item is untouched.
      The item's id must be non-empty: an item with id "" would count as "not editing"
      and the commit would append a copy instead. */
  lemma EditInPlace(s: EditorState, k: int, field: ItemField, value: string, freshId: string)
    requires 0 <= k < |s.menuItems| && s.menuItems[k].id != ""
    requires DistinctKeys(s.menuItems, ItemId) && ItemIdFree(s.menuItems, freshId)
    requires CanCommit(WithField(s.menuItems[k], field, value))
    ensures
      var r := AddMenuItem(HandleItemChange(StartEditingItem(s, s.menuItems[k]), field, value), freshId);
      && |r.menuItems| == |s.menuItems|
      && r.menuItems[k] == WithField(s.menuItems[k], field, value)
      && (forall i :: 0 <= i < |s.menuItems| && i != k ==> r.menuItems[i] == s.menuItems[i])
      && r.editingItemId == None && r.newItem == EmptyItem
  {
    var s1 := StartEditingItem(s, s.menuItems[k]);
    var s2 := HandleItemChange(s1, field, value);
    assert s2.newItem == WithField(s.menuItems[k], field, value);
    assert s2.menuItems == s.menuItems && s2.editingItemId == Some(s.menuItems[k].id);
    forall i | 0 <= i < |s.menuItems| && i != k ensures s.menuItems[i].id != s.menuItems[k].id {
      if i < k { assert ItemId(s.menuItems[i]) != ItemId(s.menuItems[k]); }
      else { assert ItemId(s.menuItems[k]) != ItemId(s.menuItems[i]); }
    }
  }

  /** After a tag is deleted no item refers to it any more (tag ids are never ""). */
  lemma RemoveTagLeavesNoReference(s: EditorState, id: string)
    requires id != ""
    ensures forall x :: x in RemoveTag(s, id).menuItems ==> x.tag != id
    ensures forall t :: t in RemoveTag(s, id).tags ==> t.id != id
  {
    var r := RemoveTag(s, id);
    forall x | x in r.menuItems ensures x.tag != id {
      var i :| 0 <= i < |r.menuItems| && r.menuItems[i] == x;
    }
  }

  /** Deleting a category or a tag leaves the form alone: the draft may keep a
      reference to what was deleted, and can still be committed with it. */
  lemma DeletionsKeepDraft(s: EditorState, categoryId: string, tagId: string, freshId: string)
    requires ItemIdFree(WithoutCategoryItems(s.menuItems, categoryId), freshId)
    requires CanCommit(s.newItem) && s.newItem.category == categoryId && !IsSet(s.editingItemId)
    ensures RemoveCategory(s, categoryId).newItem == s.newItem
    ensures RemoveTag(s, tagId).newItem == s.newItem
    ensures
      var r := AddMenuItem(RemoveCategory(s, categoryId), freshId);
      r.menuItems[|r.menuItems| - 1].category == categoryId
  {
  }
}
