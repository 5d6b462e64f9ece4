/** Runs of the editor followed by the preview, and worked examples: what a sequence
    of handlers leaves behind and what the preview then shows. */
module MenuScenarios {
  import opened MenuTypes
  import opened Seqs
  import opened MenuStore
  import opened MenuSession
  import opened MenuPreview
  import Allergens

  /** Deleting a category does not touch the form, so a draft filed under it can still
      be committed; the item is stored, but the preview lists it under no heading and
      shows no entry with its id. */
  lemma DanglingCategoryCommitIsHidden(s: EditorState, categoryId: string, freshId: string)
    requires CanCommit(s.newItem) && s.newItem.category == categoryId && !IsSet(s.editingItemId)
    requires ItemIdFree(RemoveCategory(s, categoryId).menuItems, freshId)
    ensures
      var r := AddMenuItem(RemoveCategory(s, categoryId), freshId);
      var x := s.newItem.(id := freshId);
      && x in r.menuItems
      && (forall k :: 0 <= k < |r.categories| ==> x !in GroupItems(r.menuItems, r.categories[k].id))
      && (forall k, e :: 0 <= k < |r.categories| && e in Preview(r.menuItems, r.categories, r.tags)[k].entries ==>
            e.key != freshId)
  {
    var s1 := RemoveCategory(s, categoryId);
    var r := AddMenuItem(s1, freshId);
    var x := s.newItem.(id := freshId);
    CommitAfterCategoryDeletion(s, categoryId, freshId);
    GroupsOfItem(r.menuItems, r.categories, x);
    OnlyEntryWithFreshId(s1.menuItems, x);
    forall z | z in r.menuItems && z.id == freshId ensures CategoryIdFree(r.categories, z.category) {
      assert z == x;
    }
    NoEntryForUnlistedId(r.menuItems, r.categories, r.tags, freshId);
  }

  /** The state DanglingCategoryCommitIsHidden starts from: the draft is appended and
      the deleted category is gone. */
  lemma CommitAfterCategoryDeletion(s: EditorState, categoryId: string, freshId: string)
    requires CanCommit(s.newItem) && !IsSet(s.editingItemId)
    requires ItemIdFree(RemoveCategory(s, categoryId).menuItems, freshId)
    ensures
      var s1 := RemoveCategory(s, categoryId);
      var r := AddMenuItem(s1, freshId);
      && r.menuItems == s1.menuItems + [s.newItem.(id := freshId)]
      && r.categories == s1.categories
      && CategoryIdFree(r.categories, categoryId)
  {
    var s1 := RemoveCategory(s, categoryId);
    var r := AddMenuItem(s1, freshId);
    assert r.categories == s1.categories;
    forall k | 0 <= k < |r.categories| ensures r.categories[k].id != categoryId {
      assert r.categories[k] in s1.categories;
    }
  }

  /** Appending an item under an unused id makes it the only entry with that id. */
  lemma OnlyEntryWithFreshId(items: seq<MenuItem>, x: MenuItem)
    requires ItemIdFree(items, x.id)
    ensures forall z :: z in items + [x] && z.id == x.id ==> z == x
  {
    assert forall z :: z in items ==> z.id != x.id by {
      forall z | z in items ensures z.id != x.id {
        var i :| 0 <= i < |items| && items[i] == z;
      }
    }
  }

  /** Adding a croissant to an empty menu with one category stores exactly one item:
      the form's values, the blank defaults elsewhere, and the id from the clock. */
  lemma CreateFirstItem()
    ensures
      var s := Mount([], [MenuCategory("c1", "Pastries")], []);
      var s1 := HandleItemChange(HandleItemChange(HandleItemChange(s, NameField, "Croissant"), PriceField, "12"), CategoryField, "c1");
      var r := AddMenuItem(s1, "1700000000000");
      && r.menuItems == [MenuItem("1700000000000", "Croissant", "", "12", "c1", "", "", "", Some([]))]
      && r.newItem == EmptyItem
      && r.categories == [MenuCategory("c1", "Pastries")]
  {
  }

  /** Deleting a category removes the items filed under it together with it. */
  lemma DeleteCategoryCascades()
    ensures
      var item := EmptyItem.(id := "i1", category := "c1");
      var s := Mount([item], [MenuCategory("c1", "Pastries")], []);
      var r := RemoveCategory(s, "c1");
      r.menuItems == [] && r.categories == []
  {
    var item := EmptyItem.(id := "i1", category := "c1");
    var r := RemoveCategory(Mount([item], [MenuCategory("c1", "Pastries")], []), "c1");
    assert item !in r.menuItems;
    assert MenuCategory("c1", "Pastries") !in r.categories;
  }

  /** Deleting a tag clears it on the items that carried it and keeps the items. */
  lemma DeleteTagClearsReference()
    ensures
      var item := EmptyItem.(id := "i1", tag := "t1");
      var s := Mount([item], [], [Tag("t1", "Vegan")]);
      var r := RemoveTag(s, "t1");
      r.menuItems == [item.(tag := "")] && r.tags == []
  {
    var r := RemoveTag(Mount([EmptyItem.(id := "i1", tag := "t1")], [], [Tag("t1", "Vegan")]), "t1");
    assert Tag("t1", "Vegan") !in r.tags;
  }

  /** Two categories and one item filed under the second: two groups in category order,
      the first one empty. */
  lemma PreviewKeepsEmptyCategories()
    ensures
      var item := EmptyItem.(id := "i1", name := "Eclair", category := "c2");
      var groups := Preview([item], [MenuCategory("c1", "A"), MenuCategory("c2", "B")], []);
      && |groups| == 2
      && groups[0].heading == "A" && groups[0].entries == []
      && groups[1].heading == "B" && |groups[1].entries| == 1 && groups[1].entries[0].key == "i1"
  {
    var item := EmptyItem.(id := "i1", name := "Eclair", category := "c2");
    assert [item][1..] == [];
    assert GroupItems([item], "c1") == [];
    assert GroupItems([item], "c2") == [item];
  }

  /** The allergen input: the empty field stores one empty entry. */
  lemma AllergensOfEmptyField()
    ensures Allergens.Parse("") == [""]
  {
  }

  /** The allergen input: two entries typed around ", " are stored as those two
      entries, the blank after the comma dropped. */
  lemma AllergensOfTwoEntries(a: string, b: string)
    requires Allergens.IsEntry(a) && Allergens.IsEntry(b)
    ensures Allergens.Parse(a + ", " + b) == [a, b]
  {
    Allergens.ParseAfterEntry(a, b);
    Allergens.ParseJoin([b]);
  }
}
