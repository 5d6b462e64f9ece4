# Menu creator: entity store, edit session and preview

A Dafny model of the core of a client-side restaurant-menu editor. The editor keeps
three ordered collections (menu items, categories, tags) and a small edit session
(an item draft, a category-name draft, a tag-name draft and two optional "editing id"
pointers). Its handlers create, update and delete entries, with two different cascades:
deleting a category deletes its items, deleting a tag only clears the items' reference
to it. A read-only preview groups the items by category, in category order, and
resolves each item's tag id to a tag name.

Files, one module each:

- `menu_types.dfy` (`MenuTypes`): the records `MenuItem`, `MenuCategory`, `Tag`, an
  `Option`, and the blank form `EmptyItem`.
- `seqs.dfy` (`Seqs`): `Filter` (JavaScript's `Array.prototype.filter`), subsequences,
  distinct keys.
- `allergens.dfy` (`Allergens`): the allergen input, `split(',')` then `trim` on every
  piece, and the `join(', ')` that shows the list back in the input.
- `menu_store.dfy` (`MenuStore`): the pure collection updates the handlers apply
  (`filter`, `map`, record spread) and the two truthiness tests of the handlers.
- `menu_session.dfy` (`MenuSession`): the whole editor state as a value, one transition
  function per handler, user-action runs, and lemmas over them.
- `menu_creator.dfy` (`MenuCreatorComponent`): the component as a class `MenuCreator`
  whose fields are the collections and the session state; each handler is a method that
  assigns the fields as the component's setters do, proved to perform the matching
  `MenuSession` transition.
- `menu_preview.dfy` (`MenuPreview`): the preview as a function from (items,
  categories, tags) to a list of category groups, and lemmas about group membership.
- `menu_scenarios.dfy` (`MenuScenarios`): runs of handlers followed by the preview,
  and worked examples.

Modelling choices:

- `tag` and `specialNotes` are `string`s where `""` means absent. The blank form sets both
  to `''`, deleting a tag sets the reference to `''`, and every reader tests them by
  truthiness, so a missing value and `""` behave the same. `allergens` is an
  `Option<seq<string>>` because the preview tests presence and length separately.
- The editing pointers are `Option<string>`, and the handlers' `if (editingItemId)` /
  `if (editingTagId)` is JavaScript truthiness: `MenuStore.IsSet` is true for
  `Some(id)` with `id != ""` and false for `None` and `Some("")`. When it is false,
  the commit appends and leaves the pointer as it was. The source does the same: only the
  editing branch calls `setEditingItemId(null)`.
- Ids come from the clock in the source. Here each create handler takes the new id as a
  parameter `freshId` and requires that no entry of that collection already has it. Id
  distinctness is proved only under that assumption (`RunKeepsIdsDistinct`); the source
  itself does not enforce it.
- Each handler is one atomic transition. The collections the parent component holds
  (`src/App.tsx`) are fields of the class.
- Trimming removes JavaScript's WhiteSpace and LineTerminator characters, listed as a fixed
  set in `Allergens.IsSpace`. The space separators there are the Unicode category Zs.
- The preview is a function, so it cannot change its inputs.

## Model

| member | source | states |
|---|---|---|
| `Seqs.Filter` | src/components/MenuCreator.tsx:79 | the result is a subsequence of the input, and a value is in it exactly when it is in the input and satisfies the predicate |
| `Seqs.FilterCount` | src/components/MenuCreator.tsx:95-96 | each kept value occurs as often as in the input, and each dropped value never occurs; with `Filter`'s contract this makes the result exactly the kept positions, in order |
| `Seqs.FilterAllKept` | src/components/MenuCreator.tsx:79 | when every element passes, filtering returns the input itself, so deleting an absent id is a no-op |
| `Seqs.FilterKeepsKeysDistinct` | src/components/MenuCreator.tsx:114 | filtering never makes two entries share an id |
| `Allergens.TrimStart` | src/components/MenuCreator.tsx:209 | the result is no longer than the input and does not start with whitespace |
| `Allergens.TrimStartDrops` | src/components/MenuCreator.tsx:209 | the result of `TrimStart` is a suffix of the input and only whitespace comes before it |
| `Allergens.TrimEnd` | src/components/MenuCreator.tsx:209 | the result is no longer than the input and does not end with whitespace |
| `Allergens.TrimEndDrops` | src/components/MenuCreator.tsx:209 | the result of `TrimEnd` is a prefix of the input and only whitespace comes after it |
| `Allergens.Trim` | src/components/MenuCreator.tsx:209 | the result has no whitespace at either end and is no longer than the input |
| `Allergens.TrimDrops` | src/components/MenuCreator.tsx:209 | the trim is the slice of the input between a whitespace-only prefix and a whitespace-only suffix |
| `Allergens.TrimAddsNothing` | src/components/MenuCreator.tsx:209 | a character absent from the input is absent from its trim |
| `Allergens.TrimOfTrimmed` | src/components/MenuCreator.tsx:209 | trimming a string that has no edge whitespace returns it unchanged |
| `Allergens.TrimIgnoresLeadingSpace` | src/components/MenuCreator.tsx:209 | a leading whitespace character makes no difference to the trim |
| `Allergens.Split` | src/components/MenuCreator.tsx:209 | `split` gives one piece more than the separator count, and no piece contains the separator |
| `Allergens.Join` | src/components/MenuPreview.tsx:43 | `Array.prototype.join`: the empty list gives `""` and a single piece gives itself |
| `Allergens.JoinShape` | src/components/MenuCreator.tsx:208 | a join of a non-empty list starts with the first piece, ends with the last, and is as long as all pieces plus one separator per gap |
| `Allergens.JoinSplit` | src/components/MenuCreator.tsx:209 | joining the pieces of a split with the separator gives back the original text |
| `Allergens.TrimEach` | src/components/MenuCreator.tsx:209 | the result has one entry per piece |
| `Allergens.TrimEachAt` | src/components/MenuCreator.tsx:209 | entry i of the result is the trim of piece i |
| `Allergens.Parse` | src/components/MenuCreator.tsx:209 | the parsed list has (number of commas) + 1 entries, so `""` gives `[""]`, and no entry holds a comma or edge whitespace |
| `Allergens.SplitWithoutSep` | src/components/MenuCreator.tsx:209 | a text without the separator splits into itself alone |
| `Allergens.SplitAtFirstSep` | src/components/MenuCreator.tsx:209 | a separator-free prefix followed by the separator is the first piece, and the rest splits on its own |
| `Allergens.ParseIgnoresLeadingSpace` | src/components/MenuCreator.tsx:209 | a leading blank does not change the parsed list |
| `Allergens.ParseAfterEntry` | src/components/MenuCreator.tsx:208-209 | an entry followed by `", "` parses as that entry followed by the parse of the rest |
| `Allergens.ParseJoin` | src/components/MenuCreator.tsx:208-209 | parsing the `join(', ')` of a non-empty list of comma-free trimmed entries gives back that list |
| `Allergens.ParseDisplayedText` | src/components/MenuCreator.tsx:208-209 | typing the input's displayed text back in stores the same list |
| `MenuStore.WithoutItem` | src/components/MenuCreator.tsx:79 | keeps exactly the items whose id differs, each as often as in the input and in order, and none with the id; the identity when no item has the id |
| `MenuStore.WithoutCategoryItems` | src/components/MenuCreator.tsx:96 | keeps exactly the items not filed under the category, each as often as in the input and in order, and none filed under it; the identity when none is |
| `MenuStore.WithoutCategory` | src/components/MenuCreator.tsx:95 | keeps exactly the categories whose id differs, each as often as in the input and in order, and none with the id; the identity when none has it |
| `MenuStore.WithoutTag` | src/components/MenuCreator.tsx:114 | keeps exactly the tags whose id differs, each as often as in the input and in order, and none with the id; the identity when none has it |
| `MenuStore.ClearTagReferences` | src/components/MenuCreator.tsx:115-117 | keeps the length; every item with that tag loses only its tag, and every other item is unchanged |
| `MenuStore.ReplaceItemsWithId` | src/components/MenuCreator.tsx:57-59 | keeps the length; every item with the id becomes the draft under that id, and every other item is unchanged |
| `MenuStore.RenameTags` | src/components/MenuCreator.tsx:102-104 | keeps the length; every tag with the id gets the new name and keeps its id, and every other tag is unchanged |
| `MenuStore.WithField` | src/components/MenuCreator.tsx:38-41 | the named input reads the new value; every other input, the id, the image and the allergens keep their old values |
| `MenuSession.Mount` | src/components/MenuCreator.tsx:22-36 | the collections are the ones handed in, the form is blank and neither pointer is set |
| `MenuSession.HandleItemChange` | src/components/MenuCreator.tsx:38-41 | only the draft changes; within it the named input takes the value, every other input keeps its value, and the id, image and allergen list stay as they were |
| `MenuSession.HandleAllergensChange` | src/components/MenuCreator.tsx:209 | only the draft's allergens change; they become the parse of the text (`split(',')` then `trim` of each piece), with (number of commas) + 1 entries |
| `MenuSession.HandleCategoryNameChange` | src/components/MenuCreator.tsx:230 | only the category-name draft changes |
| `MenuSession.HandleTagNameChange` | src/components/MenuCreator.tsx:264 | only the tag-name draft changes |
| `MenuSession.AddMenuItem` | src/components/MenuCreator.tsx:54-76 | a draft missing its name, price or category changes nothing. Editing: same length and order, each item with the editing id becomes the draft under that id, the others stay, and the pointer is cleared. Not editing: the draft is appended under the fresh id after the unchanged old items, and the pointer is left alone. The draft is reset on commit, and categories, tags and the name drafts never change |
| `MenuSession.RemoveMenuItem` | src/components/MenuCreator.tsx:78-80 | the items become the subsequence without that id, every other item as often as before; nothing changes when the id is absent; everything else, including the editing pointer, stays |
| `MenuSession.StartEditingItem` | src/components/MenuCreator.tsx:82-85 | the draft becomes the item and the pointer its id; nothing else changes |
| `MenuSession.AddCategory` | src/components/MenuCreator.tsx:87-92 | an empty name changes nothing; otherwise one `{freshId, name}` is appended after the unchanged categories and the name draft is cleared; nothing else changes |
| `MenuSession.RemoveCategory` | src/components/MenuCreator.tsx:94-97 | exactly the categories with that id and the items filed under it go; the survivors keep their order and their number of occurrences; tags, drafts and pointers stay |
| `MenuSession.AddTag` | src/components/MenuCreator.tsx:99-111 | an empty name changes nothing. Editing: same length, ids and order, the tags with the editing id get the new name, the rest stay, and the pointer is cleared. Otherwise one `{freshId, name}` is appended. The name draft is cleared |
| `MenuSession.RemoveTag` | src/components/MenuCreator.tsx:113-118 | exactly the tags with that id go, the others keeping their order and number of occurrences; every item stays in place, and items with that tag lose only the tag; nothing else changes |
| `MenuSession.StartEditingTag` | src/components/MenuCreator.tsx:120-123 | the name draft becomes the tag's name and the pointer its id; nothing else changes |
| `MenuSession.ApplyKeepsIdsDistinct` | src/components/MenuCreator.tsx:54-123 | given a fresh id for every create, no handler makes two entries of a collection share an id |
| `MenuSession.ApplyKeepsItemIdsDistinct` | src/components/MenuCreator.tsx:54-123 | given a fresh id for an item commit, no handler makes two items share an id |
| `MenuSession.AddMenuItemKeepsItemIdsDistinct` | src/components/MenuCreator.tsx:54-76 | committing the draft under an unused id keeps the item ids distinct, both when appending and when editing |
| `MenuSession.ApplyKeepsCategoryIdsDistinct` | src/components/MenuCreator.tsx:87-97 | given a fresh id for a category commit, no handler makes two categories share an id |
| `MenuSession.ApplyKeepsTagIdsDistinct` | src/components/MenuCreator.tsx:99-118 | given a fresh id for a tag commit, no handler makes two tags share an id |
| `MenuSession.RunKeepsIdsDistinct` | src/components/MenuCreator.tsx:54-123 | over any sequence of user actions with fresh ids, the ids stay distinct in all three collections |
| `MenuSession.CommitOfRemovedItemEdit` | src/components/MenuCreator.tsx:56-74 | committing an edit whose item was deleted leaves the items unchanged, yet clears the pointer and resets the draft |
| `MenuSession.EditInPlace` | src/components/MenuCreator.tsx:56-60 | start editing item k, change one input, commit: item k keeps its position and id, takes the edited values, and every other item stays (given distinct, non-empty ids) |
| `MenuSession.RemoveTagLeavesNoReference` | src/components/MenuCreator.tsx:113-118 | after a tag is deleted, no item refers to it and no tag has its id |
| `MenuSession.DeletionsKeepDraft` | src/components/MenuCreator.tsx:94-97 | deleting a category, or any tag, leaves the draft alone, so a draft filed under a deleted category can still be committed with that category |
| `MenuCreatorComponent.MenuCreator.constructor` | src/components/MenuCreator.tsx:22-36 | the object starts in `Mount`'s state |
| `MenuCreatorComponent.MenuCreator.HandleItemChange` | src/components/MenuCreator.tsx:38-41 | performs `MenuSession.HandleItemChange` on the fields |
| `MenuCreatorComponent.MenuCreator.HandleAllergensChange` | src/components/MenuCreator.tsx:209 | performs `MenuSession.HandleAllergensChange` on the fields |
| `MenuCreatorComponent.MenuCreator.HandleCategoryNameChange` | src/components/MenuCreator.tsx:230 | performs `MenuSession.HandleCategoryNameChange` on the fields |
| `MenuCreatorComponent.MenuCreator.HandleTagNameChange` | src/components/MenuCreator.tsx:264 | performs `MenuSession.HandleTagNameChange` on the fields |
| `MenuCreatorComponent.MenuCreator.AddMenuItem` | src/components/MenuCreator.tsx:54-76 | performs `MenuSession.AddMenuItem` on the fields |
| `MenuCreatorComponent.MenuCreator.RemoveMenuItem` | src/components/MenuCreator.tsx:78-80 | performs `MenuSession.RemoveMenuItem` on the fields |
| `MenuCreatorComponent.MenuCreator.StartEditingItem` | src/components/MenuCreator.tsx:82-85 | performs `MenuSession.StartEditingItem` on the fields |
| `MenuCreatorComponent.MenuCreator.AddCategory` | src/components/MenuCreator.tsx:87-92 | performs `MenuSession.AddCategory` on the fields |
| `MenuCreatorComponent.MenuCreator.RemoveCategory` | src/components/MenuCreator.tsx:94-97 | performs `MenuSession.RemoveCategory` on the fields |
| `MenuCreatorComponent.MenuCreator.AddTag` | src/components/MenuCreator.tsx:99-111 | performs `MenuSession.AddTag` on the fields |
| `MenuCreatorComponent.MenuCreator.RemoveTag` | src/components/MenuCreator.tsx:113-118 | performs `MenuSession.RemoveTag` on the fields |
| `MenuCreatorComponent.MenuCreator.StartEditingTag` | src/components/MenuCreator.tsx:120-123 | performs `MenuSession.StartEditingTag` on the fields |
| `MenuPreview.FindTagName` | src/components/MenuPreview.tsx:33 | absent exactly when no tag has the id |
| `MenuPreview.FindTagNameFirst` | src/components/MenuPreview.tsx:33 | when tag i is the first with the id, the lookup gives tag i's name |
| `MenuPreview.BadgeOf` | src/components/MenuPreview.tsx:31-35 | a badge exactly when the item's tag is non-empty, holding the first-match lookup, which may be empty and is never an error |
| `MenuPreview.AllergenLine` | src/components/MenuPreview.tsx:41-45 | a line exactly when the list is present and non-empty; the line is the entries joined with `", "`, and for a list the allergen input can produce, parsing it gives the list back |
| `MenuPreview.IfPresent` | src/components/MenuPreview.tsx:25-27 | the image (and likewise the special notes) is shown exactly when non-empty, and then as it is |
| `MenuPreview.EntryOf` | src/components/MenuPreview.tsx:23-49 | one item's entry: keyed by its id, always showing its name, description and price; its image and notes only when non-empty; a badge exactly when it has a tag, holding the first-match tag name; an allergen line exactly when its list is present and non-empty, holding the `", "` join |
| `MenuPreview.Entries` | src/components/MenuPreview.tsx:22-49 | one entry per item, in item order, each keyed by its item's id |
| `MenuPreview.GroupItems` | src/components/MenuPreview.tsx:20-21 | exactly the items filed under the category id, each as often as among the items, as a subsequence of the items |
| `MenuPreview.Preview` | src/components/MenuPreview.tsx:14-22 | one group per category, in category order, including empty ones; group k has category k's id and name and lists the entries of exactly its items |
| `MenuPreview.GroupsOfItem` | src/components/MenuPreview.tsx:14-22 | an item is listed under category k exactly when it is filed under k's id; an item whose category matches no category is listed nowhere |
| `MenuPreview.ListedOnce` | src/components/MenuPreview.tsx:14-22 | with distinct category ids, an item filed under category k is listed under k and under no other category |
| `MenuPreview.FiledItemIsShown` | src/components/MenuPreview.tsx:14-23 | an item filed under category k has its entry in group k |
| `MenuPreview.ShownItem` | src/components/MenuPreview.tsx:14-23 | every entry of group k is the entry of some item filed under category k |
| `MenuPreview.NoEntryForUnlistedId` | src/components/MenuPreview.tsx:14-23 | when every item with an id is filed under no listed category, no group shows an entry with that id |
| `MenuPreview.EntryShownIff` | src/components/MenuPreview.tsx:14-23 | with distinct item ids, group k shows an entry with an item's id exactly when that item is filed under category k |
| `MenuScenarios.DanglingCategoryCommitIsHidden` | src/components/MenuCreator.tsx:94-97 | delete a category, then commit a draft filed under it: the item is stored, but the preview lists it in no group and shows no entry with its id |
| `MenuScenarios.CreateFirstItem` | src/components/MenuCreator.tsx:61-74 | on an empty menu, filling in name, price and category and committing stores exactly that item, with blank defaults and the fresh id |
| `MenuScenarios.DeleteCategoryCascades` | src/components/MenuCreator.tsx:94-97 | deleting category c1 holding item i1 leaves no items and no categories |
| `MenuScenarios.DeleteTagClearsReference` | src/components/MenuCreator.tsx:113-118 | deleting tag t1 keeps item i1 with its tag cleared and leaves no tags |
| `MenuScenarios.PreviewKeepsEmptyCategories` | src/components/MenuPreview.tsx:14-22 | with categories A and B and one item in B, the groups are A (empty), then B (that item) |
| `MenuScenarios.AllergensOfEmptyField` | src/components/MenuCreator.tsx:209 | the empty input stores `[""]` |
| `MenuScenarios.AllergensOfTwoEntries` | src/components/MenuCreator.tsx:209 | two comma-free trimmed entries typed around `", "` (such as `"nuts, milk"`) are stored as exactly those two entries |

## Left out

- `handleImageUpload` (src/components/MenuCreator.tsx:43-52) is not modelled. It is an
  asynchronous browser `FileReader` callback. The image is an opaque string field that
  only `startEditingItem` can fill. The callback's stale-closure overwrite of the draft
  is a concurrency effect and is not modelled either.
- `Date.now().toString()` id generation depends on the clock. The create handlers take
  the id as a parameter instead, with the requirement that it is unused.
- `src/App.tsx` holds the three collections and a preview/edit toggle. It is not part of
  this model beyond the collections becoming fields of the class.
- The JSX markup, CSS classes, icons and the `" Dh"` price suffix are presentation only.
  The preview entry carries the price text itself.
- The editor's own item list (src/components/MenuCreator.tsx:304-330) is presentation.
  It repeats the preview's per-item rendering. Its tag lookup is the first-match `find`
  that `MenuPreview.FindTagName` models; its category-name lookup has the same shape
  over the categories but is not modelled.
- React's batching of setter calls and its re-rendering are not modelled; each handler
  is one atomic transition.
- `Allergens.IsSpace` is a fixed character list. If Unicode later adds characters to
  category Zs, the model will not follow.
- Whether a `MenuItem` read from elsewhere has `tag` or `specialNotes` missing, rather
  than `""`, is not represented. Every reader in the core treats the two alike.
