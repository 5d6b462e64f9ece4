/** The menu editor component (src/components/MenuCreator.tsx) as an object: the
    collections it is handed and its session state are fields, and every handler is
    a method that updates them through the same setters, in the same order, as the
    component does. Each method is specified by the transition of MenuSession it
    performs. */
module MenuCreatorComponent {
  import opened MenuTypes
  import opened MenuStore
  import opened MenuSession
  import Allergens

  class MenuCreator {
    var menuItems: seq<MenuItem>
    var categories: seq<MenuCategory>
    var tags: seq<Tag>
    var newItem: MenuItem
    var newCategory: string
    var newTag: string
    var editingItemId: Option<string>
    var editingTagId: Option<string>

    /** The whole state of the component as a value. */
    function State(): EditorState
      reads this
    {
      EditorState(menuItems, categories, tags, newItem, newCategory, newTag, editingItemId, editingTagId)
    }

    /** Mounting: the collections come from the parent, the form starts blank. */
    constructor (menuItems: seq<MenuItem>, categories: seq<MenuCategory>, tags: seq<Tag>)
      ensures State() == Mount(menuItems, categories, tags)
    {
      this.menuItems := menuItems;
      this.categories := categories;
      this.tags := tags;
      newItem := EmptyItem;
      newCategory := "";
      newTag := "";
      editingItemId := None;
      editingTagId := None;
    }

    method HandleItemChange(field: ItemField, value: string)
      modifies this
      ensures State() == MenuSession.HandleItemChange(old(State()), field, value)
    {
      newItem := WithField(newItem, field, value);
    }

    method HandleAllergensChange(text: string)
      modifies this
      ensures State() == MenuSession.HandleAllergensChange(old(State()), text)
    {
      newItem := newItem.(allergens := Some(Allergens.Parse(text)));
    }

    method HandleCategoryNameChange(text: string)
      modifies this
      ensures State() == MenuSession.HandleCategoryNameChange(old(State()), text)
    {
      newCategory := text;
    }

    method HandleTagNameChange(text: string)
      modifies this
      ensures State() == MenuSession.HandleTagNameChange(old(State()), text)
    {
      newTag := text;
    }

    method AddMenuItem(freshId: string)
      requires ItemIdFree(menuItems, freshId)
      modifies this
      ensures State() == MenuSession.AddMenuItem(old(State()), freshId)
    {
      if CanCommit(newItem) {
        if IsSet(editingItemId) {
          menuItems := ReplaceItemsWithId(menuItems, editingItemId.value, newItem);
          editingItemId := None;
        } else {
          menuItems := menuItems + [newItem.(id := freshId)];
        }
        newItem := EmptyItem;
      }
    }

    method RemoveMenuItem(id: string)
      modifies this
      ensures State() == MenuSession.RemoveMenuItem(old(State()), id)
    {
      menuItems := WithoutItem(menuItems, id);
    }

    method StartEditingItem(item: MenuItem)
      modifies this
      ensures State() == MenuSession.StartEditingItem(old(State()), item)
    {
      newItem := item;
      editingItemId := Some(item.id);
    }

    method AddCategory(freshId: string)
      requires CategoryIdFree(categories, freshId)
      modifies this
      ensures State() == MenuSession.AddCategory(old(State()), freshId)
    {
      if newCategory != "" {
        categories := categories + [MenuCategory(freshId, newCategory)];
        newCategory := "";
      }
    }

    method RemoveCategory(id: string)
      modifies this
      ensures State() == MenuSession.RemoveCategory(old(State()), id)
    {
      categories := WithoutCategory(categories, id);
      menuItems := WithoutCategoryItems(menuItems, id);
    }

    method AddTag(freshId: string)
      requires TagIdFree(tags, freshId)
      modifies this
      ensures State() == MenuSession.AddTag(old(State()), freshId)
    {
      if newTag != "" {
        if IsSet(editingTagId) {
          tags := RenameTags(tags, editingTagId.value, newTag);
          editingTagId := None;
        } else {
          tags := tags + [Tag(freshId, newTag)];
        }
        newTag := "";
      }
    }

    method RemoveTag(id: string)
      modifies this
      ensures State() == MenuSession.RemoveTag(old(State()), id)
    {
      tags := WithoutTag(tags, id);
      menuItems := ClearTagReferences(menuItems, id);
    }

    method StartEditingTag(tag: Tag)
      modifies this
      ensures State() == MenuSession.StartEditingTag(old(State()), tag)
    {
      newTag := tag.name;
      editingTagId := Some(tag.id);
    }
  }
}
