/** The state the Notes and Bookmarks pages keep (frontend/src/pages/NotesPage.jsx,
    BookmarksPage.jsx) and the handlers that replace it after a server call. Each
    React setter replaces a whole value, so each handler is a function from the old
    page state to the new one; `alert`, `window.confirm` and the request outcome are
    inputs. */
module ListPage {
  import opened Wrappers
  import opened ClientLists

  /** The list shown, whether the edit modal is open, the item being edited (`null`
      while creating) and the form fields. */
  datatype Page<Item, Form> = Page(items: seq<Item>, modalOpen: bool, editing: Option<Item>, form: Form)

  /** `closeModal`: the modal closes, nothing is being edited and the form is emptied. */
  function CloseModal<Item, Form>(p: Page<Item, Form>, empty: Form): (r: Page<Item, Form>)
    ensures !r.modalOpen && r.editing.None? && r.form == empty && r.items == p.items
  {
    p.(modalOpen := false, editing := None, form := empty)
  }

  /** `handleEdit`: the item is being edited, the form shows it and the modal opens. */
  function OpenEditor<Item, Form>(p: Page<Item, Form>, item: Item, form: Form): (r: Page<Item, Form>)
    ensures r.modalOpen && r.editing == Some(item) && r.form == form && r.items == p.items
  {
    p.(modalOpen := true, editing := Some(item), form := form)
  }

  /** The end of `handleSubmit`: `saved` is the server's reply, `None` when the request
      failed. An edit replaces the edited item by id, a create prepends the reply, and
      either closes the modal; a failure changes nothing and leaves the modal open. */
  function AfterSubmit<Item, Form>(p: Page<Item, Form>, saved: Option<Item>, idOf: Item -> string, empty: Form): (r: Page<Item, Form>)
    ensures saved.None? ==> r == p
    ensures saved.Some? ==> !r.modalOpen && r.editing.None? && r.form == empty
    ensures saved.Some? && p.editing.Some? ==>
              r.items == ReplaceById(p.items, idOf(p.editing.value), idOf, saved.value)
    ensures saved.Some? && p.editing.None? ==> |r.items| == |p.items| + 1 && r.items[0] == saved.value && r.items[1..] == p.items
  {
    if saved.None? then p
    else if p.editing.Some? then
      CloseModal(p.(items := ReplaceById(p.items, idOf(p.editing.value), idOf, saved.value)), empty)
    else
      CloseModal(p.(items := [saved.value] + p.items), empty)
  }

  /** `handleDelete`: only a confirmed request that succeeded removes the item, and
      only from the list. */
  function AfterDelete<Item, Form>(p: Page<Item, Form>, id: string, confirmed: bool, ok: bool, idOf: Item -> string): (r: Page<Item, Form>)
    ensures !(confirmed && ok) ==> r == p
    ensures confirmed && ok ==> r == p.(items := RemoveById(p.items, id, idOf))
  {
    if confirmed && ok then p.(items := RemoveById(p.items, id, idOf)) else p
  }

  /** An edit keeps every item whose id differs from the edited one, in place. */
  lemma EditKeepsOthers<Item, Form>(p: Page<Item, Form>, saved: Item, idOf: Item -> string, empty: Form)
    requires p.editing.Some?
    ensures var r := AfterSubmit(p, Some(saved), idOf, empty);
            && |r.items| == |p.items|
            && forall i :: 0 <= i < |p.items| && idOf(p.items[i]) != idOf(p.editing.value) ==> r.items[i] == p.items[i]
  {
  }

  /** After a confirmed, successful delete the list holds exactly the items with another
      id, as many times as before, and in their old order. */
  lemma {:induction false} DeleteKeepsOthers<Item, Form>(p: Page<Item, Form>, id: string, idOf: Item -> string, x: Item, before: seq<Item>, after: seq<Item>)
    requires p.items == before + after
    ensures var r := AfterDelete(p, id, true, true, idOf);
            && multiset(r.items)[x] == (if idOf(x) == id then 0 else multiset(p.items)[x])
            && r.items == RemoveById(before, id, idOf) + RemoveById(after, id, idOf)
  {
    RemoveByIdKeeps(p.items, id, idOf, x);
    RemoveByIdConcat(before, after, id, idOf);
  }
}
