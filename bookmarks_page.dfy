/** The Bookmarks page (frontend/src/pages/BookmarksPage.jsx): the edit form built
    from a bookmark, the data `handleSubmit` sends and the page updates after a save
    or a delete. */
module BookmarksPage {
  import opened Wrappers
  import opened Queries
  import opened ClientLists
  import opened ListPage

  /** A bookmark as the page receives it from the server. */
  datatype ClientBookmark = ClientBookmark(id: string, url: string, title: Option<string>, description: Option<string>, tags: Option<seq<string>>)

  /** The four text fields of the modal. */
  datatype BookmarkForm = BookmarkForm(url: string, title: string, description: string, tags: string)

  /** The body `handleSubmit` sends: the form with `tags` parsed into a list. */
  datatype BookmarkData = BookmarkData(url: string, title: string, description: string, tags: seq<string>)

  type BookmarksState = Page<ClientBookmark, BookmarkForm>

  function BookmarkId(b: ClientBookmark): string { b.id }

  const EmptyForm := BookmarkForm("", "", "", "")

  /** `value || ''`: an absent or empty string shows as "". */
  function OrEmpty(v: Option<string>): (r: string)
    ensures Truthy(v) ==> r == v.value
    ensures !Truthy(v) ==> r == ""
  {
    if Truthy(v) then v.value else ""
  }

  /** The form `handleEdit` fills in: the URL, the title and description or "", and the
      tags joined by ", " (or "" when absent). */
  function EditForm(b: ClientBookmark): (f: BookmarkForm)
    ensures f.url == b.url && f.title == OrEmpty(b.title) && f.description == OrEmpty(b.description)
    ensures f.tags == if b.tags.Some? then FormatTags(b.tags.value) else ""
  {
    BookmarkForm(b.url, OrEmpty(b.title), OrEmpty(b.description),
                 if b.tags.Some? then FormatTags(b.tags.value) else "")
  }

  function HandleEdit(p: BookmarksState, b: ClientBookmark): (r: BookmarksState)
    ensures r.modalOpen && r.editing == Some(b) && r.form == EditForm(b) && r.items == p.items
  {
    OpenEditor(p, b, EditForm(b))
  }

  /** `{ ...formData, tags: tagsArray }`. */
  function SubmitData(f: BookmarkForm): (d: BookmarkData)
    ensures d.url == f.url && d.title == f.title && d.description == f.description
    ensures d.tags == ParseTags(f.tags)
  {
    BookmarkData(f.url, f.title, f.description, ParseTags(f.tags))
  }

  /** Opening a bookmark for editing and submitting the form unchanged sends back its
      URL, its title and description (or "" for absent ones) and its tags, whenever
      each tag is one the form can show. */
  lemma EditThenSubmit(b: ClientBookmark)
    requires b.tags.Some? ==> forall i :: 0 <= i < |b.tags.value| ==> Tag(b.tags.value[i])
    ensures var d := SubmitData(EditForm(b));
            && d.url == b.url && d.title == b.title.GetOr("") && d.description == b.description.GetOr("")
            && d.tags == b.tags.GetOr([])
  {
    if b.tags.Some? {
      TagRoundTrip(b.tags.value);
    } else {
      assert ParseTags("") == [] by {
        TagRoundTrip([]);
      }
    }
  }

  function CloseBookmarksModal(p: BookmarksState): (r: BookmarksState)
    ensures !r.modalOpen && r.editing.None? && r.form == BookmarkForm("", "", "", "") && r.items == p.items
  {
    CloseModal(p, EmptyForm)
  }

  /** `handleSubmit` after the request: `reply` is `res.data`, `None` on failure, which
      leaves the list and the open modal as they were. */
  function AfterBookmarkSubmit(p: BookmarksState, reply: Option<ClientBookmark>): (r: BookmarksState)
    ensures reply.None? ==> r == p
    ensures reply.Some? && p.editing.Some? ==> r.items == ReplaceById(p.items, p.editing.value.id, BookmarkId, reply.value)
    ensures reply.Some? && p.editing.None? ==> r.items == [reply.value] + p.items
    ensures reply.Some? ==> !r.modalOpen && r.editing.None? && r.form == EmptyForm
  {
    AfterSubmit(p, reply, BookmarkId, EmptyForm)
  }

  /** `handleDelete(id)`, with the confirmation and the request outcome as inputs. */
  function AfterBookmarkDelete(p: BookmarksState, id: string, confirmed: bool, ok: bool): (r: BookmarksState)
    ensures !(confirmed && ok) ==> r == p
    ensures confirmed && ok ==> r.items == RemoveById(p.items, id, BookmarkId) && r.modalOpen == p.modalOpen
    ensures forall x :: multiset(r.items)[x] <= multiset(p.items)[x]
  {
    forall x {
      RemoveByIdKeeps(p.items, id, BookmarkId, x);
    }
    AfterDelete(p, id, confirmed, ok, BookmarkId)
  }
}
