/** The Notes page (frontend/src/pages/NotesPage.jsx): the edit form built from a note,
    the data `handleSubmit` sends and the page updates after a save or a delete. A
    note's `title` and `content` are taken to be present; the conversion of the
    stored reminder date to the text of a date-time input is the parameter
    `localInput`. */
module NotesPage {
  import opened Wrappers
  import opened Queries
  import opened ClientLists
  import opened ListPage

  /** A note as the page receives it from the server. */
  datatype ClientNote = ClientNote(id: string, title: string, content: string, tags: Option<seq<string>>, reminderDate: Option<string>)

  /** The four text fields of the modal. */
  datatype NoteForm = NoteForm(title: string, content: string, tags: string, reminderDate: string)

  /** The body `handleSubmit` sends: the form with `tags` parsed into a list. */
  datatype NoteData = NoteData(title: string, content: string, tags: seq<string>, reminderDate: string)

  type NotesState = Page<ClientNote, NoteForm>

  function NoteId(n: ClientNote): string { n.id }

  const EmptyForm := NoteForm("", "", "", "")

  /** The form `handleEdit` fills in: tags joined by ", " (or "" when absent) and the
      reminder as input text (or "" when absent). */
  function EditForm(n: ClientNote, localInput: string -> string): (f: NoteForm)
    ensures f.title == n.title && f.content == n.content
    ensures f.tags == if n.tags.Some? then FormatTags(n.tags.value) else ""
    ensures f.reminderDate == if Truthy(n.reminderDate) then localInput(n.reminderDate.value) else ""
  {
    NoteForm(n.title, n.content,
             if n.tags.Some? then FormatTags(n.tags.value) else "",
             if Truthy(n.reminderDate) then localInput(n.reminderDate.value) else "")
  }

  function HandleEdit(p: NotesState, n: ClientNote, localInput: string -> string): (r: NotesState)
    ensures r.modalOpen && r.editing == Some(n) && r.form == EditForm(n, localInput) && r.items == p.items
  {
    OpenEditor(p, n, EditForm(n, localInput))
  }

  /** `{ ...formData, tags: tagsArray }`. */
  function SubmitData(f: NoteForm): (d: NoteData)
    ensures d.title == f.title && d.content == f.content && d.reminderDate == f.reminderDate
    ensures d.tags == ParseTags(f.tags)
  {
    NoteData(f.title, f.content, ParseTags(f.tags), f.reminderDate)
  }

  /** Opening a note for editing and submitting the form unchanged sends back its
      title, content and tags, whenever each tag is one the form can show. */
  lemma EditThenSubmit(n: ClientNote, localInput: string -> string)
    requires n.tags.Some? ==> forall i :: 0 <= i < |n.tags.value| ==> Tag(n.tags.value[i])
    ensures var d := SubmitData(EditForm(n, localInput));
            d.title == n.title && d.content == n.content && d.tags == n.tags.GetOr([])
  {
    if n.tags.Some? {
      TagRoundTrip(n.tags.value);
    } else {
      assert ParseTags("") == [] by {
        TagRoundTrip([]);
      }
    }
  }

  function CloseNotesModal(p: NotesState): (r: NotesState)
    ensures !r.modalOpen && r.editing.None? && r.form == NoteForm("", "", "", "") && r.items == p.items
  {
    CloseModal(p, EmptyForm)
  }

  /** `handleSubmit` after the request: `saved` is `res.data`, `None` on failure. */
  function AfterNoteSubmit(p: NotesState, saved: Option<ClientNote>): (r: NotesState)
    ensures saved.None? ==> r == p
    ensures saved.Some? && p.editing.Some? ==> r.items == ReplaceById(p.items, p.editing.value.id, NoteId, saved.value)
    ensures saved.Some? && p.editing.None? ==> r.items == [saved.value] + p.items
    ensures saved.Some? ==> !r.modalOpen && r.editing.None? && r.form == EmptyForm
  {
    AfterSubmit(p, saved, NoteId, EmptyForm)
  }

  /** `handleDelete(id)`, with the confirmation and the request outcome as inputs. */
  function AfterNoteDelete(p: NotesState, id: string, confirmed: bool, ok: bool): (r: NotesState)
    ensures !(confirmed && ok) ==> r == p
    ensures confirmed && ok ==> r.items == RemoveById(p.items, id, NoteId) && r.modalOpen == p.modalOpen
    ensures forall x :: multiset(r.items)[x] <= multiset(p.items)[x]
  {
    forall x {
      RemoveByIdKeeps(p.items, id, NoteId, x);
    }
    AfterDelete(p, id, confirmed, ok, NoteId)
  }
}
