/** The bookmark record (backend/models/Bookmark.js): which fields exist, which are
    trimmed, which have defaults, and the `required` check `save()` runs on `url`. */
module BookmarkSchema {
  import opened Wrappers
  import opened Text

  /** A stored bookmark. The schema declares `url`, `title`, `description`, `tags`,
      `isFavorite` and `createdAt`; `id` stands for the document's `_id`; `isDeleted`
      and `deletedAt` are not declared by the schema but are assigned by the routes,
      and the model keeps them as fields (`isDeleted` false stands for "absent"). */
  datatype Bookmark = Bookmark(
    id: nat,
    url: string,
    title: Option<string>,
    description: Option<string>,
    tags: seq<string>,
    isFavorite: bool,
    createdAt: int,
    isDeleted: bool,
    deletedAt: Option<int>)

  /** The declared fields a request body can assign; `None` means "not assigned". */
  datatype Fields = Fields(
    url: Option<string>,
    title: Option<string>,
    description: Option<string>,
    tags: Option<seq<string>>,
    isFavorite: Option<bool>)

  function TrimmedOr(v: Option<string>, current: string): (r: string)
    ensures v.None? ==> r == current
    ensures v.Some? ==> r == Trim(v.value)
  {
    if v.Some? then Trim(v.value) else current
  }

  function TrimmedOrKeep(v: Option<string>, current: Option<string>): (r: Option<string>)
    ensures v.None? ==> r == current
    ensures v.Some? ==> r == Some(Trim(v.value))
  {
    if v.Some? then Some(Trim(v.value)) else current
  }

  /** Assigns the supplied fields through the schema's setters: the strings and each
      tag are trimmed; fields not supplied keep their value. */
  function Assign(b: Bookmark, f: Fields): (r: Bookmark)
    ensures r.url == TrimmedOr(f.url, b.url)
    ensures r.title == TrimmedOrKeep(f.title, b.title)
    ensures r.description == TrimmedOrKeep(f.description, b.description)
    ensures r.tags == (if f.tags.Some? then TrimAll(f.tags.value) else b.tags)
    ensures r.isFavorite == f.isFavorite.GetOr(b.isFavorite)
    ensures r.id == b.id && r.createdAt == b.createdAt
    ensures r.isDeleted == b.isDeleted && r.deletedAt == b.deletedAt
  {
    b.(url := TrimmedOr(f.url, b.url),
       title := TrimmedOrKeep(f.title, b.title),
       description := TrimmedOrKeep(f.description, b.description),
       tags := if f.tags.Some? then TrimAll(f.tags.value) else b.tags,
       isFavorite := f.isFavorite.GetOr(b.isFavorite))
  }

  /** A freshly constructed document before any assignment: `url` unset, no tags,
      `isFavorite` false, `createdAt` now, not deleted. */
  function Blank(id: nat, now: int): Bookmark {
    Bookmark(id, "", None, None, [], false, now, false, None)
  }

  /** `required: true` on a string path rejects a missing or empty value. */
  predicate PassesRequired(b: Bookmark) {
    b.url != ""
  }

  /** What every document that passed `save()` satisfies. */
  predicate Conforms(b: Bookmark) {
    && PassesRequired(b)
    && IsTrimmed(b.url)
    && (b.title.Some? ==> IsTrimmed(b.title.value))
    && (b.description.Some? ==> IsTrimmed(b.description.value))
    && (forall i :: 0 <= i < |b.tags| ==> IsTrimmed(b.tags[i]))
    && (b.isDeleted <==> b.deletedAt.Some?)
  }

  /** `new Bookmark(fields)` followed by the validation of `save()`. */
  function Create(id: nat, f: Fields, now: int): (r: Option<Bookmark>)
    ensures r.Some? <==> f.url.Some? && Trim(f.url.value) != ""
    ensures r.Some? ==> Conforms(r.value)
    ensures r.Some? ==> && r.value.id == id && r.value.url == Trim(f.url.value)
                        && r.value.title == (if f.title.Some? then Some(Trim(f.title.value)) else None)
                        && r.value.description == (if f.description.Some? then Some(Trim(f.description.value)) else None)
                        && r.value.isFavorite == f.isFavorite.GetOr(false)
                        && r.value.tags == (if f.tags.Some? then TrimAll(f.tags.value) else [])
                        && r.value.createdAt == now && !r.value.isDeleted && r.value.deletedAt.None?
  {
    var b := Assign(Blank(id, now), f);
    if PassesRequired(b) then Some(b) else None
  }

  /** Assigning fields to a conforming document and saving it keeps it conforming. */
  lemma AssignConforms(b: Bookmark, f: Fields)
    requires Conforms(b)
    ensures PassesRequired(Assign(b, f)) ==> Conforms(Assign(b, f))
  {
  }
}
