/** The note router (backend/routes/notes.js): the listing filter, create, the partial
    update, the hard delete and the 404 lookup that runs before every handler
    addressed by id. Notes are held by `NoteStore` as a map from id to record;
    requests are handled one at a time.

    backend/models/Note.js is not part of this model. What the routes rely on is
    taken as an assumption: a note carries `title`, `content`, `tags`, `isFavorite`,
    `createdAt`, `reminderDate` and `isDeleted`; `tags` defaults to the empty list,
    `isFavorite` to false and `createdAt` to the creation time; and whether `save()`
    accepts a document is the parameter `saves`. */
module NoteRoutes {
  import opened Wrappers
  import opened Http
  import opened Listing
  import opened Queries

  /** A stored note; `id` stands for the document's `_id`. */
  datatype Note = Note(
    id: nat,
    title: Option<string>,
    content: Option<string>,
    tags: seq<string>,
    isFavorite: bool,
    createdAt: int,
    reminderDate: Option<string>,
    isDeleted: bool)

  /** A request body. The client sends `reminderDate` too; `None` means absent or null. */
  datatype NoteBody = NoteBody(
    title: Option<string>,
    content: Option<string>,
    tags: Option<seq<string>>,
    isFavorite: Option<bool>,
    reminderDate: Option<string>,
    isDeleted: Option<bool>)

  /** The query string of `GET /`; a `deleted` parameter may be present. */
  datatype NoteParams = NoteParams(q: Option<string>, tags: Option<string>, deleted: Option<string>)

  /** The MongoDB filter `GET /` builds: an optional text and an optional tag list. */
  datatype NoteFilter = NoteFilter(text: Option<string>, tags: Option<seq<string>>)

  function BuildFilter(p: NoteParams): (f: NoteFilter)
    ensures f.text.Some? <==> Truthy(p.q)
    ensures f.text.Some? ==> f.text == p.q
    ensures f.tags.Some? <==> Truthy(p.tags)
    ensures f.tags.Some? ==> f.tags.value == TagList(p.tags.value)
  {
    NoteFilter(if Truthy(p.q) then p.q else None,
               if Truthy(p.tags) then Some(TagList(p.tags.value)) else None)
  }

  /** Whether a stored note satisfies the filter: title or content for the text, some
      tag for the list. A text filter never lists a note with neither field, and a tag
      filter never lists a note without tags. */
  predicate Matches(f: NoteFilter, n: Note)
    ensures Matches(f, n) && f.text.Some? ==> n.title.Some? || n.content.Some?
    ensures Matches(f, n) && f.tags.Some? ==> n.tags != []
  {
    && (f.text.Some? ==> FieldMatches(n.title, f.text.value) || FieldMatches(n.content, f.text.value))
    && (f.tags.Some? ==> SomeTagIn(n.tags, f.tags.value))
  }

  /** The listing has no deleted split: the `deleted` parameter changes nothing, and
      without `q` and `tags` every note is accepted, whatever its `isDeleted`. */
  lemma ListingIgnoresDeleted(p: NoteParams, d: Option<string>, n: Note)
    ensures Matches(BuildFilter(p.(deleted := d)), n) <==> Matches(BuildFilter(p), n)
    ensures !Truthy(p.q) && !Truthy(p.tags) ==> Matches(BuildFilter(p), n)
  {
  }

  function CreatedAt(n: Note): int { n.createdAt }

  /** `new Note({ title, content, tags, isFavorite })`: only those four body fields reach
      the document; unset ones take the defaults. */
  function Construct(id: nat, body: NoteBody, now: int): (n: Note)
    ensures n.id == id && n.title == body.title && n.content == body.content
    ensures n.tags == body.tags.GetOr([]) && n.isFavorite == body.isFavorite.GetOr(false)
    ensures n.createdAt == now && n.reminderDate.None? && !n.isDeleted
  {
    Note(id, body.title, body.content, body.tags.GetOr([]), body.isFavorite.GetOr(false), now, None, false)
  }

  /** The assignments of `PUT /:id`: each of the four fields supplied non-null
      overwrites the stored one. */
  function Assign(n: Note, body: NoteBody): (r: Note)
    ensures r.title == (if body.title.Some? then body.title else n.title)
    ensures r.content == (if body.content.Some? then body.content else n.content)
    ensures r.tags == body.tags.GetOr(n.tags) && r.isFavorite == body.isFavorite.GetOr(n.isFavorite)
    ensures r.id == n.id && r.createdAt == n.createdAt
    ensures r.reminderDate == n.reminderDate && r.isDeleted == n.isDeleted
  {
    n.(title := if body.title.Some? then body.title else n.title,
       content := if body.content.Some? then body.content else n.content,
       tags := body.tags.GetOr(n.tags),
       isFavorite := body.isFavorite.GetOr(n.isFavorite))
  }

  /** An update supplying none of the four fields leaves the note as it was. */
  lemma AssignNothing(n: Note, body: NoteBody)
    requires body.title.None? && body.content.None? && body.tags.None? && body.isFavorite.None?
    ensures Assign(n, body) == n
  {
  }

  /** Any note the routes store: neither a reminder nor a deleted flag ever gets in. */
  predicate Plain(n: Note) {
    n.reminderDate.None? && !n.isDeleted
  }

  const NotFound := "Cannot find note"
  /** Stands for the message of the validation error `save()` raises. */
  const SaveRejected := "Note validation failed"

  class NoteStore {
    var records: map<nat, Note>
    var nextId: nat

    ghost predicate Valid()
      reads this
    {
      forall k :: k in records ==> k < nextId && records[k].id == k && Plain(records[k])
    }

    constructor ()
      ensures Valid() && records == map[]
    {
      records := map[];
      nextId := 0;
    }

    /** `getNote`: the record with this id, or 404. `GET /:id` replies with it. */
    function Lookup(id: nat): (r: Response<Note>)
      reads this
      ensures r.Reply? <==> id in records
      ensures r.Reply? ==> r == Reply(200, records[id])
      ensures r.Error? ==> r == Error(404, NotFound)
    {
      if id in records then Reply(200, records[id]) else Error(404, NotFound)
    }

    /** `GET /`: every stored note the filter accepts, each once, newest first. */
    method List(p: NoteParams) returns (r: seq<Note>)
      requires Valid()
      ensures NewestFirst(r, CreatedAt)
      ensures forall n :: multiset(r)[n] == if n.id in records && records[n.id] == n && Matches(BuildFilter(p), n) then 1 else 0
    {
      var f := BuildFilter(p);
      r := Select(records, n => Matches(f, n), CreatedAt);
      assert forall n: Note :: n in records.Values <==> n.id in records && records[n.id] == n;
    }

    /** `POST /`: construction from the four fields, then `save()`. */
    method Create(body: NoteBody, now: int, saves: Note -> bool) returns (res: Response<Note>)
      requires Valid()
      modifies this
      ensures Valid()
      ensures !saves(Construct(old(nextId), body, now)) ==>
                res == Error(400, SaveRejected) && records == old(records) && nextId == old(nextId)
      ensures saves(Construct(old(nextId), body, now)) ==>
                && res == Reply(201, Construct(old(nextId), body, now))
                && old(nextId) !in old(records)
                && records == old(records)[old(nextId) := res.body]
                && nextId == old(nextId) + 1
    {
      var n := Construct(nextId, body, now);
      if !saves(n) {
        return Error(400, SaveRejected);
      }
      records := records[nextId := n];
      nextId := nextId + 1;
      res := Reply(201, n);
    }

    /** `PUT /:id`: overwrites the fields supplied non-null, then `save()`. */
    method Update(id: nat, body: NoteBody, saves: Note -> bool) returns (res: Response<Note>)
      requires Valid()
      modifies this
      ensures Valid() && nextId == old(nextId)
      ensures id !in old(records) ==> res == Error(404, NotFound) && records == old(records)
      ensures id in old(records) && !saves(Assign(old(records)[id], body)) ==>
                res == Error(400, SaveRejected) && records == old(records)
      ensures id in old(records) && saves(Assign(old(records)[id], body)) ==>
                res == Reply(200, Assign(old(records)[id], body))
                && records == old(records)[id := Assign(old(records)[id], body)]
    {
      var found := Lookup(id);
      if found.Error? {
        return found;
      }
      var updated := Assign(found.body, body);
      if !saves(updated) {
        return Error(400, SaveRejected);
      }
      records := records[id := updated];
      res := Reply(200, updated);
    }

    /** `DELETE /:id`: erases the note; this router has no soft delete. */
    method Delete(id: nat) returns (res: Response<string>)
      requires Valid()
      modifies this
      ensures Valid() && nextId == old(nextId)
      ensures id !in old(records) ==> res == Error(404, NotFound) && records == old(records)
      ensures id in old(records) ==> res == Reply(200, "Note deleted") && records == old(records) - {id}
    {
      var found := Lookup(id);
      if found.Error? {
        return Error(found.status, found.message);
      }
      records := records - {id};
      res := Reply(200, "Note deleted");
    }
  }

  /** Whatever a client sends, a stored note has no reminder and is not deleted: a
      create followed by a lookup of the new id never shows the `reminderDate` sent. */
  method CreateDropsReminder(store: NoteStore, body: NoteBody, now: int, saves: Note -> bool)
      returns (res: Response<Note>)
    requires store.Valid()
    modifies store
    ensures res.Reply? ==> store.Lookup(res.body.id).Reply? && store.Lookup(res.body.id).body.reminderDate.None?
    ensures forall k :: k in store.records ==> Plain(store.records[k])
  {
    res := store.Create(body, now, saves);
  }

  /** After a delete the id answers 404 and no later listing contains a note with it. */
  method DeleteIsFinal(store: NoteStore, id: nat, p: NoteParams) returns (listed: seq<Note>)
    requires store.Valid() && id in store.records
    modifies store
    ensures store.Lookup(id) == Error(404, NotFound)
    ensures forall n: Note :: n.id == id ==> n !in listed
  {
    var res := store.Delete(id);
    listed := store.List(p);
    forall n: Note | n.id == id
      ensures n !in listed
    {
      assert multiset(listed)[n] == 0;
    }
  }
}
