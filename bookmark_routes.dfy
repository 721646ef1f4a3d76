/** The bookmark router (backend/routes/bookmarks.js): the listing filter, the
    create/update/soft-delete/restore/permanent-delete handlers and the 404 lookup
    that runs before every handler addressed by id. The collection is a map from id
    to record held by `BookmarkStore`; requests are handled one at a time. */
module BookmarkRoutes {
  import opened Wrappers
  import opened Text
  import opened Http
  import opened Listing
  import opened Queries
  import opened UrlPattern
  import opened UrlPatternProofs
  import opened BookmarkSchema

  /** The query string of `GET /`. */
  datatype ListParams = ListParams(q: Option<string>, tags: Option<string>, deleted: Option<string>)

  /** The MongoDB filter `GET /` builds: the deleted split, an optional text to
      look for and an optional list of accepted tags. */
  datatype Filter = Filter(onlyDeleted: bool, text: Option<string>, tags: Option<seq<string>>)

  function BuildFilter(p: ListParams): (f: Filter)
    ensures f.onlyDeleted <==> p.deleted == Some("true")
    ensures f.text.Some? <==> Truthy(p.q)
    ensures f.text.Some? ==> f.text == p.q
    ensures f.tags.Some? <==> Truthy(p.tags)
    ensures f.tags.Some? ==> f.tags.value == TagList(p.tags.value)
  {
    Filter(p.deleted == Some("true"),
           if Truthy(p.q) then p.q else None,
           if Truthy(p.tags) then Some(TagList(p.tags.value)) else None)
  }

  /** Whether a stored bookmark satisfies the filter: a listed bookmark is on the side
      of the deleted split the filter asks for, and a tag filter never lists a bookmark
      without tags. */
  predicate Matches(f: Filter, b: Bookmark)
    ensures Matches(f, b) ==> b.isDeleted == f.onlyDeleted
    ensures Matches(f, b) && f.tags.Some? ==> b.tags != []
  {
    && (if f.onlyDeleted then b.isDeleted else !b.isDeleted)
    && (f.text.Some? ==> FieldMatches(b.title, f.text.value) || FieldMatches(b.description, f.text.value)
                         || ContainsIgnoringCase(b.url, f.text.value))
    && (f.tags.Some? ==> SomeTagIn(b.tags, f.tags.value))
  }

  /** Without `deleted=true` no soft-deleted bookmark is listed; with it, only soft-deleted
      ones are, and with no other parameter every soft-deleted one is. */
  lemma DeletedSplit(p: ListParams, b: Bookmark)
    ensures p.deleted != Some("true") && Matches(BuildFilter(p), b) ==> !b.isDeleted
    ensures p.deleted == Some("true") && Matches(BuildFilter(p), b) ==> b.isDeleted
    ensures p.deleted == Some("true") && !Truthy(p.q) && !Truthy(p.tags) ==> (Matches(BuildFilter(p), b) <==> b.isDeleted)
    ensures p.deleted != Some("true") && !Truthy(p.q) && !Truthy(p.tags) ==> (Matches(BuildFilter(p), b) <==> !b.isDeleted)
  {
  }

  function CreatedAt(b: Bookmark): int { b.createdAt }

  /** `res.bookmark.isDeleted = true; res.bookmark.deletedAt = new Date()`. */
  function SoftDeleted(b: Bookmark, now: int): (r: Bookmark)
    ensures r.isDeleted && r.deletedAt == Some(now)
    ensures r.(isDeleted := b.isDeleted, deletedAt := b.deletedAt) == b
  {
    b.(isDeleted := true, deletedAt := Some(now))
  }

  /** `res.bookmark.isDeleted = false; res.bookmark.deletedAt = null`, whatever the state. */
  function Restored(b: Bookmark): (r: Bookmark)
    ensures !r.isDeleted && r.deletedAt.None?
    ensures r.(isDeleted := b.isDeleted, deletedAt := b.deletedAt) == b
  {
    b.(isDeleted := false, deletedAt := None)
  }

  /** Restoring a soft-deleted bookmark gives back the active record it was. */
  lemma RestoreUndoesSoftDelete(b: Bookmark, now: int)
    requires !b.isDeleted && b.deletedAt.None?
    ensures Restored(SoftDeleted(b, now)) == b
  {
  }

  /** Both transitions keep a conforming record conforming. */
  lemma TransitionsConform(b: Bookmark, now: int)
    requires Conforms(b)
    ensures Conforms(SoftDeleted(b, now)) && Conforms(Restored(b))
  {
  }

  /** The string `urlPattern.test` sees: a missing `url` becomes "undefined". */
  function UrlText(url: Option<string>): string {
    url.GetOr(Undefined)
  }

  /** The URL check as the handler applies it: `url` is present and matches the pattern. */
  predicate UrlAccepted(url: Option<string>) {
    url.Some? && IsValidUrl(url.value)
  }

  /** `urlPattern.test(req.body.url)` accepts exactly what `UrlAccepted` does: a missing
      `url` is tested as "undefined", which the pattern rejects. An accepted URL is
      non-empty and unchanged by the schema's `trim` setter. */
  lemma UrlTestOfBody(url: Option<string>)
    ensures IsValidUrl(UrlText(url)) <==> UrlAccepted(url)
    ensures UrlAccepted(url) ==> url.value != "" && Trim(url.value) == url.value
  {
    if url.None? {
      UndefinedIsRejected();
    } else {
      ValidUrlIsTrimmed(url.value);
    }
  }

  /** `req.body.title || req.body.url`: the title, or the URL when the title is missing or empty. */
  function DefaultTitle(title: Option<string>, url: string): (r: string)
    ensures Truthy(title) ==> r == title.value
    ensures !Truthy(title) ==> r == url
  {
    if Truthy(title) then title.value else url
  }

  /** The fields `POST /` passes to the constructor: the body, with `title` defaulted. */
  function CreateFields(body: Fields): (f: Fields)
    requires body.url.Some?
    ensures f.url == body.url && f.description == body.description && f.tags == body.tags
    ensures f.isFavorite == body.isFavorite && f.title == Some(DefaultTitle(body.title, body.url.value))
  {
    body.(title := Some(DefaultTitle(body.title, body.url.value)))
  }

  /** A body whose URL passes the check always saves: the required `url` is non-empty
      after trimming, and it is stored exactly as sent. */
  lemma AcceptedBodySaves(id: nat, body: Fields, now: int)
    requires UrlAccepted(body.url)
    ensures BookmarkSchema.Create(id, CreateFields(body), now).Some?
    ensures BookmarkSchema.Create(id, CreateFields(body), now).value.url == body.url.value
  {
    ValidUrlIsTrimmed(body.url.value);
  }

  const NotFound := "Cannot find bookmark"
  const InvalidUrl := "Invalid URL"
  /** Stands for the message of the validation error `save()` raises for a missing `url`. */
  const UrlRequired := "Path `url` is required."

  class BookmarkStore {
    var records: map<nat, Bookmark>
    var nextId: nat

    ghost predicate Valid()
      reads this
    {
      forall k :: k in records ==> k < nextId && records[k].id == k && Conforms(records[k])
    }

    constructor ()
      ensures Valid() && records == map[]
    {
      records := map[];
      nextId := 0;
    }

    /** `getBookmark`: the record with this id, or 404. `GET /:id` replies with it. */
    function Lookup(id: nat): (r: Response<Bookmark>)
      reads this
      ensures r.Reply? <==> id in records
      ensures r.Reply? ==> r == Reply(200, records[id])
      ensures r.Error? ==> r == Error(404, NotFound)
    {
      if id in records then Reply(200, records[id]) else Error(404, NotFound)
    }

    /** `GET /`: every stored bookmark the filter accepts, each once, newest first. */
    method List(p: ListParams) returns (r: seq<Bookmark>)
      requires Valid()
      ensures NewestFirst(r, CreatedAt)
      ensures forall b :: multiset(r)[b] == if b.id in records && records[b.id] == b && Matches(BuildFilter(p), b) then 1 else 0
    {
      var f := BuildFilter(p);
      r := Select(records, b => Matches(f, b), CreatedAt);
      assert forall b: Bookmark :: b in records.Values <==> b.id in records && records[b.id] == b;
    }

    /** Adds a conforming record under the next free id. */
    method Insert(b: Bookmark)
      requires Valid() && Conforms(b) && b.id == nextId
      modifies this
      ensures Valid()
      ensures old(nextId) !in old(records) && records == old(records)[b.id := b] && nextId == old(nextId) + 1
    {
      records := records[b.id := b];
      nextId := nextId + 1;
    }

    /** `POST /`: the URL check, the title default, then construction and `save()`. */
    method Create(body: Fields, now: int) returns (res: Response<Bookmark>)
      requires Valid()
      modifies this
      ensures Valid()
      ensures !UrlAccepted(body.url) ==>
                res == Error(400, InvalidUrl) && records == old(records) && nextId == old(nextId)
      ensures UrlAccepted(body.url) ==>
                && res.Reply? && res.status == 201
                && old(nextId) !in old(records)
                && records == old(records)[old(nextId) := res.body]
                && nextId == old(nextId) + 1
                && res.body.id == old(nextId)
                && res.body.url == body.url.value
                && res.body.title == Some(Trim(DefaultTitle(body.title, body.url.value)))
                && res.body.description == (if body.description.Some? then Some(Trim(body.description.value)) else None)
                && res.body.tags == (if body.tags.Some? then TrimAll(body.tags.value) else [])
                && res.body.isFavorite == body.isFavorite.GetOr(false)
                && res.body.createdAt == now && !res.body.isDeleted && res.body.deletedAt.None?
    {
      if !UrlAccepted(body.url) {
        return Error(400, InvalidUrl);
      }
      var fields := CreateFields(body);
      AcceptedBodySaves(nextId, body, now);
      var b := BookmarkSchema.Create(nextId, fields, now).value;
      Insert(b);
      res := Reply(201, b);
    }

    /** `PUT /:id`: overwrites the fields supplied non-null, without checking the URL
        pattern again; `save()` still rejects an empty `url`. */
    method Update(id: nat, body: Fields) returns (res: Response<Bookmark>)
      requires Valid()
      modifies this
      ensures Valid() && nextId == old(nextId)
      ensures id !in old(records) ==> res == Error(404, NotFound) && records == old(records)
      ensures id in old(records) && !PassesRequired(Assign(old(records)[id], body)) ==>
                res == Error(400, UrlRequired) && records == old(records)
      ensures id in old(records) && PassesRequired(Assign(old(records)[id], body)) ==>
                res == Reply(200, Assign(old(records)[id], body))
                && records == old(records)[id := Assign(old(records)[id], body)]
    {
      var found := Lookup(id);
      if found.Error? {
        return found;
      }
      var updated := Assign(found.body, body);
      if !PassesRequired(updated) {
        return Error(400, UrlRequired);
      }
      AssignConforms(found.body, body);
      records := records[id := updated];
      res := Reply(200, updated);
    }

    /** `DELETE /:id`: the soft delete; the record stays in the collection. */
    method SoftDelete(id: nat, now: int) returns (res: Response<string>)
      requires Valid()
      modifies this
      ensures Valid() && nextId == old(nextId)
      ensures id !in old(records) ==> res == Error(404, NotFound) && records == old(records)
      ensures id in old(records) ==>
                res == Reply(200, "Bookmark moved to recycle bin")
                && records == old(records)[id := SoftDeleted(old(records)[id], now)]
    {
      var found := Lookup(id);
      if found.Error? {
        return Error(found.status, found.message);
      }
      TransitionsConform(found.body, now);
      records := records[id := SoftDeleted(found.body, now)];
      res := Reply(200, "Bookmark moved to recycle bin");
    }

    /** `PATCH /:id/restore`: clears the deleted state, whether or not it was set. */
    method Restore(id: nat) returns (res: Response<(string, Bookmark)>)
      requires Valid()
      modifies this
      ensures Valid() && nextId == old(nextId)
      ensures id !in old(records) ==> res == Error(404, NotFound) && records == old(records)
      ensures id in old(records) ==>
                res == Reply(200, ("Bookmark restored successfully", Restored(old(records)[id])))
                && records == old(records)[id := Restored(old(records)[id])]
    {
      var found := Lookup(id);
      if found.Error? {
        return Error(found.status, found.message);
      }
      TransitionsConform(found.body, 0);
      records := records[id := Restored(found.body)];
      res := Reply(200, ("Bookmark restored successfully", Restored(found.body)));
    }

    /** `DELETE /:id/permanent`: erases the record, deleted or not. */
    method PermanentDelete(id: nat) returns (res: Response<string>)
      requires Valid()
      modifies this
      ensures Valid() && nextId == old(nextId)
      ensures id !in old(records) ==> res == Error(404, NotFound) && records == old(records)
      ensures id in old(records) ==>
                res == Reply(200, "Bookmark permanently deleted")
                && records == old(records) - {id}
    {
      var found := Lookup(id);
      if found.Error? {
        return Error(found.status, found.message);
      }
      records := records - {id};
      res := Reply(200, "Bookmark permanently deleted");
    }
  }

  /** After a permanent delete the id is gone for good: the lookup answers 404 and no
      listing, with any parameters, contains a record with that id. */
  method PermanentDeleteIsFinal(store: BookmarkStore, id: nat, p: ListParams) returns (listed: seq<Bookmark>)
    requires store.Valid() && id in store.records
    modifies store
    ensures store.Lookup(id) == Error(404, NotFound)
    ensures forall b: Bookmark :: b.id == id ==> b !in listed
  {
    var res := store.PermanentDelete(id);
    listed := store.List(p);
    assert forall b: Bookmark :: b.id == id ==> b !in listed by {
      forall b: Bookmark | b.id == id
        ensures b !in listed
      {
        assert multiset(listed)[b] == 0;
      }
    }
  }
}
