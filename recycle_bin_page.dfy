/** The Recycle Bin page (frontend/src/pages/RecycleBinPage.jsx): the request each
    button sends, the lists after a restore or a permanent delete, the item count and
    the header text. The item type is the string the page passes, "note" for notes;
    `window.confirm` and the request outcome are inputs. */
module RecycleBinPage {
  import opened Wrappers
  import opened Text
  import opened ClientLists
  import opened NotesPage
  import opened BookmarksPage

  /** The two lists the page shows. */
  datatype Bin = Bin(notes: seq<ClientNote>, bookmarks: seq<ClientBookmark>)

  /** An HTTP request: its method and its path. */
  datatype Request = Request(verb: string, path: string)

  /** `type === 'note' ? `/notes/${id}/${action}` : `/bookmarks/${id}/${action}``. */
  function Endpoint(id: string, kind: string, action: string): (r: string)
    ensures kind == "note" ==> r == "/notes/" + id + "/" + action
    ensures kind != "note" ==> r == "/bookmarks/" + id + "/" + action
  {
    (if kind == "note" then "/notes/" else "/bookmarks/") + id + "/" + action
  }

  /** Removes the item from the list of its type; the other list is untouched. */
  function Removed(b: Bin, id: string, kind: string): (r: Bin)
    ensures kind == "note" ==> r == b.(notes := RemoveById(b.notes, id, NoteId))
    ensures kind != "note" ==> r == b.(bookmarks := RemoveById(b.bookmarks, id, BookmarkId))
  {
    if kind == "note" then b.(notes := RemoveById(b.notes, id, NoteId))
    else b.(bookmarks := RemoveById(b.bookmarks, id, BookmarkId))
  }

  /** `handleRestore(id, type)`: the PATCH it sends, and the lists once it answered. */
  function Restore(b: Bin, id: string, kind: string, ok: bool): (r: (Request, Bin))
    ensures r.0 == Request("PATCH", Endpoint(id, kind, "restore"))
    ensures ok ==> r.1 == Removed(b, id, kind)
    ensures !ok ==> r.1 == b
  {
    (Request("PATCH", Endpoint(id, kind, "restore")), if ok then Removed(b, id, kind) else b)
  }

  /** `handlePermanentDelete(id, type)`: nothing is sent when the confirmation is
      declined; otherwise the DELETE, and the lists once it answered. */
  function PermanentDelete(b: Bin, id: string, kind: string, confirmed: bool, ok: bool): (r: (Option<Request>, Bin))
    ensures !confirmed ==> r == (None, b)
    ensures confirmed ==> r.0 == Some(Request("DELETE", Endpoint(id, kind, "permanent")))
    ensures confirmed && ok ==> r.1 == Removed(b, id, kind)
    ensures confirmed && !ok ==> r.1 == b
  {
    if !confirmed then (None, b)
    else (Some(Request("DELETE", Endpoint(id, kind, "permanent"))), if ok then Removed(b, id, kind) else b)
  }

  /** `deletedNotes.length + deletedBookmarks.length`: zero exactly when both lists are
      empty. */
  function TotalDeleted(b: Bin): (n: nat)
    ensures n == 0 <==> b.notes == [] && b.bookmarks == []
    ensures n >= |b.notes| && n >= |b.bookmarks|
  {
    |b.notes| + |b.bookmarks|
  }

  /** Removing an item never raises the count, and leaves it unchanged when no item of
      that type has the id. */
  lemma RemovedCount(b: Bin, id: string, kind: string)
    ensures TotalDeleted(Removed(b, id, kind)) <= TotalDeleted(b)
    ensures kind == "note" && (forall i :: 0 <= i < |b.notes| ==> b.notes[i].id != id) ==>
              TotalDeleted(Removed(b, id, kind)) == TotalDeleted(b)
    ensures kind != "note" && (forall i :: 0 <= i < |b.bookmarks| ==> b.bookmarks[i].id != id) ==>
              TotalDeleted(Removed(b, id, kind)) == TotalDeleted(b)
  {
    if kind == "note" {
      AbsentIdKeepsAll(b.notes, id, NoteId);
    } else {
      AbsentIdKeepsAll(b.bookmarks, id, BookmarkId);
    }
  }

  lemma {:induction false} AbsentIdKeepsAll<T>(xs: seq<T>, id: string, idOf: T -> string)
    ensures (forall i :: 0 <= i < |xs| ==> idOf(xs[i]) != id) ==> RemoveById(xs, id, idOf) == xs
  {
    if xs != [] {
      AbsentIdKeepsAll(xs[1..], id, idOf);
      assert xs == [xs[0]] + xs[1..];
    }
  }

  const EmptyText := "Your recycle bin is empty"

  /** How a non-empty header ends. */
  const Suffix := " in recycle bin"

  /** The header line: the empty message, or "<n> item", "s" unless n is 1, and
      " in recycle bin". */
  function HeaderText(n: nat): (r: string)
    ensures n > 0 ==> |r| > |Suffix| && r[|r| - |Suffix|..] == Suffix
  {
    if n == 0 then EmptyText
    else DecimalString(n) + " item" + (if n != 1 then "s" else "") + Suffix
  }

  /** The empty message appears exactly when the bin is empty. */
  lemma HeaderEmptyExactlyWhenZero(n: nat)
    ensures HeaderText(n) == EmptyText <==> n == 0
  {
    if n != 0 {
      assert HeaderText(n)[0] == DecimalString(n)[0];
      assert IsDigit(HeaderText(n)[0]);
    }
  }

  /** Otherwise the text is the count in decimal, which reads back as n, then " item",
      an "s" exactly when n is not 1, and " in recycle bin", with nothing else. */
  lemma HeaderCount(n: nat)
    requires n > 0
    ensures var t, k := HeaderText(n), |DecimalString(n)|;
            && |t| > k + 5
            && (forall i :: 0 <= i < k ==> IsDigit(t[i]))
            && DecimalValue(t[..k]) == n
            && t[k..k + 5] == " item"
            && (t[k + 5] == 's' <==> n != 1)
            && var plural := if n != 1 then 1 else 0;
               |t| == k + 5 + plural + |Suffix| && t[k + 5 + plural..] == Suffix
  {
    var t, d := HeaderText(n), DecimalString(n);
    assert t[..|d|] == d;
    DecimalRoundTrip(n);
  }
}
