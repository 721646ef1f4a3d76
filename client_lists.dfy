/** The list and tag logic the client pages share: the comma-separated tag field of
    the edit form (frontend/src/pages/NotesPage.jsx, BookmarksPage.jsx) and the
    local list updates after a server call (`filter` and `map` by `_id`). */
module ClientLists {
  import opened Text

  /** `.filter(t => t)` on strings: the empty ones are dropped, every other one is kept
      as often as it occurs. */
  function NonEmpty(xs: seq<string>): (r: seq<string>)
    ensures forall i :: 0 <= i < |r| ==> r[i] != ""
    ensures forall t :: t in r <==> t in xs && t != ""
    ensures multiset(r) == multiset(xs)["" := 0]
  {
    if xs == [] then []
    else
      assert xs == [xs[0]] + xs[1..];
      if xs[0] == "" then NonEmpty(xs[1..])
      else [xs[0]] + NonEmpty(xs[1..])
  }

  /** The filter keeps the order: it works piecewise along the list. */
  lemma {:induction false} NonEmptyConcat(xs: seq<string>, ys: seq<string>)
    ensures NonEmpty(xs + ys) == NonEmpty(xs) + NonEmpty(ys)
  {
    if xs == [] {
      assert xs + ys == ys;
    } else {
      assert (xs + ys)[0] == xs[0] && (xs + ys)[1..] == xs[1..] + ys;
      NonEmptyConcat(xs[1..], ys);
    }
  }

  /** `text.split(',').map(tag => tag.trim()).filter(t => t)`: every parsed tag is a tag
      the form can show and read back, non-empty, trimmed and free of commas. */
  function ParseTags(text: string): (r: seq<string>)
    ensures forall i :: 0 <= i < |r| ==> Tag(r[i])
  {
    TrimmedPieces(Split(text, ','));
    var r := NonEmpty(TrimAll(Split(text, ',')));
    assert forall i :: 0 <= i < |r| ==> r[i] in r;
    r
  }

  /** Trimmed comma-free pieces are trimmed and comma-free. */
  lemma TrimmedPieces(pieces: seq<string>)
    requires forall i :: 0 <= i < |pieces| ==> ',' !in pieces[i]
    ensures forall t :: t in TrimAll(pieces) ==> IsTrimmed(t) && ',' !in t
  {
    var trimmed := TrimAll(pieces);
    forall t | t in trimmed
      ensures IsTrimmed(t) && ',' !in t
    {
      var i :| 0 <= i < |trimmed| && trimmed[i] == t;
      TrimKeepsOut(pieces[i], ',');
    }
  }

  /** `tags.join(', ')`, the text the edit form shows: it starts with the first tag, and
      every character is from a tag, a comma or a space. */
  function FormatTags(tags: seq<string>): (r: string)
    ensures tags == [] ==> r == ""
    ensures tags != [] ==> tags[0] <= r
    ensures forall k :: 0 <= k < |r| ==> r[k] == ',' || r[k] == ' ' || exists i :: 0 <= i < |tags| && r[k] in tags[i]
  {
    Join(tags, ", ")
  }

  /** A tag the form can show and read back: non-empty, trimmed and without a comma. */
  predicate Tag(t: string) {
    t != "" && IsTrimmed(t) && ',' !in t
  }

  /** A leading space in the tag field changes nothing. */
  lemma ParseAfterSpace(s: string)
    ensures ParseTags([' '] + s) == ParseTags(s)
  {
    TrimmedAfterSpace(s);
  }

  lemma TrimmedAfterSpace(s: string)
    ensures TrimAll(Split([' '] + s, ',')) == TrimAll(Split(s, ','))
  {
    PiecesAfterSpace(s);
    TrimAllPointwise(Split([' '] + s, ','), Split(s, ','));
  }

  /** A leading space only lengthens the first piece by a space, which trimming removes. */
  lemma PiecesAfterSpace(s: string)
    ensures var p, q := Split(s, ','), Split([' '] + s, ',');
            |q| == |p| && forall i :: 0 <= i < |q| ==> Trim(q[i]) == Trim(p[i])
  {
    SplitWithPrefixChar(' ', s, ',');
    var p := Split(s, ',');
    var q := Split([' '] + s, ',');
    forall i | 0 <= i < |q|
      ensures Trim(q[i]) == Trim(p[i])
    {
      if i == 0 {
        TrimLeadingSpace(p[0]);
      } else {
        assert q[i] == p[i];
      }
    }
  }

  /** Dropping empties distributes over a split list. */
  lemma NonEmptyCons(x: string, xs: seq<string>)
    ensures NonEmpty([x] + xs) == (if x == "" then [] else [x]) + NonEmpty(xs)
  {
    assert ([x] + xs)[1..] == xs;
  }

  /** The edit form round trip: formatting tags and parsing the text back gives the same
      tags, whenever each tag is non-empty, trimmed and free of commas. */
  lemma {:induction false} TagRoundTrip(tags: seq<string>)
    requires forall i :: 0 <= i < |tags| ==> Tag(tags[i])
    ensures ParseTags(FormatTags(tags)) == tags
  {
    if tags == [] {
      EmptyTagField();
    } else if |tags| == 1 {
      SingleTag(tags[0]);
    } else {
      var t, rest := tags[0], tags[1..];
      ParseFirstTag(t, rest);
      TagRoundTrip(rest);
      assert tags == [t] + rest;
    }
  }

  /** An empty tag field parses to no tags. */
  lemma EmptyTagField()
    ensures ParseTags(FormatTags([])) == []
  {
    assert Split("", ',') == [""];
    assert TrimAll([""]) == [Trim("")];
    TrimIdentity("");
  }

  /** A single tag reads back as itself. */
  lemma SingleTag(t: string)
    requires Tag(t)
    ensures ParseTags(FormatTags([t])) == [t]
  {
    SplitWithoutSeparator(t, ',');
    TrimIdentity(t);
    assert TrimAll([t]) == [t];
    NonEmptyCons(t, []);
  }

  /** The first of several tags reads back as itself, followed by the rest read alone. */
  lemma ParseFirstTag(t: string, rest: seq<string>)
    requires Tag(t) && rest != []
    ensures ParseTags(FormatTags([t] + rest)) == [t] + ParseTags(FormatTags(rest))
  {
    var tail := FormatTags(rest);
    var pieces := Split([' '] + tail, ',');
    calc {
      ParseTags(FormatTags([t] + rest));
      { FormatFirstTag(t, rest); }
      ParseTags(t + [','] + ([' '] + tail));
      { SplitAfterPiece(t, ',', [' '] + tail); }
      NonEmpty(TrimAll([t] + pieces));
      { TrimAllCons(t, pieces); TrimIdentity(t); }
      NonEmpty([t] + TrimAll(pieces));
      { NonEmptyCons(t, TrimAll(pieces)); }
      [t] + ParseTags([' '] + tail);
      { ParseAfterSpace(tail); }
      [t] + ParseTags(tail);
    }
  }

  /** The text of several tags is the first tag, a comma, a space and the text of the rest. */
  lemma FormatFirstTag(t: string, rest: seq<string>)
    requires rest != []
    ensures FormatTags([t] + rest) == t + [','] + ([' '] + FormatTags(rest))
  {
    assert ([t] + rest)[1..] == rest;
  }

  /** `xs.filter(x => x._id !== id)`. */
  function RemoveById<T>(xs: seq<T>, id: string, idOf: T -> string): (r: seq<T>)
    ensures |r| <= |xs|
    ensures forall i :: 0 <= i < |r| ==> idOf(r[i]) != id
  {
    if xs == [] then []
    else if idOf(xs[0]) == id then RemoveById(xs[1..], id, idOf)
    else [xs[0]] + RemoveById(xs[1..], id, idOf)
  }

  /** What the removal keeps: every item with another id, as often as it occurred. */
  lemma {:induction false} RemoveByIdKeeps<T>(xs: seq<T>, id: string, idOf: T -> string, x: T)
    ensures multiset(RemoveById(xs, id, idOf))[x] == if idOf(x) == id then 0 else multiset(xs)[x]
  {
    if xs != [] {
      assert xs == [xs[0]] + xs[1..];
      RemoveByIdKeeps(xs[1..], id, idOf, x);
    }
  }

  /** The removal keeps the original order: it works piecewise along the list. */
  lemma {:induction false} RemoveByIdConcat<T>(xs: seq<T>, ys: seq<T>, id: string, idOf: T -> string)
    ensures RemoveById(xs + ys, id, idOf) == RemoveById(xs, id, idOf) + RemoveById(ys, id, idOf)
  {
    if xs != [] {
      assert (xs + ys)[0] == xs[0] && (xs + ys)[1..] == xs[1..] + ys;
      RemoveByIdConcat(xs[1..], ys, id, idOf);
      var head := if idOf(xs[0]) == id then [] else [xs[0]];
      assert RemoveById(xs + ys, id, idOf) == head + RemoveById(xs[1..] + ys, id, idOf);
      assert RemoveById(xs, id, idOf) == head + RemoveById(xs[1..], id, idOf);
    } else {
      assert xs + ys == ys;
    }
  }

  /** `xs.map(x => x._id === id ? y : x)`: length and order unchanged, each item with
      that id replaced. */
  function ReplaceById<T>(xs: seq<T>, id: string, idOf: T -> string, y: T): (r: seq<T>)
    ensures |r| == |xs|
    ensures forall i :: 0 <= i < |xs| ==> r[i] == if idOf(xs[i]) == id then y else xs[i]
  {
    if xs == [] then [] else [if idOf(xs[0]) == id then y else xs[0]] + ReplaceById(xs[1..], id, idOf, y)
  }

  /** Replacing an item by one with the same id, then removing that id, is the same as
      removing it directly: the replacement touches nothing else. */
  lemma {:induction false} RemoveAfterReplace<T>(xs: seq<T>, id: string, idOf: T -> string, y: T)
    requires idOf(y) == id
    ensures RemoveById(ReplaceById(xs, id, idOf, y), id, idOf) == RemoveById(xs, id, idOf)
  {
    if xs != [] {
      var r := ReplaceById(xs, id, idOf, y);
      assert r[1..] == ReplaceById(xs[1..], id, idOf, y);
      RemoveAfterReplace(xs[1..], id, idOf, y);
    }
  }
}
