/** The pieces of the MongoDB query that both listing routes build from the query
    string: the truthiness test on a parameter, the `tags` list, the case-insensitive
    text match on one field and the `$in` tag match. */
module Queries {
  import opened Wrappers
  import opened Text

  /** JavaScript truthiness of an optional string: present and non-empty. */
  predicate Truthy(v: Option<string>) {
    v.Some? && v.value != ""
  }

  /** `tags.split(',').map(tag => tag.trim())`: one entry per comma-separated piece,
      each trimmed; empty entries are kept. */
  function TagList(tags: string): (r: seq<string>)
    ensures |r| == |Split(tags, ',')|
    ensures forall i :: 0 <= i < |r| ==> r[i] == Trim(Split(tags, ',')[i]) && IsTrimmed(r[i])
  {
    TrimAllTrimmed(Split(tags, ','));
    TrimAll(Split(tags, ','))
  }

  /** A parameter without a comma is a single tag, trimmed. */
  lemma TagListOfOne(tags: string)
    requires ',' !in tags
    ensures TagList(tags) == [Trim(tags)]
  {
    SplitWithoutSeparator(tags, ',');
    var r := TagList(tags);
    assert |r| == 1 && r[0] == Trim(tags);
    assert r == [r[0]];
  }

  /** `{ field: { $regex: q, $options: 'i' } }` on an optional field: a missing field
      never matches. */
  predicate FieldMatches(field: Option<string>, q: string) {
    field.Some? && ContainsIgnoringCase(field.value, q)
  }

  /** `{ tags: { $in: list } }` on an array field: some element is in the list. */
  predicate SomeTagIn(tags: seq<string>, list: seq<string>) {
    exists i :: 0 <= i < |tags| && tags[i] in list
  }
}
