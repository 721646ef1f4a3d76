/** String helpers with the semantics of the JavaScript built-ins the source calls:
    `trim`, `split` with a one-character separator, `join`, and decimal rendering of
    a non-negative number. */
module Text {

  /** The characters `String.prototype.trim` removes: ECMAScript WhiteSpace (tab, vertical
      tab, form feed, space, no-break space, the byte order mark and the space separators
      of Unicode) and LineTerminator (line feed, carriage return, U+2028, U+2029). */
  predicate IsWhitespace(c: char) {
    || '\t' <= c <= '\r'
    || c == ' ' || c == '\U{A0}' || c == '\U{1680}'
    || '\U{2000}' <= c <= '\U{200A}'
    || c == '\U{2028}' || c == '\U{2029}' || c == '\U{202F}' || c == '\U{205F}'
    || c == '\U{3000}' || c == '\U{FEFF}'
  }

  predicate IsTrimmed(s: string) {
    s == [] || (!IsWhitespace(s[0]) && !IsWhitespace(s[|s| - 1]))
  }

  predicate NoWhitespace(s: string) {
    forall i :: 0 <= i < |s| ==> !IsWhitespace(s[i])
  }

  /** The number of whitespace characters `s` starts with. */
  function LeadingSpace(s: string): (n: nat)
    ensures n <= |s| && (n < |s| ==> !IsWhitespace(s[n]))
    ensures forall i :: 0 <= i < n ==> IsWhitespace(s[i])
  {
    if s != [] && IsWhitespace(s[0]) then 1 + LeadingSpace(s[1..]) else 0
  }

  /** The number of whitespace characters `s` ends with. */
  function TrailingSpace(s: string): (n: nat)
    ensures n <= |s| && (n < |s| ==> !IsWhitespace(s[|s| - 1 - n]))
    ensures forall i :: |s| - n <= i < |s| ==> IsWhitespace(s[i])
  {
    if s != [] && IsWhitespace(s[|s| - 1]) then 1 + TrailingSpace(s[..|s| - 1]) else 0
  }

  function TrimStart(s: string): (r: string)
    ensures r == [] || !IsWhitespace(r[0])
  {
    s[LeadingSpace(s)..]
  }

  function TrimEnd(s: string): (r: string)
    ensures r == [] || !IsWhitespace(r[|r| - 1])
  {
    s[..|s| - TrailingSpace(s)]
  }

  /** `s.trim()`: the longest leading and trailing runs of whitespace are removed. */
  function Trim(s: string): (r: string)
    ensures IsTrimmed(r)
  {
    TrimEnd(TrimStart(s))
  }

  /** `r` occurs in `s` starting at index `i`. */
  predicate OccursAt(r: string, s: string, i: int) {
    0 <= i <= |s| - |r| && r == s[i..i + |r|]
  }

  /** Trimming only cuts whitespace off the two ends: the result is a slice of the
      input, and everything before and after that slice is whitespace. */
  lemma TrimIsSlice(s: string)
    ensures var i := |s| - |TrimStart(s)|;
            && OccursAt(Trim(s), s, i)
            && (forall j :: 0 <= j < i ==> IsWhitespace(s[j]))
            && (forall j :: i + |Trim(s)| <= j < |s| ==> IsWhitespace(s[j]))
  {
    var t := TrimStart(s);
    var r := TrimEnd(t);
    var i := |s| - |t|;
    assert i == LeadingSpace(s);
    assert r == s[i..][..|r|] == s[i..i + |r|];
    var n := TrailingSpace(t);
    forall j | i + |r| <= j < |s|
      ensures IsWhitespace(s[j])
    {
      assert s[j] == t[j - i];
    }
  }

  /** A character absent from a string is absent from its trimmed form. */
  lemma TrimKeepsOut(s: string, c: char)
    requires c !in s
    ensures c !in Trim(s)
  {
    TrimIsSlice(s);
    var i := |s| - |TrimStart(s)|;
    var r := Trim(s);
    forall k | 0 <= k < |r|
      ensures r[k] != c
    {
      assert r[k] == s[i + k];
    }
  }

  lemma TrimStartOfTrimmed(s: string)
    requires s == [] || !IsWhitespace(s[0])
    ensures TrimStart(s) == s
  {
  }

  lemma TrimEndOfTrimmed(s: string)
    requires s == [] || !IsWhitespace(s[|s| - 1])
    ensures TrimEnd(s) == s
  {
  }

  /** Trimming changes nothing exactly when there is nothing to trim. */
  lemma TrimIdentity(s: string)
    ensures Trim(s) == s <==> IsTrimmed(s)
  {
    if IsTrimmed(s) {
      TrimStartOfTrimmed(s);
      TrimEndOfTrimmed(s);
    }
  }

  /** A leading space never survives trimming. */
  lemma {:induction false} TrimLeadingSpace(s: string)
    ensures Trim([' '] + s) == Trim(s)
  {
    assert ([' '] + s)[1..] == s;
  }

  /** `s.split(sep)` for a one-character separator: the pieces between separators,
      always at least one (the empty string splits to `[""]`). */
  function Split(s: string, sep: char): (r: seq<string>)
    ensures |r| >= 1
    ensures forall i :: 0 <= i < |r| ==> sep !in r[i]
  {
    if s == [] then [[]]
    else
      var rest := Split(s[1..], sep);
      if s[0] == sep then [[]] + rest else [[s[0]] + rest[0]] + rest[1..]
  }

  /** `xs.join(sep)`: starts with the first piece, and every character comes from a
      piece or from the separator. */
  function Join(xs: seq<string>, sep: string): (r: string)
    ensures xs == [] ==> r == ""
    ensures xs != [] ==> xs[0] <= r
    ensures forall k :: 0 <= k < |r| ==> r[k] in sep || exists i :: 0 <= i < |xs| && r[k] in xs[i]
  {
    if |xs| == 0 then ""
    else if |xs| == 1 then xs[0]
    else
      var rest := Join(xs[1..], sep);
      assert forall k :: 0 <= k < |rest| && rest[k] !in sep ==> exists i :: 0 <= i < |xs| && rest[k] in xs[i] by {
        forall k | 0 <= k < |rest| && rest[k] !in sep
          ensures exists i :: 0 <= i < |xs| && rest[k] in xs[i]
        {
          var i :| 0 <= i < |xs[1..]| && rest[k] in xs[1..][i];
          assert rest[k] in xs[i + 1];
        }
      }
      xs[0] + sep + rest
  }

  /** Splitting a join on the same one-character separator gives back the pieces,
      whenever no piece contains the separator. */
  lemma {:induction false} SplitJoin(xs: seq<string>, sep: char)
    requires xs != [] && forall i :: 0 <= i < |xs| ==> sep !in xs[i]
    ensures Split(Join(xs, [sep]), sep) == xs
  {
    if |xs| == 1 {
      SplitWithoutSeparator(xs[0], sep);
    } else {
      SplitAfterPiece(xs[0], sep, Join(xs[1..], [sep]));
      SplitJoin(xs[1..], sep);
      assert xs == [xs[0]] + xs[1..];
    }
  }

  /** A string without the separator is one piece. */
  lemma {:induction false} SplitWithoutSeparator(s: string, sep: char)
    requires sep !in s
    ensures Split(s, sep) == [s]
  {
    if s != [] {
      SplitWithoutSeparator(s[1..], sep);
      assert s[0] != sep;
      assert [s[0]] + s[1..] == s;
    }
  }

  /** Splitting `x + sep + rest` yields `x` first, then the pieces of `rest`. */
  lemma {:induction false} SplitAfterPiece(x: string, sep: char, rest: string)
    requires sep !in x
    ensures Split(x + [sep] + rest, sep) == [x] + Split(rest, sep)
  {
    if x == [] {
      assert ([sep] + rest)[1..] == rest;
    } else {
      assert (x + [sep] + rest)[1..] == x[1..] + [sep] + rest;
      SplitAfterPiece(x[1..], sep, rest);
      assert [x[0]] + x[1..] == x;
    }
  }

  /** A non-separator character in front only extends the first piece. */
  lemma SplitWithPrefixChar(c: char, s: string, sep: char)
    requires c != sep
    ensures Split([c] + s, sep) == [[c] + Split(s, sep)[0]] + Split(s, sep)[1..]
  {
    assert ([c] + s)[1..] == s;
  }

  /** The separator occurs in the string exactly when it splits into two or more pieces. */
  lemma {:induction false} SplitCountsSeparator(s: string, sep: char)
    ensures |Split(s, sep)| >= 2 <==> sep in s
  {
    if s != [] {
      SplitCountsSeparator(s[1..], sep);
      assert sep in s <==> s[0] == sep || sep in s[1..];
    }
  }

  /** `pieces.map(p => p.trim())`. */
  function TrimAll(pieces: seq<string>): (r: seq<string>)
    ensures |r| == |pieces|
    ensures forall i :: 0 <= i < |r| ==> r[i] == Trim(pieces[i])
  {
    seq(|pieces|, i requires 0 <= i < |pieces| => Trim(pieces[i]))
  }

  /** Trimming a list works piece by piece from the front. */
  lemma TrimAllCons(x: string, xs: seq<string>)
    ensures TrimAll([x] + xs) == [Trim(x)] + TrimAll(xs)
  {
    var a, b := TrimAll([x] + xs), [Trim(x)] + TrimAll(xs);
    assert |a| == |b|;
    forall i | 0 <= i < |a|
      ensures a[i] == b[i]
    {
      if i > 0 {
        assert ([x] + xs)[i] == xs[i - 1];
        assert b[i] == TrimAll(xs)[i - 1];
      }
    }
  }

  /** Lists whose pieces trim alike trim to the same list. */
  lemma TrimAllPointwise(p: seq<string>, q: seq<string>)
    requires |p| == |q| && forall i :: 0 <= i < |p| ==> Trim(p[i]) == Trim(q[i])
    ensures TrimAll(p) == TrimAll(q)
  {
    var a, b := TrimAll(p), TrimAll(q);
    assert forall i :: 0 <= i < |a| ==> a[i] == b[i];
  }

  /** Every trimmed piece is trimmed. */
  lemma TrimAllTrimmed(pieces: seq<string>)
    ensures forall i :: 0 <= i < |TrimAll(pieces)| ==> IsTrimmed(TrimAll(pieces)[i])
  {
    var r := TrimAll(pieces);
    forall i | 0 <= i < |r|
      ensures IsTrimmed(r[i])
    {
      var t := Trim(pieces[i]);
      assert IsTrimmed(t);
    }
  }

  /** ASCII lower-casing. */
  function Lower(c: char): char {
    if 'A' <= c <= 'Z' then (c as int + 32) as char else c
  }

  /** Equal up to ASCII letter case. */
  predicate EqualIgnoringCase(a: string, b: string) {
    |a| == |b| && forall i :: 0 <= i < |a| ==> Lower(a[i]) == Lower(b[i])
  }

  /** `pattern` occurs somewhere in `text`, ignoring ASCII letter case. */
  predicate ContainsIgnoringCase(text: string, pattern: string) {
    exists i | 0 <= i <= |text| - |pattern| :: MatchesAt(text, pattern, i)
  }

  predicate MatchesAt(text: string, pattern: string, i: int)
    requires 0 <= i <= |text| - |pattern|
  {
    EqualIgnoringCase(text[i..i + |pattern|], pattern)
  }

  predicate IsDigit(c: char) { '0' <= c <= '9' }

  function DigitChar(d: nat): (c: char)
    requires d < 10
    ensures IsDigit(c)
  {
    ('0' as int + d) as char
  }

  /** `String(n)` for a non-negative integer: its decimal digits, no leading zero. */
  function DecimalString(n: nat): (r: string)
    ensures |r| >= 1
    ensures forall i :: 0 <= i < |r| ==> IsDigit(r[i])
    ensures r[0] == '0' ==> n == 0
  {
    if n < 10 then [DigitChar(n)] else DecimalString(n / 10) + [DigitChar(n % 10)]
  }

  /** The number a string of decimal digits denotes. */
  function DecimalValue(s: string): nat
    requires forall i :: 0 <= i < |s| ==> IsDigit(s[i])
  {
    if s == [] then 0 else DecimalValue(s[..|s| - 1]) * 10 + DigitValue(s[|s| - 1])
  }

  function DigitValue(c: char): nat
    requires IsDigit(c)
  {
    c as int - '0' as int
  }

  /** Reading the digits back gives the number that was rendered. */
  lemma {:induction false} DecimalRoundTrip(n: nat)
    ensures DecimalValue(DecimalString(n)) == n
  {
    if n >= 10 {
      var s := DecimalString(n / 10);
      var t := s + [DigitChar(n % 10)];
      assert t[..|t| - 1] == s;
      DecimalRoundTrip(n / 10);
    }
  }
}
