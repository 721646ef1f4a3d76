/** The URL check of the bookmark create route (backend/routes/bookmarks.js, lines 49-54):
    an anchored, case-insensitive regular expression made of six consecutive parts.
    Each part is a predicate on a string; a URL is accepted when it is the concatenation
    of one string per part. `Parse` decides this without backtracking, and the lemmas
    show it accepts exactly the concatenations of well-formed parts. */
module UrlPattern {
  import opened Wrappers
  import opened Text

  /** `[a-z]` under the `i` flag. */
  predicate IsLetter(c: char) { 'a' <= c <= 'z' || 'A' <= c <= 'Z' }

  /** `[a-z\d]` under the `i` flag. */
  predicate IsAlnum(c: char) { IsLetter(c) || IsDigit(c) }

  /** `[a-z\d-]`: the characters of a domain label. */
  predicate IsLabelChar(c: char) { IsAlnum(c) || c == '-' }

  /** Every character a host (domain name or IPv4 address) can contain. */
  predicate IsHostChar(c: char) { IsLabelChar(c) || c == '.' }

  /** `\/` or `[-a-z\d%_.~+]`: the characters of the path part. */
  predicate IsPathChar(c: char) {
    c == '/' || c == '-' || IsAlnum(c) || c == '%' || c == '_' || c == '.' || c == '~' || c == '+'
  }

  /** `[;&a-z\d%_.~+=-]`: the characters after `?`. */
  predicate IsQueryChar(c: char) {
    c == ';' || c == '&' || IsAlnum(c) || c == '%' || c == '_' || c == '.' || c == '~' || c == '+'
    || c == '=' || c == '-'
  }

  /** `[-a-z\d_]`: the characters after `#`. */
  predicate IsFragmentChar(c: char) { c == '-' || IsAlnum(c) || c == '_' }

  predicate All(s: string, p: char -> bool) {
    forall i :: 0 <= i < |s| ==> p(s[i])
  }

  /** `(https?:\/\/)?` */
  predicate IsScheme(p: string) {
    p == "" || EqualIgnoringCase(p, "http://") || EqualIgnoringCase(p, "https://")
  }

  /** `[a-z\d]([a-z\d-]*[a-z\d])*`: letters, digits and hyphens, starting and ending
      with a letter or digit. */
  predicate IsLabel(l: string) {
    |l| >= 1 && All(l, IsLabelChar) && IsAlnum(l[0]) && IsAlnum(l[|l| - 1])
  }

  /** `[a-z]{2,}` */
  predicate IsTopLevelDomain(t: string) {
    |t| >= 2 && All(t, IsLetter)
  }

  /** `(label\.)+[a-z]{2,}`: one or more labels, each followed by a dot, then the top-level domain. */
  predicate IsDomainName(h: string) {
    var labels := Split(h, '.');
    && |labels| >= 2
    && (forall i :: 0 <= i < |labels| - 1 ==> IsLabel(labels[i]))
    && IsTopLevelDomain(labels[|labels| - 1])
  }

  /** `\d{1,3}` */
  predicate IsOctetGroup(g: string) {
    1 <= |g| <= 3 && All(g, IsDigit)
  }

  /** `(\d{1,3}\.){3}\d{1,3}` */
  predicate IsIPv4(h: string) {
    var groups := Split(h, '.');
    |groups| == 4 && forall i :: 0 <= i < 4 ==> IsOctetGroup(groups[i])
  }

  predicate IsHost(h: string) {
    IsDomainName(h) || IsIPv4(h)
  }

  /** `(\:\d+)?` */
  predicate IsPort(p: string) {
    p == "" || (|p| >= 2 && p[0] == ':' && All(p[1..], IsDigit))
  }

  /** `(\/[-a-z\d%_.~+]*)*`: empty, or a slash followed by path characters and slashes. */
  predicate IsPath(p: string) {
    p == "" || (p[0] == '/' && All(p, IsPathChar))
  }

  /** `(\?[;&a-z\d%_.~+=-]*)?` */
  predicate IsQuery(q: string) {
    q == "" || (q[0] == '?' && All(q[1..], IsQueryChar))
  }

  /** `(\#[-a-z\d_]*)?` */
  predicate IsFragment(f: string) {
    f == "" || (f[0] == '#' && All(f[1..], IsFragmentChar))
  }

  /** A URL cut into the six parts of the pattern, in order. */
  datatype UrlParts = UrlParts(scheme: string, host: string, port: string, path: string,
                               query: string, fragment: string)

  predicate WellFormed(u: UrlParts) {
    && IsScheme(u.scheme) && IsHost(u.host) && IsPort(u.port)
    && IsPath(u.path) && IsQuery(u.query) && IsFragment(u.fragment)
  }

  function Render(u: UrlParts): string {
    u.scheme + (u.host + (u.port + (u.path + (u.query + u.fragment))))
  }

  /** `Render(u)` followed by `rest`, associated to the right. */
  function RenderThen(u: UrlParts, rest: string): string {
    u.scheme + (u.host + (u.port + (u.path + (u.query + (u.fragment + rest)))))
  }

  /** Length of the longest prefix of `s` whose characters all satisfy `p`. */
  function Span(s: string, p: char -> bool): (n: nat)
    ensures n <= |s| && All(s[..n], p) && (n == |s| || !p(s[n]))
  {
    if s != [] && p(s[0]) then
      var m := Span(s[1..], p);
      assert s[..1 + m] == [s[0]] + s[1..][..m];
      1 + m
    else 0
  }

  function SchemeLength(s: string): (n: nat)
    ensures n <= |s|
  {
    if |s| >= 8 && EqualIgnoringCase(s[..8], "https://") then 8
    else if |s| >= 7 && EqualIgnoringCase(s[..7], "http://") then 7
    else 0
  }

  function PortLength(s: string): (n: nat)
    ensures n <= |s|
  {
    if s != [] && s[0] == ':' then 1 + Span(s[1..], IsDigit) else 0
  }

  function PathLength(s: string): (n: nat)
    ensures n <= |s|
  {
    if s != [] && s[0] == '/' then Span(s, IsPathChar) else 0
  }

  function QueryLength(s: string): (n: nat)
    ensures n <= |s|
  {
    if s != [] && s[0] == '?' then 1 + Span(s[1..], IsQueryChar) else 0
  }

  function FragmentLength(s: string): (n: nat)
    ensures n <= |s|
  {
    if s != [] && s[0] == '#' then 1 + Span(s[1..], IsFragmentChar) else 0
  }

  /** `s` cut after its first `n` characters. */
  function CutAt(s: string, n: nat): (r: (string, string))
    requires n <= |s|
    ensures r.0 + r.1 == s && |r.0| == n
  {
    (s[..n], s[n..])
  }

  /** Cuts `s` into the six parts, each as long as it can be, and returns what is left over. */
  function Cut(s: string): (r: (UrlParts, string))
    ensures RenderThen(r.0, r.1) == s
  {
    var (scheme, s1) := CutAt(s, SchemeLength(s));
    var (host, s2) := CutAt(s1, Span(s1, IsHostChar));
    var (port, s3) := CutAt(s2, PortLength(s2));
    var (path, s4) := CutAt(s3, PathLength(s3));
    var (query, s5) := CutAt(s4, QueryLength(s4));
    var (fragment, s6) := CutAt(s5, FragmentLength(s5));
    (UrlParts(scheme, host, port, path, query, fragment), s6)
  }

  /** Accepts when the cut leaves nothing over and every part is well formed. */
  function Parse(s: string): (r: Option<UrlParts>)
    ensures r.Some? ==> WellFormed(r.value) && Render(r.value) == s
  {
    var (u, rest) := Cut(s);
    if rest == [] && WellFormed(u) then
      assert u.fragment + rest == u.fragment;
      Some(u)
    else None
  }

  /** `urlPattern.test(url)`: an accepted string is the rendering of well-formed parts. */
  predicate IsValidUrl(s: string)
    ensures IsValidUrl(s) ==> exists u :: WellFormed(u) && Render(u) == s
  {
    Parse(s).Some?
  }

  /** The maximal run of `p` over `x + rest` is `x` when `rest` does not continue it. */
  lemma SpanOf(x: string, rest: string, p: char -> bool)
    requires All(x, p)
    requires rest == [] || !p(rest[0])
    ensures Span(x + rest, p) == |x|
  {
    var s := x + rest;
    var n := Span(s, p);
    assert forall k :: 0 <= k < |x| ==> s[k] == x[k];
    assert forall k :: 0 <= k < n ==> p(s[k]) by {
      assert forall k :: 0 <= k < n ==> s[..n][k] == s[k];
    }
    assert rest != [] ==> s[|x|] == rest[0];
  }

  /** Every host contains a dot. */
  lemma HostHasDot(h: string)
    requires IsHost(h)
    ensures exists j :: 0 <= j < |h| && h[j] == '.'
  {
    SplitCountsSeparator(h, '.');
  }

  /** Where the host ends, the next part starts with a character no host contains. */
  predicate StartsAfterHost(s: string) {
    s == [] || s[0] == ':' || s[0] == '/' || s[0] == '?' || s[0] == '#'
  }

  /** A string that starts with a host cannot also start with `http://` or `https://`,
      because the host would have to end at the colon and hold no dot. */
  lemma NoSchemeBeforeHost(h: string, rest: string)
    requires IsHost(h) && All(h, IsHostChar) && StartsAfterHost(rest)
    ensures SchemeLength(h + rest) == 0
  {
    var s := h + rest;
    HostHasDot(h);
    var j :| 0 <= j < |h| && h[j] == '.';
    assert s[j] == '.';
    assert 4 < |h| ==> s[4] == h[4];
    assert 5 < |h| ==> s[5] == h[5];
    if |s| >= 8 {
      CaseFoldAt(s[..8], "https://", 5);
      CaseFoldAt(s[..8], "https://", j);
    }
    if |s| >= 7 {
      CaseFoldAt(s[..7], "http://", 4);
      CaseFoldAt(s[..7], "http://", j);
    }
  }

  lemma CaseFoldAt(a: string, b: string, i: int)
    ensures EqualIgnoringCase(a, b) && 0 <= i < |a| ==> Lower(a[i]) == Lower(b[i])
  {
  }

  lemma SchemeLengthOf(u: UrlParts)
    requires WellFormed(u)
    ensures SchemeLength(Render(u)) == |u.scheme|
  {
    var s := Render(u);
    var rest := u.host + (u.port + (u.path + (u.query + u.fragment)));
    assert s == u.scheme + rest;
    if u.scheme == "" {
      assert s == rest;
      HostCharsOf(u.host);
      AfterHost(u);
      NoSchemeBeforeHost(u.host, u.port + (u.path + (u.query + u.fragment)));
    } else if EqualIgnoringCase(u.scheme, "http://") {
      assert s[..7] == u.scheme;
      if |s| >= 8 { assert Lower(s[..8][4]) == Lower(s[4]) == ':'; }
    } else {
      assert s[..8] == u.scheme;
    }
  }

  /** A host is made of host characters. */
  lemma HostCharsOf(h: string)
    requires IsHost(h)
    ensures All(h, IsHostChar)
  {
    SplitChars(h, '.', IsLabelChar);
  }

  /** When every piece is made of `p`-characters, so is the whole string, apart from separators. */
  lemma {:induction false} SplitChars(s: string, sep: char, p: char -> bool)
    requires forall k :: 0 <= k < |Split(s, sep)| ==> All(Split(s, sep)[k], p)
    ensures forall i :: 0 <= i < |s| ==> s[i] == sep || p(s[i])
  {
    if s != [] {
      var pieces := Split(s, sep);
      var rest := Split(s[1..], sep);
      if s[0] == sep {
        assert forall k :: 0 <= k < |rest| ==> rest[k] == pieces[k + 1];
      } else {
        assert p(pieces[0][0]);
        assert rest[0] == pieces[0][1..];
        assert forall k :: 1 <= k < |rest| ==> rest[k] == pieces[k];
      }
      SplitChars(s[1..], sep, p);
      assert forall i :: 1 <= i < |s| ==> s[i] == s[1..][i - 1];
    }
  }

  lemma AfterHost(u: UrlParts)
    requires WellFormed(u)
    ensures StartsAfterHost(u.port + (u.path + (u.query + u.fragment)))
  {
  }
}

module UrlPatternProofs {
  import opened Wrappers
  import opened Text
  import opened UrlPattern

  lemma PortLengthOf(port: string, rest: string)
    requires IsPort(port)
    requires rest == [] || rest[0] == '/' || rest[0] == '?' || rest[0] == '#'
    ensures PortLength(port + rest) == |port|
  {
    if port != "" {
      assert (port + rest)[1..] == port[1..] + rest;
      SpanOf(port[1..], rest, IsDigit);
    }
  }

  lemma PathLengthOf(path: string, rest: string)
    requires IsPath(path)
    requires rest == [] || rest[0] == '?' || rest[0] == '#'
    ensures PathLength(path + rest) == |path|
  {
    if path != "" {
      SpanOf(path, rest, IsPathChar);
    }
  }

  lemma QueryLengthOf(query: string, rest: string)
    requires IsQuery(query)
    requires rest == [] || rest[0] == '#'
    ensures QueryLength(query + rest) == |query|
  {
    if query != "" {
      assert (query + rest)[1..] == query[1..] + rest;
      SpanOf(query[1..], rest, IsQueryChar);
    }
  }

  lemma FragmentLengthOf(fragment: string)
    requires IsFragment(fragment)
    ensures FragmentLength(fragment) == |fragment|
  {
    if fragment != "" {
      assert fragment[1..] + [] == fragment[1..];
      SpanOf(fragment[1..], [], IsFragmentChar);
    }
  }

  lemma CutAtConcat(x: string, rest: string)
    ensures CutAt(x + rest, |x|) == (x, rest)
  {
    assert (x + rest)[..|x|] == x && (x + rest)[|x|..] == rest;
  }

  /** The validator accepts every URL assembled from well-formed parts, and recovers the parts. */
  lemma {:induction false} ParseRender(u: UrlParts)
    requires WellFormed(u)
    ensures Parse(Render(u)) == Some(u)
  {
    var s := Render(u);
    CutRender(u);
  }

  lemma {:induction false} CutRender(u: UrlParts)
    requires WellFormed(u)
    ensures Cut(Render(u)) == (u, [])
  {
    var r4 := u.query + u.fragment;
    var r3 := u.path + r4;
    var r2 := u.port + r3;
    var r1 := u.host + r2;
    HeadStages(u);
    TailStages(u);
    assert Render(u) == u.scheme + r1;
  }

  /** The scheme and host cuts of a rendered URL. */
  lemma HeadStages(u: UrlParts)
    requires WellFormed(u)
    ensures var r1 := u.host + (u.port + (u.path + (u.query + u.fragment)));
            && CutAt(Render(u), SchemeLength(Render(u))) == (u.scheme, r1)
            && CutAt(r1, Span(r1, IsHostChar)) == (u.host, u.port + (u.path + (u.query + u.fragment)))
  {
    var r2 := u.port + (u.path + (u.query + u.fragment));
    SchemeLengthOf(u);
    CutAtConcat(u.scheme, u.host + r2);
    HostCharsOf(u.host);
    AfterHost(u);
    SpanOf(u.host, r2, IsHostChar);
    CutAtConcat(u.host, r2);
  }

  /** The port, path, query and fragment cuts of what follows the host. */
  lemma TailStages(u: UrlParts)
    requires WellFormed(u)
    ensures var r4 := u.query + u.fragment;
            var r3 := u.path + r4;
            var r2 := u.port + r3;
            && CutAt(r2, PortLength(r2)) == (u.port, r3)
            && CutAt(r3, PathLength(r3)) == (u.path, r4)
            && CutAt(r4, QueryLength(r4)) == (u.query, u.fragment)
            && CutAt(u.fragment, FragmentLength(u.fragment)) == (u.fragment, [])
  {
    var r4 := u.query + u.fragment;
    var r3 := u.path + r4;
    PortLengthOf(u.port, r3);
    CutAtConcat(u.port, r3);
    PathLengthOf(u.path, r4);
    CutAtConcat(u.path, r4);
    LastStages(u);
  }

  /** The query and fragment cuts. */
  lemma LastStages(u: UrlParts)
    requires WellFormed(u)
    ensures CutAt(u.query + u.fragment, QueryLength(u.query + u.fragment)) == (u.query, u.fragment)
    ensures CutAt(u.fragment, FragmentLength(u.fragment)) == (u.fragment, [])
  {
    QueryLengthOf(u.query, u.fragment);
    CutAtConcat(u.query, u.fragment);
    FragmentLengthOf(u.fragment);
    assert u.fragment + [] == u.fragment;
    CutAtConcat(u.fragment, []);
  }

  /** The URL check accepts exactly the strings made of the pattern's six parts. */
  lemma UrlPatternMeaning(s: string)
    ensures IsValidUrl(s) <==> exists u :: WellFormed(u) && Render(u) == s
  {
    if exists u :: WellFormed(u) && Render(u) == s {
      var u :| WellFormed(u) && Render(u) == s;
      ParseRender(u);
    }
  }

  /** Every accepted URL contains a dot, from its host. */
  lemma ValidUrlHasDot(s: string)
    ensures IsValidUrl(s) ==> exists i :: 0 <= i < |s| && s[i] == '.'
  {
    if IsValidUrl(s) {
      var u := Parse(s).value;
      HostHasDot(u.host);
      var j :| 0 <= j < |u.host| && u.host[j] == '.';
      assert s[|u.scheme| + j] == '.';
    }
  }

  /** A string without a dot is rejected. */
  lemma NoDotIsRejected(s: string)
    requires forall i :: 0 <= i < |s| ==> s[i] != '.'
    ensures !IsValidUrl(s)
  {
    ValidUrlHasDot(s);
  }

  /** What `RegExp.prototype.test` receives for a missing argument. */
  const Undefined: string := "undefined"

  /** A missing `url` reaches the pattern as the string "undefined", which it rejects. */
  lemma UndefinedIsRejected()
    ensures !IsValidUrl(Undefined)
  {
    var s := Undefined;
    assert |s| == 9 && s[0] == 'u' && s[1] == 'n' && s[2] == 'd' && s[3] == 'e' && s[4] == 'f'
      && s[5] == 'i' && s[6] == 'n' && s[7] == 'e' && s[8] == 'd';
    NoDotIsRejected(s);
  }

  /** Characters any part of the pattern can contain. */
  predicate IsUrlChar(c: char) {
    IsPathChar(c) || IsQueryChar(c) || IsFragmentChar(c) || c == ':' || c == '?' || c == '#'
  }

  lemma AllConcat(a: string, b: string, p: char -> bool)
    requires All(a, p) && All(b, p)
    ensures All(a + b, p)
  {
    assert forall i :: |a| <= i < |a + b| ==> (a + b)[i] == b[i - |a|];
  }

  lemma AllTail(a: string, p: char -> bool)
    requires a != [] && p(a[0]) && All(a[1..], p)
    ensures All(a, p)
  {
    assert forall i :: 1 <= i < |a| ==> a[i] == a[1..][i - 1];
  }

  lemma SchemeChars(p: string)
    requires IsScheme(p)
    ensures All(p, IsUrlChar)
  {
    forall i | 0 <= i < |p|
      ensures IsUrlChar(p[i])
    {
      if p != "" {
        var w := if |p| == 7 then "http://" else "https://";
        assert Lower(p[i]) == Lower(w[i]);
      }
    }
  }

  /** Every character of an accepted URL comes from the pattern's character classes. */
  lemma ValidUrlChars(s: string)
    ensures IsValidUrl(s) ==> All(s, IsUrlChar)
  {
    if IsValidUrl(s) {
      RenderChars(Parse(s).value);
    }
  }

  /** A URL assembled from well-formed parts is made of URL characters. */
  lemma RenderChars(u: UrlParts)
    requires WellFormed(u)
    ensures All(Render(u), IsUrlChar)
  {
    PartChars(u);
    AllConcat(u.query, u.fragment, IsUrlChar);
    AllConcat(u.path, u.query + u.fragment, IsUrlChar);
    AllConcat(u.port, u.path + (u.query + u.fragment), IsUrlChar);
    AllConcat(u.host, u.port + (u.path + (u.query + u.fragment)), IsUrlChar);
    AllConcat(u.scheme, u.host + (u.port + (u.path + (u.query + u.fragment))), IsUrlChar);
  }

  /** Each well-formed part is made of URL characters. */
  lemma PartChars(u: UrlParts)
    requires WellFormed(u)
    ensures All(u.scheme, IsUrlChar) && All(u.host, IsUrlChar) && All(u.port, IsUrlChar)
    ensures All(u.path, IsUrlChar) && All(u.query, IsUrlChar) && All(u.fragment, IsUrlChar)
  {
    SchemeChars(u.scheme);
    HostCharsOf(u.host);
    assert All(u.host, IsUrlChar);
    if u.port != "" { AllTail(u.port, IsUrlChar); }
    assert All(u.path, IsUrlChar);
    if u.query != "" { AllTail(u.query, IsUrlChar); }
    if u.fragment != "" { AllTail(u.fragment, IsUrlChar); }
  }

  /** An accepted URL is non-empty and has no whitespace, so trimming leaves it as it is. */
  lemma ValidUrlIsTrimmed(s: string)
    ensures IsValidUrl(s) ==> s != [] && Trim(s) == s
  {
    ValidUrlChars(s);
    ValidUrlHasDot(s);
    if All(s, IsUrlChar) && s != [] {
      UrlCharIsNotWhitespace(s[0]);
      UrlCharIsNotWhitespace(s[|s| - 1]);
      TrimIdentity(s);
    }
  }

  lemma UrlCharIsNotWhitespace(c: char)
    ensures IsUrlChar(c) ==> !IsWhitespace(c)
  {
  }
}
