/** SURL validation and normalisation (src/frontend/surl_normalizer.cc). */
module SurlNormalizer {
  import opened Sequences
  import opened Wrappers

  const SCHEME := "srm://"
  const QUERY_PATTERN := "/srm/managerv2?SFN="

  // ----- the language of SRM_URL_REGEXP -----

  predicate Digit(c: char) { '0' <= c <= '9' }

  predicate HostChar(c: char) {
    'A' <= c <= 'Z' || 'a' <= c <= 'z' || Digit(c) || c == '.' || c == '-' || c == '[' || c == ']' || c == ':'
  }

  predicate Space(c: char) {
    c == ' ' || c == '\t' || c == '\n' || c == '\r' || c as int == 11 || c as int == 12
  }

  predicate Host(s: string) { s != "" && forall c :: c in s ==> HostChar(c) }

  predicate NoSpace(s: string) { forall c :: c in s ==> !Space(c) }

  predicate Slashes(s: string) { forall c :: c in s ==> c == '/' }

  /** (:\d{1,4})? */
  predicate OptionalPort(s: string) {
    s == "" || (2 <= |s| <= 5 && s[0] == ':' && forall i :: 1 <= i < |s| ==> Digit(s[i]))
  }

  /** (srm/managerv2\?SFN=)? */
  predicate OptionalQuery(s: string) { s == "" || s == QUERY_PATTERN[1..] }

  /** One way to divide a string among the groups of the regular expression. */
  predicate Groups(url: string, host: string, port: string, slashes: string, query: string, rest: string) {
    && Host(host) && OptionalPort(port) && slashes != "" && Slashes(slashes) && OptionalQuery(query)
    && NoSpace(rest)
    && url == SCHEME + ((host + port) + (slashes + query + rest))
  }

  ghost predicate MatchesRegexp(url: string) {
    exists host, port, slashes, query, rest :: Groups(url, host, port, slashes, query, rest)
  }

  /** The number of host characters at the front of s. */
  function HostLength(s: string): (n: nat)
    ensures n <= |s| && (forall c :: c in s[..n] ==> HostChar(c)) && (n < |s| ==> !HostChar(s[n]))
  {
    if s == "" || !HostChar(s[0]) then 0
    else
      assert forall n | 0 <= n < |s| :: s[..n + 1] == [s[0]] + s[1..][..n];
      1 + HostLength(s[1..])
  }

  /** What follows the scheme: a host, a slash, and no white space. */
  predicate HostAndPath(s: string) {
    var n := HostLength(s);
    n > 0 && n < |s| && s[n] == '/' && NoSpace(s[n..])
  }

  predicate Valid(url: string) { SCHEME <= url && HostAndPath(url[|SCHEME|..]) }

  lemma {:induction false} HostLengthIs(s: string, n: nat)
    requires n < |s| && (forall c :: c in s[..n] ==> HostChar(c)) && !HostChar(s[n])
    ensures HostLength(s) == n
  {
    if n > 0 {
      assert s[0] in s[..n];
      assert s[1..][..n - 1] == s[1..n] && forall c :: c in s[1..n] ==> c in s[..n];
      HostLengthIs(s[1..], n - 1);
    }
  }

  lemma HostAndPathIs(name: string, path: string)
    requires Host(name) && path != "" && path[0] == '/' && NoSpace(path)
    ensures HostAndPath(name + path) && HostLength(name + path) == |name|
  {
    assert (name + path)[..|name|] == name && (name + path)[|name|..] == path;
    HostLengthIs(name + path, |name|);
  }

  lemma PatternHasNoSpace()
    ensures NoSpace(QUERY_PATTERN) && NoSpace(QUERY_PATTERN[1..])
  {
    assert NoSpace("/srm/") && NoSpace("manager") && NoSpace("v2?SFN=");
    assert QUERY_PATTERN == "/srm/" + "manager" + "v2?SFN=";
    hide Space;
    assert forall c :: c in QUERY_PATTERN[1..] ==> c in QUERY_PATTERN;
  }

  lemma PathHasNoSpace(slashes: string, query: string, rest: string)
    requires slashes != "" && Slashes(slashes) && OptionalQuery(query) && NoSpace(rest)
    ensures var path := slashes + query + rest; path != "" && path[0] == '/' && NoSpace(path)
  {
    assert (slashes + query + rest)[0] == slashes[0] && slashes[0] in slashes;
    PatternHasNoSpace();
    assert NoSpace(slashes) && NoSpace(query);
  }

  lemma MatchIsValid(url: string, host: string, port: string, slashes: string, query: string, rest: string)
    requires Groups(url, host, port, slashes, query, rest)
    ensures Valid(url)
  {
    PathHasNoSpace(slashes, query, rest);
    forall c | c in port ensures HostChar(c) {
      var i :| 0 <= i < |port| && port[i] == c;
    }
    HostAndPathIs(host + port, slashes + query + rest);
    ConcatParts(SCHEME, (host + port) + (slashes + query + rest));
  }

  lemma ValidMatches(url: string)
    requires Valid(url)
    ensures var s := url[|SCHEME|..]; var n := HostLength(s);
      Groups(url, s[..n], "", "/", "", s[n + 1..])
  {
    var s := url[|SCHEME|..];
    var n := HostLength(s);
    var rest := s[n + 1..];
    assert Host(s[..n]) && Slashes("/") && OptionalPort("") && OptionalQuery("");
    assert NoSpace(rest) by {
      assert forall c :: c in rest ==> c in s[n..];
    }
    assert s[..n] + "" == s[..n] && "/" + "" + rest == s[n..];
    assert s == s[..n] + s[n..];
    assert url == SCHEME + s;
  }

  /** The port and query groups of the expression add nothing: it matches exactly the strings
      "srm://", one or more host characters, a slash, and anything without white space. */
  lemma RegexpLanguage(url: string)
    ensures MatchesRegexp(url) <==> Valid(url)
  {
    if MatchesRegexp(url) {
      var host, port, slashes, query, rest :| Groups(url, host, port, slashes, query, rest);
      MatchIsValid(url, host, port, slashes, query, rest);
    }
    if Valid(url) {
      ValidMatches(url);
    }
  }

  /** Which characters may stand in a host, seen from the SURLs that are accepted. */
  lemma HostCharacters(c: char)
    ensures Valid(SCHEME + ([c] + "/")) <==>
      'A' <= c <= 'Z' || 'a' <= c <= 'z' || '0' <= c <= '9' || c in ".-[]:"
  {
    var s := [c] + "/";
    ConcatParts(SCHEME, s);
    if HostChar(c) {
      HostLengthIs(s, 1);
      assert s[1..] == "/" && NoSpace("/");
    } else {
      assert HostLength(s) == 0;
    }
  }

  /** Which characters may stand in a path. */
  lemma PathCharacters(c: char)
    ensures Valid(SCHEME + ("h" + ("/" + [c]))) <==> c !in " \t\n\r" && c as int !in {11, 12}
  {
    var path := "/" + [c];
    ConcatParts(SCHEME, "h" + path);
    ConcatParts("h", path);
    HostLengthIs("h" + path, 1);
    assert path[1] in path;
  }

  // ----- collapsing slashes -----

  /** The length of the run of slashes at the front of s. */
  function SlashRun(s: string): (n: nat)
    ensures n <= |s| && (forall i :: 0 <= i < n ==> s[i] == '/') && (n < |s| ==> s[n] != '/')
  {
    if s == "" || s[0] != '/' then 0 else 1 + SlashRun(s[1..])
  }

  /** regex_replace with ([^:])//+ and $1/: scanning from the left, a character other than ':'
      (a slash too) followed by two or more slashes keeps one of them. */
  function RemoveDoubleSlashes(s: string): string
    decreases |s|
  {
    if |s| < 3 then s
    else if s[0] != ':' && s[1] == '/' && s[2] == '/'
    then [s[0], '/'] + RemoveDoubleSlashes(s[1 + SlashRun(s[1..])..])
    else [s[0]] + RemoveDoubleSlashes(s[1..])
  }

  /** The closed form: each maximal run of k slashes becomes min(k, 2) slashes after ':' and at the
      start (two is true there), and one slash elsewhere. */
  function CollapseRuns(s: string, two: bool): string
    decreases |s|
  {
    if s == "" then ""
    else if s[0] != '/' then [s[0]] + CollapseRuns(s[1..], s[0] == ':')
    else
      var k := SlashRun(s);
      (if two && k > 1 then "//" else "/") + CollapseRuns(s[k..], false)
  }

  lemma {:induction false} SlashRunIs(s: string, k: nat)
    requires k <= |s| && (forall i :: 0 <= i < k ==> s[i] == '/') && (k < |s| ==> s[k] != '/')
    ensures SlashRun(s) == k
  {
    if k > 0 {
      SlashRunIs(s[1..], k - 1);
    }
  }

  /** What a run of at most one slash becomes does not depend on what precedes it. */
  lemma ShortRun(s: string, two: bool)
    requires SlashRun(s) <= 1
    ensures CollapseRuns(s, two) == CollapseRuns(s, true)
  {
  }

  /** A run that the expression matches, together with the character before it. */
  lemma MatchedRun(s: string)
    requires |s| >= 3 && s[0] != ':' && s[1] == '/' && s[2] == '/'
    ensures var rest := s[1 + SlashRun(s[1..])..];
      CollapseRuns(s, true) == [s[0], '/'] + CollapseRuns(rest, true)
  {
    var k := SlashRun(s[1..]);
    var rest := s[1 + k..];
    assert s[1..][k..] == rest;
    assert SlashRun(rest) == 0;
    ShortRun(rest, false);
    if s[0] == '/' {
      SlashRunIs(s, k + 1);
    } else {
      assert CollapseRuns(s[1..], false) == "/" + CollapseRuns(rest, false);
    }
  }

  /** A run of one or two slashes at the start keeps its length. */
  lemma RunStep(s: string)
    requires s != "" && s[0] == '/' && SlashRun(s) <= 2
    ensures CollapseRuns(s, true) == "/" + CollapseRuns(s[1..], true)
  {
    var k := SlashRun(s);
    SlashRunIs(s[1..], k - 1);
    if k == 2 {
      var rest := CollapseRuns(s[2..], false);
      assert s[1..][1..] == s[2..];
      assert CollapseRuns(s[1..], true) == "/" + rest;
      assert CollapseRuns(s, true) == "//" + rest == "/" + ("/" + rest);
    } else {
      ShortRun(s[1..], false);
      assert CollapseRuns(s, true) == "/" + CollapseRuns(s[1..], false);
    }
  }

  /** A position where the expression does not match. */
  lemma UnmatchedHead(s: string)
    requires s != "" && !(|s| >= 3 && s[0] != ':' && s[1] == '/' && s[2] == '/')
    ensures CollapseRuns(s, true) == [s[0]] + CollapseRuns(s[1..], true)
  {
    if s[0] == '/' {
      RunStep(s);
    } else if s[0] != ':' {
      ShortRun(s[1..], false);
    }
  }

  /** The scan with the regular expression computes the closed form. */
  lemma {:induction false} RemoveIsCollapse(s: string)
    ensures RemoveDoubleSlashes(s) == CollapseRuns(s, true)
    decreases |s|
  {
    if s == "" {
    } else if |s| >= 3 && s[0] != ':' && s[1] == '/' && s[2] == '/' {
      MatchedRun(s);
      RemoveIsCollapse(s[1 + SlashRun(s[1..])..]);
    } else {
      UnmatchedHead(s);
      RemoveIsCollapse(s[1..]);
      assert |s| < 3 ==> RemoveDoubleSlashes(s[1..]) == s[1..];
    }
  }

  /** Collapsing keeps the first character. */
  lemma CollapseHead(s: string, two: bool)
    requires s != ""
    ensures CollapseRuns(s, two) != "" && CollapseRuns(s, two)[0] == s[0]
  {
  }

  function NonSlashes(s: string): string {
    if s == "" then "" else (if s[0] == '/' then "" else [s[0]]) + NonSlashes(s[1..])
  }

  lemma {:induction false} SlashRunVanishes(s: string)
    ensures NonSlashes(s) == NonSlashes(s[SlashRun(s)..])
  {
    if s != "" && s[0] == '/' {
      SlashRunVanishes(s[1..]);
      assert s[1..][SlashRun(s[1..])..] == s[SlashRun(s)..];
    }
  }

  /** Only slashes are removed: the other characters stay, in order. */
  lemma {:induction false} CollapseKeepsNonSlashes(s: string, two: bool)
    ensures NonSlashes(CollapseRuns(s, two)) == NonSlashes(s)
    decreases |s|
  {
    if s == "" {
    } else if s[0] != '/' {
      CollapseKeepsNonSlashes(s[1..], s[0] == ':');
      assert CollapseRuns(s, two)[1..] == CollapseRuns(s[1..], s[0] == ':');
    } else {
      var rest := s[SlashRun(s)..];
      var out := CollapseRuns(s, two);
      var n := if two && SlashRun(s) > 1 then 2 else 1;
      SlashRunVanishes(s);
      CollapseKeepsNonSlashes(rest, false);
      assert out[n..] == CollapseRuns(rest, false);
      if n == 2 {
        assert out[1..][1..] == out[2..];
      }
    }
  }

  predicate PairAt(s: string, i: int) { 0 <= i < |s| - 1 && s[i] == '/' && s[i + 1] == '/' }

  /** The canonical form, position by position: two slashes stand side by side only at the start
      (if two is true) or right after a ':'. */
  ghost predicate Canonical(s: string, two: bool) {
    forall i :: PairAt(s, i) ==> if i == 0 then two else s[i - 1] == ':'
  }

  lemma {:induction false} CollapseIsCanonical(s: string, two: bool)
    ensures Canonical(CollapseRuns(s, two), two)
    decreases |s|
  {
    if s != "" {
      var out := CollapseRuns(s, two);
      var n := if s[0] != '/' then 1 else if two && SlashRun(s) > 1 then 2 else 1;
      var rest := if s[0] != '/' then s[1..] else s[SlashRun(s)..];
      CollapseIsCanonical(rest, s[0] == ':');
      if rest != "" {
        CollapseHead(rest, s[0] == ':');
      }
      forall i | PairAt(out, i) ensures if i == 0 then two else out[i - 1] == ':' {
        if i >= n {
          assert PairAt(out[n..], i - n);
        }
      }
    }
  }

  lemma CanonicalSuffix(s: string, k: nat)
    requires 0 < k <= |s| && exists two :: Canonical(s, two)
    ensures Canonical(s[k..], s[k - 1] == ':')
  {
    forall i | PairAt(s[k..], i) ensures if i == 0 then s[k - 1] == ':' else s[k..][i - 1] == ':' {
      assert PairAt(s, i + k);
    }
  }

  /** Canonical strings are the fixed points of collapsing; with the lemma above, collapsing is
      idempotent and its results are exactly the canonical strings. */
  lemma {:induction false} CanonicalIsFixed(s: string, two: bool)
    requires Canonical(s, two)
    ensures CollapseRuns(s, two) == s
    decreases |s|
  {
    if s == "" {
    } else if s[0] != '/' {
      CanonicalSuffix(s, 1);
      CanonicalIsFixed(s[1..], s[0] == ':');
    } else {
      var k := SlashRun(s);
      if k > 1 {
        assert PairAt(s, 0);
        assert k > 2 ==> PairAt(s, 1);
      }
      CanonicalSuffix(s, k);
      CanonicalIsFixed(s[k..], false);
    }
  }

  lemma {:induction false} CollapseAfter(name: string, rest: string, two: bool)
    requires name != "" && '/' !in name
    ensures CollapseRuns(name + rest, two) == name + CollapseRuns(rest, name[|name| - 1] == ':')
    decreases |name|
  {
    assert (name + rest)[1..] == name[1..] + rest;
    if |name| == 1 {
      assert name[1..] + rest == rest;
    } else {
      CollapseAfter(name[1..], rest, name[0] == ':');
    }
  }

  lemma {:induction false} CollapseAddsNothing(s: string, two: bool)
    ensures forall c :: c in CollapseRuns(s, two) ==> c in s
    decreases |s|
  {
    if s == "" {
    } else if s[0] != '/' {
      CollapseAddsNothing(s[1..], s[0] == ':');
    } else {
      CollapseAddsNothing(s[SlashRun(s)..], false);
    }
  }

  /** Collapsing a SURL, piece by piece. */
  lemma CollapseUrl(host: string, path: string)
    requires Host(host) && path != "" && path[0] == '/'
    ensures RemoveDoubleSlashes(SCHEME + (host + path))
         == SCHEME + (host + CollapseRuns(path, host[|host| - 1] == ':'))
  {
    var body := host + path;
    var out := host + CollapseRuns(path, host[|host| - 1] == ':');
    RemoveIsCollapse(SCHEME + body);
    assert CollapseRuns(body, false) == out by {
      assert '/' !in host by {
        assert forall c :: c in host ==> HostChar(c);
      }
      CollapseAfter(host, path, false);
    }
    assert CollapseRuns("//" + body, true) == "//" + out by {
      assert body[0] == host[0] && host[0] in host;
      SlashRunIs("//" + body, 2);
      ConcatParts("//", body);
    }
    CollapseAfter("srm:", "//" + body, true);
    ConcatAssociative("srm:", "//", body);
    ConcatAssociative("srm:", "//", out);
    assert "srm:" + "//" == SCHEME;
  }

  /** On a valid SURL, collapsing leaves the scheme and the host alone and keeps it valid. */
  lemma CollapseKeepsValid(url: string)
    requires Valid(url)
    ensures var out := RemoveDoubleSlashes(url);
      && Valid(out)
      && out[|SCHEME|..][..HostLength(out[|SCHEME|..])] == url[|SCHEME|..][..HostLength(url[|SCHEME|..])]
  {
    var s := url[|SCHEME|..];
    var n := HostLength(s);
    var host, path := s[..n], s[n..];
    var collapsed := CollapseRuns(path, host[n - 1] == ':');
    assert url == SCHEME + s && s == host + path;
    CollapseUrl(host, path);
    CollapseHead(path, host[n - 1] == ':');
    CollapseAddsNothing(path, host[n - 1] == ':');
    HostAndPathIs(host, collapsed);
    assert (SCHEME + (host + collapsed))[|SCHEME|..] == host + collapsed;
  }

  lemma ValidHasNoSpace(url: string)
    requires Valid(url)
    ensures NoSpace(url)
  {
    var s := url[|SCHEME|..];
    var n := HostLength(s);
    assert url == SCHEME + (s[..n] + s[n..]);
    assert NoSpace(SCHEME) && NoSpace(s[..n]) && NoSpace(s[n..]);
  }

  // ----- the normaliser -----

  predicate OccursAt(s: string, pattern: string, i: nat) {
    i + |pattern| <= |s| && s[i..i + |pattern|] == pattern
  }

  /** std::string::find: the first position where the pattern occurs, -1 if there is none. */
  function Find(s: string, pattern: string): (pos: int)
    ensures pos == -1 || (pos >= 0 && OccursAt(s, pattern, pos))
    ensures forall i: nat :: (pos == -1 || i < pos) ==> !OccursAt(s, pattern, i)
  {
    FindFrom(s, pattern, 0)
  }

  function FindFrom(s: string, pattern: string, from: nat): (pos: int)
    ensures pos == -1 || (pos >= from && OccursAt(s, pattern, pos))
    ensures forall i: nat :: from <= i && (pos == -1 || i < pos) ==> !OccursAt(s, pattern, i)
    decreases |s| - from
  {
    if from + |pattern| > |s| then -1
    else if OccursAt(s, pattern, from) then from
    else FindFrom(s, pattern, from + 1)
  }

  datatype SurlError = InvalidSurl

  /** storm::normalize_surl. */
  function Normalize(surl: string): Result<string, SurlError> {
    if !Valid(surl) then Failure(InvalidSurl)
    else
      var collapsed := RemoveDoubleSlashes(surl);
      var pos := Find(collapsed, QUERY_PATTERN);
      if pos == -1 then Success(collapsed)
      else Success(collapsed[..pos] + collapsed[pos + |QUERY_PATTERN|..])
  }

  lemma NormalizeIs(surl: string, collapsed: string, pos: int)
    requires Valid(surl) && collapsed == RemoveDoubleSlashes(surl) && pos == Find(collapsed, QUERY_PATTERN)
    ensures Normalize(surl) == Success(
      if pos == -1 then collapsed else collapsed[..pos] + collapsed[pos + |QUERY_PATTERN|..])
  {
  }

  lemma EraseKeepsCanonical(s: string, pos: nat)
    requires Canonical(s, true) && OccursAt(s, QUERY_PATTERN, pos)
    ensures Canonical(s[..pos] + s[pos + |QUERY_PATTERN|..], true)
  {
    var m := |QUERY_PATTERN|;
    var out := s[..pos] + s[pos + m..];
    assert s[pos] == s[pos..pos + m][0] == '/';
    assert s[pos + m - 1] == s[pos..pos + m][m - 1] == '=';
    forall i | PairAt(out, i) ensures i == 0 || out[i - 1] == ':' {
      if i >= pos {
        assert PairAt(s, i + m);
      } else {
        assert PairAt(s, i);
      }
    }
  }

  /** Whatever is erased, a normalised SURL is in canonical form and free of white space. */
  lemma NormalizedIsCanonical(surl: string)
    ensures var r := Normalize(surl);
      r.Success? ==> Canonical(r.value, true) && NoSpace(r.value)
  {
    if Valid(surl) {
      var c := RemoveDoubleSlashes(surl);
      RemoveIsCollapse(surl);
      CollapseIsCanonical(surl, true);
      CollapseKeepsValid(surl);
      ValidHasNoSpace(c);
      var pos := Find(c, QUERY_PATTERN);
      NormalizeIs(surl, c, pos);
      if pos != -1 {
        EraseKeepsCanonical(c, pos);
      }
    }
  }

  /** The fixed points of the normaliser: a string normalises to itself exactly if it is valid, in
      canonical form, and free of the query pattern. */
  lemma NormalizeFixedPoints(surl: string)
    ensures Normalize(surl) == Success(surl)
       <==> Valid(surl) && Canonical(surl, true) && Find(surl, QUERY_PATTERN) == -1
  {
    RemoveIsCollapse(surl);
    if Canonical(surl, true) {
      CanonicalIsFixed(surl, true);
    }
    NormalizedIsCanonical(surl);
  }

  lemma {:induction false} RemoveShortens(s: string)
    ensures |RemoveDoubleSlashes(s)| <= |s|
    ensures |RemoveDoubleSlashes(s)| == |s| ==> RemoveDoubleSlashes(s) == s
    decreases |s|
  {
    if |s| < 3 {
    } else if s[0] != ':' && s[1] == '/' && s[2] == '/' {
      assert SlashRun(s[1..]) >= 2 by {
        assert s[1..][0] == '/' && s[1..][1] == '/';
        assert SlashRun(s[1..]) == 1 + SlashRun(s[1..][1..]);
      }
      RemoveShortens(s[1 + SlashRun(s[1..])..]);
    } else {
      RemoveShortens(s[1..]);
      assert s == [s[0]] + s[1..];
    }
  }

  /** Normalising shortens every SURL that it changes. */
  lemma NormalizeShortens(surl: string)
    requires Valid(surl)
    ensures |Normalize(surl).value| <= |surl|
    ensures |Normalize(surl).value| == |surl| ==> Normalize(surl).value == surl
  {
    var collapsed := RemoveDoubleSlashes(surl);
    RemoveShortens(surl);
    NormalizeIs(surl, collapsed, Find(collapsed, QUERY_PATTERN));
    hide RemoveDoubleSlashes, Valid;
  }

  /** So normalising again changes nothing exactly if the first result is valid and the one erasure
      left no further query pattern. */
  lemma NormalizeAgain(surl: string)
    requires Valid(surl)
    ensures var out := Normalize(surl).value;
      Normalize(out) == Success(out) <==> Valid(out) && Find(out, QUERY_PATTERN) == -1
  {
    NormalizedIsCanonical(surl);
    NormalizeFixedPoints(Normalize(surl).value);
  }

  /** Host characters and then a slash: the text that may take the place of an erased pattern
      right behind the host. */
  predicate MoreHostAndSlash(rest: string) {
    HostLength(rest) < |rest| && rest[HostLength(rest)] == '/'
  }

  /** What the text after a pattern at pos must look like for the result to be a SURL again: free
      beyond the host end; completing the host at the host end; and a whole SURL without its
      scheme if the host is "srm" and the pattern starts at the slash before it. */
  predicate HarmlessAt(hostEnd: nat, pos: nat, rest: string) {
    if pos > hostEnd then true
    else if pos == hostEnd then MoreHostAndSlash(rest)
    else rest != "" && rest[0] == '/' && HostAndPath(rest[1..])
  }

  predicate ErasureIsHarmless(collapsed: string)
    requires Valid(collapsed)
  {
    var pos := Find(collapsed, QUERY_PATTERN);
    var hostEnd := |SCHEME| + HostLength(collapsed[|SCHEME|..]);
    pos == -1 || HarmlessAt(hostEnd, pos, collapsed[pos + |QUERY_PATTERN|..])
  }

  lemma {:induction false} HostLengthConcat(a: string, b: string)
    requires forall c :: c in a ==> HostChar(c)
    ensures HostLength(a + b) == |a| + HostLength(b)
  {
    if a == "" {
      assert a + b == b;
    } else {
      assert (a + b)[1..] == a[1..] + b;
      HostLengthConcat(a[1..], b);
    }
  }

  /** Where the pattern can be: at the last slash of the scheme, or at the host end or later. */
  lemma PatternPosition(url: string, pos: nat)
    requires Valid(url) && OccursAt(url, QUERY_PATTERN, pos)
    ensures pos == |SCHEME| - 1 || pos >= |SCHEME| + HostLength(url[|SCHEME|..])
  {
    var s := url[|SCHEME|..];
    var n := HostLength(s);
    assert url == SCHEME + s;
    assert forall i :: |SCHEME| <= i < |SCHEME| + n ==> url[i] == s[..n][i - |SCHEME|] && HostChar(url[i]);
    assert url[0] == 's' && url[1] == 'r' && url[2] == 'm' && url[3] == ':' && url[4] == '/' && url[5] == '/';
    assert url[pos] == url[pos..pos + |QUERY_PATTERN|][0] == '/';
    assert url[pos + 1] == url[pos..pos + |QUERY_PATTERN|][1] == 's';
  }

  lemma ErasureInScheme(rest: string)
    ensures Valid("srm:/" + rest) <==> rest != "" && rest[0] == '/' && HostAndPath(rest[1..])
  {
    if rest != "" && rest[0] == '/' {
      assert "srm:/" + rest == SCHEME + rest[1..];
    } else {
      assert rest != "" ==> ("srm:/" + rest)[5] == rest[0];
    }
  }

  lemma ErasureAtHostEnd(host: string, rest: string)
    requires Host(host) && NoSpace(rest)
    ensures Valid(SCHEME + (host + rest)) <==> MoreHostAndSlash(rest)
  {
    assert (SCHEME + (host + rest))[|SCHEME|..] == host + rest;
    HostLengthConcat(host, rest);
    assert (host + rest)[|host| + HostLength(rest)..] == rest[HostLength(rest)..];
  }

  lemma ErasureInPath(host: string, path: string, k: nat, rest: string)
    requires Host(host) && path != "" && path[0] == '/' && NoSpace(path) && 0 < k <= |path| && NoSpace(rest)
    ensures Valid(SCHEME + (host + (path[..k] + rest)))
  {
    HostAndPathIs(host, path[..k] + rest);
    assert (SCHEME + (host + (path[..k] + rest)))[|SCHEME|..] == host + (path[..k] + rest);
  }

  lemma ErasureEffect(host: string, path: string, pos: nat, after: nat)
    requires Host(host) && path != "" && path[0] == '/' && NoSpace(path)
    requires pos == |SCHEME| - 1 || pos >= |SCHEME| + |host|
    requires pos < after <= |SCHEME| + |host| + |path|
    ensures var c := SCHEME + (host + path);
      NoSpace(c[after..]) ==>
      (Valid(c[..pos] + c[after..]) <==> HarmlessAt(|SCHEME| + |host|, pos, c[after..]))
  {
    var c := SCHEME + (host + path);
    var rest := c[after..];
    if !NoSpace(rest) {
    } else if pos == |SCHEME| - 1 {
      assert c[..pos] == "srm:/";
      ErasureInScheme(rest);
    } else if pos == |SCHEME| + |host| {
      assert c[..pos] + rest == SCHEME + (host + rest);
      ErasureAtHostEnd(host, rest);
    } else {
      var k := pos - |SCHEME| - |host|;
      assert c[..pos] + rest == SCHEME + (host + (path[..k] + rest));
      ErasureInPath(host, path, k, rest);
    }
  }

  lemma ErasureOfPattern(c: string, pos: nat)
    requires Valid(c) && OccursAt(c, QUERY_PATTERN, pos)
    ensures Valid(c[..pos] + c[pos + |QUERY_PATTERN|..])
       <==> HarmlessAt(|SCHEME| + HostLength(c[|SCHEME|..]), pos, c[pos + |QUERY_PATTERN|..])
  {
    var s := c[|SCHEME|..];
    var host, path := s[..HostLength(s)], s[HostLength(s)..];
    var after := pos + |QUERY_PATTERN|;
    assert c == SCHEME + (host + path);
    assert pos == |SCHEME| - 1 || pos >= |SCHEME| + |host| by {
      PatternPosition(c, pos);
    }
    assert NoSpace(c[after..]) by {
      ValidHasNoSpace(c);
    }
    ErasureEffect(host, path, pos, after);
  }

  /** A valid SURL normalises to a valid one exactly if the erasure is harmless: there is no
      pattern, or it lies beyond the host end, or what follows it completes the host. */
  lemma NormalizeKeepsValid(surl: string)
    requires Valid(surl)
    ensures Valid(RemoveDoubleSlashes(surl))
    ensures Valid(Normalize(surl).value) <==> ErasureIsHarmless(RemoveDoubleSlashes(surl))
  {
    CollapseKeepsValid(surl);
    var c := RemoveDoubleSlashes(surl);
    var pos := Find(c, QUERY_PATTERN);
    NormalizeIs(surl, c, pos);
    if pos != -1 {
      ErasureOfPattern(c, pos);
    }
  }

  lemma GluedIsValid(host: string, path: string)
    requires Host(host) && path != "" && path[0] == '/' && NoSpace(path)
    ensures Valid(SCHEME + (host + path))
  {
    assert (SCHEME + (host + path))[|SCHEME|..] == host + path;
    HostAndPathIs(host, path);
  }

  lemma HostOnlyIsInvalid(host: string, name: string)
    requires Host(host) && (forall c :: c in name ==> HostChar(c))
    ensures !Valid(SCHEME + (host + name))
  {
    assert NoSpace(name);
    ErasureAtHostEnd(host, name);
    HostLengthConcat(name, "");
    assert name + "" == name;
  }

  predicate NoPair(s: string) { forall i :: 0 <= i < |s| - 1 ==> !PairAt(s, i) }

  lemma PatternChars()
    ensures NoPair(QUERY_PATTERN) && QUERY_PATTERN[|QUERY_PATTERN| - 1] == '='
  {
    var s := QUERY_PATTERN;
    assert s[0] == '/' && s[1] == 's' && s[2] == 'r' && s[3] == 'm' && s[4] == '/' && s[5] == 'm' && s[6] == 'a' &&
      s[7] == 'n' && s[8] == 'a' && s[9] == 'g' && s[10] == 'e' && s[11] == 'r' && s[12] == 'v' && s[13] == '2'
      && s[14] == '?' && s[15] == 'S' && s[16] == 'F' && s[17] == 'N' && s[18] == '=';
  }

  lemma PatternAndRest(rest: string, two: bool)
    requires NoPair(rest) && NoSpace(rest)
    ensures var s := QUERY_PATTERN + rest;
      NoPair(s) && NoSpace(s) && CollapseRuns(s, two) == s && RemoveDoubleSlashes(s) == s
  {
    var s := QUERY_PATTERN + rest;
    PatternChars();
    PatternHasNoSpace();
    forall i | 0 <= i < |s| - 1 ensures !PairAt(s, i) {
      if i < |QUERY_PATTERN| - 1 {
        assert !PairAt(QUERY_PATTERN, i);
      } else if i >= |QUERY_PATTERN| {
        assert !PairAt(rest, i - |QUERY_PATTERN|);
      }
    }
    CanonicalIsFixed(s, two);
    CanonicalIsFixed(s, true);
    RemoveIsCollapse(s);
  }

  /** A pattern right behind a host other than "srm" is erased, once. */
  lemma PatternErased(host: string, rest: string)
    requires Host(host) && host != "srm" && NoPair(rest) && NoSpace(rest)
    ensures Valid(SCHEME + (host + (QUERY_PATTERN + rest)))
    ensures Normalize(SCHEME + (host + (QUERY_PATTERN + rest))) == Success(SCHEME + (host + rest))
  {
    var path := QUERY_PATTERN + rest;
    var surl := SCHEME + (host + path);
    assert path != "" && path[0] == '/' && QUERY_PATTERN <= path;
    PatternAndRest(rest, host[|host| - 1] == ':');
    assert Valid(surl) by {
      GluedIsValid(host, path);
    }
    assert RemoveDoubleSlashes(surl) == surl by {
      CollapseUrl(host, path);
    }
    assert Find(surl, QUERY_PATTERN) == |SCHEME| + |host| by {
      FirstPattern(host, path);
    }
    NormalizeIs(surl, surl, |SCHEME| + |host|);
    ErasedPiece(SCHEME, host, QUERY_PATTERN, rest);
  }

  /** Two of them need to be normalised twice: the result is valid but no fixed point. */
  lemma PatternTwice(host: string, rest: string)
    requires Host(host) && host != "srm" && NoPair(rest) && NoSpace(rest)
    ensures var once := SCHEME + (host + (QUERY_PATTERN + rest));
      && Normalize(SCHEME + (host + (QUERY_PATTERN + (QUERY_PATTERN + rest)))) == Success(once)
      && Valid(once) && Normalize(once) == Success(SCHEME + (host + rest)) && Normalize(once) != Success(once)
  {
    PatternAndRest(rest, false);
    PatternErased(host, QUERY_PATTERN + rest);
    PatternErased(host, rest);
    assert |SCHEME + (host + rest)| < |SCHEME + (host + (QUERY_PATTERN + rest))|;
  }

  lemma HostCharsOnly(name: string)
    requires forall c :: c in name ==> HostChar(c)
    ensures NoPair(name) && NoSpace(name)
  {
    assert forall i :: 0 <= i < |name| ==> name[i] in name;
  }

  /** A pattern right behind a host (other than "srm") and followed by host characters only: the
      SURL is valid, but its normal form has the file name glued to the host and is not. */
  lemma NameGluedToHost(host: string, name: string)
    requires Host(host) && host != "srm" && (forall c :: c in name ==> HostChar(c))
    ensures Valid(SCHEME + (host + (QUERY_PATTERN + name)))
    ensures Normalize(SCHEME + (host + (QUERY_PATTERN + name))) == Success(SCHEME + (host + name))
    ensures !Valid(SCHEME + (host + name))
  {
    HostCharsOnly(name);
    PatternErased(host, name);
    HostOnlyIsInvalid(host, name);
  }

  lemma ErasedPiece(a: string, b: string, c: string, d: string)
    ensures var all := a + (b + (c + d)); all[..|a| + |b|] + all[|a| + |b| + |c|..] == a + (b + d)
  {
    assert a + (b + (c + d)) == (a + b) + c + d;
  }

  lemma FirstPattern(host: string, path: string)
    requires Host(host) && host != "srm" && QUERY_PATTERN <= path && NoSpace(path)
    ensures Find(SCHEME + (host + path), QUERY_PATTERN) == |SCHEME| + |host|
  {
    var surl := SCHEME + (host + path);
    var at := |SCHEME| + |host|;
    assert surl[at..at + |QUERY_PATTERN|] == path[..|QUERY_PATTERN|];
    assert OccursAt(surl, QUERY_PATTERN, at);
    var pos := Find(surl, QUERY_PATTERN);
    assert surl[|SCHEME|..] == host + path;
    HostAndPathIs(host, path);
    PatternPosition(surl, pos);
    if pos == |SCHEME| - 1 {
      PatternAtScheme(host, path);
    }
  }

  lemma PatternAtScheme(host: string, path: string)
    requires Host(host) && path != "" && path[0] == '/'
    requires OccursAt(SCHEME + (host + path), QUERY_PATTERN, |SCHEME| - 1)
    ensures host == "srm"
  {
    var surl := SCHEME + (host + path);
    var m := |QUERY_PATTERN|;
    var s := host + path;
    assert s[..m - 1] == surl[5..5 + m][1..] == QUERY_PATTERN[1..];
    assert s[..3] == s[..m - 1][..3] == "srm";
    assert s[3] == s[..m - 1][3] == '/';
    assert forall i :: 0 <= i < |host| ==> s[i] == host[i] && host[i] in host;
    assert |host| <= 3;
    assert s[|host|] == '/';
    assert s[0] == 's' && s[1] == 'r' && s[2] == 'm';
    assert host == s[..3];
  }

  lemma NormalizeCanBreakValidity()
    ensures Valid(SCHEME + ("h" + (QUERY_PATTERN + "x")))
    ensures Normalize(SCHEME + ("h" + (QUERY_PATTERN + "x"))) == Success(SCHEME + ("h" + "x"))
    ensures !Valid(SCHEME + ("h" + "x"))
  {
    NameGluedToHost("h", "x");
  }
}
