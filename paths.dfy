/**
 * Derivation of the message-file paths from a page path:
 * `removeFileEndings`, the `fileName` rule of `generatePage` and the two
 * template strings built inside `getMessages`.
 */
module Paths {
  import opened Wrappers

  const HTML := ".html"
  const JSON_SUFFIX := ".json"

  /** `pat` occurs in `s` starting at index `i`. */
  predicate OccursAt(s: string, pat: string, i: nat) {
    i + |pat| <= |s| && s[i..i + |pat|] == pat
  }

  /** `i` is the first index at which `pat` occurs in `s`. */
  predicate FirstOccurrence(s: string, pat: string, i: nat) {
    OccursAt(s, pat, i) && forall j: nat :: j < i ==> !OccursAt(s, pat, j)
  }

  /** `pat` occurs nowhere in `s`. */
  predicate Absent(s: string, pat: string) {
    forall j: nat :: j <= |s| ==> !OccursAt(s, pat, j)
  }

  /**
   * `s.replace(/\/+$/, "")`: the leftmost match of `/+$` is the start of the
   * maximal run of trailing slashes, so the whole run is removed.
   */
  function StripTrailingSlashes(s: string): (r: string)
    ensures r <= s
    ensures forall i :: |r| <= i < |s| ==> s[i] == '/'
    ensures r == [] || r[|r| - 1] != '/'
  {
    if |s| > 0 && s[|s| - 1] == '/' then StripTrailingSlashes(s[..|s| - 1]) else s
  }

  /**
   * The three properties of StripTrailingSlashes determine its result:
   * any prefix of `s` that leaves only slashes behind and does not itself
   * end in a slash is that result.
   */
  lemma {:induction false} StripTrailingSlashesUnique(s: string, t: string)
    requires t <= s
    requires forall i :: |t| <= i < |s| ==> s[i] == '/'
    requires t == [] || t[|t| - 1] != '/'
    ensures t == StripTrailingSlashes(s)
  {
    if |s| > 0 && s[|s| - 1] == '/' {
      assert |t| < |s|;
      StripTrailingSlashesUnique(s[..|s| - 1], t);
    }
  }

  /** A page path with or without its trailing slash names the same file. */
  lemma {:induction false} StripTrailingSlashesIgnoresSlash(s: string)
    ensures StripTrailingSlashes(s + "/") == StripTrailingSlashes(s)
  {
    assert (s + "/")[..|s + "/"| - 1] == s;
  }

  /** The first index at or after `from` where `pat` occurs (`String.prototype.indexOf`). */
  function IndexOf(s: string, pat: string, from: nat): (r: Option<nat>)
    requires from <= |s|
    decreases |s| - from
    ensures r.Some? ==> from <= r.value && OccursAt(s, pat, r.value)
    ensures r.Some? ==> forall j: nat :: from <= j < r.value ==> !OccursAt(s, pat, j)
    ensures r.None? ==> forall j: nat :: from <= j <= |s| ==> !OccursAt(s, pat, j)
  {
    if OccursAt(s, pat, from) then Some(from)
    else if from == |s| then None
    else IndexOf(s, pat, from + 1)
  }

  /** `s.replace(pat, "")` with a string pattern: only the first occurrence goes. */
  function RemoveFirst(s: string, pat: string): string {
    match IndexOf(s, pat, 0)
    case None => s
    case Some(i) => s[..i] + s[i + |pat|..]
  }

  /**
   * `replace` removes exactly the first occurrence; putting the pattern back
   * there restores the input. A string without the pattern is unchanged.
   */
  lemma RemoveFirstSpec(s: string, pat: string)
    ensures Absent(s, pat) ==> RemoveFirst(s, pat) == s
    ensures forall i: nat :: FirstOccurrence(s, pat, i) ==>
              && RemoveFirst(s, pat) == s[..i] + s[i + |pat|..]
              && s == RemoveFirst(s, pat)[..i] + pat + RemoveFirst(s, pat)[i..]
  {
    match IndexOf(s, pat, 0)
    case None =>
    case Some(i) =>
      assert forall k: nat :: FirstOccurrence(s, pat, k) ==> k == i;
      var r := s[..i] + s[i + |pat|..];
      assert s == r[..i] + pat + r[i..];
  }

  /** `removeFileEndings`: trailing slashes first, then the first ".html". */
  function RemoveFileEndings(fileName: string): string {
    RemoveFirst(StripTrailingSlashes(fileName), HTML)
  }

  /** Trailing slashes go, then the first ".html" anywhere in what remains, and nothing else. */
  lemma RemoveFileEndingsSpec(fileName: string)
    ensures var t := StripTrailingSlashes(fileName);
            && (Absent(t, HTML) ==> RemoveFileEndings(fileName) == t)
            && forall i: nat :: FirstOccurrence(t, HTML, i) ==> RemoveFileEndings(fileName) == t[..i] + t[i + |HTML|..]
  {
    RemoveFirstSpec(StripTrailingSlashes(fileName), HTML);
  }

  /** A path that neither ends in '/' nor contains ".html" passes unchanged. */
  lemma RemoveFileEndingsOfCleanPath(p: string)
    requires p == [] || p[|p| - 1] != '/'
    requires Absent(p, HTML)
    ensures RemoveFileEndings(p) == p
  {
    StripTrailingSlashesUnique(p, p);
    RemoveFirstSpec(p, HTML);
  }

  /** The `fileName` of `generatePage`: the root page reads "/index". */
  function FileName(pagePath: string): string
  {
    if pagePath != "/" then pagePath else "/index"
  }

  /** `${path}/${language}` + removeFileEndings(file) + ".json" */
  function PageFilePath(path: string, language: string, file: string): string
  {
    path + "/" + language + RemoveFileEndings(file) + JSON_SUFFIX
  }

  /** `${path}/${language}/${sharedMessages}` */
  function SharedFilePath(path: string, language: string, sharedMessages: string): string
  {
    path + "/" + language + "/" + sharedMessages
  }

  /** The root page's messages live in `{path}/{language}/index.json`. */
  lemma RootPageFile(path: string, language: string)
    ensures PageFilePath(path, language, FileName("/")) == path + "/" + language + "/index.json"
  {
    assert Absent("/index", HTML) by {
      forall j: nat | j <= |"/index"| ensures !OccursAt("/index", HTML, j) {
        assert j + |HTML| <= |"/index"| ==> "/index"[j] != '.';
      }
    }
    RemoveFileEndingsOfCleanPath("/index");
  }

  /** A page path other than the root, free of a trailing '/' and of ".html", reads `{path}/{language}{p}.json`. */
  lemma PageFileOfCleanPath(path: string, language: string, p: string)
    requires p != "/" && (p == [] || p[|p| - 1] != '/')
    requires Absent(p, HTML)
    ensures PageFilePath(path, language, FileName(p)) == path + "/" + language + p + JSON_SUFFIX
  {
    RemoveFileEndingsOfCleanPath(p);
  }

  /**
   * A page path "p/" reads the same file as "p": Gatsby's trailing-slash
   * page paths map to `{path}/{language}{p}.json`.
   */
  lemma TrailingSlashSameFile(path: string, language: string, p: string)
    requires p != "" && p != "/"
    ensures PageFilePath(path, language, FileName(p + "/")) == PageFilePath(path, language, FileName(p))
  {
    StripTrailingSlashesIgnoresSlash(p);
  }
}
