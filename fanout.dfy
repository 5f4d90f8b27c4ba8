/**
 * Page fan-out (`onCreatePage` with its `generatePage`): every page is
 * replaced by one unrouted variant in the default language and one
 * language-prefixed variant per configured language, each carrying the
 * `intl` context. The host's `deletePage`/`createPage` calls are recorded
 * as a trace of actions.
 */
module Fanout {
  import opened Wrappers
  import opened Paths
  import opened Messages
  import opened Config

  /** The `intl` record attached to `context` of every variant. */
  datatype Intl = Intl(
    language: string,
    languages: seq<string>,
    messages: Fields,
    routed: bool,
    originalPath: string,
    redirect: bool,
    defaultLanguage: string)

  /** What `page.context.intl` may hold, as far as `typeof` tells the kinds apart. */
  datatype IntlSlot = Undefined | Primitive | Null | OtherObject | Attached(intl: Intl) {
    /** `typeof intl === "object"`, which holds for `null` as well. */
    predicate IsObject() {
      Null? || OtherObject? || Attached?
    }
  }

  /** A page's context: the two keys the plugin writes, and everything else. */
  datatype Context = Context(language: Option<string>, intl: IntlSlot, rest: map<string, string>)

  /** A page record as Gatsby passes it to `onCreatePage`. */
  datatype Page = Page(path: string, component: string, matchPath: Option<string>, context: Context)

  /** A call the hook makes into the host's page registry. */
  datatype Action = DeletePage(page: Page) | CreatePage(page: Page)

  /** How the (async) hook settles: normally, or rejected by an exception of `getMessages`. */
  datatype Outcome = Done | Rejected(error: MessageError)

  /** The guard at the top of `onCreatePage`. */
  predicate AlreadyProcessed(page: Page) {
    page.context.intl.IsObject()
  }

  /** The part of a variant's path in front of the original path. */
  function LanguagePrefix(routed: bool, language: string): string {
    if routed then "/" + language else ""
  }

  /**
   * `v` is `page` with only its path, `context.language` and `context.intl`
   * replaced; the new path is the original one behind the language prefix
   * the `intl` record describes.
   */
  predicate IsVariantOf(v: Page, page: Page) {
    && v.context.intl.Attached?
    && var intl := v.context.intl.intl;
    && intl.originalPath == page.path
    && v == page.(path := LanguagePrefix(intl.routed, intl.language) + intl.originalPath,
                  context := page.context.(language := Some(intl.language), intl := v.context.intl))
  }

  /** The messages `generatePage` attaches: those of the page's file name in `language`. */
  function VariantMessages(s: Settings, fs: FileSystem, page: Page, language: string): Result<Fields, MessageError> {
    ResolveMessages(s.path, s.sharedMessages, fs, language, FileName(page.path))
  }

  /** `generatePage(routed, language)`, throwing whatever `getMessages` throws. */
  function GeneratePage(s: Settings, fs: FileSystem, page: Page, routed: bool, language: string)
    : Result<Page, MessageError>
  {
    match VariantMessages(s, fs, page, language)
    case Err(e) => Err(e)
    case Ok(messages) =>
      var newPath := if routed then "/" + language + page.path else page.path;
      Ok(page.(path := newPath,
               context := page.context.(
                 language := Some(language),
                 intl := Attached(Intl(language, s.languages, messages, routed, page.path,
                                       s.redirect, s.defaultLanguage)))))
  }

  predicate EndsWith(s: string, suffix: string) {
    |suffix| <= |s| && s[|s| - |suffix|..] == suffix
  }

  /** `new RegExp("/404/?$").test(path)` */
  predicate Matches404(path: string) {
    EndsWith(path, "/404") || EndsWith(path, "/404/")
  }

  /** Whether a string ends in a suffix no longer than its tail is decided by the tail. */
  lemma EndsWithTail(head: string, tail: string, suffix: string)
    requires |suffix| <= |tail|
    ensures EndsWith(head + tail, suffix) <==> EndsWith(tail, suffix)
  {
    assert (head + tail)[|head + tail| - |suffix|..] == tail[|tail| - |suffix|..];
  }

  /** Prefixing a language keeps a trailing "/404" and, for paths of five or more characters, adds none. */
  lemma RoutedMatches404(language: string, path: string)
    ensures Matches404(path) ==> Matches404("/" + language + path)
    ensures |path| >= 5 ==> (Matches404("/" + language + path) <==> Matches404(path))
  {
    if |path| >= 4 {
      EndsWithTail("/" + language, path, "/404");
    }
    if |path| >= 5 {
      EndsWithTail("/" + language, path, "/404/");
    }
  }

  /** The routed variant for `language`, with the catch-all `matchPath` of a 404 page. */
  function LocalePage(s: Settings, fs: FileSystem, page: Page, language: string): Result<Page, MessageError> {
    match GeneratePage(s, fs, page, true, language)
    case Err(e) => Err(e)
    case Ok(localePage) =>
      if Matches404(localePage.path) then Ok(localePage.(matchPath := Some("/" + language + "/*")))
      else Ok(localePage)
  }

  /**
   * `generatePage` fails exactly when `getMessages` does. A variant is the
   * page with only `path`, `context.language` and `context.intl` replaced,
   * and its `intl` record describes it.
   */
  lemma GeneratedVariant(s: Settings, fs: FileSystem, page: Page, routed: bool, language: string)
    ensures var r := GeneratePage(s, fs, page, routed, language);
            var m := VariantMessages(s, fs, page, language);
            && (r.Err? <==> m.Err?)
            && (r.Err? ==> r.error == m.error)
            && (r.Ok? ==> IsVariantOf(r.value, page))
            && (r.Ok? ==>
                r.value.context.intl.intl ==
                  Intl(language, s.languages, m.value, routed, page.path, s.redirect, s.defaultLanguage))
  {
  }

  /**
   * A routed variant is `generatePage(true, language)` except for
   * `matchPath`, which is the language's catch-all exactly for a 404 path.
   */
  lemma LocaleVariant(s: Settings, fs: FileSystem, page: Page, language: string)
    ensures var r := LocalePage(s, fs, page, language);
            var g := GeneratePage(s, fs, page, true, language);
            && (r.Err? <==> g.Err?)
            && (r.Err? ==> r.error == g.error)
            && (r.Ok? ==> r.value.(matchPath := page.matchPath) == g.value)
            && (r.Ok? ==>
                r.value.matchPath ==
                  if Matches404("/" + language + page.path) then Some("/" + language + "/*") else page.matchPath)
  {
  }

  /** Every variant the hook creates already carries `intl`, so the hook skips it when it sees it again. */
  lemma VariantsAreSkipped(s: Settings, fs: FileSystem, page: Page, routed: bool, language: string)
    ensures var r := GeneratePage(s, fs, page, routed, language); r.Ok? ==> AlreadyProcessed(r.value)
    ensures var r := LocalePage(s, fs, page, language); r.Ok? ==> AlreadyProcessed(r.value)
  {
  }

  /**
   * The root page: the default variant stays at "/", the routed one moves
   * to "/{language}/", and both read `{path}/{language}/index.json`.
   */
  lemma RootPageVariants(s: Settings, fs: FileSystem, page: Page, routed: bool, language: string)
    requires page.path == "/"
    ensures var r := GeneratePage(s, fs, page, routed, language);
            r.Ok? ==> r.value.path == if routed then "/" + language + "/" else "/"
    ensures PageFilePath(s.path, language, FileName(page.path)) == s.path + "/" + language + "/index.json"
  {
    RootPageFile(s.path, language);
  }

  /** `created` are the `createPage` calls for the first `|created|` languages, in list order. */
  predicate RoutedCreates(s: Settings, fs: FileSystem, page: Page, created: seq<Action>) {
    && |created| <= |s.languages|
    && forall j :: 0 <= j < |created| ==>
         created[j].CreatePage? && LocalePage(s, fs, page, s.languages[j]) == Ok(created[j].page)
  }

  /** One more routed variant, built for the next language, extends the routed creates. */
  lemma RoutedCreatesExtend(s: Settings, fs: FileSystem, page: Page, created: seq<Action>, p: Page)
    requires RoutedCreates(s, fs, page, created) && |created| < |s.languages|
    requires LocalePage(s, fs, page, s.languages[|created|]) == Ok(p)
    ensures RoutedCreates(s, fs, page, created + [CreatePage(p)])
  {
    var next := created + [CreatePage(p)];
    forall j | 0 <= j < |next|
      ensures next[j].CreatePage? && LocalePage(s, fs, page, s.languages[j]) == Ok(next[j].page)
    {
      if j < |created| {
        assert next[j] == created[j];
      }
    }
  }

  /** The body of the `forEach` loop up to `createPage`: generate, then apply the 404 rule in place. */
  method BuildLocalePage(s: Settings, fs: FileSystem, page: Page, language: string)
    returns (r: Result<Page, MessageError>)
    ensures r == LocalePage(s, fs, page, language)
  {
    var generated := GeneratePage(s, fs, page, true, language);
    if generated.Err? {
      return Err(generated.error);
    }
    var localePage := generated.value;
    if Matches404(localePage.path) {
      localePage := localePage.(matchPath := Some("/" + language + "/*"));
    }
    return Ok(localePage);
  }

  /**
   * The `languages.forEach` loop: one `createPage` per language in list
   * order, until `getMessages` throws.
   */
  method CreateLocalePages(s: Settings, fs: FileSystem, page: Page) returns (created: seq<Action>, outcome: Outcome)
    ensures RoutedCreates(s, fs, page, created)
    ensures outcome == Done <==> |created| == |s.languages|
    ensures outcome.Rejected? ==> LocalePage(s, fs, page, s.languages[|created|]) == Err(outcome.error)
    ensures forall j :: 0 <= j < |created| ==> AlreadyProcessed(created[j].page)
  {
    created := [];
    var i := 0;
    while i < |s.languages|
      invariant 0 <= i <= |s.languages|
      invariant |created| == i
      invariant RoutedCreates(s, fs, page, created)
      invariant forall j :: 0 <= j < |created| ==> AlreadyProcessed(created[j].page)
    {
      var localePage := BuildLocalePage(s, fs, page, s.languages[i]);
      if localePage.Err? {
        return created, Rejected(localePage.error);
      }
      VariantsAreSkipped(s, fs, page, true, s.languages[i]);
      RoutedCreatesExtend(s, fs, page, created, localePage.value);
      created := created + [CreatePage(localePage.value)];
      i := i + 1;
    }
    outcome := Done;
  }

  /**
   * `onCreatePage`: unless the page was processed already, build the
   * default variant, delete the original, create the default variant, then
   * create one routed variant per language in list order. An exception of
   * `getMessages` ends the run with the actions issued so far.
   */
  method OnCreatePage(page: Page, options: PluginOptions, fs: FileSystem)
    returns (trace: seq<Action>, outcome: Outcome)
    ensures AlreadyProcessed(page) ==> trace == [] && outcome == Done
    ensures !AlreadyProcessed(page) ==>
              var s := Effective(options);
              var d := GeneratePage(s, fs, page, false, s.defaultLanguage);
              && (d.Err? ==> trace == [] && outcome == Rejected(d.error))
              && (d.Ok? ==>
                    && 2 <= |trace| <= 2 + |s.languages|
                    && trace[0] == DeletePage(page)
                    && trace[1] == CreatePage(d.value)
                    && RoutedCreates(s, fs, page, trace[2..])
                    && (outcome == Done <==> |trace| == 2 + |s.languages|)
                    && (outcome.Rejected? ==>
                          LocalePage(s, fs, page, s.languages[|trace| - 2]) == Err(outcome.error)))
    ensures forall i :: 1 <= i < |trace| ==> trace[i].CreatePage? && AlreadyProcessed(trace[i].page)
  {
    if AlreadyProcessed(page) {
      return [], Done;
    }
    var s := Effective(options);
    var newPage := GeneratePage(s, fs, page, false, s.defaultLanguage);
    if newPage.Err? {
      return [], Rejected(newPage.error);
    }
    trace := [DeletePage(page), CreatePage(newPage.value)];
    var created;
    created, outcome := CreateLocalePages(s, fs, page);
    trace := trace + created;
    assert trace[2..] == created;
  }
}
