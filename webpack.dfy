/**
 * `onCreateWebpackConfig`: the default language joins the language list,
 * and the primary subtags of the list become the pattern that restricts
 * which locale-data modules the bundle includes.
 */
module Webpack {
  import opened Wrappers
  import opened Config

  const ALTERNATION := '|'

  /** `l.split("-")[0]`: the text before the first '-'. */
  function PrimarySubtag(l: string): (r: string)
    ensures r <= l
    ensures '-' !in r
    ensures r == l || l[|r|] == '-'
  {
    if l == [] || l[0] == '-' then [] else [l[0]] + PrimarySubtag(l[1..])
  }

  /** `languages.map(l => l.split("-")[0])` */
  function Subtags(languages: seq<string>): seq<string> {
    seq(|languages|, i requires 0 <= i < |languages| => PrimarySubtag(languages[i]))
  }

  /** `xs.join(sep)` */
  function Join(xs: seq<string>, sep: char): string {
    if xs == [] then ""
    else if |xs| == 1 then xs[0]
    else xs[0] + [sep] + Join(xs[1..], sep)
  }

  /** The alternatives of an alternation: the pieces of `s` between separators. */
  function Split(s: string, sep: char): (r: seq<string>)
    ensures |r| >= 1
  {
    if s == [] then [""]
    else
      var rest := Split(s[1..], sep);
      if s[0] == sep then [""] + rest else [[s[0]] + rest[0]] + rest[1..]
  }

  /** A string without the separator is one alternative, and it heads any longer string it starts. */
  lemma {:induction false} SplitPrefix(a: string, b: string, sep: char)
    requires sep !in a
    ensures Split(a, sep) == [a]
    ensures Split(a + [sep] + b, sep) == [a] + Split(b, sep)
  {
    if a != [] {
      assert (a + [sep] + b)[1..] == a[1..] + [sep] + b;
      assert [a[0]] + a[1..] == a;
      SplitPrefix(a[1..], b, sep);
    } else {
      assert a + [sep] + b == [sep] + b;
      assert ([sep] + b)[1..] == b;
    }
  }

  /** Splitting a join gives back the joined pieces when none contains the separator. */
  lemma {:induction false} SplitJoin(xs: seq<string>, sep: char)
    requires xs != []
    requires forall i :: 0 <= i < |xs| ==> sep !in xs[i]
    ensures Split(Join(xs, sep), sep) == xs
  {
    if |xs| == 1 {
      SplitPrefix(xs[0], "", sep);
    } else {
      var tail := xs[1..];
      assert Join(xs, sep) == xs[0] + [sep] + Join(tail, sep);
      assert forall i :: 0 <= i < |tail| ==> sep !in tail[i] by {
        forall i | 0 <= i < |tail| ensures sep !in tail[i] { assert tail[i] == xs[i + 1]; }
      }
      SplitPrefix(xs[0], Join(tail, sep), sep);
      SplitJoin(tail, sep);
      assert [xs[0]] + tail == xs;
    }
  }

  /** The pattern source: the primary subtags joined with '|'. */
  function SubtagPattern(languages: seq<string>): string {
    Join(Subtags(languages), ALTERNATION)
  }

  /**
   * The alternatives of the pattern are the primary subtags of the
   * languages, in list order and with repeats kept.
   */
  lemma PatternAlternatives(languages: seq<string>)
    requires languages != []
    requires forall i :: 0 <= i < |languages| ==> ALTERNATION !in languages[i]
    ensures Split(SubtagPattern(languages), ALTERNATION) == Subtags(languages)
  {
    var subs := Subtags(languages);
    forall i | 0 <= i < |subs| ensures ALTERNATION !in subs[i] {
      assert subs[i] <= languages[i];
    }
    SplitJoin(subs, ALTERNATION);
  }

  /** ['en', 'de', 'en-US'] gives "en|de|en". */
  lemma PatternExample()
    ensures SubtagPattern(["en", "de", "en-US"]) == "en|de|en"
  {
    assert PrimarySubtag("en") == "en" && PrimarySubtag("de") == "de";
    assert PrimarySubtag("en-US") == "en";
    var subs := Subtags(["en", "de", "en-US"]);
    assert subs[0] == "en" && subs[1] == "de" && subs[2] == "en";
    assert subs == ["en", "de", "en"];
  }

  /** `if (!languages.includes(defaultLanguage)) languages.push(defaultLanguage)` */
  function WithDefault(languages: seq<string>, defaultLanguage: string): (r: seq<string>)
    ensures defaultLanguage in r
    ensures languages <= r && |r| <= |languages| + 1
    ensures forall l :: l in r ==> l in languages || l == defaultLanguage
    ensures r == languages <==> defaultLanguage in languages
  {
    if defaultLanguage in languages then languages else languages + [defaultLanguage]
  }

  /** Appending is done at most once: a second run leaves the list as it is. */
  lemma WithDefaultIdempotent(languages: seq<string>, defaultLanguage: string)
    ensures WithDefault(WithDefault(languages, defaultLanguage), defaultLanguage) == WithDefault(languages, defaultLanguage)
  {
  }

  /** What the hook hands to `setWebpackConfig`: the injected redirect component and the locale pattern. */
  datatype WebpackSetting = WebpackSetting(redirectComponentPath: Option<string>, localePattern: string)

  /** The TypeErrors the hook throws when a list option it needs is undefined. */
  datatype ConfigError = LanguagesUndefined | DefaultLanguageUndefined

  /** `onCreateWebpackConfig`: normalise `languages` in place, then derive the pattern. */
  method OnCreateWebpackConfig(options: PluginOptions) returns (r: Result<WebpackSetting, ConfigError>)
    modifies options`languages
    ensures old(options.languages).None? ==>
              r == Err(LanguagesUndefined) && options.languages == old(options.languages)
    ensures old(options.languages).Some? && options.defaultLanguage.None? ==>
              r == Err(DefaultLanguageUndefined) && options.languages == old(options.languages)
    ensures old(options.languages).Some? && options.defaultLanguage.Some? ==>
              && options.languages == Some(WithDefault(old(options.languages).value, options.defaultLanguage.value))
              && r == Ok(WebpackSetting(options.redirectComponent, SubtagPattern(options.languages.value)))
  {
    if options.languages.None? {
      return Err(LanguagesUndefined);
    }
    if options.defaultLanguage.None? {
      return Err(DefaultLanguageUndefined);
    }
    var languages := options.languages.value;
    var defaultLanguage := options.defaultLanguage.value;
    if defaultLanguage !in languages {
      languages := languages + [defaultLanguage];
      options.languages := Some(languages);
    }
    r := Ok(WebpackSetting(options.redirectComponent, SubtagPattern(languages)));
  }
}
