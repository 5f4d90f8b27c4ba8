/** The plugin options and the values `onCreatePage` destructures from them. */
module Config {
  import opened Wrappers

  const DEFAULT_PATH := "."
  const DEFAULT_LANGUAGES: seq<string> := ["en"]
  const DEFAULT_LANGUAGE := "en"
  const DEFAULT_REDIRECT := false
  const DEFAULT_SHARED_MESSAGES := "common.json"

  /**
   * The options object Gatsby hands to every hook. `None` is an option left
   * undefined. The object is shared between hooks, and the webpack hook
   * pushes onto its `languages` list in place.
   */
  class PluginOptions {
    var path: Option<string>
    var languages: Option<seq<string>>
    var defaultLanguage: Option<string>
    var redirect: Option<bool>
    var sharedMessages: Option<string>
    var messagesMustBeSplit: Option<bool>
    var redirectComponent: Option<string>

    constructor (path: Option<string>, languages: Option<seq<string>>, defaultLanguage: Option<string>,
                 redirect: Option<bool>, sharedMessages: Option<string>, messagesMustBeSplit: Option<bool>,
                 redirectComponent: Option<string>)
      ensures this.path == path && this.languages == languages && this.defaultLanguage == defaultLanguage
      ensures this.redirect == redirect && this.sharedMessages == sharedMessages
      ensures this.messagesMustBeSplit == messagesMustBeSplit && this.redirectComponent == redirectComponent
    {
      this.path := path;
      this.languages := languages;
      this.defaultLanguage := defaultLanguage;
      this.redirect := redirect;
      this.sharedMessages := sharedMessages;
      this.messagesMustBeSplit := messagesMustBeSplit;
      this.redirectComponent := redirectComponent;
    }
  }

  /** The options `onCreatePage` works with once its destructuring defaults apply. */
  datatype Settings = Settings(
    path: string,
    languages: seq<string>,
    defaultLanguage: string,
    redirect: bool,
    sharedMessages: string)

  function GetOr<T>(o: Option<T>, default: T): T {
    match o
    case Some(v) => v
    case None => default
  }

  /** `const { path = ".", languages = ["en"], ... } = pluginOptions` */
  function Effective(options: PluginOptions): Settings
    reads options
  {
    Settings(
      GetOr(options.path, DEFAULT_PATH),
      GetOr(options.languages, DEFAULT_LANGUAGES),
      GetOr(options.defaultLanguage, DEFAULT_LANGUAGE),
      GetOr(options.redirect, DEFAULT_REDIRECT),
      GetOr(options.sharedMessages, DEFAULT_SHARED_MESSAGES))
  }
}
