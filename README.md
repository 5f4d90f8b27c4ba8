# gatsby-plugin-intl, modelled in Dafny

This project models the build-time core of `gatsby-plugin-intl` (`src/gatsby-node.js`).
For every page Gatsby discovers, the plugin replaces the page with localized copies:

- one unrouted variant in the default language;
- one variant per configured language, whose path is prefixed with `/{language}`.

Each copy carries an `intl` context record, and the record holds the messages of that page in that language. The messages come from a page-specific JSON file and a shared JSON file. The two are merged with `Object.assign` and flattened to dotted keys by the `flat` package. A second hook, `onCreateWebpackConfig`, appends the default language to the language list when it is missing. It then turns the primary subtags of the languages into the pattern that restricts which locale-data modules webpack bundles.

Modules:

- `Wrappers` (`wrappers.dfy`): `Option` and `Result`.
- `Paths` (`paths.dfy`): `removeFileEndings`, written as a suffix strip and a first-occurrence removal; the root page's `/index` file name; the page and shared file paths.
- `Messages` (`messages.dfy`): JSON objects as ordered association lists (`o[k] = v`, `Object.assign`), the `flat` walk, the file-system oracle, and `getMessages` as a method proved against the function `ResolveMessages`. The `onCreatePage` model calls the functional form (`GeneratePage` uses `ResolveMessages`), so the method itself does not appear in the action trace.
- `Config` (`config.dfy`): the plugin-options object as a class, and the values `onCreatePage` destructures from it with their defaults (`"."`, `["en"]`, `"en"`, `false`, `"common.json"`).
- `Fanout` (`fanout.dfy`): `generatePage`, the 404 rule and `onCreatePage`. The hook records its `deletePage`/`createPage` calls as a trace of actions.
- `Webpack` (`webpack.dfy`): the in-place language append and the subtag pattern.

Where the documentation and the code disagree, the model follows the code:

- **Merge precedence.** The plugin's documentation says page-specific messages win over shared ones. The code calls `Object.assign(pageMessages, sharedMessages)`, so on a conflicting key the shared file wins. `Merge`, `AssignLookup`, `ResolveSharedWins` and `SharedWinsExample` state the code's behaviour.
- **No messages at all.** The documentation says a language with no messages gets an empty bundle. When neither file loads, the code reaches `Object.keys(undefined)` and throws. The model returns `Err(NoMessages(language))`. In `onCreatePage` that error rejects the hook. The trace then holds only the actions issued before the error.
- **Language list.** `onCreatePage` does not add `defaultLanguage` to `languages`. Only `onCreateWebpackConfig` appends it.

## Model

| member | source | states |
|---|---|---|
| `Paths.StripTrailingSlashes` | src/gatsby-node.js:7 | `replace(/\/+$/, "")` keeps a prefix of the input, removes only slashes, and leaves no slash at the end. |
| `Paths.StripTrailingSlashesUnique` | src/gatsby-node.js:7 | Those three properties determine the result: any prefix that has them is the stripped string. |
| `Paths.StripTrailingSlashesIgnoresSlash` | src/gatsby-node.js:7 | One more trailing slash does not change the stripped string. |
| `Paths.IndexOf` | src/gatsby-node.js:7 | Returns the first position at or after `from` where the pattern occurs, or None when there is no such position. |
| `Paths.RemoveFirstSpec` | src/gatsby-node.js:7 | A string-pattern `replace` removes exactly the first occurrence, and putting the pattern back there restores the input. A string without the pattern is unchanged. |
| `Paths.RemoveFileEndingsSpec` | src/gatsby-node.js:6-7 | Trailing slashes go first. Then the first `.html` anywhere in what remains is removed, and nothing else changes. |
| `Paths.RemoveFileEndingsOfCleanPath` | src/gatsby-node.js:6-7 | A path without a trailing slash and without `.html` passes through unchanged. |
| `Paths.RootPageFile` | src/gatsby-node.js:49-50 | The root page `/` reads its messages from `{path}/{language}/index.json`. |
| `Paths.PageFileOfCleanPath` | src/gatsby-node.js:49-50 | Any other clean page path `p` reads `{path}/{language}{p}.json`. |
| `Paths.TrailingSlashSameFile` | src/gatsby-node.js:50 | For a page path `p` other than `""` and `"/"`, the paths `p/` and `p` read the same message file. The root is excluded: `"//"` reads `{path}/{language}.json`, while `"/"` reads `{path}/{language}/index.json`. |
| `Messages.Put` | src/gatsby-node.js:75 | A property assignment keeps an existing key in its position and appends a new key at the end. It keeps keys unique and keeps a flat object flat. |
| `Messages.PutLookup` | src/gatsby-node.js:75 | After `o[k] = v`, key `k` reads `v` and every other key reads what it read before. |
| `Messages.AssignLookup` | src/gatsby-node.js:75 | After `Object.assign(target, source)`, a key of the source reads the source's value and any other key reads the target's value. |
| `Messages.AssignKeys` | src/gatsby-node.js:75 | `Object.assign` leaves the target's keys in order at the front and adds only the source's keys. It keeps keys unique and keeps flat objects flat. |
| `Messages.Step` | src/gatsby-node.js:84 | The `flat` walk keeps the output's keys unique and its values leaves. |
| `Messages.Flatten` | src/gatsby-node.js:84 | A flattened bundle has unique keys, and every value is a string or an empty object. |
| `Messages.StepOfFlat` | src/gatsby-node.js:84 | Walking a flat object appends its members in order, with their keys joined to the prefix. |
| `Messages.FlattenOfFlat` | src/gatsby-node.js:84 | Flattening an object that is already flat returns it unchanged. |
| `Messages.FlattenIdempotent` | src/gatsby-node.js:84 | Flattening twice gives the same result as flattening once. |
| `Messages.FlattenNested` | src/gatsby-node.js:84 | A flat object nested under key `k` becomes its members under the keys `k.key`, e.g. `{"a": {"b": "X"}}` becomes `{"a.b": "X"}`. |
| `Messages.Merge` | src/gatsby-node.js:73-77 | The result is absent only when both bundles are absent. One bundle alone is the result. With both bundles, shared keys win, and the page's keys stay in their positions. |
| `Messages.SharedWinsExample` | src/gatsby-node.js:73-77 | Page `{"a.b": "X"}` merged with shared `{"a.b": "Y", "c": "Z"}` gives `{"a.b": "Y", "c": "Z"}`. |
| `Messages.ResolveMessages` | src/gatsby-node.js:48-86 | The result is `NoMessages` exactly when the page file does not load and the shared file does not exist. It is `SharedUnloadable` exactly when the shared file exists but does not load. Otherwise the bundle is flat, with unique keys. |
| `Messages.ResolveSharedWins` | src/gatsby-node.js:73-85 | With flat page and shared files, each key of the resolved bundle comes from the shared file when that file has it, and from the page file otherwise. |
| `Messages.GetMessages` | src/gatsby-node.js:48-86 | The imperative `getMessages`, where `messages` starts undefined and is reassigned, returns `ResolveMessages`. |
| `Fanout.GeneratedVariant` | src/gatsby-node.js:88-110 | `generatePage` fails exactly when the messages fail. A success is the page with only `path`, `context.language` and `context.intl` replaced. The new path is the language prefix (when routed) followed by `originalPath`. The `intl` record is `{language, languages, messages, routed, originalPath, redirect, defaultLanguage}`. |
| `Fanout.RoutedMatches404` | src/gatsby-node.js:118-119 | Prefixing `/{language}` keeps a trailing `/404` or `/404/`. For paths of at least five characters, the prefix adds no match either. |
| `Fanout.LocaleVariant` | src/gatsby-node.js:117-121 | A routed variant differs from `generatePage(true, l)` only in `matchPath`. `matchPath` is `/{l}/*` exactly when the routed path ends in `/404` or `/404/`; otherwise it is the original page's `matchPath`. |
| `Fanout.BuildLocalePage` | src/gatsby-node.js:117-121 | The loop body (generate, then set `matchPath` in place) computes `LocalePage`. |
| `Fanout.VariantsAreSkipped` | src/gatsby-node.js:35-37 | Every variant the hook creates carries an `intl` object, so the guard skips it if it is seen again. |
| `Fanout.RootPageVariants` | src/gatsby-node.js:89-92 | For page `/`: the default variant stays at `/`, the routed variant is at `/{l}/`, and both read `{path}/{l}/index.json`. |
| `Fanout.CreateLocalePages` | src/gatsby-node.js:116-123 | The `forEach` loop creates the routed variants in language order and stops at the first language whose messages throw. |
| `Fanout.OnCreatePage` | src/gatsby-node.js:33-124 | A page whose `context.intl` is an object (including `null`) produces no action. Otherwise the trace is `deletePage(page)`, `createPage(default)`, then one `createPage` per language in list order: `1 + \|languages\|` creates when nothing throws. An error in the default variant issues no action at all. Every created page carries `intl`. |
| `Webpack.PrimarySubtag` | src/gatsby-node.js:16 | `l.split("-")[0]` is a prefix of `l` that contains no `-` and ends where `l` ends or at its first `-`. |
| `Webpack.SplitJoin` | src/gatsby-node.js:16 | Splitting `xs.join(sep)` at `sep` gives `xs` back, provided no element contains `sep`. |
| `Webpack.PatternAlternatives` | src/gatsby-node.js:16 | The alternatives of the pattern are the primary subtags of the languages, in list order, with repeats kept. |
| `Webpack.PatternExample` | src/gatsby-node.js:15-16 | `['en', 'de', 'en-US']` gives `en\|de\|en`. |
| `Webpack.WithDefault` | src/gatsby-node.js:11-13 | After the append, the default language is a member, the original list is an unchanged prefix, and at most one element was added. The list is unchanged exactly when it already holds the default language, so no duplicate is ever appended. |
| `Webpack.WithDefaultIdempotent` | src/gatsby-node.js:11-13 | A second append leaves the list as it is. |
| `Webpack.OnCreateWebpackConfig` | src/gatsby-node.js:9-32 | The hook rewrites `languages` in place as `WithDefault` and emits the subtag pattern of the new list together with the redirect component. If `languages` or `defaultLanguage` is undefined, it throws. |

## Left out

- File I/O. `require` and `fs.existsSync` are two independent oracles in `FileSystem`: `require` fails exactly for paths absent from `modules`, and `existsSync` reports `existing`. Node resolves `require` paths against the plugin's own directory and `existsSync` paths against the working directory. The model does not capture this; the independence of the two oracles only leaves room for it.
- JSON parsing and non-object files. Message files are JSON objects whose values are strings or objects. Numbers, booleans, `null` and arrays (into which `flat` also descends) are not modelled. The ordering that JavaScript gives to integer-like keys is not modelled either.
- The module-cache side effect of `Object.assign` mutating the cached page-message object (line 75). Every `require` in the model returns the file's own contents.
- Diagnostics only: `console.error`, the `messagesMustBeSplit` option, the `NODE_ENV` check (lines 57-70, 79-81), and `onPreInit`'s log line.
- The `messages.constructor === Object` test (line 78). The `&&` evaluates it only when `Object.keys(messages)` is empty. An object with no own keys inherits `constructor` from `Object.prototype`, so the test holds whenever it is evaluated. (For a file such as `{"constructor": "x"}` it would fail, but the key list is not empty then.)
- `flat`'s options (`maxDepth`, `safe`, `transformKey`), which the plugin does not pass. The model follows `flat`'s documented walk without claiming fidelity to every version of the library.
- Webpack objects: `plugins.define`, `JSON.stringify` of the redirect component (kept as the `Option` value), the two `ContextReplacementPlugin` directory regexes, and the `RegExp` engine. The pattern is kept as its source string, its alternatives are given by `Split`, and `/404/?$` is a suffix predicate.
- `Webpack.OnCreateWebpackConfig`: when `defaultLanguage` is undefined, the source pushes `undefined` onto `languages` before it throws. The model's list of strings cannot hold `undefined`, so the model reports the same error and leaves the list unchanged.
- Aliasing of the `languages` array. `intl.languages` and the options object share one array, so a later push in the webpack hook also shows in pages already created. The model copies the list as a value.
- `async`: the hook's promise is the `Outcome`. The page registry is kept only as the action trace.
- Page fields other than `path`, `component`, `matchPath` and `context`. The spread on line 94 copies them to every variant unchanged; the model does not carry them. Context values other than `language` and `intl` are kept in `Context.rest` as strings only, although the spread copies values of any type.
- Option values of the wrong type, and `null` options. Destructuring defaults apply only to `undefined`, which is `None` here.
