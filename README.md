# Archive share redirector: a Dafny model

The page `app.js` is a small progressive web app that sends a shared link to
an archive site. Its core does three things:

- It keeps one setting, the archive base domain, in the browser's
  `localStorage`. `getBaseDomain` reads it and falls back to
  `https://archive.fo`. `setBaseDomain` normalises the entered domain and
  writes it. The save and reset buttons call them.
- When the page is opened as a share target, `handleShare` picks the shared
  text from the `text`, `url` and `title` query parameters. It finds the first
  URL in that text with `/(https?:\/\/[^\s]+)/`.
- It then redirects to `<base domain>/latest/<url>`.

The model has five modules:

- `Wrappers`: the `Option` type. `None` stands for JavaScript `null` and for
  "no redirect".
- `JsString`: the whitespace class that `String.prototype.trim` and the regex
  escape `\s` share (`IsWs`, the ECMAScript WhiteSpace and LineTerminator
  code points). It also holds `startsWith`, `endsWith` and `trim`.
- `Domain`: the normalisation that `setBaseDomain` performs, as the function
  `Normalized`, and the lemmas about it.
- `Share`: the JavaScript `||` chain over the query parameters. It also holds
  the regex as a leftmost, greedy matcher (`FirstMatchFrom`, `FirstUrl`),
  that matcher's reference description, and the redirect URL.
- `Settings`: the class `SettingsStore`. Its field `items` is the origin's
  `localStorage`, as a map from keys to strings. Its methods change that map
  as the source's handlers do. `SetBaseDomain` reassigns its local
  `cleanDomain` step by step, like the source, and is proved to compute
  `Normalized`.

Edge cases that the model proves:

- Empty or whitespace-only input is not kept empty: it is stored as
  `"https:/"`.
- `"a//"` loses only one slash. The comment in `setBaseDomain` says the
  result has "no trailing slash", but `"a//"` is stored as `"https://a/"`.
  `Domain.DoubleSlashKeepsOne` shows this.
- `"HTTP://x"` gets a second scheme, because the scheme test is
  case-sensitive.
- Normalisation is not idempotent. `"a /"` becomes `"https://a "`, and a
  second pass trims the space. `"a//"` becomes `"https://a/"`, and a second
  pass drops the remaining slash. `Domain.NormalizedStable` proves that a
  normalised domain is a fixed point exactly when it ends in neither `/` nor
  whitespace. `Domain.NotIdempotent` gives the first case for all inputs of
  that shape.

## Model

| member | source | states |
|---|---|---|
| `JsString.ContentStart` | app.js:54 | the index where the leading whitespace run that trim removes ends: everything before it is whitespace, and the character at it is not |
| `JsString.ContentEnd` | app.js:54 | the index where the trailing whitespace run that trim removes starts: everything from it on is whitespace, and the character before it is not |
| `JsString.Trim` | app.js:54 | `domain.trim()`: the result lies in the input between leading and trailing whitespace, and neither begins nor ends with whitespace |
| `JsString.TrimAllWs` | app.js:54 | trimming input that is only whitespace gives `""` |
| `JsString.TrimUnchanged` | app.js:54 | trim leaves a string that neither begins nor ends with whitespace unchanged |
| `JsString.IsWs` | app.js:54 | the whitespace set of `trim` and of the regex escape `\s` in app.js:82: the ECMAScript WhiteSpace and LineTerminator code points (no contract of its own; `Trim` and `RunEnd` state their results in terms of it) |
| `JsString.StartsWith` | app.js:55 | `String.prototype.startsWith`: the string is at least as long as the prefix, and its first characters are the prefix (no contract of its own) |
| `JsString.EndsWith` | app.js:58 | `String.prototype.endsWith`: the string is at least as long as the suffix, and its last characters are the suffix (no contract of its own) |
| `JsString.TrimUnique` | app.js:54 | trim's result is fixed by its contract: a non-empty string that neither begins nor ends with whitespace and sits in the input between leading and trailing whitespace is the trimmed input |
| `JsString.TrimOfTrailingWs` | app.js:54 | for any string that ends in whitespace, trim gives the same result as for the string without its last character, so the result is shorter; when the string also begins with a non-whitespace character, every prefix whose last character is not whitespace is kept |
| `Domain.WithScheme` | app.js:55-57 | the result always begins with `http`; `https://` is prepended exactly when the trimmed input does not begin, case-sensitively, with `http` |
| `Domain.DropTrailingSlash` | app.js:58-60 | exactly one trailing `/` is removed when present; otherwise the string is unchanged |
| `Domain.Normalized` | app.js:54-60 | the value `setBaseDomain` computes: trim, then `WithScheme`, then `DropTrailingSlash` (no contract of its own; the `Domain` lemmas state its properties) |
| `Domain.NormalizedStartsWithHttp` | app.js:54-60 | for every input, including empty and whitespace-only input, the normalised domain is non-empty and begins with `http` |
| `Domain.NormalizedKeepsScheme` | app.js:54-60 | when the trimmed input already begins with `http`, nothing is prepended: the result is the trimmed input, less one trailing `/` if present |
| `Domain.NormalizedDropsAtMostOneSlash` | app.js:58-60 | the result is the trimmed, scheme-prefixed string when that string does not end in `/`, and otherwise that string less its final `/` |
| `Domain.WhitespaceOnlyInput` | app.js:54-60 | input made only of whitespace normalises to `"https:/"` |
| `Domain.DoubleSlashKeepsOne` | app.js:58-60 | when the scheme-prefixed string ends in `//`, as for `"a//"`, the stored domain still ends in `/` |
| `Domain.UpperCaseSchemeIsPrefixed` | app.js:55-57 | a trimmed input that begins with `HTTP` gets `https://` prepended anyway (the test is case-sensitive) |
| `Domain.NotIdempotent` | app.js:54-60 | when the trimmed input ends in whitespace followed by `/`, as for `"a /"`, the result ends in whitespace and normalising it again gives a different string |
| `Domain.NormalizedStable` | app.js:54-60 | a normalised domain is a fixed point of normalisation if and only if it ends in neither `/` nor whitespace |
| `Share.Truthy` | app.js:80 | JavaScript truthiness of a query parameter: it is present and not the empty string (no contract of its own) |
| `Share.Or` | app.js:78 | the JavaScript `a or b` operator on strings and `null`: `a` when `a` is truthy, else `b` (no contract of its own) |
| `Share.SharedText` | app.js:78-80 | the JavaScript `or` chain over `text`, `url` and `title`: truthy exactly when some parameter is non-empty, and then it is `text` if that is non-empty, else `url`, else `title` |
| `Share.SchemeLength` | app.js:82 | `https?:\/\/` matches 8 characters exactly where `https://` begins, 7 exactly where `http://` begins, and nothing elsewhere |
| `Share.MatchesAt` | app.js:82 | the pattern matches at an index: a scheme begins there and at least one non-whitespace character follows it (no contract of its own) |
| `Share.RunEnd` | app.js:82 | the greedy `[^\s]+` run stops at the first whitespace or at the end of the text, and holds no whitespace |
| `Share.RunEndUnique` | app.js:82 | any index with the two properties of the run's end is that end, so the run is maximal and unique |
| `Share.FirstMatchFrom` | app.js:82-83 | the match search finds the leftmost position where the pattern matches, or reports correctly that there is none |
| `Share.FirstUrl` | app.js:82-86 | `matches[0]`: absent exactly when no position matches; otherwise a substring of the text that begins with `http://` or `https://`, holds no whitespace, starts at the leftmost match, and is followed by whitespace or the end |
| `Share.MatchIsUrl` | app.js:82 | a match covers a scheme and at least one non-whitespace character after it, with no whitespace anywhere |
| `Share.IsUrl` | app.js:82 | the shape of a string the pattern matches in full: it begins with a scheme followed by a non-whitespace character and holds no whitespace (no contract of its own; `FirstUrl` and `MatchIsUrl` state that results have it) |
| `Share.FirstUrlIsLeftmostLongest` | app.js:82-86 | reference description of the match: if `b` is the leftmost matching position and `e` ends the maximal non-whitespace run after the scheme, the extracted URL is exactly `s[b..e]` |
| `Share.UrlAfterPlainWords` | app.js:76-86 | a message made of words without `:`, then a URL, then whitespace and anything else, yields exactly that URL (as for `"Check this out https://share.google/abc123 thanks"`) |
| `Share.RedirectUrl` | app.js:88 | the redirect begins with `base + "/latest/"`, and the target can be read back, unencoded, after it |
| `Share.ShareRedirect` | app.js:78-91 | a redirect happens exactly when the shared text is truthy and holds a URL, and it is then `RedirectUrl(base, target)` |
| `Settings.SettingsStore.constructor` | app.js:115-116 | the store the page finds at load holds exactly what the origin's `localStorage` held |
| `Settings.SettingsStore.Valid` | app.js:52-63 | the invariant `setBaseDomain` establishes: a stored domain is non-empty and begins with `http` (no contract of its own; `SetBaseDomain`, `Save` and `Reset` keep it, and `GetBaseDomain` uses it) |
| `Settings.SettingsStore.GetBaseDomain` | app.js:48-50 | the stored value when the key is present and non-empty, else the default `"https://archive.fo"` of app.js:1; never empty, and it begins with `http` when the store is valid |
| `Settings.SettingsStore.SetBaseDomain` | app.js:52-63 | returns `Normalized(domain)` and stores exactly that under the key, with every other key unchanged; `getBaseDomain` then returns it |
| `Settings.SettingsStore.Save` | app.js:98-105 | an empty input leaves the store unchanged and saves nothing; any other input is normalised, stored and returned |
| `Settings.SettingsStore.Reset` | app.js:107-111 | removes only the key; `getBaseDomain` then returns the default, which the form shows |
| `Settings.SettingsStore.HandleShare` | app.js:74-94 | redirects exactly when a parameter is non-empty and the chosen text holds a URL, and then to the current base domain, `/latest/` and that URL |

## Left out

- Service-worker registration and the install-prompt handling (app.js:11-44):
  these are browser event plumbing with no logic of their own.
- `showStatus` and every read and write of DOM elements (app.js:5-9, 65-72,
  102, 109, 116): they are user interface and timers. `Save` returns the value
  the form shows, and `Reset` returns the default it shows.
- `window.location.replace` (app.js:91): the navigation is the string that
  `HandleShare` returns.
- Parsing `window.location.search` with `URLSearchParams`: the three parameters
  come in already decoded, as optional strings. For a repeated key, `get`
  returns the first value.
- `sw.js` is not part of this model. It is a cache-first wrapper over the
  browser Cache API and `fetch`.
- `app.js` has no proxy unwrap step, no proxy settings, no manual URL entry
  and no first-run redirect to the settings page, so none of these is
  modelled.
- Strings are sequences of Unicode code points, not UTF-16 code units. Every
  whitespace character and every scheme character is a single code unit, so
  trim and the pattern give the same result either way.
- `localStorage`'s quota errors and its sharing between tabs are not
  modelled. A write always succeeds, and the only writer is the page.
