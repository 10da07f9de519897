# gerrit-rust: query building, client decisions and configuration values

This project models, in Dafny, the pure decision logic at the core of the
`gerrit-rust` command-line client (`ggr`) and its `gerritlib` library:

- **Query building** (`src/gerritlib/gerrit.rs`): `Changes::build_url` joins
  the user's search terms with `+` and trims trailing `+` characters;
  `Gerrit::changes` prefixes the fragment with `pp=0&q=`, sets credentials on
  the transport only when both username and password are non-empty, and turns
  the transport's answer into a result (empty result for a failed call or a
  missing body; error carrying the body text when the typed decode fails;
  parse error when the raw JSON parse fails).
- **Configuration values** (`src/bin/config.rs`): the `Config` record, its
  defaults, `is_valid`, the credential accessors, `get_base_url` and the text
  of `Display`, including the decimal rendering of the `u16` port.
- **The query accumulator** (`src/bin/changes.rs`): `Query::new`, `add_str`,
  `From<Vec<String>>` and `get_query`.

Modules: `Wrappers` (Option, Result), `Decimal` (decimal rendering of a
natural number and its reading back), `Gerrit` (gerrit.rs), `Config`
(config.rs), `Changes` (changes.rs). Everything is a pure function over
immutable values; the HTTP transport is a record holding a url and optional
credentials, and the two JSON decoders are function parameters. The plain
accessors and predicates (`Config.Default`, `Config.IsValid`,
`Config.GetUsername`, `Config.GetPassword`, `Config.UrlLine`,
`Config.UserPassLine`, `Config.RootLine`, `Changes.GetQuery`) carry no
contract of their own; the lemmas in the table below state their behaviour.

Three behaviours of the code worth noting:

- `build_url` trims the whole run of trailing `+` (it calls
  `trim_right_matches('+')`); so `["a:1", ""]` gives
  `a:1` and `["+"]` gives the empty string (`Gerrit.BuildUrlTrimsWholeRun`).
- A failed call is not an error: `Gerrit::changes` returns an empty
  `ChangeInfos` after reporting "call problem".
- `Query::add_str` is documented (src/bin/changes.rs:77) as splitting at the
  first `:`, but it stores the term unchanged, and so does the model.

## Model

| member | source | states |
|---|---|---|
| Gerrit.TrimEndMatches | src/gerritlib/gerrit.rs:96-100 | the trimmed text is a prefix of the input, does not end with the character, and only that character follows it in the input |
| Gerrit.TrimmedFormIsUnique | src/gerritlib/gerrit.rs:98 | those three facts determine the trimmed text: any two strings meeting them are equal |
| Gerrit.BuildUrl | src/gerritlib/gerrit.rs:90-103 | the fragment is the concatenation of every term followed by `+`, with its maximal trailing run of `+` removed: a prefix of it, never ending with `+` |
| Gerrit.BuildUrlExamples | src/gerritlib/gerrit.rs:106-111 | the empty list gives the empty string; `["a:1","b:2"]` gives `a:1+b:2`; `["a:1"]` gives `a:1` |
| Gerrit.BuildUrlTrimsWholeRun | src/gerritlib/gerrit.rs:96-100 | trailing empty terms and `+` terms vanish with the whole trailing run of `+`: `["a:1",""]` gives `a:1`, `["+"]` gives the empty string |
| Gerrit.BuildUrlIsJoin | src/gerritlib/gerrit.rs:91-100 | when the last term is non-empty and does not end with `+` (so whenever no term is empty or ends with `+`), the fragment is the terms joined with a single `+` between neighbours |
| Gerrit.Suffixed | src/gerritlib/gerrit.rs:91-95 | the text the loop builds is as long as all terms together plus one `+` per term, and ends with `+` whenever there is a term |
| Gerrit.SuffixedStep | src/gerritlib/gerrit.rs:92-95 | one more term extends the loop's text by that term and one `+` |
| Gerrit.SuffixedIsJoinPlus | src/gerritlib/gerrit.rs:92-95 | for a non-empty list, the text the loop builds is the `+`-join of the terms followed by one `+` (for the empty list it is empty) |
| Gerrit.QueryString | src/gerritlib/gerrit.rs:37-44 | the query string starts with `pp=0&q=`, never ends with `+`, is exactly `pp=0&q=` without a query list, and otherwise continues with the built fragment |
| Gerrit.NewGerrit | src/gerritlib/gerrit.rs:24-29 | a new client talks to the given url and carries no credentials |
| Gerrit.ChangesRequest | src/gerritlib/gerrit.rs:37-50 | the request goes to `/changes/` with the query string; the transport url is kept; credentials are set to the given pair when both are non-empty and left as they were otherwise |
| Gerrit.CredentialsSetIffBothGiven | src/gerritlib/gerrit.rs:46-48 | on a fresh client the call is authenticated if and only if username and password are both non-empty |
| Gerrit.BodyText | src/gerritlib/gerrit.rs:58 | the body text is as long as all chunks together |
| Gerrit.BodyTextStep | src/gerritlib/gerrit.rs:58 | one more chunk extends the body text by exactly that chunk |
| Gerrit.BodyTextAppend | src/gerritlib/gerrit.rs:58 | the body text of two chunk lists one after the other is the concatenation of their texts |
| Gerrit.BodyTextChunkAt | src/gerritlib/gerrit.rs:58 | every chunk appears in the body text, in order, between the text of the chunks before it and the text of those after it |
| Gerrit.ChangesResponse | src/gerritlib/gerrit.rs:50-83 | a failed call and a missing body give an empty `Ok`; with a body, the result is `Ok` exactly when both decodes succeed and then holds both; a typed-decode failure gives a general error whose message ends with the body text; a raw-parse failure gives the parser's error |
| Gerrit.ChangesFailsOnlyOnDecode | src/gerritlib/gerrit.rs:50-83 | the call returns an error if and only if a body arrived and one of its two decodes failed |
| Decimal.Dec | src/bin/config.rs:126-131 | the port's text is non-empty, all digits, has no leading zero unless the port is 0, and is one digit exactly below 10 |
| Decimal.ParseDecDec | src/bin/config.rs:126-131 | reading the port's text back as a decimal number gives the port |
| Decimal.DecInjective | src/bin/config.rs:126-131 | two ports have the same text if and only if they are equal |
| Decimal.DecBeforeSeparator | src/bin/config.rs:126 | a port's text followed by the `/` separator determines the port and the text after it |
| Config.DefaultConfig | src/bin/config.rs:65-77 | the default has port 80, root set and all strings empty; it is not valid; its base url is `://:80/` |
| Config.IsValidOnlySchemeAndBase | src/bin/config.rs:102-110 | a config is valid if and only if scheme and base are both non-empty; port, appendix, username, password and root never change validity |
| Config.AccessorsReturnFields | src/bin/config.rs:112-118 | for every config, `get_username` and `get_password` return the stored username and password unchanged |
| Config.GetBaseUrl | src/bin/config.rs:120-132 | the base url always ends with `/`; it is exactly `scheme://base:port/` when the appendix is empty, and that followed by the appendix and `/` otherwise |
| Config.BaseUrlDeterminesPort | src/bin/config.rs:126-131 | for the same scheme, base and appendix, two base urls are equal if and only if the ports are |
| Config.DisplayText | src/bin/config.rs:79-93 | the display text starts with the url label, the `Display` url and a newline, and ends with `true` or `false` as the root flag is set or not |
| Config.BaseUrlVersusDisplayUrl | src/bin/config.rs:81-86 | the `Display` url equals the base url without an appendix and lacks its final `/` with one |
| Config.DisplayFirstLine | src/bin/config.rs:81-86 | when scheme, base and appendix hold no newline, the first line of the display text is `* url ......... : scheme://base:port/appendix` |
| Config.DisplayLines | src/bin/config.rs:79-93 | when no string field holds a newline, the display text is exactly three lines: `* url ......... : ` and the `Display` url; `  user/pass ... : `, the username, ` / ` and the password in double quotes; `  root ........ : ` and `true` or `false` |
| Config.Lines | src/bin/config.rs:81-92 | cutting a text at its newlines gives at least one line and no line holds a newline |
| Config.LinesOfLines | src/bin/config.rs:81-92 | the lines of `a`, a newline and `b` are `a` followed by the lines of `b` when `a` holds no newline |
| Config.FirstLineOfLines | src/bin/config.rs:81 | the first line of `a`, a newline and `b` is `a` when `a` holds no newline |
| Changes.NewQuery | src/bin/changes.rs:71-75 | a new query holds no terms |
| Changes.AddStr | src/bin/changes.rs:77-82 | the term is appended: the length grows by one, earlier terms are unchanged, the last term is the given string verbatim |
| Changes.FromVec | src/bin/changes.rs:59-68 | a query built from a list gives back that list from `get_query`, in order and with multiplicity |
| Changes.AddStrKeepsTermsVerbatim | src/bin/changes.rs:77-80 | terms such as `x=y` and `a:b:c` are stored as given, with no splitting or checking |
| Changes.UserQueryString | src/bin/changes.rs:38-40 | for every list of user terms, the terms reach the client unchanged: the query string is `pp=0&q=` followed by `build_url` of exactly those terms |
| Changes.UserQueryStringJoin | src/bin/changes.rs:38-40 | when the last user term is non-empty and does not end with `+`, the query string is `pp=0&q=` followed by the terms joined with single `+` |
| Changes.QueryRequestFromConfig | src/bin/changes.rs:38-40 | the client talks to the config's base url and carries the config's credentials exactly when both are non-empty |

## Left out

- `ConfigFile::discover` (src/bin/config.rs:158-198): it walks the filesystem from the current directory.
- `Config::from_configfile` (src/bin/config.rs:98-100): TOML loading through an external crate.
- The clap menus and dispatch (`menu`, `manage`, `list` in config.rs; `manage`, `query` in changes.rs): command-line glue; only the data flow of `query` into the client is stated (`Changes.UserQueryString`, `Changes.QueryRequestFromConfig`).
- All console output (`println!`, including "call problem" and the parse error message).
- The HTTP `Call` transport is not part of this model: it is a record of url and optional credentials, and its answer is an input (`Gerrit.CallOutcome`).
- JSON decoding with `rustc_serialize`: both decoders are function parameters; the typed decoder's error is its description text, the raw parser's error is its message.
- `ChangeInfos` and the rest of `entities` are not part of this model; `Gerrit.ChangeInfos` is a pair of the typed changes and an optional raw JSON tree, and `ChangeInfos::new()` is taken to be empty with no tree.
- The source of `Call` is not part of this model, and two facts about it are assumed: `Call::new` starts with no credentials (`Gerrit.NewGerrit`), and `set_credentials` replaces whatever credentials were set before (`Gerrit.ChangesRequest`). `Gerrit.CredentialsSetIffBothGiven` and `Changes.QueryRequestFromConfig` rest on both.
- `additional_infos` of `Gerrit::changes` is unused by the source and left out.
- `Gerrit::changes` mutates its client when setting credentials; the model returns the updated client inside the request instead.
