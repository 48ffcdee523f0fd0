# SamiDBApi in Dafny

A model of the core of SamiDBApi, a small JavaScript client for the SamiDB image API.
It has two parts.

- **The endpoint-descriptor parser** (`src/structures/Endpoint.js`, module `Endpoints`
  in `endpoint.dfy`). A route string such as `GET,OPTIONS,HEAD   /img/<blush,bonk,boop>`
  becomes an endpoint with three fields:
  - a verb: `get`, the lower-cased text before the first comma;
  - a url: `/img`, the descriptor with verb lists and `/<…` annotations deleted;
  - optional subtypes: `["blush/", "bonk/", "boop/"]`, the pieces after the last `<`.

  The source computes the url and the subtypes with global, case-insensitive regular
  expression replaces. Each replace is modelled as a scanner. It walks the text left to
  right, tries the alternatives of the pattern in their written order at each position,
  and deletes what matches. No general regular-expression engine is modelled.
- **The client** (`src/index.js`, module `Api` in `api.dfy`). It covers:
  - the option defaults and overrides, and the url of an endpoint;
  - the two endpoint buckets `get` and `post` (class `SamiDBApi`) and how they are filled,
    from the caller's descriptors and from the service's catalog (two methods with loops);
  - name resolution, the request a lookup makes, and how a response body is unwrapped;
  - the fifteen image accessors, and `toString`.

`jsstring.dfy` (module `JsString`) models the JavaScript string operations the two parts
call: `split`, ASCII `toLowerCase`/`toUpperCase`, the regular-expression classes `.` and
`\s`, and the decimal text of an integer. It also defines helpers that the source never
calls. `Join`, `LastIndexOf`, `Count` and `LeadingRun` are used only to state what a split
gives back and how far a regular-expression match reaches. `wrappers.dfy` holds `Option`,
`Result` and `Outcome`.

The two network requests are parameters.
- The catalog request is a function from a url to an optional list of descriptors. It is
  absent when the request fails.
- A lookup's request is a function from the planned request (verb and target url) to a
  response body.

Construction is modelled by `Api.Create`. It merges the options and registers the custom
endpoints. Then, unless the caller opted out, it fetches the catalog and ingests it. In the
source the catalog step starts first but suspends at its `await` before it touches the
buckets, so the custom endpoints come first in each bucket. `Create` states that order.
A lookup searches the whole `get` bucket before the `post` bucket. So a custom `post`
endpoint loses to a catalog `get` endpoint with the same url (`Api.SearchOrder`).
When the custom step raises, the source's constructor throws and the caller never gets the
client. `Create` still returns the client's state, with the error in `custom`.

### Behaviour worth knowing

- **A verb list with no white space after it stays in the url.** The url pattern demands
  white space after the verb list (`(\s+)`). So `GET,OPTIONS,HEAD/foo` keeps its whole
  text as its url, not `/foo`, and a lookup of `foo` does not find it. The model follows
  the code: `Endpoints.VerbListWithoutSpaceExample` and `Api.VerbListWithoutSpaceIsUnknown`.
- **The subtype pattern's `\s` matches the letter `s`.** That pattern is written inside a
  template literal, where `\s` is just `s`. Under the `i` flag its `(s+)` therefore matches
  runs of `s` and `S`, not white space. The model uses that reading (`Endpoints.IsLetterS`).
- **The url can still hold a `/<` annotation.** The url replace makes one pass, so a deleted
  verb list can bring a `/` and a `<` together. For example, `get,x/GET,OPTIONS,HEAD <y`
  gives the url `get,x/<y` (`Endpoints.UrlCanKeepAnnotation`). "The url holds no `/<`
  annotation" is therefore proved only for descriptors in which no verb list followed by
  white space occurs after the one at the head (`Endpoints.UrlStopsAtAnnotation`).

## Model

| member | source | states |
|---|---|---|
| Endpoints.TypeOf | src/structures/Endpoint.js:23 | The verb is the descriptor's text before its first comma, or the whole descriptor, with each character lower-cased; it holds no comma, and when shorter than the descriptor a comma follows it there |
| Endpoints.VerbRun | src/structures/Endpoint.js:32 | A match of the verb-list alternative is the upper-cased verb and `,OPTIONS,HEAD`, compared ignoring ASCII case, followed by at least one character of the given class. The match takes every such character that follows, because `+` is greedy. When the text starts with the verb list followed by such a character, the alternative does match |
| Endpoints.StripUrl | src/structures/Endpoint.js:32 | The url replace never lengthens the text, and a position where neither alternative matches keeps its character at the head of the result |
| Endpoints.StripUrlKeeps | src/structures/Endpoint.js:32 | A run of positions where neither alternative of the url pattern matches is kept unchanged in front of what the replace makes of the rest |
| Endpoints.UrlIsSubsequence | src/structures/Endpoint.js:32 | The url is the descriptor with some characters deleted, so it is never longer than the descriptor |
| Endpoints.UrlOfPlainDescriptor | src/structures/Endpoint.js:32 | A descriptor in which no verb list followed by white space and no `/<` followed by a character occurs keeps its whole text as its url |
| Endpoints.UrlStopsAtAnnotation | src/structures/Endpoint.js:32 | Take a one-line descriptor with no verb list followed by white space except possibly one at its head. The url is a prefix of the text after that head run. No `/<` with a character after it starts inside that prefix, the url ends where the first one begins, and the url holds no such `/<` itself |
| Endpoints.StripUrlCutAfterHead | src/structures/Endpoint.js:32 | The same cut for the url replace on any verb: the verb run at the head is deleted, then the text is kept up to its first `/<` that has a character after it |
| Endpoints.ParsePlainCatalogLine | src/structures/Endpoint.js:23-34 | A catalog line without subtypes, `VERB,OPTIONS,HEAD<white space><path>`, parses to the verb, the path as its url, and no subtypes |
| Endpoints.PlainCatalogExample | src/structures/Endpoint.js:23-34 | `GET,OPTIONS,HEAD /foo` parses to verb `get`, url `/foo` and no subtypes |
| Endpoints.UrlCanKeepAnnotation | src/structures/Endpoint.js:32 | `get,x/GET,OPTIONS,HEAD <y` has the url `get,x/<y`: deleting the verb list and its space joins `/` and `<`, and the one-pass replace leaves them |
| Endpoints.VerbListWithoutSpaceExample | src/structures/Endpoint.js:32 | `GET,OPTIONS,HEAD/foo` keeps its whole text as its url, because the verb list must be followed by white space to be deleted |
| Endpoints.Parse | src/structures/Endpoint.js:34-45 | The subtypes are present exactly when a `<` is followed by a character of the line; when present there is at least one, and each ends with `/` |
| Endpoints.HasAngleSection | src/structures/Endpoint.js:34 | The subtype test passes only if the descriptor holds a `<`. On one line, it passes exactly when a `<` occurs before the last character |
| Endpoints.LookaheadRun | src/structures/Endpoint.js:43 | The lookahead alternative `.+(?=<)` matches up to the last `<` on the line. The match stops at a `<` inside the line, and no `<` of the line comes after it |
| Endpoints.StripSubtypeText | src/structures/Endpoint.js:43 | The subtype replace never lengthens the text and never keeps a `<`, a `>` or a `'` |
| Endpoints.ReplaceCommas | src/structures/Endpoint.js:44 | Replacing commas by `/,` never shortens the text, and text without a comma is left as it is |
| Endpoints.ReplaceCommasCount | src/structures/Endpoint.js:44 | The replace adds exactly one character per comma and keeps the number of commas |
| Endpoints.SkipToLastAngle | src/structures/Endpoint.js:43 | Scanning a one-line text from any position up to its last `<` deletes everything up to and including that `<` |
| Endpoints.CleanTail | src/structures/Endpoint.js:43 | After the last `<`, with no verb list followed by `s` characters, the subtype replace only deletes `>` and `'` |
| Endpoints.SplitReplacedCommas | src/structures/Endpoint.js:44-45 | Replacing each comma by `/,`, appending `/` and splitting on commas gives the comma-separated pieces, each with a trailing `/` |
| Endpoints.SubtypesOfLastAngle | src/structures/Endpoint.js:42-45 | The subtypes are the comma-separated pieces of the text after the last `<` with `>` and `'` deleted, each with a trailing `/`; there is one more subtype than that text has commas; dropping the trailing `/`s and joining with commas gives that text back |
| Endpoints.ParseCatalogForm | src/structures/Endpoint.js:23-45 | A descriptor of the form `VERB,OPTIONS,HEAD<white space><path>/<a,b,c>` parses to the verb, the path as its url and the names, each with a trailing `/`, as its subtypes. This holds when the names joined by commas, with the closing `>`, nowhere spell the verb list followed by `s` characters |
| Endpoints.NamesSpellVerbList | src/structures/Endpoint.js:43 | The subtype names `get`, `options` and `heads`, joined by commas and followed by `>`, start a match of the verb-list alternative 17 characters long, which the subtype replace deletes |
| Endpoints.CatalogDescriptorExample | src/structures/Endpoint.js:23-45 | `GET,OPTIONS,HEAD   /img/<blush,bonk,boop>` parses to verb `get`, url `/img` and subtypes `blush/`, `bonk/`, `boop/` |
| Endpoints.Endpoint.ToString | src/structures/Endpoint.js:56-58 | An endpoint prints as its url |
| Api.MergeOptions | src/index.js:42-48 | Each merged field is the caller's value when supplied and the default otherwise |
| Api.MergeNothing | src/index.js:42-47 | With no options: version 1, `http://api.samidb.xyz`, the catalog is fetched, and there are no custom endpoints |
| Api.MergeOverridesOnlyItsField | src/index.js:42-48 | Supplying one more field changes that field of the merged options and no other |
| Api.GetURL | src/index.js:98-100 | The url begins with the api url and `/v`, ends with `/` and the endpoint name, and is longer than those parts together |
| Api.GetURLExample | src/index.js:98-100 | Version 2 of `http://x` puts `foo` at `http://x/v2/foo` |
| Api.GetURLInjective | src/index.js:98-100 | Under one api url, two urls are equal only for the same version and the same name |
| Api.Target | src/index.js:84 | The request target begins with `getURL(name)`. It is exactly that url when no subtype is given, and otherwise that url followed by `/` and the subtype |
| Api.TargetSeparatesSubtypes | src/index.js:84 | Different subtypes, or a subtype and none, give different request targets for one name |
| Api.Matches | src/index.js:80 | An endpoint answers to a name only if its url starts with `/` and ends with `/` and the name |
| Api.SamiDBApi.Endpoints | src/index.js:80 | The endpoints searched are those of the `get` bucket followed by those of the `post` bucket, in order |
| Api.FindFirst | src/index.js:80 | The search yields the position of the first endpoint whose url is `/name` or `/v<version>/name`, or nothing when no endpoint's url is either |
| Api.Resolve | src/index.js:80-83 | A name resolves exactly when some endpoint answers to it, and then to the first that does |
| Api.ResolveConcat | src/index.js:80 | Searching the `get` bucket and then `post`: a name found in the first list resolves there whatever follows; otherwise it resolves as in the second list alone |
| Api.ResolveFirst | src/index.js:80 | A name resolves to the first endpoint that answers to it |
| Api.BucketLayout | src/index.js:62-66 | Each bucket built by construction holds its custom endpoints, followed by its catalog endpoints |
| Api.SearchOrderOf | src/index.js:80 | Searching four lists one after the other, the name resolves in the first list that answers to it |
| Api.SearchOrder | src/index.js:80 | After construction, the search order is custom `get`, catalog `get`, custom `post`, catalog `post`. So custom `get` endpoints shadow every catalog endpoint, and catalog `get` endpoints shadow every `post` endpoint. A custom `post` endpoint wins only when no `get` endpoint answers, and then it shadows the catalog `post` endpoints |
| Api.CatalogGetShadowsCustomPost | src/index.js:80 | With a catalog `get` endpoint `/foo` and a custom `post` endpoint `/foo`, the name `foo` resolves to the catalog `get` endpoint |
| Api.Plan | src/index.js:80-84 | No endpoint answers exactly when the lookup raises `UnknownEndpoint` and plans no request; otherwise the request uses the first answering endpoint's verb and the name's url, with `/subtype` when a subtype is given |
| Api.PlanIgnoresSubtypes | src/index.js:84 | The planned request depends only on the endpoints' verbs and urls; their subtypes are never read |
| Api.VerbListWithoutSpaceIsUnknown | src/index.js:80-83 | An endpoint described as `GET,OPTIONS,HEAD/foo` does not answer to the name `foo` |
| Api.PlainCatalogLineAnswers | src/index.js:80-83 | An endpoint described as `VERB,OPTIONS,HEAD<white space>/name` answers to `name` and resolves to the endpoint with that verb, url `/name` and no subtypes |
| Api.VerbListWithSpaceIsKnown | src/index.js:80-83 | An endpoint described as `GET,OPTIONS,HEAD /foo` answers to the name `foo` |
| Api.Unwrap | src/index.js:86 | The reply is the body's url exactly when the body has a non-empty url, and otherwise the whole body |
| Api.KnownPrefix | src/index.js:110-113 | The custom entries up to the first one whose name is not `get` or `post` |
| Api.ParseAll | src/index.js:114 | Parsing a list of descriptors gives exactly one endpoint per descriptor |
| Api.ParseAllConcat | src/index.js:114 | Parsing two lists of descriptors one after the other gives the two lists of endpoints in that order |
| Api.RegisteredConcat | src/index.js:110-114 | Two lists of custom entries, one after the other, register what each registers, in that order |
| Api.RegisteredSingle | src/index.js:114 | One entry registers its descriptors, in order, in the bucket it names and nothing in the other |
| Api.RegisteredStep | src/index.js:114 | One more entry appends its parsed descriptors to the bucket it names and leaves the other unchanged |
| Api.CatalogPrefix | src/index.js:134-139 | The catalog descriptors up to the first one whose verb is not `get` or `post` |
| Api.RoutedStep | src/index.js:135-136 | One more catalog descriptor is appended, parsed, to the bucket its verb names; the other bucket is unchanged |
| Api.RoutedOne | src/index.js:135-136 | A single catalog descriptor is routed, parsed, to the bucket its verb names, and to no other |
| Api.RoutedAppend | src/index.js:134-137 | The descriptors of a longer prefix routed to a bucket are those of the shorter prefix, followed by the next descriptor's |
| Api.IngestStep | src/index.js:134-137 | Routing the next descriptor of the catalog prefix turns the buckets of a prefix into those of the next prefix; a known verb extends the prefix |
| Api.RoutedVerbs | src/index.js:135 | Every descriptor the catalog routes to a bucket has that bucket's name as its verb |
| Api.RoutedEndpointVerbs | src/index.js:135-136 | Every endpoint the catalog adds to a bucket has that bucket's name as its verb |
| Api.RoutedPartition | src/index.js:134-137 | When every verb is known, each catalog descriptor lands in exactly one bucket: the two buckets together hold every descriptor, as often as it occurs, and nothing else |
| Api.SamiDBApi.constructor | src/index.js:42-60 | The client holds the merged options, and both buckets start empty |
| Api.SamiDBApi.SetCustomEndpoints | src/index.js:109-115 | Each custom entry, in order, appends its parsed descriptors to the bucket it names. At the first other name the method raises `UnknownEndpointType`, and the entries before it stay appended |
| Api.SamiDBApi.Route | src/index.js:135-136 | The `forEach` callback: a descriptor with a known verb is appended, parsed, to the bucket its verb names, and the other bucket is unchanged |
| Api.SamiDBApi.IngestCatalog | src/index.js:133-140 | Each catalog descriptor, in order, is appended, parsed, to the bucket its verb names. At the first other verb the method raises `CatalogUnavailable`, and the descriptors before it stay appended |
| Api.SamiDBApi.Get | src/index.js:79-87 | The lookup fails with `UnknownEndpoint` exactly when no endpoint of `get` then `post` answers; otherwise it makes the planned request and unwraps the response |
| Api.SamiDBApi.Image | src/index.js:152-322 | Each of the fifteen accessors is the lookup of `img` with its own name as the subtype |
| Api.ImageTargetsDistinct | src/index.js:152-322 | No two image accessors request the same url |
| Api.SamiDBApi.ToString | src/index.js:331-333 | The client prints as `[SamiDBApi]` |
| Api.Create | src/index.js:34-67 | Construction: each bucket holds the custom descriptors up to the first unknown bucket name, then the catalog descriptors routed to it up to the first unknown verb, all parsed. `custom` and `catalog` report the two errors; the catalog is fetched from `getURL("endpoints")` unless the caller opted out |

## Left out

- The HTTP requests (`axios`) are parameters. Network failures other than "no catalog" are not modelled.
- Asynchronous scheduling is not modelled. The custom-before-catalog order is stated as what
  a live run produces. The catalog step's error is an unhandled promise rejection in the
  source; `Create` returns it as a value.
- The verb is interpolated into a `RegExp` unescaped. A verb holding regular-expression
  metacharacters makes the source throw, or changes what the pattern means. The model
  treats the verb as literal text.
- Case-insensitive matching and `toLowerCase`/`toUpperCase` are modelled for ASCII letters
  only. Unicode case mapping is not modelled.
- Endpoints.UrlStopsAtAnnotation: requires that no verb list followed by white space occurs in the descriptor after the one at its head, if any. A deletion after the head can join a `/` and a `<` (see above; `Endpoints.UrlCanKeepAnnotation` shows one such descriptor).
- Endpoints.SkipToLastAngle: stated for one-line text whose verb has no `<`. Across a line break, `.` stops matching, and the lemma does not say what the scan does there.
- Endpoints.SubtypesOfLastAngle: stated for one-line descriptors whose verb has no `<` and whose text after the last `<` holds no verb list followed by `s` characters. Such a run would be deleted by the template-literal `(s+)` alternative.
- Endpoints.ParseCatalogForm: stated for lower-case ASCII verbs, and for paths and subtype names free of the characters the parser treats specially. It also requires that the names joined by commas, with the closing `>`, nowhere spell the verb list followed by `s` characters. The names `get`, `options` and `heads` break that: `get,options,heads>` starts such a run, which the subtype replace deletes (`Endpoints.NamesSpellVerbList`).
- A custom bucket name that is an inherited property of a plain object (`constructor`, for example) passes the source's `=== void 0` check and then fails at `push` with a different error. The model treats every name other than `get` and `post` as unknown.
- A catalog response that is not a list of strings, and custom descriptor lists that are not arrays, are not modelled. The catalog is a sequence of strings.
- A registered endpoint whose verb has no `axios` method is not modelled. For example, a custom `get` entry `FOO,OPTIONS,HEAD /x` has the verb `foo`, so `axios[_endpoint.type]` is undefined and the call at src/index.js:84 throws a `TypeError`. `Api.SamiDBApi.Get` always makes the planned request, whatever the verb.
- Api.SamiDBApi.Route: requires a known verb. A descriptor with another verb makes the source's `push` throw, and `IngestCatalog`'s loop models that by stopping with `CatalogUnavailable` before it calls `Route`.
- Api.MergeOptions: an option key present with the value `undefined` replaces its default in the source's object spread. The model treats it as absent.
- Version numbers are integers. Fractional and non-numeric versions, and JavaScript number formatting beyond integer decimal text, are not modelled.
- JavaScript truthiness of response bodies is modelled only for the optional `url` string. Bodies that are `null` or not objects are not modelled.
- `Object.entries` of a custom `endpoints` value is modelled as an ordered list of name/descriptor-list pairs.
