# vite-plugin-sri, modelled in Dafny

A model of `@small-tech/vite-plugin-sri`, a Vite plugin that adds
Subresource Integrity attributes to the scripts and stylesheets of the
`index.html` a build produces. The plugin object keeps one mutable value,
the `base` path. The configuration hook replaces it. The HTML transform does
the rest:

- it selects every `<script>` with a `src` attribute, then every
  `<link rel=stylesheet>` with an `href` attribute;
- for each element in turn, it reads the reference attribute (`src` when
  non-empty, `href` otherwise);
- a path that starts with `http` is fetched; any other path has `|base|`
  leading characters cut off and is looked up in the build bundle, where the
  item's `code` is used if truthy and its `source` otherwise;
- it overwrites the element's `integrity` attribute with `sha384-` followed by
  the base64 encoding (section 4 of RFC 4648) of the SHA-384 digest of that
  content, the form of section 3.5 of the W3C Subresource Integrity
  recommendation.

The project has four modules:

- `Resource` (`resource.dfy`): the per-element resolution as functions.
  These are the attribute choice, the `http` test, the bundle key, the
  `code || source` choice and the resolution itself, with its three ways to
  fail.
- `Integrity` (`integrity.dfy`): the integrity string. It also has a reader
  for the SRI hash-expression syntax as its partner: what the plugin writes
  reads back as algorithm `sha384` and the base64 digest.
- `Annotation` (`annotation.dfy`): the pass on values. The document is the
  sequence of its elements in document order. The selectors are queries over
  it. `Process` is the sequential loop with fail-fast behaviour, and
  `Transform` is the whole transform. The lemmas cover selection (each
  eligible element once, scripts first, document order), the loop (what
  succeeds, what is written, which failure is reported) and idempotence.
- `SriPlugin` (`plugin.dfy`): the imperative part. `Plugin` is a class with
  its `base` field and fixed metadata. `Element` objects have their attribute
  maps rewritten in place. `CalculateIntegrityHashes`, the `ForEach` loop and
  `TransformIndexHtml` are each proved against the value model. A replay of
  the repository's own test closes the file.

This model follows the code as written; in particular:

- The `http` test comes before any bundle lookup. With base
  `https://example.com/`, the path `https://example.com/main.js` is fetched
  even when the bundle holds `main.js` (`Resource.RemoteBeforeBundle`).
- There is no prefix check on `base`, and an empty configured base becomes
  `./`. So `main.js` maps to key `in.js` (`Resource.KeyExamples`); it does not
  map to `main.js`.
- A reference that is not in the bundle is not skipped with a warning.
  Reading the missing item throws, and the whole transform fails with no HTML
  (`Failure.MissingBundleItem`). An item whose `code` is falsy and whose
  `source` is absent fails the same way (`Failure.MissingContent`). So does a
  selected element whose chosen attribute is missing (`Failure.MissingReference`).
  One example is a `<script src="">` without `href`.
- The fetched body is hashed without any check of the HTTP status.

## Model

| member | source | states |
|---|---|---|
| `Resource.AttrName` | index.cjs:45 | the reference attribute is `src` exactly when `src` is present and non-empty, `href` otherwise |
| `Resource.ReferencePath` | index.cjs:45-46 | the path is the value of `src` when truthy, else of `href`; a missing `href` is the `MissingReference` failure |
| `Resource.IsRemote` | index.cjs:47 | a path is remote exactly when its first four characters are `http` |
| `Resource.BundleKey` | index.cjs:52 | the key is the path's suffix of length `max(0, \|path\| - \|base\|)`; when `base` is a prefix, `base + key` rebuilds the path |
| `Resource.KeyIgnoresPrefix` | index.cjs:52 | paths that agree after their first `\|base\|` characters get the same key, whether or not they start with `base` |
| `Resource.KeyExamples` | index.cjs:52 | base `/` maps `/main.js` and `/assets/style.css` to the test's keys; base `./` maps `main.js` to `in.js` |
| `Resource.PickContent` | index.cjs:54 | the content is `code` when truthy (non-empty string or any buffer), else `source`, which may be absent |
| `Resource.Resolve` | index.cjs:47-54 | a remote path resolves to the fetched body whatever the bundle holds; a local one succeeds exactly when its key is in the bundle and the item has content, and otherwise reports which lookup failed |
| `Resource.RemoteBeforeBundle` | index.cjs:47-53 | a path starting with `http` is fetched even when it starts with `base` and its key is in the bundle |
| `Integrity.Digestible` | index.cjs:56 | a buffer is hashed as it is, a string as its UTF-8 encoding |
| `Integrity.IntegrityValue` | index.cjs:56 | the value is `sha384`, then `-`, then the base64 text of the SHA-384 digest of the content |
| `Integrity.IntegrityValueParses` | index.cjs:56 | the written value reads back as an SRI hash expression with algorithm `sha384` and the content's base64 digest: split at its first `-`, the head is `sha384` and the rest is the digest |
| `Integrity.IntegrityValueInjective` | index.cjs:56 | two contents get the same integrity value exactly when their base64 digests agree |
| `Annotation.Query` | index.cjs:67-68 | a query lists, in increasing document order, exactly the positions of the elements its selector matches |
| `Annotation.SelectedDistinct` | index.cjs:67-71 | the visiting order lists no element twice |
| `Annotation.SelectedEligible` | index.cjs:67-71 | the visiting order lists exactly the scripts with `src` and the stylesheet links with `href` |
| `Annotation.SelectedOnce` | index.cjs:67-71 | every eligible element is visited once, all scripts before all stylesheets, each group in document order |
| `Annotation.QueryAgrees` | index.cjs:67-68 | documents whose elements match a selector alike give the same query result |
| `Annotation.AnnotatedSpec` | index.cjs:44-57 | one element succeeds exactly when its path reads and resolves; then the tag and every other attribute stay, and `integrity` is set to the value of the resolved content (added or overwritten, never duplicated); otherwise the failure is that of the read or of the resolution |
| `Annotation.AnnotatedIdempotent` | index.cjs:45-56 | annotating an annotated element again gives the same element |
| `Annotation.ProcessAppend` | index.cjs:60-71 | running the loop over one list and then another equals running it over their concatenation, unless the first run failed |
| `Annotation.ProcessNext` | index.cjs:61-63 | after a successful prefix, the next element either extends the run by one write or fails, and the failure ends the whole run |
| `Annotation.ProcessSucceeds` | index.cjs:60-64 | the loop never touches an unlisted element; it succeeds exactly when every listed element resolves, and then every listed element holds its annotation |
| `Annotation.ProcessFailsAtFirst` | index.cjs:60-64 | a failed loop reports the failure of the first listed element that does not resolve |
| `Annotation.TransformAnnotatesEligible` | index.cjs:40-74 | the transform succeeds exactly when every eligible element resolves; then eligible elements are annotated and all others are unchanged |
| `Annotation.TransformFailsAtFirst` | index.cjs:40-74 | a failed transform reports the first failing element in visiting order (scripts, then stylesheets) |
| `Annotation.TransformIdempotent` | index.cjs:40-74 | transforming the transform's output returns it unchanged |
| `SriPlugin.Load` | index.cjs:59 | the loaded document holds one fresh, distinct element object per element, with its tag and attributes |
| `SriPlugin.Plugin.constructor` | index.cjs:29-34 | a new plugin has name `vite-plugin-sri`, `enforce` `post`, `apply` `build` and base `/` |
| `SriPlugin.Plugin.ConfigResolved` | index.cjs:36-38 | after configuration, base is `./` for an empty configured base and the configured value otherwise, so never empty |
| `SriPlugin.Plugin.CalculateIntegrityHashes` | index.cjs:44-57 | resolving against the plugin's own `base`, the element's attributes become those of its annotation, or stay as they were when it fails, with that failure returned |
| `SriPlugin.Plugin.ForEach` | index.cjs:60-64 | the element objects end as the value loop leaves the document, and the failure returned is the loop's |
| `SriPlugin.Plugin.TransformIndexHtml` | index.cjs:40-74 | the result is the value transform of the document as it was; on success the element objects hold exactly that result |
| `SriPlugin.FixtureEligible` | test/index.js:28-31 | every element of the test's document is selected |
| `SriPlugin.FixtureScriptsAnnotated` | test/index.js:23-36 | the test's local script resolves to its bundle `code` under `main.js` and the remote one to its fetched body |
| `SriPlugin.FixtureStylesheetsAnnotated` | test/index.js:24-35 | the test's local stylesheet resolves to its bundle `source` under `assets/style.css` and the remote one to its fetched body |
| `SriPlugin.FixtureTransform` | test/index.js:28-51 | the test's document transforms to the four elements carrying the integrity values the test expects |
| `SriPlugin.BasicFunctionality` | test/index.js:40-51 | a fresh plugin has the expected metadata, and its transform of the test's document gives the expected annotated elements |

## Left out

- Resource.BundleKey: string lengths count Unicode code points, while
  JavaScript's `length` and `slice` count UTF-16 code units. The key
  therefore differs from the plugin's when the first `|base|` units of a
  path hold a different number of characters outside the Basic Multilingual
  Plane than `base` does. For example, with base `/🦄/` the path
  `/ab/main.js` gives the plugin the key `main.js` and the model the key
  `/main.js`. Strings holding lone surrogates, such as a key cut in the
  middle of a surrogate pair, cannot be represented, so neither can the
  UTF-8 encoding Node gives them, with U+FFFD for each lone surrogate.
- HTML parsing and serialisation (`cheerio.load` and `$.html()`) are library
  code. The document is a flat sequence of elements in document order, and
  the transform returns the element values rather than an HTML string.
- Selector matching is modelled as exact equality on the lower-case tag name
  and on the `rel` value `stylesheet`. Any case-insensitive matching the
  selector library applies to attribute values is not modelled.
- SHA-384, base64 and the UTF-8 encoding of strings are library calls. They
  are parameters of the model (`Integrity.Primitives`), so nothing is proved
  about digest length or the base64 alphabet.
- The network fetch is an oracle from URL to body, a function: it returns
  the same body for a URL on every call. A live server need not, and
  `Annotation.TransformIdempotent` and `SriPlugin.FixtureTransform` rely on
  it. The plugin makes no HTTP status check, so none is modelled.
- A rejected fetch is not modelled, so a remote path always resolves. The
  fetch library rejects on a network error and also on a URL that is not
  absolute. So a local file whose name starts with `http` (for example
  `src="http-client.js"`) makes the plugin's transform fail, while
  `Resource.Resolve` resolves it to the oracle's body for `http-client.js`.
- The `async`/`await` sequencing and the `asyncForEach` helper added to the
  cheerio prototype are modelled as a plain sequential loop.
- `config.base` being absent is not modelled. The configuration hook takes a
  string.
- The repository's test reads fixtures from disk and fetches live URLs. Its
  document and bundle are restated as values, and its `index.html` fixture
  is not part of this model. The packaging configuration (`rollup.config.js`)
  has no runtime behaviour and is not modelled.
