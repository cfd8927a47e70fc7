/** Resource resolution of the SRI plugin: for one `<script>` or `<link>`
    element, which attribute names the resource, whether it is fetched or
    looked up in the build bundle, under which key, and which of the bundle
    item's fields is hashed. */
module Resource {

  newtype byte = b: int | 0 <= b < 256
  type Bytes = seq<byte>

  datatype Option<+T> = None | Some(value: T)

  /** The ways one element's resolution throws in the plugin; each aborts the
      whole HTML transform. */
  datatype Failure =
    | MissingReference(attr: string)  // the chosen attribute is undefined, so `startsWith` throws
    | MissingBundleItem(key: string)  // `bundle[key]` is undefined, so reading `.code` throws
    | MissingContent(key: string)     // `code || source` is undefined, so hashing it throws

  datatype Result<+T> = Ok(value: T) | Err(error: Failure)

  /** A value that can be hashed: a JavaScript string or a byte buffer. */
  datatype Payload = Text(text: string) | Binary(bytes: Bytes)

  /** An output of the build: chunks carry `code`, assets carry `source`;
      either field may be absent. */
  datatype BundleItem = BundleItem(code: Option<Payload>, source: Option<Payload>)

  type Bundle = map<string, BundleItem>

  /** The remote fetch, an oracle from URL to response body. */
  type Fetch = string -> Bytes

  /** JavaScript truthiness of an optional payload: an absent value and the
      empty string are falsy; a buffer is an object, so always truthy. */
  predicate Truthy(v: Option<Payload>)
  {
    match v
    case None => false
    case Some(Text(s)) => s != ""
    case Some(Binary(_)) => true
  }

  /** The reference attribute: `src` when the element has a non-empty `src`,
      `href` otherwise. */
  function AttrName(attribs: map<string, string>): (name: string)
    ensures name == "src" || name == "href"
    ensures name == "src" <==> "src" in attribs && attribs["src"] != ""
  {
    if "src" in attribs && attribs["src"] != "" then "src" else "href"
  }

  /** The resource path read from the reference attribute, or the failure of
      reading an attribute the element does not have. */
  function ReferencePath(attribs: map<string, string>): (r: Result<string>)
    ensures "src" in attribs && attribs["src"] != "" ==> r == Ok(attribs["src"])
    ensures !("src" in attribs && attribs["src"] != "") && "href" in attribs ==> r == Ok(attribs["href"])
    ensures !("src" in attribs && attribs["src"] != "") && "href" !in attribs ==> r == Err(MissingReference("href"))
  {
    var name := AttrName(attribs);
    if name in attribs then Ok(attribs[name]) else Err(MissingReference(name))
  }

  /** A path is fetched when it starts with the four letters "http"; nothing
      else about the URL is examined. */
  function IsRemote(path: string): (remote: bool)
    ensures remote <==> |path| >= 4 && path[0] == 'h' && path[1] == 't' && path[2] == 't' && path[3] == 'p'
  {
    "http" <= path
  }

  /** The bundle key of a local path: the path with as many leading characters
      dropped as `base` has, whatever those characters are, and "" when the
      path is not longer than `base`. Lengths count Unicode code points. */
  function BundleKey(base: string, path: string): (key: string)
    ensures |key| == if |path| <= |base| then 0 else |path| - |base|
    ensures key == path[|path| - |key|..]
    ensures base <= path ==> base + key == path
  {
    if |base| <= |path| then path[|base|..] else ""
  }

  /** `code || source`: the item's `code` when truthy, else its `source`,
      which may itself be absent. */
  function PickContent(item: BundleItem): (content: Option<Payload>)
    ensures Truthy(item.code) ==> content == item.code
    ensures !Truthy(item.code) ==> content == item.source
    ensures content.Some? ==> content == item.code || content == item.source
  {
    if Truthy(item.code) then item.code else item.source
  }

  /** The content to hash for a resource path: a remote path is fetched
      without consulting the bundle; a local one is looked up under its
      bundle key. */
  function Resolve(path: string, base: string, bundle: Bundle, fetch: Fetch): (r: Result<Payload>)
    ensures IsRemote(path) ==> r == Ok(Binary(fetch(path)))
    ensures !IsRemote(path) ==>
      var key := BundleKey(base, path);
      && (r.Ok? <==> key in bundle && PickContent(bundle[key]).Some?)
      && (r.Ok? ==> Some(r.value) == PickContent(bundle[key]))
      && (key !in bundle ==> r == Err(MissingBundleItem(key)))
      && (key in bundle && PickContent(bundle[key]).None? ==> r == Err(MissingContent(key)))
  {
    if IsRemote(path) then
      Ok(Binary(fetch(path)))
    else
      var key := BundleKey(base, path);
      if key !in bundle then
        Err(MissingBundleItem(key))
      else
        match PickContent(bundle[key])
        case None => Err(MissingContent(key))
        case Some(content) => Ok(content)
  }

  /** A path that starts with "http" is fetched even when it also starts with
      `base` and its bundle key is present in the bundle. */
  lemma RemoteBeforeBundle(base: string, path: string, bundle: Bundle, fetch: Fetch)
    requires IsRemote(path) && base <= path && BundleKey(base, path) in bundle
    ensures Resolve(path, base, bundle, fetch) == Ok(Binary(fetch(path)))
    ensures base + BundleKey(base, path) == path
  {
  }

  /** The key is taken by length alone: any two paths that agree after their
      first `|base|` characters share a key, whether or not either starts
      with `base`. */
  lemma {:induction false} KeyIgnoresPrefix(base: string, p: string, q: string)
    requires |p| == |q| && |p| >= |base| && p[|base|..] == q[|base|..]
    ensures BundleKey(base, p) == BundleKey(base, q)
    ensures BundleKey(base, p) == BundleKey(base, base + p[|base|..])
  {
    assert (base + p[|base|..])[|base|..] == p[|base|..];
  }

  /** The key is cut by length alone: with base "/" the test's paths map to
      their bundle keys, and the "./" that an empty configured base becomes
      cuts two characters from a path that does not start with it. */
  lemma KeyExamples()
    ensures BundleKey("/", "/main.js") == "main.js"
    ensures BundleKey("/", "/assets/style.css") == "assets/style.css"
    ensures BundleKey("./", "main.js") == "in.js"
    ensures BundleKey("https://example.com/", "https://example.com/main.js") == "main.js"
  {
  }
}
