/** The plugin object and its HTML transform, in the imperative form the
    plugin has: a `base` field replaced by the configuration hook, and a
    transform that walks the selected elements one at a time and writes each
    one's `integrity` attribute in place. */
module SriPlugin {
  import opened Resource
  import opened Integrity
  import opened Annotation

  /** A parsed element; the pass rewrites its attribute map in place. */
  class Element {
    const tag: string
    var attribs: map<string, string>

    constructor (tag: string, attribs: map<string, string>)
      ensures this.tag == tag && this.attribs == attribs
    {
      this.tag := tag;
      this.attribs := attribs;
    }
  }

  /** No element object occurs twice in a document. */
  predicate Unaliased(doc: seq<Element>)
  {
    forall i, j :: 0 <= i < j < |doc| ==> doc[i] != doc[j]
  }

  /** The document's elements as values. */
  function Snapshot(doc: seq<Element>): (nodes: seq<Node>)
    reads doc
    ensures |nodes| == |doc|
    ensures forall i :: 0 <= i < |doc| ==> nodes[i] == Node(doc[i].tag, doc[i].attribs)
  {
    seq(|doc|, i reads doc requires 0 <= i < |doc| => Node(doc[i].tag, doc[i].attribs))
  }

  /** The parsed document: one fresh element object per element value, in
      document order. */
  method Load(nodes: seq<Node>) returns (doc: seq<Element>)
    ensures Snapshot(doc) == nodes && Unaliased(doc)
    ensures forall i :: 0 <= i < |doc| ==> fresh(doc[i])
  {
    doc := [];
    for i := 0 to |nodes|
      invariant Snapshot(doc) == nodes[..i] && Unaliased(doc)
      invariant forall i :: 0 <= i < |doc| ==> fresh(doc[i])
    {
      var element := new Element(nodes[i].tag, nodes[i].attribs);
      doc := doc + [element];
    }
    assert nodes[..|nodes|] == nodes;
  }

  class Plugin {
    const name: string
    const enforce: string
    const apply: string
    var base: string

    constructor ()
      ensures name == "vite-plugin-sri" && enforce == "post" && apply == "build"
      ensures base == "/"
    {
      name := "vite-plugin-sri";
      enforce := "post";
      apply := "build";
      base := "/";
    }

    /** The configuration hook: an empty configured base becomes "./", any
        other replaces `base` as it is. */
    method ConfigResolved(configBase: string)
      modifies this`base
      ensures base == if configBase == "" then "./" else configBase
      ensures base != ""
    {
      base := if configBase == "" then "./" else configBase;
    }

    /** Resolves one element against this plugin's `base`, hashes its
        content and overwrites its `integrity` attribute; on a failure the
        element is left as it was. */
    method CalculateIntegrityHashes(element: Element, bundle: Bundle, fetch: Fetch, prims: Primitives)
      returns (failure: Option<Failure>)
      modifies element
      ensures var r := Annotated(old(Node(element.tag, element.attribs)), Env(base, bundle, fetch, prims));
        && (r.Ok? ==> failure.None? && element.attribs == r.value.attribs)
        && (r.Err? ==> failure == Some(r.error) && element.attribs == old(element.attribs))
    {
      var attributeName := AttrName(element.attribs);
      if attributeName !in element.attribs {
        return Some(MissingReference(attributeName));
      }
      var resourcePath := element.attribs[attributeName];
      var source: Payload;
      if IsRemote(resourcePath) {
        source := Binary(fetch(resourcePath));
      } else {
        var key := BundleKey(base, resourcePath);
        if key !in bundle {
          return Some(MissingBundleItem(key));
        }
        var content := PickContent(bundle[key]);
        if content.None? {
          return Some(MissingContent(key));
        }
        source := content.value;
      }
      element.attribs := element.attribs["integrity" := IntegrityValue(source, prims)];
      failure := None;
    }

    /** The sequential loop over a selection: each element in turn, stopping
        at the first failure. */
    method ForEach(doc: seq<Element>, idxs: seq<nat>, bundle: Bundle, fetch: Fetch, prims: Primitives)
      returns (failure: Option<Failure>)
      requires Unaliased(doc) && InRange(idxs, |doc|)
      modifies doc
      ensures var run := Process(old(Snapshot(doc)), idxs, Step(Env(base, bundle, fetch, prims)));
        Snapshot(doc) == run.nodes && failure == run.failure
    {
      var env := Env(base, bundle, fetch, prims);
      ghost var start := Snapshot(doc);
      var k := 0;
      failure := None;
      while k < |idxs|
        invariant 0 <= k <= |idxs|
        invariant Process(start, idxs[..k], Step(env)) == Run(Snapshot(doc), None)
        invariant failure.None?
      {
        var i := idxs[k];
        ghost var before := Snapshot(doc);
        SplitAround(idxs, k);
        ProcessNext(start, idxs[..k], i, idxs[k + 1..], Step(env));
        failure := CalculateIntegrityHashes(doc[i], bundle, fetch, prims);
        if failure.Some? {
          assert Snapshot(doc) == before;
          return;
        }
        assert Snapshot(doc) == before[i := Annotated(before[i], env).value];
        k := k + 1;
      }
      assert idxs[..k] == idxs;
    }

    /** The HTML transform: scripts with `src`, then stylesheets with `href`,
        each annotated in place; the annotated document, or the failure that
        aborts the whole transform. */
    method TransformIndexHtml(doc: seq<Element>, bundle: Bundle, fetch: Fetch, prims: Primitives)
      returns (html: Result<seq<Node>>)
      requires Unaliased(doc)
      modifies doc
      ensures html == Transform(old(Snapshot(doc)), Env(base, bundle, fetch, prims))
      ensures html.Ok? ==> Snapshot(doc) == html.value
    {
      var env := Env(base, bundle, fetch, prims);
      var nodes := Snapshot(doc);
      var scripts := Query(nodes, ScriptWithSrc);
      var stylesheets := Query(nodes, StylesheetWithHref);
      ProcessAppend(nodes, scripts, stylesheets, Step(env));
      var failure := ForEach(doc, scripts, bundle, fetch, prims);
      if failure.Some? {
        return Err(failure.value);
      }
      failure := ForEach(doc, stylesheets, bundle, fetch, prims);
      if failure.Some? {
        return Err(failure.value);
      }
      html := Ok(Snapshot(doc));
    }
  }

  /** The document of the repository's own test: a local and a remote
      script, a local and a remote stylesheet; with four integrity values,
      the same elements each carrying its value. */
  function Fixture(integrity: seq<string>): (nodes: seq<Node>)
    requires |integrity| == 0 || |integrity| == 4
    ensures |nodes| == 4
  {
    if integrity == [] then
      [Node("script", map["type" := "module", "src" := "/main.js"]),
       Node("script", map["type" := "module", "src" := "https://ar.al/chat.js"]),
       Node("link", map["rel" := "stylesheet", "type" := "text/css", "href" := "/assets/style.css"]),
       Node("link", map["rel" := "stylesheet", "type" := "text/css", "href" := "https://ar.al/style.css"])]
    else
      [Node("script", map["type" := "module", "src" := "/main.js", "integrity" := integrity[0]]),
       Node("script", map["type" := "module", "src" := "https://ar.al/chat.js", "integrity" := integrity[1]]),
       Node("link", map["rel" := "stylesheet", "type" := "text/css", "href" := "/assets/style.css",
                        "integrity" := integrity[2]]),
       Node("link", map["rel" := "stylesheet", "type" := "text/css", "href" := "https://ar.al/style.css",
                        "integrity" := integrity[3]])]
  }

  function FixtureBundle(localJS: Bytes, localCSS: Bytes): Bundle
  {
    map["assets/style.css" := BundleItem(None, Some(Binary(localCSS))),
        "main.js" := BundleItem(Some(Binary(localJS)), None)]
  }

  function FixtureIntegrity(localJS: Bytes, localCSS: Bytes, fetch: Fetch, prims: Primitives): seq<string>
  {
    [IntegrityValue(Binary(localJS), prims),
     IntegrityValue(Binary(fetch("https://ar.al/chat.js")), prims),
     IntegrityValue(Binary(localCSS), prims),
     IntegrityValue(Binary(fetch("https://ar.al/style.css")), prims)]
  }

  /** Every element of the test's document is selected. */
  lemma FixtureEligible()
    ensures forall i :: 0 <= i < 4 ==> Eligible(Fixture([])[i])
  {
    var nodes := Fixture([]);
    assert Matches(ScriptWithSrc, nodes[0]) && Matches(ScriptWithSrc, nodes[1]);
    assert Matches(StylesheetWithHref, nodes[2]) && Matches(StylesheetWithHref, nodes[3]);
  }

  /** The test's scripts resolve, the local one in the bundle under
      "main.js" and the remote one through the fetch, and gain their values. */
  lemma FixtureScriptsAnnotated(localJS: Bytes, localCSS: Bytes, fetch: Fetch, prims: Primitives)
    ensures var env := Env("/", FixtureBundle(localJS, localCSS), fetch, prims);
      forall i :: 0 <= i < 2 ==>
        Annotated(Fixture([])[i], env) == Ok(Fixture(FixtureIntegrity(localJS, localCSS, fetch, prims))[i])
  {
    var env := Env("/", FixtureBundle(localJS, localCSS), fetch, prims);
    var nodes := Fixture([]);
    var expected := Fixture(FixtureIntegrity(localJS, localCSS, fetch, prims));
    assert ReferencePath(nodes[0].attribs) == Ok("/main.js");
    assert ReferencePath(nodes[1].attribs) == Ok("https://ar.al/chat.js");
    assert BundleKey("/", "/main.js") == "main.js";
    assert Annotated(nodes[0], env) == Ok(expected[0]);
    assert Annotated(nodes[1], env) == Ok(expected[1]);
  }

  /** The test's stylesheets resolve, the local one in the bundle under
      "assets/style.css" and the remote one through the fetch, and gain
      their values. */
  lemma FixtureStylesheetsAnnotated(localJS: Bytes, localCSS: Bytes, fetch: Fetch, prims: Primitives)
    ensures var env := Env("/", FixtureBundle(localJS, localCSS), fetch, prims);
      forall i :: 2 <= i < 4 ==>
        Annotated(Fixture([])[i], env) == Ok(Fixture(FixtureIntegrity(localJS, localCSS, fetch, prims))[i])
  {
    var env := Env("/", FixtureBundle(localJS, localCSS), fetch, prims);
    var nodes := Fixture([]);
    var expected := Fixture(FixtureIntegrity(localJS, localCSS, fetch, prims));
    assert ReferencePath(nodes[2].attribs) == Ok("/assets/style.css");
    assert ReferencePath(nodes[3].attribs) == Ok("https://ar.al/style.css");
    assert BundleKey("/", "/assets/style.css") == "assets/style.css";
    assert Annotated(nodes[2], env) == Ok(expected[2]);
    assert Annotated(nodes[3], env) == Ok(expected[3]);
  }

  /** The repository's own test on the value model: with base "/", the local
      script is found in the bundle under "main.js" (as `code`), the local
      stylesheet under "assets/style.css" (as `source`), the remote ones are
      fetched, and each element gains the integrity value of its content. */
  lemma FixtureTransform(localJS: Bytes, localCSS: Bytes, fetch: Fetch, prims: Primitives)
    ensures Transform(Fixture([]), Env("/", FixtureBundle(localJS, localCSS), fetch, prims))
         == Ok(Fixture(FixtureIntegrity(localJS, localCSS, fetch, prims)))
  {
    var env := Env("/", FixtureBundle(localJS, localCSS), fetch, prims);
    var nodes := Fixture([]);
    var expected := Fixture(FixtureIntegrity(localJS, localCSS, fetch, prims));
    FixtureEligible();
    FixtureScriptsAnnotated(localJS, localCSS, fetch, prims);
    FixtureStylesheetsAnnotated(localJS, localCSS, fetch, prims);
    TransformAnnotatesEligible(nodes, env);
    var out := Transform(nodes, env).value;
    assert out == expected;
  }

  /** The repository's own test on the plugin object: a fresh plugin
      carries its metadata, and transforming the test's document with base
      "/" yields the fixture's annotated elements. */
  method BasicFunctionality(localJS: Bytes, localCSS: Bytes, fetch: Fetch, prims: Primitives)
    returns (name: string, apply: string, enforce: string, html: Result<seq<Node>>)
    ensures name == "vite-plugin-sri" && apply == "build" && enforce == "post"
    ensures html == Ok(Fixture(FixtureIntegrity(localJS, localCSS, fetch, prims)))
  {
    var plugin := new Plugin();
    name, apply, enforce := plugin.name, plugin.apply, plugin.enforce;
    var doc := Load(Fixture([]));
    html := plugin.TransformIndexHtml(doc, FixtureBundle(localJS, localCSS), fetch, prims);
    FixtureTransform(localJS, localCSS, fetch, prims);
  }
}
