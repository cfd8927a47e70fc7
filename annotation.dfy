/** The annotation pass as values: the document is the sequence of its
    elements in document order; the selectors pick scripts with `src` and
    stylesheet links with `href`; `Process` is what the sequential loop over
    the selected elements does to the document. */
module Annotation {
  import opened Resource
  import opened Integrity

  /** An element as the pass sees it: its tag and its attributes. */
  datatype Node = Node(tag: string, attribs: map<string, string>)

  /** Everything a transform call depends on besides the document. */
  datatype Env = Env(base: string, bundle: Bundle, fetch: Fetch, prims: Primitives)

  /** The outcome of running the loop: the document as left, and the failure
      that stopped it, if any. */
  datatype Run = Run(nodes: seq<Node>, failure: Option<Failure>)

  /** The two queries of the pass: `script` filtered by `[src]`, and
      `link[rel=stylesheet]` filtered by `[href]`. */
  datatype Selector = ScriptWithSrc | StylesheetWithHref

  predicate Matches(sel: Selector, n: Node)
  {
    match sel
    case ScriptWithSrc => n.tag == "script" && "src" in n.attribs
    case StylesheetWithHref =>
      n.tag == "link" && "rel" in n.attribs && n.attribs["rel"] == "stylesheet" && "href" in n.attribs
  }

  predicate Eligible(n: Node)
  {
    Matches(ScriptWithSrc, n) || Matches(StylesheetWithHref, n)
  }

  predicate InRange(idxs: seq<nat>, len: nat)
  {
    forall k :: 0 <= k < |idxs| ==> idxs[k] < len
  }

  predicate Increasing(idxs: seq<nat>)
  {
    forall j, k :: 0 <= j < k < |idxs| ==> idxs[j] < idxs[k]
  }

  predicate Distinct(idxs: seq<nat>)
  {
    forall j, k :: 0 <= j < k < |idxs| ==> idxs[j] != idxs[k]
  }

  /** The positions of the elements a selector matches, in document order. */
  function Query(nodes: seq<Node>, sel: Selector): (idxs: seq<nat>)
    ensures InRange(idxs, |nodes|) && Increasing(idxs)
    ensures forall k :: 0 <= k < |idxs| ==> Matches(sel, nodes[idxs[k]])
    ensures forall i :: 0 <= i < |nodes| && Matches(sel, nodes[i]) ==> i in idxs
    decreases |nodes|
  {
    if nodes == [] then []
    else
      var last := |nodes| - 1;
      Query(nodes[..last], sel) + (if Matches(sel, nodes[last]) then [last] else [])
  }

  /** The elements visited, in visiting order: every script first, then
      every stylesheet. */
  function Selected(nodes: seq<Node>): seq<nat>
  {
    Query(nodes, ScriptWithSrc) + Query(nodes, StylesheetWithHref)
  }

  /** One element annotated: its `integrity` attribute set to the value
      computed from its resolved content, or the failure that stops the pass. */
  function Annotated(n: Node, env: Env): Result<Node>
  {
    match ReferencePath(n.attribs)
    case Err(e) => Err(e)
    case Ok(path) =>
      match Resolve(path, env.base, env.bundle, env.fetch)
      case Err(e) => Err(e)
      case Ok(content) => Ok(Node(n.tag, n.attribs["integrity" := IntegrityValue(content, env.prims)]))
  }

  /** The per-element step of the pass. */
  function Step(env: Env): Node -> Result<Node>
  {
    n => Annotated(n, env)
  }

  /** The loop over `idxs`: each listed element in turn is replaced by what
      `step` makes of it; the first failure stops the loop with the document
      as it stands. */
  function Process(nodes: seq<Node>, idxs: seq<nat>, step: Node -> Result<Node>): (run: Run)
    requires InRange(idxs, |nodes|)
    ensures |run.nodes| == |nodes|
    decreases |idxs|
  {
    if idxs == [] then Run(nodes, None)
    else
      var prev := Process(nodes, idxs[..|idxs| - 1], step);
      var i := idxs[|idxs| - 1];
      if prev.failure.Some? then prev
      else
        match step(prev.nodes[i])
        case Err(e) => Run(prev.nodes, Some(e))
        case Ok(m) => Run(prev.nodes[i := m], None)
  }

  /** The transform: the selected elements annotated, or the failure that
      aborts it (no document is returned then). */
  function Transform(nodes: seq<Node>, env: Env): Result<seq<Node>>
  {
    var run := Process(nodes, Selected(nodes), Step(env));
    match run.failure
    case Some(e) => Err(e)
    case None => Ok(run.nodes)
  }

  // ---------------------------------------------------------------------
  // Selection

  /** No element is both a script and a stylesheet link. */
  lemma SelectorsDisjoint(n: Node)
    ensures !(Matches(ScriptWithSrc, n) && Matches(StylesheetWithHref, n))
  {
  }

  /** The selection lists no position twice. */
  lemma SelectedDistinct(nodes: seq<Node>)
    ensures InRange(Selected(nodes), |nodes|) && Distinct(Selected(nodes))
  {
    var scripts, sheets := Query(nodes, ScriptWithSrc), Query(nodes, StylesheetWithHref);
    var sel := scripts + sheets;
    forall j, k | 0 <= j < k < |sel| ensures sel[j] != sel[k] {
      if j < |scripts| <= k {
        assert sel[j] == scripts[j] && sel[k] == sheets[k - |scripts|];
        SelectorsDisjoint(nodes[sel[j]]);
      } else if k < |scripts| {
        assert sel[j] == scripts[j] && sel[k] == scripts[k];
      } else {
        assert sel[j] == sheets[j - |scripts|] && sel[k] == sheets[k - |scripts|];
      }
    }
  }

  /** The selection lists exactly the eligible positions. */
  lemma SelectedEligible(nodes: seq<Node>)
    ensures forall i :: 0 <= i < |nodes| ==> (i in Selected(nodes) <==> Eligible(nodes[i]))
  {
    var scripts, sheets := Query(nodes, ScriptWithSrc), Query(nodes, StylesheetWithHref);
    forall i | 0 <= i < |nodes| ensures i in scripts + sheets <==> Eligible(nodes[i]) {
      if i in scripts {
        var k :| 0 <= k < |scripts| && scripts[k] == i;
      } else if i in sheets {
        var k :| 0 <= k < |sheets| && sheets[k] == i;
      }
    }
  }

  /** Each eligible element is visited exactly once: the selection lists no
      position twice, lists exactly the eligible positions, and lists every
      script before every stylesheet, each group in document order. */
  lemma SelectedOnce(nodes: seq<Node>)
    ensures InRange(Selected(nodes), |nodes|) && Distinct(Selected(nodes))
    ensures forall i :: 0 <= i < |nodes| ==> (i in Selected(nodes) <==> Eligible(nodes[i]))
    ensures var s := |Query(nodes, ScriptWithSrc)|;
      && (forall k :: 0 <= k < s ==> Matches(ScriptWithSrc, nodes[Selected(nodes)[k]]))
      && (forall k :: s <= k < |Selected(nodes)| ==> Matches(StylesheetWithHref, nodes[Selected(nodes)[k]]))
      && Increasing(Selected(nodes)[..s]) && Increasing(Selected(nodes)[s..])
  {
    SelectedDistinct(nodes);
    SelectedEligible(nodes);
    var scripts, sheets := Query(nodes, ScriptWithSrc), Query(nodes, StylesheetWithHref);
    assert Selected(nodes)[..|scripts|] == scripts && Selected(nodes)[|scripts|..] == sheets;
  }

  /** Two documents whose elements match the selector alike give the same
      selection. */
  lemma {:induction false} QueryAgrees(a: seq<Node>, b: seq<Node>, sel: Selector)
    requires |a| == |b|
    requires forall i :: 0 <= i < |a| ==> (Matches(sel, a[i]) <==> Matches(sel, b[i]))
    ensures Query(a, sel) == Query(b, sel)
    decreases |a|
  {
    if a != [] {
      QueryAgrees(a[..|a| - 1], b[..|b| - 1], sel);
    }
  }

  // ---------------------------------------------------------------------
  // The loop

  /** Running the loop over `a + b` is running it over `a` and then, unless
      that failed, over `b` on the document `a` left. */
  lemma {:induction false} ProcessAppend(nodes: seq<Node>, a: seq<nat>, b: seq<nat>, step: Node -> Result<Node>)
    requires InRange(a, |nodes|) && InRange(b, |nodes|)
    ensures InRange(a + b, |nodes|)
    ensures var first := Process(nodes, a, step);
      Process(nodes, a + b, step) == if first.failure.Some? then first else Process(first.nodes, b, step)
    decreases |b|
  {
    assert InRange(a + b, |nodes|) by {
      forall k | 0 <= k < |a + b| ensures (a + b)[k] < |nodes| {
        if k < |a| { assert (a + b)[k] == a[k]; } else { assert (a + b)[k] == b[k - |a|]; }
      }
    }
    if b == [] {
      assert a + b == a;
    } else {
      var b' := b[..|b| - 1];
      assert (a + b)[..|a + b| - 1] == a + b';
      ProcessAppend(nodes, a, b', step);
    }
  }

  /** One more step of the loop: the elements of `pre`, then `i`. */
  lemma ProcessSnoc(nodes: seq<Node>, pre: seq<nat>, i: nat, step: Node -> Result<Node>)
    requires InRange(pre, |nodes|) && i < |nodes|
    ensures InRange(pre + [i], |nodes|)
    ensures var prev := Process(nodes, pre, step);
      Process(nodes, pre + [i], step) ==
        if prev.failure.Some? then prev
        else match step(prev.nodes[i])
          case Err(e) => Run(prev.nodes, Some(e))
          case Ok(m) => Run(prev.nodes[i := m], None)
  {
    assert (pre + [i])[..|pre|] == pre;
  }

  /** A list seen around its `k`-th entry. */
  lemma SplitAround(idxs: seq<nat>, k: nat)
    requires k < |idxs|
    ensures idxs[..k + 1] == idxs[..k] + [idxs[k]]
    ensures idxs == idxs[..k] + [idxs[k]] + idxs[k + 1..]
  {
  }

  /** The loop after the elements of `pre` have succeeded: the step on `i`
      either extends the run by one element, or fails, and then the run
      stops there whatever follows. */
  lemma ProcessNext(nodes: seq<Node>, pre: seq<nat>, i: nat, rest: seq<nat>, step: Node -> Result<Node>)
    requires InRange(pre, |nodes|) && i < |nodes| && InRange(rest, |nodes|)
    requires Process(nodes, pre, step).failure.None?
    ensures InRange(pre + [i], |nodes|) && InRange(pre + [i] + rest, |nodes|)
    ensures var prev := Process(nodes, pre, step).nodes;
      match step(prev[i])
      case Ok(m) => Process(nodes, pre + [i], step) == Run(prev[i := m], None)
      case Err(e) => Process(nodes, pre + [i] + rest, step) == Run(prev, Some(e))
  {
    ProcessSnoc(nodes, pre, i, step);
    ProcessAppend(nodes, pre + [i], rest, step);
  }

  /** Every listed element resolves. */
  predicate AllResolve(nodes: seq<Node>, idxs: seq<nat>, step: Node -> Result<Node>)
    requires InRange(idxs, |nodes|)
  {
    forall k :: 0 <= k < |idxs| ==> step(nodes[idxs[k]]).Ok?
  }

  /** What the loop does, for a list of distinct positions: it never
      touches an unlisted element; it succeeds exactly when every listed
      element resolves, and then every listed element is annotated. */
  lemma {:induction false} ProcessSucceeds(nodes: seq<Node>, idxs: seq<nat>, step: Node -> Result<Node>)
    requires InRange(idxs, |nodes|) && Distinct(idxs)
    ensures var run := Process(nodes, idxs, step);
      && (forall j :: 0 <= j < |nodes| && j !in idxs ==> run.nodes[j] == nodes[j])
      && (run.failure.None? <==> AllResolve(nodes, idxs, step))
      && (run.failure.None? ==>
            forall k :: 0 <= k < |idxs| ==> run.nodes[idxs[k]] == step(nodes[idxs[k]]).value)
    decreases |idxs|
  {
    if idxs != [] {
      var pre := idxs[..|idxs| - 1];
      var i := idxs[|idxs| - 1];
      assert forall k :: 0 <= k < |pre| ==> pre[k] == idxs[k] && pre[k] != i;
      ProcessSucceeds(nodes, pre, step);
      var prev := Process(nodes, pre, step);
      if prev.failure.None? {
        assert prev.nodes[i] == nodes[i];
        if step(nodes[i]).Err? {
          assert !AllResolve(nodes, idxs, step) by { assert idxs[|pre|] == i; }
        }
      } else {
        assert !AllResolve(nodes, idxs, step);
      }
    }
  }

  /** When the loop fails, the failure is that of the first listed element
      that does not resolve. */
  lemma {:induction false} ProcessFailsAtFirst(nodes: seq<Node>, idxs: seq<nat>, step: Node -> Result<Node>)
    requires InRange(idxs, |nodes|) && Distinct(idxs)
    ensures var run := Process(nodes, idxs, step);
      run.failure.Some? ==>
        exists k :: (0 <= k < |idxs|
          && step(nodes[idxs[k]]) == Err(run.failure.value)
          && forall k' :: 0 <= k' < k ==> step(nodes[idxs[k']]).Ok?)
    decreases |idxs|
  {
    if idxs != [] {
      var pre := idxs[..|idxs| - 1];
      var i := idxs[|idxs| - 1];
      assert forall k :: 0 <= k < |pre| ==> pre[k] == idxs[k];
      var prev := Process(nodes, pre, step);
      var run := Process(nodes, idxs, step);
      if prev.failure.None? {
        ProcessSucceeds(nodes, pre, step);
        assert forall k :: 0 <= k < |pre| ==> pre[k] != i;
        assert prev.nodes[i] == nodes[i];
        if run.failure.Some? {
          assert step(nodes[idxs[|pre|]]) == Err(run.failure.value);
        }
      } else {
        ProcessFailsAtFirst(nodes, pre, step);
        var k :| 0 <= k < |pre| && step(nodes[pre[k]]) == Err(prev.failure.value)
                 && forall k' :: 0 <= k' < k ==> step(nodes[pre[k']]).Ok?;
        assert step(nodes[idxs[k]]).Err?;
      }
    }
  }

  // ---------------------------------------------------------------------
  // The transform

  /** A successful transform annotates every eligible element and leaves the
      others as they were; it succeeds exactly when every eligible element
      resolves. */
  lemma TransformAnnotatesEligible(nodes: seq<Node>, env: Env)
    ensures Transform(nodes, env).Ok? <==>
            forall i :: 0 <= i < |nodes| && Eligible(nodes[i]) ==> Annotated(nodes[i], env).Ok?
    ensures Transform(nodes, env).Ok? ==>
      var out := Transform(nodes, env).value;
      && |out| == |nodes|
      && forall i :: 0 <= i < |nodes| ==>
           out[i] == if Eligible(nodes[i]) then Annotated(nodes[i], env).value else nodes[i]
  {
    SelectedOnce(nodes);
    ProcessSucceeds(nodes, Selected(nodes), Step(env));
    var sel := Selected(nodes);
    if forall i :: 0 <= i < |nodes| && Eligible(nodes[i]) ==> Annotated(nodes[i], env).Ok? {
      assert forall k :: 0 <= k < |sel| ==> Eligible(nodes[sel[k]]);
    } else {
      var i :| 0 <= i < |nodes| && Eligible(nodes[i]) && Annotated(nodes[i], env).Err?;
      var k :| 0 <= k < |sel| && sel[k] == i;
    }
  }

  /** A failed transform reports the failure of the first selected element
      that does not resolve, scripts taken before stylesheets. */
  lemma TransformFailsAtFirst(nodes: seq<Node>, env: Env)
    ensures Transform(nodes, env).Err? ==>
      var sel := Selected(nodes);
      exists k :: 0 <= k < |sel|
        && Annotated(nodes[sel[k]], env) == Err(Transform(nodes, env).error)
        && forall k' :: 0 <= k' < k ==> Annotated(nodes[sel[k']], env).Ok?
  {
    SelectedOnce(nodes);
    ProcessFailsAtFirst(nodes, Selected(nodes), Step(env));
  }

  /** What annotating one element means: it succeeds exactly when its
      reference attribute exists and its path resolves; then the tag stays,
      `integrity` is the only attribute added or changed and holds the value
      of the resolved content; otherwise the failure is that of the reading
      or of the resolution. */
  lemma AnnotatedSpec(n: Node, env: Env)
    ensures var r := Annotated(n, env);
      var path := ReferencePath(n.attribs);
      && (r.Ok? <==> path.Ok? && Resolve(path.value, env.base, env.bundle, env.fetch).Ok?)
      && (r.Ok? ==>
            && r.value.tag == n.tag
            && r.value.attribs.Keys == n.attribs.Keys + {"integrity"}
            && r.value.attribs["integrity"]
               == IntegrityValue(Resolve(path.value, env.base, env.bundle, env.fetch).value, env.prims)
            && forall a :: a in n.attribs && a != "integrity" ==> r.value.attribs[a] == n.attribs[a])
      && (r.Err? && path.Err? ==> r.error == path.error)
      && (r.Err? && path.Ok? ==> r.error == Resolve(path.value, env.base, env.bundle, env.fetch).error)
  {
  }

  /** Annotating an annotated element again changes nothing: the reference
      attribute is never `integrity`, so the same content is resolved and
      the same value overwrites the old one. */
  lemma AnnotatedIdempotent(n: Node, env: Env)
    requires Annotated(n, env).Ok?
    ensures Annotated(Annotated(n, env).value, env) == Annotated(n, env)
  {
    var m := Annotated(n, env).value;
    var v := m.attribs["integrity"];
    assert m.attribs == n.attribs["integrity" := v];
    assert ReferencePath(m.attribs) == ReferencePath(n.attribs);
    assert m.attribs["integrity" := v] == m.attribs;
  }

  /** Running the transform on its own output returns that output again:
      integrity attributes are overwritten with the same values, never
      duplicated. */
  lemma TransformIdempotent(nodes: seq<Node>, env: Env)
    requires Transform(nodes, env).Ok?
    ensures Transform(Transform(nodes, env).value, env) == Transform(nodes, env)
  {
    var out := Transform(nodes, env).value;
    TransformAnnotatesEligible(nodes, env);
    forall i | 0 <= i < |nodes|
      ensures (Matches(ScriptWithSrc, nodes[i]) <==> Matches(ScriptWithSrc, out[i]))
      ensures (Matches(StylesheetWithHref, nodes[i]) <==> Matches(StylesheetWithHref, out[i]))
      ensures Eligible(out[i]) ==> Annotated(out[i], env) == Ok(out[i])
    {
      if Eligible(nodes[i]) {
        AnnotatedIdempotent(nodes[i], env);
      }
    }
    QueryAgrees(nodes, out, ScriptWithSrc);
    QueryAgrees(nodes, out, StylesheetWithHref);
    TransformAnnotatesEligible(out, env);
    var again := Transform(out, env).value;
    assert again == out;
  }
}
