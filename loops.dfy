/** The loop extractor (render-templates.js, getLoopNodes, renderLoop and
    extractLoops). The source writes each loop's generated name onto the node
    itself; here the names form a side table from node position to name,
    which extraction returns and rendering reads. */
module Loops {
  import opened Wrappers
  import opened Text
  import opened Bindings
  import opened Ast

  /** A collected loop node together with its position. */
  datatype LoopSite = LoopSite(path: Path, node: Node)

  /** getLoopNodes: the loop nodes of the subtree at `path`, in pre-order, not
      looking inside a loop node. */
  function GetLoopNodes(node: Node, path: Path): seq<LoopSite>
    decreases node, 1, 0
  {
    if IsLoop(node) then [LoopSite(path, node)]
    else match node
      case Text(_) => []
      case Tag(_, _, _) => ChildLoops(node, path, 0)
  }

  /** The reduce over `children[k..]` in getLoopNodes. */
  function ChildLoops(parent: Node, path: Path, k: nat): seq<LoopSite>
    requires parent.Tag?
    decreases parent, 0, |parent.children| - k
  {
    if k >= |parent.children| then []
    else GetLoopNodes(parent.children[k], path + [k]) + ChildLoops(parent, path, k + 1)
  }

  /** `q` lies at or below `path`. */
  predicate Below(path: Path, q: Path) {
    |path| <= |q| && q[..|path|] == path
  }

  /** Every collected node is a loop node at the recorded position, with no
      loop node above it: a loop inside a loop is never collected. */
  lemma {:induction false} GetLoopNodesSound(node: Node, path: Path)
    ensures forall i :: 0 <= i < |GetLoopNodes(node, path)| ==>
      var s := GetLoopNodes(node, path)[i];
      Below(path, s.path) && TopLoopAt(node, s.path[|path|..], s.node)
    decreases node, 1, 0
  {
    if !IsLoop(node) && node.Tag? {
      var sites := ChildLoops(node, path, 0);
      ChildLoopsSound(node, path, 0);
      forall i | 0 <= i < |sites|
        ensures Below(path, sites[i].path) && TopLoopAt(node, sites[i].path[|path|..], sites[i].node)
      {
        var q := sites[i].path;
        var r := q[|path|..];
        assert r[0] == q[|path|] && r[1..] == q[|path| + 1..];
      }
    }
  }

  lemma {:induction false} ChildLoopsSound(parent: Node, path: Path, k: nat)
    requires parent.Tag?
    ensures forall i :: 0 <= i < |ChildLoops(parent, path, k)| ==>
      var s := ChildLoops(parent, path, k)[i];
      |path| < |s.path| && s.path[..|path|] == path &&
      k <= s.path[|path|] < |parent.children| &&
      TopLoopAt(parent.children[s.path[|path|]], s.path[|path| + 1..], s.node)
    decreases parent, 0, |parent.children| - k
  {
    if k < |parent.children| {
      var child := parent.children[k];
      var a := GetLoopNodes(child, path + [k]);
      var b := ChildLoops(parent, path, k + 1);
      GetLoopNodesSound(child, path + [k]);
      ChildLoopsSound(parent, path, k + 1);
      forall i | 0 <= i < |a|
        ensures |path| < |a[i].path| && a[i].path[..|path|] == path && a[i].path[|path|] == k
      {
        assert a[i].path[..|path| + 1] == path + [k];
        assert a[i].path[..|path|] == (path + [k])[..|path|];
      }
      assert forall i :: 0 <= i < |a| ==> (a + b)[i] == a[i];
      assert forall i :: |a| <= i < |a + b| ==> (a + b)[i] == b[i - |a|];
    }
  }

  /** Every loop node that a traversal stopping at loop nodes reaches is
      collected, with its position. */
  lemma {:induction false} GetLoopNodesComplete(node: Node, path: Path, rel: Path, n: Node)
    requires TopLoopAt(node, rel, n)
    ensures LoopSite(path + rel, n) in GetLoopNodes(node, path)
    decreases node, 1, 0
  {
    if rel == [] {
      assert path + rel == path;
    } else {
      ChildLoopsComplete(node, path, 0, rel[0], rel[1..], n);
      assert path + [rel[0]] + rel[1..] == path + rel;
    }
  }

  lemma {:induction false} ChildLoopsComplete(parent: Node, path: Path, k: nat, j: nat, rel: Path, n: Node)
    requires parent.Tag? && k <= j < |parent.children|
    requires TopLoopAt(parent.children[j], rel, n)
    ensures LoopSite(path + [j] + rel, n) in ChildLoops(parent, path, k)
    decreases parent, 0, |parent.children| - k
  {
    if j == k {
      GetLoopNodesComplete(parent.children[j], path + [j], rel, n);
    } else {
      ChildLoopsComplete(parent, path, k + 1, j, rel, n);
    }
  }

  /** The collected nodes come in pre-order; in particular no node is
      collected twice. */
  lemma {:induction false} GetLoopNodesOrdered(node: Node, path: Path)
    ensures forall i, j :: 0 <= i < j < |GetLoopNodes(node, path)| ==>
      Before(GetLoopNodes(node, path)[i].path, GetLoopNodes(node, path)[j].path)
    decreases node, 1, 0
  {
    if !IsLoop(node) && node.Tag? {
      ChildLoopsOrdered(node, path, 0);
    }
  }

  lemma {:induction false} ChildLoopsOrdered(parent: Node, path: Path, k: nat)
    requires parent.Tag?
    ensures forall i, j :: 0 <= i < j < |ChildLoops(parent, path, k)| ==>
      Before(ChildLoops(parent, path, k)[i].path, ChildLoops(parent, path, k)[j].path)
    decreases parent, 0, |parent.children| - k
  {
    if k < |parent.children| {
      var child := parent.children[k];
      var a := GetLoopNodes(child, path + [k]);
      var b := ChildLoops(parent, path, k + 1);
      GetLoopNodesOrdered(child, path + [k]);
      ChildLoopsOrdered(parent, path, k + 1);
      ChildLoopsSound(parent, path, k);
      ChildLoopsSound(parent, path, k + 1);
      GetLoopNodesSound(child, path + [k]);
      var ab := a + b;
      assert ab == ChildLoops(parent, path, k);
      forall i, j | 0 <= i < j < |ab| ensures Before(ab[i].path, ab[j].path) {
        if j < |a| {
          assert ab[i] == a[i] && ab[j] == a[j];
        } else if i >= |a| {
          assert ab[i] == b[i - |a|] && ab[j] == b[j - |a|];
        } else {
          assert ab[i] == a[i] && ab[j] == b[j - |a|];
          assert a[i].path[..|path| + 1] == path + [k];
          assert ab[i].path[|path|] == k;
          BeforeAt(ab[i].path, ab[j].path, |path|);
        }
      }
    }
  }

  /** No position occurs twice: each site's position differs from those of
      all the sites before it. */
  predicate DistinctPaths(sites: seq<LoopSite>)
    decreases |sites|
  {
    sites == [] ||
    (DistinctPaths(sites[..|sites| - 1]) && sites[|sites| - 1].path !in SitePaths(sites[..|sites| - 1]))
  }

  /** Positions listed in pre-order are distinct. */
  lemma {:induction false} LoopPathsDistinct(sites: seq<LoopSite>)
    requires forall i, j :: 0 <= i < j < |sites| ==> Before(sites[i].path, sites[j].path)
    ensures DistinctPaths(sites)
    decreases |sites|
  {
    if sites != [] {
      var n := |sites| - 1;
      var init := sites[..n];
      forall i, j | 0 <= i < j < |init| ensures Before(init[i].path, init[j].path) {
        assert init[i] == sites[i] && init[j] == sites[j];
      }
      LoopPathsDistinct(init);
      SitePathsHas(init, sites[n].path);
      if sites[n].path in SitePaths(init) {
        var i :| 0 <= i < |init| && init[i].path == sites[n].path;
        assert Before(sites[i].path, sites[n].path);
        BeforeIrreflexive(sites[n].path);
      }
    }
  }

  /** The name given to the i-th collected loop node: `loop${i}`. */
  function LoopVar(i: nat): string {
    "loop" + NatToString(i)
  }

  /** The name of the i-th loop node is `loop` followed by the decimal
      numeral of i. */
  lemma LoopVarValue(i: nat)
    ensures |LoopVar(i)| > 4 && LoopVar(i)[..4] == "loop"
    ensures forall k :: 4 <= k < |LoopVar(i)| ==> IsDigit(LoopVar(i)[k])
    ensures DecimalValue(LoopVar(i)[4..]) == i
  {
    assert LoopVar(i)[4..] == NatToString(i);
    NatToStringValue(i);
  }

  /** Generated names are never reused. */
  lemma LoopVarInjective(i: nat, j: nat)
    ensures LoopVar(i) == LoopVar(j) ==> i == j
  {
    if LoopVar(i) == LoopVar(j) {
      assert NatToString(i) == LoopVar(i)[4..] == LoopVar(j)[4..] == NatToString(j);
      NatToStringInjective(i, j);
    }
  }

  /** The names extraction writes: the i-th site's position is given
      `LoopVar(i)`, one site after another. */
  function LoopNames(sites: seq<LoopSite>): map<Path, string>
    decreases |sites|
  {
    if sites == [] then map[]
    else LoopNames(sites[..|sites| - 1])[sites[|sites| - 1].path := LoopVar(|sites| - 1)]
  }

  /** The set of positions of `sites`. */
  function SitePaths(sites: seq<LoopSite>): set<Path>
    decreases |sites|
  {
    if sites == [] then {} else SitePaths(sites[..|sites| - 1]) + {sites[|sites| - 1].path}
  }

  /** A position is in the set exactly when some site has it. */
  lemma {:induction false} SitePathsHas(sites: seq<LoopSite>, p: Path)
    ensures p in SitePaths(sites) <==> exists i :: 0 <= i < |sites| && sites[i].path == p
    decreases |sites|
  {
    if sites != [] {
      var n := |sites| - 1;
      var init := sites[..n];
      SitePathsHas(init, p);
      if p in SitePaths(init) {
        var i :| 0 <= i < |init| && init[i].path == p;
        assert sites[i] == init[i];
      }
      if exists i :: 0 <= i < |sites| && sites[i].path == p {
        var i :| 0 <= i < |sites| && sites[i].path == p;
        if i < n {
          assert init[i] == sites[i];
        }
      }
    }
  }

  /** Naming is dense and touches only the collected nodes: the i-th site is
      named `loop{i}` and no other position gets a name. */
  lemma {:induction false} LoopNamesDense(sites: seq<LoopSite>)
    requires DistinctPaths(sites)
    ensures LoopNames(sites).Keys == SitePaths(sites)
    ensures forall i :: 0 <= i < |sites| ==>
      sites[i].path in LoopNames(sites) && LoopNames(sites)[sites[i].path] == LoopVar(i)
    decreases |sites|
  {
    if sites != [] {
      var n := |sites| - 1;
      var init := sites[..n];
      LoopNamesDense(init);
      var names := LoopNames(init);
      var last := sites[n].path;
      assert LoopNames(sites) == names[last := LoopVar(n)];
      forall i | 0 <= i < |sites|
        ensures sites[i].path in LoopNames(sites) && LoopNames(sites)[sites[i].path] == LoopVar(i)
      {
        if i < n {
          assert init[i] == sites[i];
          SitePathsHas(init, sites[i].path);
          assert sites[i].path != last;
          assert names[sites[i].path] == LoopVar(i);
        }
      }
    }
  }

  /** One level of indentation of the emitted code. */
  const Indent: string := "  "

  /** The attributes renderLoop reads are present, and the template name is
      a key of tagToVar. */
  predicate LoopReady(node: Node, tagToVar: map<string, string>) {
    node.Tag? &&
    AttrValue(node.attrs, TemplateNameAttr).Some? &&
    AttrValue(node.attrs, TemplateNameAttr).value in tagToVar &&
    AttrValue(node.attrs, ArrayAttr).Some? &&
    AttrValue(node.attrs, KeyAttr).Some?
  }

  /** Every loop node in `node` that a traversal stopping at loop nodes
      reaches is ready to be rendered. */
  predicate LoopsReady(node: Node, tagToVar: map<string, string>)
    decreases node
  {
    if IsLoop(node) then LoopReady(node, tagToVar)
    else node.Tag? ==> forall k :: 0 <= k < |node.children| ==> LoopsReady(node.children[k], tagToVar)
  }

  /** A reached loop node of a ready tree is ready. */
  lemma {:induction false} ReadyAlong(t: Node, p: Path, n: Node, tagToVar: map<string, string>)
    requires LoopsReady(t, tagToVar) && TopLoopAt(t, p, n)
    ensures LoopReady(n, tagToVar)
    decreases |p|
  {
    if p != [] {
      ReadyAlong(t.children[p[0]], p[1..], n, tagToVar);
    }
  }

  /** Every loop node collected from a ready body is ready. */
  lemma SitesOfReadyBody(body: Node, tagToVar: map<string, string>)
    requires LoopsReady(body, tagToVar)
    ensures forall i :: 0 <= i < |GetLoopNodes(body, [])| ==> LoopReady(GetLoopNodes(body, [])[i].node, tagToVar)
  {
    var sites := GetLoopNodes(body, []);
    GetLoopNodesSound(body, []);
    forall i | 0 <= i < |sites| ensures LoopReady(sites[i].node, tagToVar) {
      assert sites[i].path[0..] == sites[i].path;
      ReadyAlong(body, sites[i].path, sites[i].node, tagToVar);
    }
  }

  /** `attrs[ARRAY].replace(STRICT_PATTERN, '$1').trim()`. */
  function ArrayExpression(v: string): (r: string)
    ensures r != [] ==> !IsSpace(r[0]) && !IsSpace(r[|r| - 1])
    ensures !IsStrict(v) ==> r == Trim(v)
  {
    Trim(if IsStrict(v) then StrictExpr(v) else v)
  }

  /** The strict braces come off the array expression. */
  lemma ArrayExpressionStrict(v: string, raw: string)
    requires v == "{{" + raw + "}}"
    requires forall m :: 0 <= m < |raw| ==> !PairAt(raw + "}}", m, '}')
    ensures ArrayExpression(v) == Trim(raw)
  {
    StrictShape(v, raw);
    TrimIdempotent(raw);
  }

  /** The three-line statement that binds one loop's elements:
        `  const V = A.map(e => (`
        `    <C { ...e } key={ e.K } />`
        `  ));` */
  function LoopStatement(node: Node, varName: string, tagToVar: map<string, string>): string {
    var attrs := if node.Tag? then node.attrs else [];
    var c := Lookup(tagToVar, AttrOr(attrs, TemplateNameAttr));
    var a := ArrayExpression(AttrOr(attrs, ArrayAttr));
    var k := AttrOr(attrs, KeyAttr);
    Indent + "const " + varName + " = " + a + ".map(e => (\n" +
    Indent + Indent + "<" + c + " { ...e }" + " key={ e." + k + " }" + " />\n" +
    Indent + "));\n"
  }

  /** renderLoop, building its text piece by piece as the source does. */
  method RenderLoop(node: Node, varName: string, tagToVar: map<string, string>) returns (component: string)
    requires LoopReady(node, tagToVar)
    ensures component == LoopStatement(node, varName, tagToVar)
  {
    var componentVarName := tagToVar[AttrValue(node.attrs, TemplateNameAttr).value];
    var arrayName := ArrayExpression(AttrValue(node.attrs, ArrayAttr).value);
    component := Indent + "const " + varName + " = " + arrayName + ".map(e => (\n";
    component := component + Indent + Indent + "<" + componentVarName;
    component := component + " { ...e }";
    component := component + " key={ e." + AttrValue(node.attrs, KeyAttr).value + " }";
    component := component + " />\n" + Indent + "));\n";
  }

  /** The text extraction emits for `sites`: their statements in order, the
      i-th bound to `LoopVar(i)`. */
  function LoopBindings(sites: seq<LoopSite>, tagToVar: map<string, string>): string
    decreases |sites|
  {
    if sites == [] then ""
    else
      var n := |sites| - 1;
      LoopBindings(sites[..n], tagToVar) + LoopStatement(sites[n].node, LoopVar(n), tagToVar)
  }

  lemma LoopBindingsSnoc(sites: seq<LoopSite>, i: nat, tagToVar: map<string, string>)
    requires i < |sites|
    ensures LoopBindings(sites[..i + 1], tagToVar) ==
      LoopBindings(sites[..i], tagToVar) + LoopStatement(sites[i].node, LoopVar(i), tagToVar)
  {
    var init := sites[..i + 1];
    assert init[..i] == sites[..i];
    assert init[i] == sites[i];
  }

  lemma LoopNamesSnoc(sites: seq<LoopSite>, i: nat)
    requires i < |sites|
    ensures LoopNames(sites[..i + 1]) == LoopNames(sites[..i])[sites[i].path := LoopVar(i)]
  {
    assert sites[..i + 1][..i] == sites[..i];
  }

  /** What extraction leaves in the side table for `body`: exactly the
      collected positions are named, the i-th one `loop{i}`, and no two share
      a name. */
  lemma LoopNamesOfBody(body: Node)
    ensures LoopNames(GetLoopNodes(body, [])).Keys == SitePaths(GetLoopNodes(body, []))
    ensures forall i :: 0 <= i < |GetLoopNodes(body, [])| ==>
      GetLoopNodes(body, [])[i].path in LoopNames(GetLoopNodes(body, [])) &&
      LoopNames(GetLoopNodes(body, []))[GetLoopNodes(body, [])[i].path] == LoopVar(i)
    ensures forall i, j :: 0 <= i < |GetLoopNodes(body, [])| && 0 <= j < |GetLoopNodes(body, [])| && i != j ==>
      LoopNames(GetLoopNodes(body, []))[GetLoopNodes(body, [])[i].path] !=
      LoopNames(GetLoopNodes(body, []))[GetLoopNodes(body, [])[j].path]
  {
    var sites := GetLoopNodes(body, []);
    GetLoopNodesOrdered(body, []);
    LoopPathsDistinct(sites);
    LoopNamesDense(sites);
    forall i, j | 0 <= i < |sites| && 0 <= j < |sites| && i != j
      ensures LoopVar(i) != LoopVar(j)
    {
      LoopVarInjective(i, j);
    }
  }

  /** extractLoops: numbers the loop nodes of `body` in pre-order, records
      each one's name, and emits one statement per loop node. */
  method ExtractLoops(body: Node, tagToVar: map<string, string>) returns (rendered: string, names: map<Path, string>)
    requires LoopsReady(body, tagToVar)
    ensures rendered == LoopBindings(GetLoopNodes(body, []), tagToVar)
    ensures names == LoopNames(GetLoopNodes(body, []))
  {
    var loopNodes := GetLoopNodes(body, []);
    SitesOfReadyBody(body, tagToVar);
    rendered, names := "", map[];
    var i := 0;
    while i < |loopNodes|
      invariant 0 <= i <= |loopNodes|
      invariant rendered == LoopBindings(loopNodes[..i], tagToVar)
      invariant names == LoopNames(loopNodes[..i])
    {
      var varName := LoopVar(i);
      names := names[loopNodes[i].path := varName];
      var renderedLoop := RenderLoop(loopNodes[i].node, varName, tagToVar);
      rendered := rendered + renderedLoop;
      LoopBindingsSnoc(loopNodes, i, tagToVar);
      LoopNamesSnoc(loopNodes, i);
      i := i + 1;
    }
    assert loopNodes[..i] == loopNodes;
  }
}
