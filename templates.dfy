/** The template renderer and the template set renderer (render-templates.js,
    extractJsx, renderTemplate, renderDefaultTemplate, renderNamedTemplate and
    renderTemplates). Loop extraction runs over a template's body before the
    body is rendered, and rendering reads the names extraction produced. */
module Templates {
  import opened Wrappers
  import opened Ast
  import opened Loops
  import opened Jsx

  /** extractJsx: the body at a four-space indent inside `return ( ... );`. */
  function ExtractJsx(body: Node, tagToVar: map<string, string>, toJsx: string -> string,
                      names: map<Path, string>): (r: string)
    requires LoopsNamed(body, [], names)
    ensures |r| > 20 && r[..15] == "  return (\n    " && r[|r| - 6..] == "\n  );\n"
  {
    var jsx := RenderJsxNode(body, tagToVar, toJsx, names, [], Indent + Indent);
    assert jsx[..4] == "    ";
    Indent + "return (\n" + jsx + Indent + ");\n"
  }

  /** A side table that names every collected loop node of `body` names
      every loop node that rendering `body` reaches. */
  lemma ExtractedNamesCoverRendering(body: Node, names: map<Path, string>)
    requires names.Keys == SitePaths(GetLoopNodes(body, []))
    ensures LoopsNamed(body, [], names)
  {
    forall q, n | TopLoopAt(body, q, n) ensures [] + q in names {
      GetLoopNodesComplete(body, [], q, n);
      var sites := GetLoopNodes(body, []);
      var i :| 0 <= i < |sites| && sites[i] == LoopSite([] + q, n);
      SitePathsHas(sites, sites[i].path);
    }
  }

  /** The names loop extraction gives a body cover every loop node that
      rendering the body reaches. */
  lemma BodyNamesCoverRendering(body: Node)
    ensures LoopsNamed(body, [], LoopNames(GetLoopNodes(body, [])))
  {
    LoopNamesOfBody(body);
    ExtractedNamesCoverRendering(body, LoopNames(GetLoopNodes(body, [])));
  }

  /** What renderTemplate demands of a container: a first child (the
      template body) whose loop nodes carry their attributes. */
  predicate TemplateReady(container: Node, tagToVar: map<string, string>) {
    HasBody(container) && LoopsReady(container.children[0], tagToVar)
  }

  /** The container has a first child: the template body. */
  predicate HasBody(container: Node) {
    container.Tag? && |container.children| > 0
  }

  /** The text renderTemplate returns for `container`: the loop statements
      of its body, then the return block rendered with the names extraction
      gives the body (TemplateContentParts). */
  function TemplateContent(container: Node, tagToVar: map<string, string>, toJsx: string -> string): string
    requires HasBody(container)
  {
    ContentAfter(container, tagToVar, toJsx, |container.children|)
  }

  /** The template text, reached after `layers` unfoldings that change
      nothing (ContentAfterAny). This is a proof device only: Dafny expands a
      non-recursive function at every use, and the template text mentions the
      whole renderer, so the proofs about template sets (NamedSourcesAt,
      TemplateSetShape, RenderTemplates) would carry it everywhere. A
      recursion started at a count that is not a literal is expanded only on
      demand, here by TemplateContentParts. */
  function ContentAfter(container: Node, tagToVar: map<string, string>, toJsx: string -> string,
                        layers: nat): string
    requires HasBody(container)
    decreases layers
  {
    if layers > 0 then ContentAfter(container, tagToVar, toJsx, layers - 1)
    else
      var body := container.children[0];
      BodyNamesCoverRendering(body);
      LoopBindings(GetLoopNodes(body, []), tagToVar) +
      ExtractJsx(body, tagToVar, toJsx, LoopNames(GetLoopNodes(body, [])))
  }

  lemma {:induction false} ContentAfterAny(container: Node, tagToVar: map<string, string>,
                                           toJsx: string -> string, layers: nat)
    requires HasBody(container)
    ensures ContentAfter(container, tagToVar, toJsx, layers) == ContentAfter(container, tagToVar, toJsx, 0)
    decreases layers
  {
    if layers > 0 {
      ContentAfterAny(container, tagToVar, toJsx, layers - 1);
    }
  }

  /** A template's text is the loop statements of its body, in collection
      order, followed by the return block, which renders every loop node by
      the name extraction gave it. */
  lemma TemplateContentParts(container: Node, tagToVar: map<string, string>, toJsx: string -> string)
    requires HasBody(container)
    ensures LoopsNamed(container.children[0], [], LoopNames(GetLoopNodes(container.children[0], [])))
    ensures var body := container.children[0];
      TemplateContent(container, tagToVar, toJsx) ==
      LoopBindings(GetLoopNodes(body, []), tagToVar) +
      ExtractJsx(body, tagToVar, toJsx, LoopNames(GetLoopNodes(body, [])))
  {
    BodyNamesCoverRendering(container.children[0]);
    ContentAfterAny(container, tagToVar, toJsx, |container.children|);
  }

  /** renderTemplate: extraction first, then rendering with the names that
      extraction returned. */
  method RenderTemplate(container: Node, tagToVar: map<string, string>, toJsx: string -> string)
    returns (content: string)
    requires TemplateReady(container, tagToVar)
    ensures content == TemplateContent(container, tagToVar, toJsx)
  {
    var template := container.children[0];
    var renderedLoops, names := ExtractLoops(template, tagToVar);
    // Rendering may start only now: every loop node it reaches is named.
    BodyNamesCoverRendering(template);
    var jsx := ExtractJsx(template, tagToVar, toJsx, names);
    content := renderedLoops + jsx;
    TemplateContentParts(container, tagToVar, toJsx);
  }

  /** The header of the default template. */
  const DefaultHeader: string := "export default function(props) {\n"

  /** The header of a named template, up to its name. */
  const NamedHeader: string := "export function "

  /** The default template: an anonymous default-exported function. */
  function DefaultTemplate(content: string): string {
    DefaultHeader + content + "}\n"
  }

  /** A named template: an exported function called `varName`. */
  function NamedTemplate(varName: string, content: string): string {
    NamedHeader + varName + "(props) {\n" + content + "}\n"
  }

  /** The default template's text, and no named template's, is taken for
      the default export. */
  lemma ExportKinds(varName: string, content: string)
    ensures IsDefaultExport(DefaultTemplate(content))
    ensures !IsDefaultExport(NamedTemplate(varName, content))
  {
    var s := NamedTemplate(varName, content);
    assert s[7] == NamedHeader[7] == 'f';
    assert DefaultHeader[7] == 'd';
  }

  function DefaultTemplateSource(container: Node, tagToVar: map<string, string>, toJsx: string -> string): string
    requires HasBody(container)
  {
    DefaultTemplate(TemplateContent(container, tagToVar, toJsx))
  }

  /** The `name` attribute of a named template is present and resolves. */
  predicate NamedResolves(container: Node, tagToVar: map<string, string>) {
    container.Tag? &&
    AttrValue(container.attrs, "name").Some? && AttrValue(container.attrs, "name").value in tagToVar
  }

  /** What renderNamedTemplate demands: a `name` attribute that tagToVar
      resolves. */
  predicate NamedReady(container: Node, tagToVar: map<string, string>) {
    TemplateReady(container, tagToVar) && NamedResolves(container, tagToVar)
  }

  /** `tagToVar[template.attrs.name]`: the function name of a named template. */
  function NamedVar(container: Node, tagToVar: map<string, string>): string
    requires NamedResolves(container, tagToVar)
  {
    tagToVar[AttrValue(container.attrs, "name").value]
  }

  function NamedTemplateSource(container: Node, tagToVar: map<string, string>, toJsx: string -> string): string
    requires HasBody(container) && NamedResolves(container, tagToVar)
  {
    NamedTemplate(NamedVar(container, tagToVar), TemplateContent(container, tagToVar, toJsx))
  }

  /** renderDefaultTemplate. */
  method RenderDefaultTemplate(container: Node, tagToVar: map<string, string>, toJsx: string -> string)
    returns (r: string)
    requires TemplateReady(container, tagToVar)
    ensures r == DefaultTemplateSource(container, tagToVar, toJsx)
  {
    var content := RenderTemplate(container, tagToVar, toJsx);
    r := DefaultTemplate(content);
  }

  /** renderNamedTemplate. */
  method RenderNamedTemplate(container: Node, tagToVar: map<string, string>, toJsx: string -> string)
    returns (r: string)
    requires NamedReady(container, tagToVar)
    ensures r == NamedTemplateSource(container, tagToVar, toJsx)
  {
    var varName := tagToVar[AttrValue(container.attrs, "name").value];
    var content := RenderTemplate(container, tagToVar, toJsx);
    r := NamedTemplate(varName, content);
  }

  /** The text is the default template's: it starts with the default header. */
  predicate IsDefaultExport(s: string) {
    |s| >= |DefaultHeader| && s[..|DefaultHeader|] == DefaultHeader
  }

  /** Every named template can be rendered. */
  predicate AllNamedReady(nodes: seq<Node>, tagToVar: map<string, string>) {
    forall i :: 0 <= i < |nodes| ==> NamedReady(nodes[i], tagToVar)
  }

  /** Every named template has a body and a name that resolves. */
  predicate AllNamed(nodes: seq<Node>, tagToVar: map<string, string>) {
    forall i :: 0 <= i < |nodes| ==> HasBody(nodes[i]) && NamedResolves(nodes[i], tagToVar)
  }

  /** The texts of the first `n` named templates, in input order. */
  function NamedSources(nodes: seq<Node>, n: nat, tagToVar: map<string, string>, toJsx: string -> string): (r: seq<string>)
    requires AllNamed(nodes, tagToVar) && n <= |nodes|
    ensures |r| == n
    decreases n
  {
    if n == 0 then []
    else NamedSources(nodes, n - 1, tagToVar, toJsx) + [NamedTemplateSource(nodes[n - 1], tagToVar, toJsx)]
  }

  /** The i-th named text is the i-th named template's. */
  lemma {:induction false} NamedSourcesAt(nodes: seq<Node>, n: nat, tagToVar: map<string, string>, toJsx: string -> string)
    requires AllNamed(nodes, tagToVar) && n <= |nodes|
    ensures forall i :: 0 <= i < n ==>
      NamedSources(nodes, n, tagToVar, toJsx)[i] == NamedTemplateSource(nodes[i], tagToVar, toJsx)
    decreases n
  {
    if n > 0 {
      NamedSourcesAt(nodes, n - 1, tagToVar, toJsx);
      var prev := NamedSources(nodes, n - 1, tagToVar, toJsx);
      var last := NamedTemplateSource(nodes[n - 1], tagToVar, toJsx);
      assert NamedSources(nodes, n, tagToVar, toJsx) == prev + [last];
      forall i | 0 <= i < n - 1
        ensures (prev + [last])[i] == NamedTemplateSource(nodes[i], tagToVar, toJsx)
      {
        assert (prev + [last])[i] == prev[i];
      }
    }
  }

  /** The rendered set holds one text per named template, in input order,
      then the default template; the default export is the last text and no
      other. */
  lemma TemplateSetShape(defaultNode: Node, namedNodes: seq<Node>, tagToVar: map<string, string>,
                         toJsx: string -> string)
    requires HasBody(defaultNode) && AllNamed(namedNodes, tagToVar)
    ensures var r := NamedSources(namedNodes, |namedNodes|, tagToVar, toJsx) + [DefaultTemplateSource(defaultNode, tagToVar, toJsx)];
      |r| == |namedNodes| + 1 &&
      r[|namedNodes|] == DefaultTemplateSource(defaultNode, tagToVar, toJsx) &&
      (forall i :: 0 <= i < |namedNodes| ==> r[i] == NamedTemplateSource(namedNodes[i], tagToVar, toJsx)) &&
      (forall i :: 0 <= i < |r| ==> (IsDefaultExport(r[i]) <==> i == |namedNodes|))
  {
    NamedSourcesAt(namedNodes, |namedNodes|, tagToVar, toJsx);
    ExportKinds("", TemplateContent(defaultNode, tagToVar, toJsx));
    forall i | 0 <= i < |namedNodes| ensures !IsDefaultExport(NamedTemplateSource(namedNodes[i], tagToVar, toJsx)) {
      ExportKinds(NamedVar(namedNodes[i], tagToVar), TemplateContent(namedNodes[i], tagToVar, toJsx));
    }
  }

  /** renderTemplates: one function per named template, in input order, then
      the default template last. */
  method RenderTemplates(defaultNode: Node, namedNodes: seq<Node>, tagToVar: map<string, string>,
                         toJsx: string -> string) returns (rendered: seq<string>)
    requires TemplateReady(defaultNode, tagToVar)
    requires AllNamedReady(namedNodes, tagToVar)
    ensures rendered == NamedSources(namedNodes, |namedNodes|, tagToVar, toJsx) + [DefaultTemplateSource(defaultNode, tagToVar, toJsx)]
  {
    var renderedDefault := RenderDefaultTemplate(defaultNode, tagToVar, toJsx);
    var renderedNamed: seq<string> := [];
    var i := 0;
    while i < |namedNodes|
      invariant 0 <= i <= |namedNodes|
      invariant renderedNamed == NamedSources(namedNodes, i, tagToVar, toJsx)
    {
      var r := RenderNamedTemplate(namedNodes[i], tagToVar, toJsx);
      renderedNamed := renderedNamed + [r];
      i := i + 1;
    }
    rendered := renderedNamed + [renderedDefault];
  }
}
