/** The node renderer (render-templates.js, renderJsxText, renderJsxProps,
    renderJsxTag and renderJsxNode): one node and its descendants become
    indented JSX lines. The attribute-name mapper (attributeConversion.toJsx)
    is not part of this model and is taken as a function parameter. */
module Jsx {
  import opened Text
  import opened Bindings
  import opened Ast
  import opened Loops

  /** `tagToVar[name] || name`: the component variable of a tag, or the tag
      name itself when the table has no (or an empty) entry. */
  function ResolveTag(name: string, tagToVar: map<string, string>): string {
    if name in tagToVar && tagToVar[name] != "" then tagToVar[name] else name
  }

  /** renderJsxText: the value with each binding rewritten `{ e }`. */
  function RenderJsxText(value: string, indent: string): string {
    indent + (if HasBinding(value) then ReplaceBindings(value, "{") else value) + "\n"
  }

  /** A text node is its value with every binding written `{ e }` and every
      literal part kept; a value without bindings is kept whole. */
  lemma TextRendering(value: string, indent: string)
    ensures RenderJsxText(value, indent) == indent + Substitute(Segments(value), "{") + "\n"
    ensures !ContainsBinding(value) ==> RenderJsxText(value, indent) == indent + value + "\n"
  {
    if !HasBinding(value) {
      ReplacePlain(value, "{");
    }
  }

  /** The mapper of renderJsxProps: `toJsx(k)=value`, an absent or empty
      value read as `true`. */
  function RenderProp(attr: (string, string), toJsx: string -> string): string {
    toJsx(attr.0) + "=" + RenderAttrValue(DefaultValue(attr.1))
  }

  /** renderJsxProps: `Object.keys(attrs).map(mapper)`, then the reduce. */
  function RenderJsxProps(attrs: seq<(string, string)>, toJsx: string -> string): string {
    JoinProps(MapProps(attrs, toJsx))
  }

  /** `.map(mapper)` over the attributes in key order. */
  function MapProps(attrs: seq<(string, string)>, toJsx: string -> string): seq<string>
    decreases |attrs|
  {
    if attrs == [] then [] else [RenderProp(attrs[0], toJsx)] + MapProps(attrs[1..], toJsx)
  }

  /** `.reduce((a, b) => `${a} ${b}`, '')`: every prop preceded by a space. */
  function JoinProps(props: seq<string>): string
    decreases |props|
  {
    if props == [] then ""
    else JoinProps(props[..|props| - 1]) + " " + props[|props| - 1]
  }

  /** The map produces one prop per attribute, the i-th from the i-th. */
  lemma {:induction false} MapPropsAt(attrs: seq<(string, string)>, toJsx: string -> string)
    ensures |MapProps(attrs, toJsx)| == |attrs|
    ensures forall i :: 0 <= i < |attrs| ==> MapProps(attrs, toJsx)[i] == RenderProp(attrs[i], toJsx)
    decreases |attrs|
  {
    if attrs != [] {
      MapPropsAt(attrs[1..], toJsx);
      forall i | 0 <= i < |attrs| ensures MapProps(attrs, toJsx)[i] == RenderProp(attrs[i], toJsx) {
        if i > 0 {
          assert attrs[i] == attrs[1..][i - 1];
        }
      }
    }
  }

  /** Over distinct keys, the i-th prop is the mapper applied to the i-th
      key: `toJsx(k)` and the rendering of `attrs[k]`, defaulted to `true`. */
  lemma PropsByKey(attrs: seq<(string, string)>, toJsx: string -> string)
    requires DistinctKeys(attrs)
    ensures |MapProps(attrs, toJsx)| == |attrs|
    ensures forall i :: 0 <= i < |attrs| ==>
      AttrValue(attrs, attrs[i].0).Some? &&
      MapProps(attrs, toJsx)[i] ==
        toJsx(attrs[i].0) + "=" + RenderAttrValue(DefaultValue(AttrValue(attrs, attrs[i].0).value))
  {
    MapPropsAt(attrs, toJsx);
    forall i | 0 <= i < |attrs|
      ensures AttrValue(attrs, attrs[i].0).Some? &&
        MapProps(attrs, toJsx)[i] ==
          toJsx(attrs[i].0) + "=" + RenderAttrValue(DefaultValue(AttrValue(attrs, attrs[i].0).value))
    {
      DistinctLookup(attrs, i);
    }
  }

  /** The props of one attribute: a single space, then `name=value`. */
  lemma PropsSingle(attr: (string, string), toJsx: string -> string)
    ensures RenderJsxProps([attr], toJsx) == " " + RenderProp(attr, toJsx)
  {
    var p := RenderProp(attr, toJsx);
    assert [attr][1..] == [];
    assert MapProps([attr], toJsx) == [p];
    assert [p][..0] == [];
    assert JoinProps([p]) == "" + " " + p;
  }

  /** The map keeps the attributes' order: mapping a split list maps the
      two halves. */
  lemma {:induction false} MapAppend(a: seq<(string, string)>, b: seq<(string, string)>, toJsx: string -> string)
    ensures MapProps(a + b, toJsx) == MapProps(a, toJsx) + MapProps(b, toJsx)
    decreases |a|
  {
    if a == [] {
      assert a + b == b;
    } else {
      assert (a + b)[0] == a[0];
      assert (a + b)[1..] == a[1..] + b;
      MapAppend(a[1..], b, toJsx);
    }
  }

  /** The reduce over a split list is the two halves' reduces, one after
      the other. */
  lemma {:induction false} JoinAppend(a: seq<string>, b: seq<string>)
    ensures JoinProps(a + b) == JoinProps(a) + JoinProps(b)
    decreases |b|
  {
    if b == [] {
      assert a + b == a;
    } else {
      var n := |b| - 1;
      assert (a + b)[..|a + b| - 1] == a + b[..n];
      assert (a + b)[|a + b| - 1] == b[n];
      JoinAppend(a, b[..n]);
    }
  }

  /** Props are rendered attribute by attribute, in key order: the props of
      a split attribute list are the two halves' props, one after the other. */
  lemma PropsAppend(a: seq<(string, string)>, b: seq<(string, string)>, toJsx: string -> string)
    ensures RenderJsxProps(a + b, toJsx) == RenderJsxProps(a, toJsx) + RenderJsxProps(b, toJsx)
  {
    MapAppend(a, b, toJsx);
    JoinAppend(MapProps(a, toJsx), MapProps(b, toJsx));
  }

  /** Every loop node reached below `node` (without passing through another
      loop node) has a name in the side table. */
  ghost predicate LoopsNamed(node: Node, path: Path, names: map<Path, string>) {
    forall q, n :: TopLoopAt(node, q, n) ==> path + q in names
  }

  /** What holds for a node holds for each child of a non-loop tag. */
  lemma ChildLoopsNamed(parent: Node, path: Path, names: map<Path, string>, k: nat)
    requires parent.Tag? && !IsLoop(parent) && k < |parent.children|
    requires LoopsNamed(parent, path, names)
    ensures LoopsNamed(parent.children[k], path + [k], names)
  {
    forall q, n | TopLoopAt(parent.children[k], q, n) ensures path + [k] + q in names {
      var p := [k] + q;
      assert p[0] == k && p[1..] == q;
      assert TopLoopAt(parent, p, n);
      assert path + p == path + [k] + q;
    }
  }

  /** renderJsxNode: dispatch on the node type. Every rendered node begins
      with its indent and ends with a newline. */
  function RenderJsxNode(node: Node, tagToVar: map<string, string>, toJsx: string -> string,
                         names: map<Path, string>, path: Path, indent: string): (r: string)
    requires LoopsNamed(node, path, names)
    ensures |indent| < |r| && r[..|indent|] == indent && r[|r| - 1] == '\n'
    decreases node, 2, 0
  {
    match node
    case Text(value) => RenderJsxText(value, indent)
    case Tag(_, _, _) => RenderJsxTag(node, tagToVar, toJsx, names, path, indent)
  }

  /** renderJsxTag: a loop node becomes a reference to its generated name;
      any other tag opens with its resolved name and props, and either
      self-closes or wraps its children one level deeper. */
  function RenderJsxTag(node: Node, tagToVar: map<string, string>, toJsx: string -> string,
                        names: map<Path, string>, path: Path, indent: string): (r: string)
    requires node.Tag? && LoopsNamed(node, path, names)
    ensures |indent| < |r| && r[..|indent|] == indent && r[|r| - 1] == '\n'
    decreases node, 1, 0
  {
    if IsLoop(node) then
      assert TopLoopAt(node, [], node);
      assert path + [] == path;
      indent + ("{ " + names[path] + " }\n")
    else
      var name := ResolveTag(node.name, tagToVar);
      var openTag := "<" + name;
      var props := RenderJsxProps(node.attrs, toJsx);
      if |node.children| > 0 then
        var closingTag := "</" + name + ">";
        var children := RenderChildren(node, tagToVar, toJsx, names, path, 0, Indent + indent);
        indent + (openTag + props + ">\n" + children + indent + closingTag + "\n")
      else
        indent + (openTag + props + " />\n")
  }

  /** `children.map(child => renderJsxNode(child, ...)).join('')` from the
      k-th child on. */
  function RenderChildren(parent: Node, tagToVar: map<string, string>, toJsx: string -> string,
                          names: map<Path, string>, path: Path, k: nat, indent: string): string
    requires parent.Tag? && !IsLoop(parent) && LoopsNamed(parent, path, names)
    decreases parent, 0, |parent.children| - k
  {
    if k >= |parent.children| then ""
    else
      ChildLoopsNamed(parent, path, names, k);
      RenderJsxNode(parent.children[k], tagToVar, toJsx, names, path + [k], indent) +
      RenderChildren(parent, tagToVar, toJsx, names, path, k + 1, indent)
  }

  /** A loop node is replaced by `{ loopN }` and its children are not visited. */
  lemma LoopNodeRendering(node: Node, tagToVar: map<string, string>, toJsx: string -> string,
                          names: map<Path, string>, path: Path, indent: string)
    requires IsLoop(node) && path in names
    ensures LoopsNamed(node, path, names)
    ensures RenderJsxNode(node, tagToVar, toJsx, names, path, indent) == indent + ("{ " + names[path] + " }\n")
  {
    forall q, n | TopLoopAt(node, q, n) ensures path + q in names {
      assert q == [];
      assert path + q == path;
    }
  }

  /** A tag other than a loop node self-closes exactly when it has no
      children; otherwise its children come between `<N...>` and `</N>`, one
      level deeper. */
  lemma TagRendering(node: Node, tagToVar: map<string, string>, toJsx: string -> string,
                     names: map<Path, string>, path: Path, indent: string)
    requires node.Tag? && !IsLoop(node) && LoopsNamed(node, path, names)
    ensures var name := ResolveTag(node.name, tagToVar);
      var open := "<" + name + RenderJsxProps(node.attrs, toJsx);
      var r := RenderJsxNode(node, tagToVar, toJsx, names, path, indent);
      (r == indent + (open + " />\n") <==> node.children == []) &&
      (node.children != [] ==>
        r == indent + (open + ">\n" + RenderChildren(node, tagToVar, toJsx, names, path, 0, Indent + indent) +
                       indent + ("</" + name + ">") + "\n"))
  {
    var name := ResolveTag(node.name, tagToVar);
    var open := "<" + name + RenderJsxProps(node.attrs, toJsx);
    var r := RenderJsxNode(node, tagToVar, toJsx, names, path, indent);
    assert r == RenderJsxTag(node, tagToVar, toJsx, names, path, indent);
    if node.children != [] {
      var rest := open + ">\n" + RenderChildren(node, tagToVar, toJsx, names, path, 0, Indent + indent) +
                  indent + ("</" + name + ">") + "\n";
      assert r == indent + rest;
      assert r[|indent| + |open|] == rest[|open|] == '>';
      assert (indent + (open + " />\n"))[|indent| + |open|] == ' ';
    }
  }

  /** Each child of a tag is rendered at the indent one level deeper: the
      children's text starts with that indent and ends with a newline. */
  lemma ChildrenIndented(parent: Node, tagToVar: map<string, string>, toJsx: string -> string,
                         names: map<Path, string>, path: Path, k: nat, indent: string)
    requires parent.Tag? && !IsLoop(parent) && LoopsNamed(parent, path, names) && k < |parent.children|
    ensures var r := RenderChildren(parent, tagToVar, toJsx, names, path, k, indent);
      |indent| < |r| && r[..|indent|] == indent && r[|r| - 1] == '\n'
    decreases |parent.children| - k
  {
    ChildLoopsNamed(parent, path, names, k);
    var first := RenderJsxNode(parent.children[k], tagToVar, toJsx, names, path + [k], indent);
    var rest := RenderChildren(parent, tagToVar, toJsx, names, path, k + 1, indent);
    assert RenderChildren(parent, tagToVar, toJsx, names, path, k, indent) == first + rest;
    if k + 1 < |parent.children| {
      ChildrenIndented(parent, tagToVar, toJsx, names, path, k + 1, indent);
    } else {
      assert rest == [];
    }
    assert (first + rest)[..|indent|] == first[..|indent|];
  }

  /** Rendering reads the side table only at the loop nodes it reaches: two
      tables that agree there give the same text. */
  lemma {:induction false} RenderReadsOnlyReachedLoops(node: Node, tagToVar: map<string, string>, toJsx: string -> string,
                                                      names1: map<Path, string>, names2: map<Path, string>,
                                                      path: Path, indent: string)
    requires LoopsNamed(node, path, names1) && LoopsNamed(node, path, names2)
    requires forall q, n :: TopLoopAt(node, q, n) ==> names1[path + q] == names2[path + q]
    ensures RenderJsxNode(node, tagToVar, toJsx, names1, path, indent) ==
            RenderJsxNode(node, tagToVar, toJsx, names2, path, indent)
    decreases node, 1, 0
  {
    if IsLoop(node) {
      assert TopLoopAt(node, [], node);
      assert path + [] == path;
    } else if node.Tag? && |node.children| > 0 {
      ChildrenReadOnlyReachedLoops(node, tagToVar, toJsx, names1, names2, path, 0, Indent + indent);
    }
  }

  lemma {:induction false} ChildrenReadOnlyReachedLoops(parent: Node, tagToVar: map<string, string>, toJsx: string -> string,
                                                       names1: map<Path, string>, names2: map<Path, string>,
                                                       path: Path, k: nat, indent: string)
    requires parent.Tag? && !IsLoop(parent)
    requires LoopsNamed(parent, path, names1) && LoopsNamed(parent, path, names2)
    requires forall q, n :: TopLoopAt(parent, q, n) ==> names1[path + q] == names2[path + q]
    ensures RenderChildren(parent, tagToVar, toJsx, names1, path, k, indent) ==
            RenderChildren(parent, tagToVar, toJsx, names2, path, k, indent)
    decreases parent, 0, |parent.children| - k
  {
    if k < |parent.children| {
      var child := parent.children[k];
      ChildLoopsNamed(parent, path, names1, k);
      ChildLoopsNamed(parent, path, names2, k);
      forall q, n | TopLoopAt(child, q, n) ensures names1[path + [k] + q] == names2[path + [k] + q] {
        var p := [k] + q;
        assert p[0] == k && p[1..] == q;
        assert TopLoopAt(parent, p, n);
        assert path + p == path + [k] + q;
      }
      RenderReadsOnlyReachedLoops(child, tagToVar, toJsx, names1, names2, path + [k], indent);
      ChildrenReadOnlyReachedLoops(parent, tagToVar, toJsx, names1, names2, path, k + 1, indent);
    }
  }
}
