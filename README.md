# Template-to-JSX renderer, modelled in Dafny

This project models the rendering stage of an HTML-template-to-React
converter (`lib/ast-to-react/render-templates.js`). The stage takes a parsed
template tree and a name table `tagToVar`. The tree holds text nodes and tag
nodes; a tag node has a name, attributes and children. The stage emits
JavaScript source text: one exported component function per template.

The model is split into modules that follow the source's parts:

- `Text` (text.dfy): `trim`, `toLowerCase`, and the decimal numeral that
  `` `loop${i}` `` prints.
- `Bindings` (bindings.dfy): `{{ e }}` bindings inside a value. It covers
  cutting a value at its bindings, the strict and boolean recognisers, and
  the four-way, first-match-wins rendering of an attribute value (boolean,
  strict, interpolated, literal).
- `Ast` (ast.dfy): the tree, attribute lookup, and node positions (paths)
  with their pre-order.
- `Loops` (loops.dfy): `getLoopNodes`, `renderLoop` and `extractLoops`. The
  source writes each loop's generated name onto the loop node
  (`node.loopName`). Here extraction returns a side table from node position
  to name, and the node renderer reads that table.
- `Jsx` (jsx.dfy): `renderJsxText`, `renderJsxProps`, `renderJsxTag` and
  `renderJsxNode`.
- `Templates` (templates.dfy): `extractJsx`, `renderTemplate`,
  `renderDefaultTemplate`, `renderNamedTemplate` and `renderTemplates`.

The imperative parts of the source stay imperative:
- `renderLoop` builds its text by reassigning a local.
- `extractLoops` is a reduce that records names as it goes.
- `renderTemplates` maps over the named templates.

Each of those is a `method` with a loop or a sequence of updates. It is
proved equal to a specification function, and the properties of that
function are proved as lemmas. The recursive renderers are functions.

The main results:

- **Loop collection.** The collected loop nodes are exactly the loop nodes
  that a search stopping at loop nodes reaches. They come in pre-order, and
  none is collected twice.
- **Loop naming.** The i-th collected node is named `loop{i}`. These are the
  only names, and no two are equal.
- **Pass ordering.** Every loop node the renderer reaches has been named by
  extraction by the time `renderTemplate` renders the body. Rendering reads
  the table only at those nodes.
- **Attribute values.** Each of the four shapes is given exactly as written
  out. Cutting a value at its bindings loses nothing.
- **Tags.** A tag self-closes exactly when it has no children. Every
  rendered node begins with its indent and ends with a newline.
- **Template set.** The result holds one text per named template, in input
  order, then the default template. The default template is the last text,
  and no other text is a default export.

## Model

| member | source | states |
|---|---|---|
| Text.TrimStart | lib/ast-to-react/render-templates.js:22-24 | the result is a suffix of the input; only white space was dropped, and it starts with a non-space |
| Text.TrimEnd | lib/ast-to-react/render-templates.js:22-24 | the result is a prefix of the input; only white space was dropped, and it ends with a non-space |
| Text.Trim | lib/ast-to-react/render-templates.js:22-24 | `trim` never lengthens, leaves no white space at either end, and leaves an already trimmed value unchanged |
| Text.TrimInfix | lib/ast-to-react/render-templates.js:22-24 | `trim` drops white space at the two ends and nothing else: the result is the input with a white-space prefix and a white-space suffix cut off |
| Text.TrimIdempotent | lib/ast-to-react/render-templates.js:22-24 | trimming twice is trimming once |
| Text.Lower | lib/ast-to-react/render-templates.js:66-70 | `toLowerCase` keeps the length, leaves no capital letter, turns each capital into its own small letter and keeps every other character |
| Text.LowerOfLower | lib/ast-to-react/render-templates.js:66-70 | a string without capital letters is unchanged by `toLowerCase` |
| Text.LowerIdempotent | lib/ast-to-react/render-templates.js:66-70 | lower-casing twice is lower-casing once |
| Text.NatToString | lib/ast-to-react/render-templates.js:37 | the numeral of `i` is non-empty, all digits, ends in the digit `i % 10`, and has one digit exactly when `i < 10` |
| Text.NatToStringValue | lib/ast-to-react/render-templates.js:37 | read back as a decimal number, left to right, the numeral of `i` is `i` |
| Text.NatToStringNoLeadingZero | lib/ast-to-react/render-templates.js:37 | a numeral starts with `0` exactly when the number is 0 |
| Text.NatToStringInjective | lib/ast-to-react/render-templates.js:37 | distinct numbers give distinct numerals |
| Bindings.HasBinding | lib/ast-to-react/render-templates.js:51 | `bindings.PATTERN.test(value)`: the value holds a `{{` with a later `}}` (Bindings.FirstBinding) |
| Bindings.Segments | lib/ast-to-react/render-templates.js:52 | a value cut at its bindings, in order: the literal text and each binding's raw expression (Bindings.SegmentsRoundTrip, Bindings.SegmentsCanonical) |
| Bindings.ReplaceBindings | lib/ast-to-react/render-templates.js:52 | `value.replace(PATTERN, ...)`: each binding becomes the given opening, its trimmed expression and ` }`, the literal parts kept (Bindings.ReplacePlain, Bindings.InterpolatedValue) |
| Bindings.IsStrict | lib/ast-to-react/render-templates.js:74 | `STRICT_PATTERN.test(value)`: the value is one binding and nothing else (Bindings.StrictIff) |
| Bindings.StrictExpr | lib/ast-to-react/render-templates.js:75 | the trimmed expression of a strict value, the `$1` of STRICT_PATTERN (Bindings.StrictShape) |
| Bindings.BooleanWord | lib/ast-to-react/render-templates.js:66-70 | the keyword BOLLEAN_PATTERN captures: the value itself, or a strict value's expression, when it is `true` or `false` in any letter case (Bindings.BooleanBinding) |
| Bindings.IsBoolean | lib/ast-to-react/render-templates.js:66 | `BOLLEAN_PATTERN.test(value)` |
| Bindings.RenderAttrValue | lib/ast-to-react/render-templates.js:63-86 | the mapper's value: the first of boolean, strict, interpolated and literal that matches decides (Bindings.BooleanBinding, Bindings.StrictValue, Bindings.InterpolatedValue, Bindings.LiteralValue, Bindings.EmptyValueIsTrue) |
| Bindings.FindPair | lib/ast-to-react/render-templates.js:51-52 | finds the first `{{` (or `}}`) at or after a position, or reports that there is none |
| Bindings.FirstBinding | lib/ast-to-react/render-templates.js:51-52 | a match exists exactly when some `{{` has a `}}` after it; the match splits the value as `before + "{{" + raw + "}}" + after`, at the leftmost `{{` and the first `}}` after it |
| Bindings.NoClosingMarker | lib/ast-to-react/render-templates.js:51 | with no `}}` after the leftmost `{{`, the value holds no binding |
| Bindings.SplitAtMarkers | lib/ast-to-react/render-templates.js:52 | cutting at a `{{` and a later `}}` gives back the value |
| Bindings.UnparseAppend | lib/ast-to-react/render-templates.js:79-80 | writing segments back distributes over concatenation |
| Bindings.UnparseMatch | lib/ast-to-react/render-templates.js:79-80 | the segments of one match write back as `before + "{{" + raw + "}}"` followed by the rest |
| Bindings.SegmentsRoundTrip | lib/ast-to-react/render-templates.js:79-81 | cutting a value at its bindings loses nothing: writing the segments back gives the value |
| Bindings.SegmentsCanonical | lib/ast-to-react/render-templates.js:79-80 | literal segments are non-empty and hold no binding; a binding's text holds no `}}` |
| Bindings.SegmentsOfPlain | lib/ast-to-react/render-templates.js:51-53 | a value without a binding is one literal segment (none when empty); a value with one has an expression segment |
| Bindings.ReplacePlain | lib/ast-to-react/render-templates.js:51-53 | replacing bindings leaves a value without bindings unchanged |
| Bindings.SegmentsEmpty | lib/ast-to-react/render-templates.js:72-75 | only the empty value has no segments |
| Bindings.StrictIff | lib/ast-to-react/render-templates.js:72-75 | a value is strict if and only if it starts with `{{`, ends with `}}` and holds no `}}` in between |
| Bindings.StrictOnlyIf | lib/ast-to-react/render-templates.js:72-75 | a strict value starts with `{{`, ends with `}}` and holds no `}}` in between |
| Bindings.StrictIf | lib/ast-to-react/render-templates.js:72-75 | a value of that form is strict |
| Bindings.DefaultValue | lib/ast-to-react/render-templates.js:61-63 | the value after the `\|\| 'true'` default is never empty, and a non-empty value is kept |
| Bindings.StrictShape | lib/ast-to-react/render-templates.js:72-75 | `{{ raw }}`, with no `}}` inside, is strict and its expression is `raw` trimmed |
| Bindings.StrictValue | lib/ast-to-react/render-templates.js:72-75 | a strict, non-boolean value renders as `{ e }` with `e` the trimmed expression, unquoted |
| Bindings.BooleanBinding | lib/ast-to-react/render-templates.js:66-75 | the boolean rule wins over the strict one: a binding of `true`/`false` in any letter case renders lower-cased |
| Bindings.InterpolatedValue | lib/ast-to-react/render-templates.js:77-81 | a value mixing text and bindings renders as one template string, with each binding as `${ e }` and the literal parts being the value's own text |
| Bindings.LiteralValue | lib/ast-to-react/render-templates.js:83-85 | a value without bindings that is not boolean renders quoted and verbatim |
| Bindings.EmptyValueIsTrue | lib/ast-to-react/render-templates.js:61-70 | an absent or empty value renders as `{ true }` |
| Ast.IsLoop | lib/ast-to-react/render-templates.js:12 | `node.name === constants.tags.LOOPS`; a text node is never a loop node |
| Ast.AttrValue | lib/ast-to-react/render-templates.js:21-22 | `node.attrs[k]`: the value of the attribute with key `k`, or none when absent (Ast.AttrValueFound) |
| Ast.AttrValueFound | lib/ast-to-react/render-templates.js:21-22 | an attribute lookup succeeds exactly when some attribute has the key, and returns the first such attribute's value |
| Ast.DistinctLookup | lib/ast-to-react/render-templates.js:63 | when keys are distinct, as in a JavaScript object, looking up an attribute's key gives that attribute's own value |
| Ast.BeforeIrreflexive | lib/ast-to-react/render-templates.js:16-17 | no position comes before itself in pre-order |
| Ast.BeforeAt | lib/ast-to-react/render-templates.js:16-17 | positions that part at an index are ordered by the children taken there |
| Loops.GetLoopNodes | lib/ast-to-react/render-templates.js:11-18 | getLoopNodes: a loop node is its own result; any other tag gives its children's loop nodes in order (Loops.GetLoopNodesSound, Loops.GetLoopNodesComplete, Loops.GetLoopNodesOrdered) |
| Loops.ChildLoops | lib/ast-to-react/render-templates.js:16-17 | the reduce over the children from the k-th on, concatenating their loop nodes (Loops.ChildLoopsSound, Loops.ChildLoopsComplete, Loops.ChildLoopsOrdered) |
| Loops.GetLoopNodesSound | lib/ast-to-react/render-templates.js:11-18 | every collected node is a loop node at its recorded position, with no loop node above it, so a loop inside a loop is never collected |
| Loops.ChildLoopsSound | lib/ast-to-react/render-templates.js:16-17 | the reduce over the children collects only loop nodes below those children, each at its position |
| Loops.GetLoopNodesComplete | lib/ast-to-react/render-templates.js:11-18 | every loop node reached without passing through another loop node is collected, with its position |
| Loops.ChildLoopsComplete | lib/ast-to-react/render-templates.js:16-17 | the reduce over the children collects every loop node reached below them |
| Loops.GetLoopNodesOrdered | lib/ast-to-react/render-templates.js:11-18 | the collected nodes come in pre-order |
| Loops.ChildLoopsOrdered | lib/ast-to-react/render-templates.js:16-17 | the loops of an earlier child come before those of a later one |
| Loops.LoopPathsDistinct | lib/ast-to-react/render-templates.js:11-18 | positions listed in pre-order are distinct, so no node is collected twice |
| Loops.LoopVar | lib/ast-to-react/render-templates.js:37 | the generated name `loop${i}` (Loops.LoopVarInjective) |
| Loops.LoopVarValue | lib/ast-to-react/render-templates.js:37 | the i-th name is `loop` followed by digits that read back as `i` |
| Loops.LoopVarInjective | lib/ast-to-react/render-templates.js:37 | `loop{i}` and `loop{j}` differ when `i` and `j` differ |
| Loops.LoopNames | lib/ast-to-react/render-templates.js:36-46 | the names the reduce writes: the i-th collected node's position gets `loop{i}` (Loops.LoopNamesDense, Loops.LoopNamesOfBody) |
| Loops.SitePathsHas | lib/ast-to-react/render-templates.js:35-40 | a position is among the collected positions exactly when some collected node has it |
| Loops.LoopNamesDense | lib/ast-to-react/render-templates.js:36-46 | the names recorded are exactly those of the collected positions, the i-th being `loop{i}` |
| Loops.ReadyAlong | lib/ast-to-react/render-templates.js:21-29 | a reached loop node of a tree whose loop nodes carry their attributes carries them too |
| Loops.SitesOfReadyBody | lib/ast-to-react/render-templates.js:35-42 | every node collected from such a body can be passed to renderLoop |
| Loops.ArrayExpression | lib/ast-to-react/render-templates.js:22-24 | the array expression has no white space at either end, and a non-strict value is only trimmed |
| Loops.ArrayExpressionStrict | lib/ast-to-react/render-templates.js:22-24 | the strict braces come off the array expression, leaving its trimmed text |
| Loops.LoopStatement | lib/ast-to-react/render-templates.js:20-31 | the statement renderLoop builds: `  const V = A.map(e => (\n    <C { ...e } key={ e.K } />\n  ));\n` (Loops.RenderLoop) |
| Loops.RenderLoop | lib/ast-to-react/render-templates.js:20-32 | the piecewise-built text is `  const V = A.map(e => (\n    <C { ...e } key={ e.K } />\n  ));\n`, with C resolved through tagToVar, A the array expression and K the key attribute |
| Loops.LoopBindings | lib/ast-to-react/render-templates.js:36-46 | the reduce's text: the collected nodes' statements in order, the i-th bound to `loop{i}` (Loops.LoopBindingsSnoc, Loops.ExtractLoops) |
| Loops.LoopBindingsSnoc | lib/ast-to-react/render-templates.js:36-46 | one more step of the reduce appends the next node's statement, bound to `loop{i}` |
| Loops.LoopNamesSnoc | lib/ast-to-react/render-templates.js:36-46 | one more step of the reduce names the next node `loop{i}` and changes no other name |
| Loops.LoopNamesOfBody | lib/ast-to-react/render-templates.js:34-47 | after extraction, exactly the collected positions are named, the i-th `loop{i}`, and no two share a name |
| Loops.ExtractLoops | lib/ast-to-react/render-templates.js:34-47 | the result is the collected nodes' statements in order, the i-th with `loop{i}`, and the side table holds the names that go with them |
| Jsx.RenderJsxText | lib/ast-to-react/render-templates.js:49-55 | renderJsxText: the indent, the value with each binding rewritten `{ e }` when it has one, and a newline (Jsx.TextRendering) |
| Jsx.ResolveTag | lib/ast-to-react/render-templates.js:103 | `tagToVar[node.name] \|\| node.name`: the table's entry when present and non-empty, else the tag name |
| Jsx.RenderProp | lib/ast-to-react/render-templates.js:58-88 | the mapper: `toJsx(k)=value`, with the value defaulted to `true` and classified (Jsx.PropsSingle, Jsx.PropsByKey) |
| Jsx.MapProps | lib/ast-to-react/render-templates.js:91-92 | `.map(mapper)` over the attributes in key order (Jsx.MapPropsAt, Jsx.MapAppend) |
| Jsx.JoinProps | lib/ast-to-react/render-templates.js:93 | ``.reduce((a, b) => `${a} ${b}`, '')``: every prop preceded by one space (Jsx.JoinAppend) |
| Jsx.RenderJsxProps | lib/ast-to-react/render-templates.js:57-96 | renderJsxProps: the map, then the reduce (Jsx.PropsSingle, Jsx.PropsAppend, Jsx.PropsByKey) |
| Jsx.TextRendering | lib/ast-to-react/render-templates.js:49-55 | a text node is its indent, its value with each binding written `{ e }` and the literal parts kept, and a newline; a value without bindings is left whole |
| Jsx.PropsSingle | lib/ast-to-react/render-templates.js:88-93 | one attribute gives a single space, then `toJsx(key)=value` |
| Jsx.MapPropsAt | lib/ast-to-react/render-templates.js:91-92 | the map gives one prop per attribute, the i-th rendered from the i-th attribute |
| Jsx.PropsByKey | lib/ast-to-react/render-templates.js:57-93 | when keys are distinct, the i-th prop is `toJsx(k)=` followed by the rendering of `node.attrs[k]`, defaulted to `true`, for the i-th key `k` |
| Jsx.MapAppend | lib/ast-to-react/render-templates.js:91-92 | the map keeps attribute order |
| Jsx.JoinAppend | lib/ast-to-react/render-templates.js:93 | the reduce over a split list is the two halves' reduces in order |
| Jsx.PropsAppend | lib/ast-to-react/render-templates.js:91-95 | props are rendered attribute by attribute, in key order, each preceded by a space; no attributes give no props |
| Jsx.ChildLoopsNamed | lib/ast-to-react/render-templates.js:107-110 | if every loop node reached below a tag is named, so is every loop node reached below each child |
| Jsx.RenderJsxNode | lib/ast-to-react/render-templates.js:119-126 | every rendered node begins with its indent and ends with a newline |
| Jsx.RenderJsxTag | lib/ast-to-react/render-templates.js:98-117 | every rendered tag begins with its indent and ends with a newline |
| Jsx.RenderChildren | lib/ast-to-react/render-templates.js:109-111 | `children.map(child => renderJsxNode(child, ...)).join('')` from the k-th child on, one level deeper (Jsx.ChildrenIndented) |
| Jsx.LoopNodeRendering | lib/ast-to-react/render-templates.js:99-101 | a loop node renders as `indent + "{ " + name + " }\n"`, without visiting its children |
| Jsx.TagRendering | lib/ast-to-react/render-templates.js:103-116 | any other tag self-closes if and only if it has no children; otherwise its children, one level deeper, come between `<N...>` and `</N>` |
| Jsx.ChildrenIndented | lib/ast-to-react/render-templates.js:107-111 | the children's text starts with the deeper indent and ends with a newline |
| Jsx.RenderReadsOnlyReachedLoops | lib/ast-to-react/render-templates.js:98-126 | rendering reads the loop names only at reached loop nodes: two tables that agree there give the same text |
| Jsx.ChildrenReadOnlyReachedLoops | lib/ast-to-react/render-templates.js:107-111 | the same, for the children of a tag |
| Templates.ExtractJsx | lib/ast-to-react/render-templates.js:128-131 | the body is wrapped as `  return (\n` + a node at a four-space indent + `  );\n` |
| Templates.ExtractedNamesCoverRendering | lib/ast-to-react/render-templates.js:137-138 | a table naming every collected loop node names every loop node that rendering reaches |
| Templates.BodyNamesCoverRendering | lib/ast-to-react/render-templates.js:137-138 | the names extraction gives a body cover every loop node that rendering the body reaches |
| Templates.TemplateContent | lib/ast-to-react/render-templates.js:133-140 | the text renderTemplate returns: the body's loop statements, then the return block (Templates.TemplateContentParts, Templates.RenderTemplate) |
| Templates.TemplateContentParts | lib/ast-to-react/render-templates.js:133-140 | a template's text is the body's loop statements in collection order, then the return block, which renders each loop node by the name extraction gave it |
| Templates.RenderTemplate | lib/ast-to-react/render-templates.js:133-140 | unwraps the container, extracts the loops first, then renders the body with the names extraction returned |
| Templates.DefaultTemplate | lib/ast-to-react/render-templates.js:144 | `export default function(props) {\n` + content + `}\n` (Templates.ExportKinds) |
| Templates.NamedTemplate | lib/ast-to-react/render-templates.js:150 | `export function V(props) {\n` + content + `}\n` (Templates.ExportKinds) |
| Templates.NamedVar | lib/ast-to-react/render-templates.js:148 | `tagToVar[node.attrs.name]`: the function name of a named template |
| Templates.ExportKinds | lib/ast-to-react/render-templates.js:142-151 | a default template is a default export and a named template is not |
| Templates.RenderDefaultTemplate | lib/ast-to-react/render-templates.js:142-145 | the template text inside `export default function(props) {` ... `}` |
| Templates.RenderNamedTemplate | lib/ast-to-react/render-templates.js:147-151 | the template text inside `export function V(props) {` ... `}`, with V the name table's entry for the `name` attribute |
| Templates.NamedSources | lib/ast-to-react/render-templates.js:159-160 | one text per named template |
| Templates.NamedSourcesAt | lib/ast-to-react/render-templates.js:159-160 | the i-th text is that of the i-th named template |
| Templates.TemplateSetShape | lib/ast-to-react/render-templates.js:153-163 | the set holds `namedNodes.length + 1` texts: the named templates in input order, then the default; exactly the last is a default export |
| Templates.RenderTemplates | lib/ast-to-react/render-templates.js:153-163 | the rendered set is the named templates' texts in order followed by the default template's |

## Left out

- The HTML parser (`lib/html-to-ast`) is not part of this model. A tree is given, and its text nodes have no children.
- `attributeConversion.toJsx` (`lib/attribute-conversion`) is not part of this model. It is a function parameter with no assumed properties.
- `lib/constants` is not part of this model.
  - Its three binding patterns are replaced by explicit recognisers:
    - a binding is the leftmost `{{` with the first `}}` after it, and its expression is the text between, trimmed;
    - a strict value is exactly one binding;
    - a boolean value is `true` or `false` in any letter case, bare or as a strict binding.
  - The loop tag and its attribute names are placeholders. Nothing proved depends on their spelling.
- Bindings.RenderAttrValue: a boolean value is rendered as the whole value replaced by `{ keyword }`. This assumes the boolean pattern matches the whole value.
- Lookups the source leaves undefined become preconditions, and the undefined or crashing output is not modelled:
  - `LoopReady`: the template-name, array and key attributes of a loop node are present, and the template name is a key of `tagToVar` (lines 21-29);
  - `NamedResolves`: a named template's `name` attribute is present and resolves (line 148);
  - `HasBody`: a container has a first child (line 135).
  The specification functions `Ast.AttrOr` and `Ast.Lookup` return "" in the cases those preconditions exclude.
- Loops.ExtractLoops: the in-place write `node.loopName = varName` is modelled as a side table keyed by node position. Node identity by reference, and aliasing between trees, are not modelled.
- Object key order: attributes are an ordered sequence of pairs. JavaScript's rule that integer-like keys enumerate first is not modelled.
- Repeated attribute keys: a JavaScript object holds each key once, and `Ast.DistinctKeys` states that form. It is not required of the trees the renderer takes. Under it, `Jsx.PropsByKey` shows that each prop reads `node.attrs[k]` as the source does. On a sequence that repeats a key, `Ast.AttrValue` reads the first occurrence, while `Jsx.RenderJsxProps` renders every pair, one prop each.
- Text.Trim: only space, tab, line feed and carriage return count as white space, not JavaScript's full Unicode set.
- Text.Lower: lower-cases ASCII letters only.
- Dispatch on `node.type` is a closed datatype. A node of an unknown type cannot occur.
- Jsx.RenderJsxNode and Jsx.RenderJsxTag: their own contracts state only the shape (indent first, newline last). The full text is stated by Jsx.TagRendering, Jsx.LoopNodeRendering and Jsx.TextRendering.
- Templates.TemplateContent reaches its definition through `Templates.ContentAfter`, a chain of trivial unfoldings. It exists only to keep proofs small and is equal to the direct definition (`Templates.ContentAfterAny`).
