/** The parsed template tree that the renderer consumes, and positions in it.
    The parser (lib/html-to-ast) is not part of this model: a tree is given. */
module Ast {
  import opened Wrappers

  /** A node's position below the template body: the child index taken at
      each level. Paths stand for node identity (the source tells nodes apart
      by object reference). */
  type Path = seq<nat>

  /** A text node, or a tag node with its attributes in key order (an empty
      value stands for an attribute written without one, or with "") and its
      children. Text nodes have no children. */
  datatype Node =
    | Text(value: string)
    | Tag(name: string, attrs: seq<(string, string)>, children: seq<Node>)

  // The loop-directive tag and its three attributes. Their spellings live in
  // lib/constants, which is not part of this model; nothing proved here depends
  // on them.
  const LoopsTag: string := "loop"
  const TemplateNameAttr: string := "template"
  const ArrayAttr: string := "array"
  const KeyAttr: string := "key"

  /** `node.name === constants.tags.LOOPS` (a text node has no name). */
  predicate IsLoop(node: Node) {
    node.Tag? && node.name == LoopsTag
  }

  /** `attrs[key]`: the value of the first attribute with that key. */
  function AttrValue(attrs: seq<(string, string)>, key: string): Option<string>
  {
    if attrs == [] then None
    else if attrs[0].0 == key then Some(attrs[0].1)
    else AttrValue(attrs[1..], key)
  }

  /** The key is present exactly when some attribute has it, and the value
      found is that of an attribute with the key, the first one. */
  lemma {:induction false} AttrValueFound(attrs: seq<(string, string)>, key: string)
    ensures AttrValue(attrs, key).Some? <==> exists i :: 0 <= i < |attrs| && attrs[i].0 == key
    ensures AttrValue(attrs, key).Some? ==>
      exists i :: 0 <= i < |attrs| && attrs[i] == (key, AttrValue(attrs, key).value) &&
        forall j :: 0 <= j < i ==> attrs[j].0 != key
    decreases |attrs|
  {
    if attrs != [] && attrs[0].0 != key {
      AttrValueFound(attrs[1..], key);
      var r := AttrValue(attrs[1..], key);
      if r.Some? {
        var i :| 0 <= i < |attrs[1..]| && attrs[1..][i] == (key, r.value) &&
          forall j :: 0 <= j < i ==> attrs[1..][j].0 != key;
        assert attrs[i + 1] == (key, r.value);
        forall j | 0 <= j < i + 1 ensures attrs[j].0 != key {
          if j > 0 { assert attrs[j] == attrs[1..][j - 1]; }
        }
      } else {
        forall i | 0 <= i < |attrs| ensures attrs[i].0 != key {
          if i > 0 { assert attrs[i] == attrs[1..][i - 1]; }
        }
      }
    } else if attrs != [] {
      assert attrs[0] == (key, attrs[0].1);
    }
  }

  /** Each key occurs once, as in the JavaScript object the attributes come
      from. */
  predicate DistinctKeys(attrs: seq<(string, string)>) {
    forall i, j :: 0 <= i < j < |attrs| ==> attrs[i].0 != attrs[j].0
  }

  /** With distinct keys, looking up an attribute's key gives that
      attribute's value. */
  lemma DistinctLookup(attrs: seq<(string, string)>, i: nat)
    requires DistinctKeys(attrs) && i < |attrs|
    ensures AttrValue(attrs, attrs[i].0) == Some(attrs[i].1)
  {
    var key := attrs[i].0;
    AttrValueFound(attrs, key);
    var j :| 0 <= j < |attrs| && attrs[j] == (key, AttrValue(attrs, key).value) &&
      forall m :: 0 <= m < j ==> attrs[m].0 != key;
    if j < i {
      assert attrs[j].0 == attrs[i].0;
    }
  }

  /** The value of `key`, or "" when the attribute is absent: used by the
      specification functions only where presence is required. */
  function AttrOr(attrs: seq<(string, string)>, key: string): string {
    match AttrValue(attrs, key)
    case Some(v) => v
    case None => ""
  }

  /** `m[k]`, or "" when `k` is not a key: used by the specification
      functions only where the key is required to be present. */
  function Lookup(m: map<string, string>, k: string): string {
    if k in m then m[k] else ""
  }

  /** Following `p` from `t` leads to the loop node `n`, and no node strictly
      above `n` on the way is a loop node: the loop nodes that a traversal
      stopping at loop nodes reaches. */
  predicate TopLoopAt(t: Node, p: Path, n: Node)
    decreases |p|
  {
    if p == [] then t == n && IsLoop(t)
    else !IsLoop(t) && t.Tag? && p[0] < |t.children| && TopLoopAt(t.children[p[0]], p[1..], n)
  }

  /** `p` comes strictly before `q` in pre-order and neither lies below the
      other: they part at an index where `p` takes an earlier child. */
  predicate Before(p: Path, q: Path)
    decreases |p|
  {
    p != [] && q != [] && (p[0] < q[0] || (p[0] == q[0] && Before(p[1..], q[1..])))
  }

  lemma {:induction false} BeforeIrreflexive(p: Path)
    ensures !Before(p, p)
    decreases |p|
  {
    if p != [] {
      BeforeIrreflexive(p[1..]);
    }
  }

  /** Paths that agree up to `d` and part there are ordered by that index. */
  lemma {:induction false} BeforeAt(p: Path, q: Path, d: nat)
    requires d < |p| && d < |q| && p[..d] == q[..d] && p[d] < q[d]
    ensures Before(p, q)
    decreases d
  {
    if d > 0 {
      assert p[0] == p[..d][0] == q[..d][0] == q[0];
      assert p[1..][..d - 1] == p[1..d] == q[1..d] == q[1..][..d - 1];
      BeforeAt(p[1..], q[1..], d - 1);
    }
  }
}
