/** The binding classifier: how a text or attribute value embeds `{{ e }}`
    expressions, and how each of the renderer's four value shapes is written
    out. The three patterns of lib/constants are not part of this model; they
    are replaced by the explicit recognisers below:
    - a binding is the leftmost "{{" together with the first "}}" after it,
      and its expression is what lies between, trimmed (PATTERN, applied to
      every binding of the value in turn);
    - a strict value is one binding and nothing else (STRICT_PATTERN);
    - a boolean value is a case-insensitive `true` or `false`, bare or as a
      strict binding (BOLLEAN_PATTERN). */
module Bindings {
  import opened Wrappers
  import opened Text

  /** `s` holds the two-character marker `cc` at index `i`. */
  predicate PairAt(s: string, i: int, c: char) {
    0 <= i && i + 1 < |s| && s[i] == c && s[i + 1] == c
  }

  /** The first index at or after `from` holding the marker `cc`. */
  function FindPair(s: string, c: char, from: nat): (r: Option<nat>)
    ensures r.Some? ==> from <= r.value && PairAt(s, r.value, c)
    ensures r.Some? ==> forall m :: from <= m < r.value ==> !PairAt(s, m, c)
    ensures r.None? ==> forall m :: from <= m ==> !PairAt(s, m, c)
    decreases |s| - from
  {
    if from + 1 >= |s| then None
    else if s[from] == c && s[from + 1] == c then Some(from)
    else FindPair(s, c, from + 1)
  }

  /** A value contains a binding when some "{{" has a "}}" after it. */
  ghost predicate ContainsBinding(s: string) {
    exists i, j :: PairAt(s, i, '{') && i + 2 <= j && PairAt(s, j, '}')
  }

  /** One match of the binding pattern: `s == before + "{{" + raw + "}}" + after`. */
  datatype Match = Match(before: string, raw: string, after: string)

  /** The first match of the binding pattern in `s`. */
  function FirstBinding(s: string): (r: Option<Match>)
    ensures r.Some? <==> ContainsBinding(s)
    ensures r.Some? ==> s == r.value.before + "{{" + r.value.raw + "}}" + r.value.after
    // the opening marker is the leftmost one ...
    ensures r.Some? ==> forall m :: 0 <= m < |r.value.before| ==> !PairAt(s, m, '{')
    // ... and the closing marker is the first one after it
    ensures r.Some? ==> forall m :: |r.value.before| + 2 <= m < |r.value.before| + 2 + |r.value.raw| ==> !PairAt(s, m, '}')
  {
    match FindPair(s, '{', 0)
    case None => None
    case Some(i) =>
      match FindPair(s, '}', i + 2)
      case None =>
        NoClosingMarker(s, i);
        None
      case Some(j) =>
        SplitAtMarkers(s, i, j);
        Some(Match(s[..i], s[i + 2..j], s[j + 2..]))
  }

  /** With no "}}" after the leftmost "{{", there is no binding at all. */
  lemma NoClosingMarker(s: string, i: nat)
    requires forall m :: 0 <= m < i ==> !PairAt(s, m, '{')
    requires forall m :: i + 2 <= m ==> !PairAt(s, m, '}')
    ensures !ContainsBinding(s)
  {
    forall i', j' | PairAt(s, i', '{') && i' + 2 <= j' ensures !PairAt(s, j', '}') {
      assert i <= i';
    }
  }

  /** Cutting at the markers at `i` and `j` gives back the value. */
  lemma SplitAtMarkers(s: string, i: nat, j: nat)
    requires PairAt(s, i, '{') && i + 2 <= j && PairAt(s, j, '}')
    ensures s == s[..i] + "{{" + s[i + 2..j] + "}}" + s[j + 2..]
  {
    assert s[i..i + 2] == "{{" && s[j..j + 2] == "}}";
    assert s == s[..i] + s[i..i + 2] + s[i + 2..j] + s[j..j + 2] + s[j + 2..];
  }

  /** `bindings.PATTERN.test(s)`. */
  predicate HasBinding(s: string) {
    FirstBinding(s).Some?
  }

  /** A value cut at its bindings: literal text and binding expressions (raw,
      untrimmed) in order. */
  datatype Segment = Lit(text: string) | Expr(raw: string)

  function Segments(s: string): (r: seq<Segment>)
    decreases |s|
  {
    match FirstBinding(s)
    case None => if s == [] then [] else [Lit(s)]
    case Some(m) =>
      (if m.before == [] then [] else [Lit(m.before)]) + [Expr(m.raw)] + Segments(m.after)
  }

  /** Writes segments back in the input's own syntax. */
  function Unparse(segs: seq<Segment>): string {
    if segs == [] then [] else UnparseOne(segs[0]) + Unparse(segs[1..])
  }

  function UnparseOne(seg: Segment): string {
    match seg
    case Lit(t) => t
    case Expr(raw) => "{{" + raw + "}}"
  }

  lemma {:induction false} UnparseAppend(a: seq<Segment>, b: seq<Segment>)
    ensures Unparse(a + b) == Unparse(a) + Unparse(b)
  {
    if a == [] {
      assert a + b == b;
    } else {
      assert (a + b)[0] == a[0];
      assert (a + b)[1..] == a[1..] + b;
      UnparseAppend(a[1..], b);
    }
  }

  /** Unparsing the segments of one match. */
  lemma UnparseMatch(before: string, raw: string, rest: seq<Segment>)
    ensures Unparse((if before == [] then [] else [Lit(before)]) + [Expr(raw)] + rest)
         == before + "{{" + raw + "}}" + Unparse(rest)
  {
    var lits: seq<Segment> := if before == [] then [] else [Lit(before)];
    var e: seq<Segment> := [Expr(raw)];
    assert Unparse(lits) == before by {
      if before != [] {
        assert lits[1..] == [];
      }
    }
    assert Unparse(e) == "{{" + raw + "}}" by {
      assert e[1..] == [];
    }
    UnparseAppend(lits, e);
    UnparseAppend(lits + e, rest);
    assert Unparse(lits + e) == before + "{{" + raw + "}}";
  }

  /** Cutting a value at its bindings loses nothing: the literal segments are
      the input's own text between the bindings. */
  lemma {:induction false} SegmentsRoundTrip(s: string)
    ensures Unparse(Segments(s)) == s
    decreases |s|
  {
    match FirstBinding(s)
    case None =>
      assert s != [] ==> Unparse([Lit(s)]) == UnparseOne(Lit(s)) + Unparse([]);
    case Some(m) =>
      SegmentsRoundTrip(m.after);
      UnparseMatch(m.before, m.raw, Segments(m.after));
  }

  /** The segments are canonical: literal segments are non-empty and hold no
      binding, and a binding's raw text holds no "}}". */
  lemma {:induction false} SegmentsCanonical(s: string)
    ensures forall k :: 0 <= k < |Segments(s)| && Segments(s)[k].Lit? ==>
      Segments(s)[k].text != [] && !ContainsBinding(Segments(s)[k].text)
    ensures forall k, m :: 0 <= k < |Segments(s)| && Segments(s)[k].Expr? ==>
      !PairAt(Segments(s)[k].raw, m, '}')
    decreases |s|
  {
    match FirstBinding(s)
    case None =>
    case Some(mt) =>
      SegmentsCanonical(mt.after);
      var b := mt.before;
      assert !ContainsBinding(b) by {
        forall i | PairAt(b, i, '{') ensures false {
          assert PairAt(s, i, '{');
        }
      }
      forall m | PairAt(mt.raw, m, '}') ensures false {
        assert PairAt(s, |b| + 2 + m, '}');
      }
  }

  /** A value with a binding has an expression segment, and one without is
      a single literal segment (or none, when empty). */
  lemma SegmentsOfPlain(s: string)
    ensures !ContainsBinding(s) ==> Segments(s) == if s == [] then [] else [Lit(s)]
    ensures ContainsBinding(s) ==> exists k :: 0 <= k < |Segments(s)| && Segments(s)[k].Expr?
  {
    if ContainsBinding(s) {
      var m := FirstBinding(s).value;
      var k := if m.before == [] then 0 else 1;
      assert Segments(s)[k] == Expr(m.raw);
    }
  }

  /** Rewrites every binding as `lead + " " + e + " }"` with `e` its trimmed
      expression, keeping the literal segments verbatim. */
  function Substitute(segs: seq<Segment>, lead: string): string {
    if segs == [] then [] else SubstituteOne(segs[0], lead) + Substitute(segs[1..], lead)
  }

  function SubstituteOne(seg: Segment, lead: string): string {
    match seg
    case Lit(t) => t
    case Expr(raw) => lead + " " + Trim(raw) + " }"
  }

  /** `value.replace(PATTERN, repl)` where PATTERN's replacement is
      `lead + " $1 }"`. */
  function ReplaceBindings(s: string, lead: string): string {
    Substitute(Segments(s), lead)
  }

  /** A value without bindings is left as it is by the replacement. */
  lemma ReplacePlain(s: string, lead: string)
    requires !ContainsBinding(s)
    ensures ReplaceBindings(s, lead) == s
  {
    SegmentsOfPlain(s);
    if s != [] {
      assert Substitute([Lit(s)], lead) == s + Substitute([], lead);
    }
  }

  /** STRICT_PATTERN: the whole value is one binding. */
  predicate IsStrict(s: string) {
    var segs := Segments(s);
    |segs| == 1 && segs[0].Expr?
  }

  /** The trimmed expression of a strict value (`$1` of STRICT_PATTERN). */
  function StrictExpr(s: string): string
    requires IsStrict(s)
  {
    Trim(Segments(s)[0].raw)
  }

  lemma SegmentsEmpty(s: string)
    ensures Segments(s) == [] <==> s == []
  {
  }

  /** STRICT_PATTERN in the value's own terms: "{{" at the start, "}}" at the
      end, and no "}}" before that. */
  predicate StrictForm(s: string) {
    |s| >= 4 && s[..2] == "{{" && s[|s| - 2..] == "}}" &&
    forall m :: 2 <= m < |s| - 2 ==> !PairAt(s, m, '}')
  }

  lemma StrictIff(s: string)
    ensures IsStrict(s) <==> StrictForm(s)
  {
    if IsStrict(s) {
      StrictOnlyIf(s);
    }
    if StrictForm(s) {
      StrictIf(s);
    }
  }

  lemma StrictOnlyIf(s: string)
    requires IsStrict(s)
    ensures StrictForm(s)
  {
    var mt := FirstBinding(s).value;
    assert mt.before == [];
    SegmentsEmpty(mt.after);
    assert s == "{{" + mt.raw + "}}";
    assert s[..2] == "{{";
    assert s[|s| - 2..] == "}}";
  }

  lemma StrictIf(s: string)
    requires StrictForm(s)
    ensures IsStrict(s)
  {
    assert PairAt(s, 0, '{');
    assert PairAt(s, |s| - 2, '}');
    assert ContainsBinding(s);
    var mt := FirstBinding(s).value;
    assert |mt.before| == 0;
    assert PairAt(s, |mt.before| + 2 + |mt.raw|, '}');
    assert |mt.raw| == |s| - 4;
    assert mt.after == [];
    SegmentsEmpty(mt.after);
    assert Segments(s) == [Expr(mt.raw)];
  }

  /** The keyword of a boolean value, if it has one. */
  function BooleanWord(s: string): Option<string> {
    if Lower(s) == "true" || Lower(s) == "false" then Some(s)
    else if IsStrict(s) && (Lower(StrictExpr(s)) == "true" || Lower(StrictExpr(s)) == "false") then Some(StrictExpr(s))
    else None
  }

  /** BOLLEAN_PATTERN.test. */
  predicate IsBoolean(s: string) {
    BooleanWord(s).Some?
  }

  /** An attribute value after the `node.attrs[k] || 'true'` default. */
  function DefaultValue(v: string): (r: string)
    ensures r != []
    ensures v != [] ==> r == v
  {
    if v == [] then "true" else v
  }

  /** The JSX text of an attribute value: the first of boolean, strict,
      interpolated and literal that matches decides. */
  function RenderAttrValue(v: string): string {
    if IsBoolean(v) then "{ " + Lower(BooleanWord(v).value) + " }"
    else if IsStrict(v) then "{ " + StrictExpr(v) + " }"
    else if HasBinding(v) then "{ `" + ReplaceBindings(v, "${") + "` }"
    else "'" + v + "'"
  }

  /** A value written as one binding is strict, with that binding's text. */
  lemma StrictShape(v: string, raw: string)
    requires v == "{{" + raw + "}}"
    requires forall m :: 0 <= m < |raw| ==> !PairAt(raw + "}}", m, '}')
    ensures IsStrict(v) && StrictExpr(v) == Trim(raw)
  {
    forall m | 2 <= m < |v| - 2 ensures !PairAt(v, m, '}') {
      assert PairAt(v, m, '}') ==> PairAt(raw + "}}", m - 2, '}');
    }
    StrictIf(v);
    var mt := FirstBinding(v).value;
    assert mt.before == [] && mt.after == [];
    assert mt.raw == raw;
  }

  /** A value that is exactly one binding and not a boolean becomes a bare
      expression: braced, unquoted, its expression trimmed. */
  lemma StrictValue(v: string, raw: string)
    requires v == "{{" + raw + "}}"
    requires forall m :: 0 <= m < |raw| ==> !PairAt(raw + "}}", m, '}')
    requires !IsBoolean(v)
    ensures RenderAttrValue(v) == "{ " + Trim(raw) + " }"
  {
    StrictShape(v, raw);
  }

  /** The boolean rule runs before the strict one: a binding whose expression
      is a boolean keyword in any letter case is lower-cased, where the strict
      rule would have kept its case. */
  lemma BooleanBinding(v: string, raw: string)
    requires v == "{{" + raw + "}}"
    requires forall m :: 0 <= m < |raw| ==> !PairAt(raw + "}}", m, '}')
    requires Lower(Trim(raw)) == "true" || Lower(Trim(raw)) == "false"
    ensures RenderAttrValue(v) == "{ " + Lower(Trim(raw)) + " }"
  {
    StrictShape(v, raw);
    var w := Trim(raw);
    assert |Lower(w)| == |w| >= 4;
    assert |Lower(v)| == |v| >= 8;
    assert Lower(v) != "true" && Lower(v) != "false";
    assert BooleanWord(v) == Some(w);
  }

  /** A value that mixes text and bindings becomes one template string whose
      literal parts are the value's own text between its bindings. */
  lemma InterpolatedValue(v: string)
    requires ContainsBinding(v) && !IsStrict(v) && !IsBoolean(v)
    ensures RenderAttrValue(v) == "{ `" + Substitute(Segments(v), "${") + "` }"
    ensures Unparse(Segments(v)) == v
  {
    SegmentsRoundTrip(v);
  }

  /** A value without bindings (and not a boolean) is quoted verbatim. */
  lemma LiteralValue(v: string)
    requires !ContainsBinding(v) && !IsBoolean(v)
    ensures RenderAttrValue(v) == "'" + v + "'"
  {
  }

  /** An absent or empty attribute value renders as `{ true }`. */
  lemma EmptyValueIsTrue()
    ensures RenderAttrValue(DefaultValue("")) == "{ true }"
  {
    LowerOfLower("true");
  }
}
