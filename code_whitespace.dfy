/**
 * The markdown transform that turns every code block whose meta string
 * mentions `sandstone` into an `InteractiveSnippet` element: the editor
 * height and the file name are read from the meta string, the code is
 * passed base64-encoded so that its white space survives, and the element
 * takes the code block's place among its siblings.
 *
 * The base64 encoding is a parameter of the transform.
 */
module CodeWhitespace {
  import opened Wrappers
  import opened Strings

  const SnippetMarker: string := "sandstone"
  const HeightKey: string := "height="
  const FilenameKey: string := "filename=\""
  const DefaultHeight: string := "200"
  const SnippetElementName: string := "InteractiveSnippet"

  // ---------------------------------------------------------- meta parsing

  /** The length of the run of decimal digits that starts at `j`. */
  function DigitRun(s: string, j: nat): (n: nat)
    requires j <= |s|
    decreases |s| - j
    ensures j + n <= |s|
    ensures forall k :: j <= k < j + n ==> IsDigit(s[k])
    ensures j + n == |s| || !IsDigit(s[j + n])
  {
    if j < |s| && IsDigit(s[j]) then 1 + DigitRun(s, j + 1) else 0
  }

  /** The length of the run of characters other than `"` that starts at `j`. */
  function NonQuoteRun(s: string, j: nat): (n: nat)
    requires j <= |s|
    decreases |s| - j
    ensures j + n <= |s|
    ensures forall k :: j <= k < j + n ==> s[k] != '"'
    ensures j + n == |s| || s[j + n] == '"'
  {
    if j < |s| && s[j] != '"' then 1 + NonQuoteRun(s, j + 1) else 0
  }

  /** `/height=(\d+)/` matches at `i`: the key, then at least one digit. */
  predicate HeightAt(meta: string, i: int) {
    OccursAt(meta, HeightKey, i) && i + |HeightKey| < |meta| && IsDigit(meta[i + |HeightKey|])
  }

  /**
   * `/filename="([^"]+)"/` matches at `i`: the key, at least one character
   * other than a quote, then a quote.
   */
  predicate FilenameAt(meta: string, i: int) {
    OccursAt(meta, FilenameKey, i)
    && var j := i + |FilenameKey|;
       NonQuoteRun(meta, j) >= 1 && j + NonQuoteRun(meta, j) < |meta|
  }

  /** The leftmost match of `/height=(\d+)/` at or after `from`. */
  function FirstHeightAt(meta: string, from: nat): (r: Option<nat>)
    decreases |meta| - from
    ensures r.Some? ==> from <= r.value && HeightAt(meta, r.value)
                        && forall j :: from <= j < r.value ==> !HeightAt(meta, j)
    ensures r.None? ==> forall j :: from <= j ==> !HeightAt(meta, j)
  {
    if from > |meta| then None
    else if HeightAt(meta, from) then Some(from)
    else FirstHeightAt(meta, from + 1)
  }

  /** The leftmost match of `/filename="([^"]+)"/` at or after `from`. */
  function FirstFilenameAt(meta: string, from: nat): (r: Option<nat>)
    decreases |meta| - from
    ensures r.Some? ==> from <= r.value && FilenameAt(meta, r.value)
                        && forall j :: from <= j < r.value ==> !FilenameAt(meta, j)
    ensures r.None? ==> forall j :: from <= j ==> !FilenameAt(meta, j)
  {
    if from > |meta| then None
    else if FilenameAt(meta, from) then Some(from)
    else FirstFilenameAt(meta, from + 1)
  }

  /** `i` is the leftmost position where `/height=(\d+)/` matches. */
  predicate LeftmostHeight(meta: string, i: int) {
    HeightAt(meta, i) && forall j :: 0 <= j < i ==> !HeightAt(meta, j)
  }

  /** `/filename="([^"]+)"/` matches at `i` and at no position before it. */
  predicate LeftmostFilename(meta: string, i: int) {
    FilenameAt(meta, i) && forall j :: 0 <= j < i ==> !FilenameAt(meta, j)
  }

  /** `h` is the whole run of digits that starts at `start`. */
  predicate DigitsAt(meta: string, start: int, h: string) {
    0 <= start && start + |h| <= |meta| && meta[start..start + |h|] == h
    && (start + |h| == |meta| || !IsDigit(meta[start + |h|]))
  }

  /** `v` starts at `start` and a quote follows it. */
  predicate QuotedAt(meta: string, start: int, v: string) {
    0 <= start && start + |v| < |meta| && meta[start..start + |v|] == v && meta[start + |v|] == '"'
  }

  /**
   * The editor height: the digits after the leftmost `height=` that is
   * followed by a digit (the longest run of them), else "200".
   */
  function Height(meta: string): (h: string)
    ensures |h| >= 1 && AllDigits(h)
    ensures (forall i :: !HeightAt(meta, i)) ==> h == DefaultHeight
    ensures forall i :: LeftmostHeight(meta, i) ==> DigitsAt(meta, i + |HeightKey|, h)
  {
    match FirstHeightAt(meta, 0)
    case None =>
      assert forall i :: 0 <= i < |DefaultHeight| ==> IsDigit(DefaultHeight[i]);
      DefaultHeight
    case Some(i) =>
      var start := i + |HeightKey|;
      var h := meta[start..start + DigitRun(meta, start)];
      assert DigitsAt(meta, start, h);
      assert forall k :: LeftmostHeight(meta, k) ==> k == i;
      h
  }

  /**
   * The file name: the text between the quotes of the leftmost
   * `filename="…"` with at least one character inside, if any.
   */
  function Filename(meta: string): (f: Option<string>)
    ensures f.None? <==> forall i :: !FilenameAt(meta, i)
    ensures f.Some? ==> |f.value| >= 1 && '"' !in f.value
    ensures forall i :: LeftmostFilename(meta, i) ==>
              f.Some? && QuotedAt(meta, i + |FilenameKey|, f.value)
  {
    match FirstFilenameAt(meta, 0)
    case None => None
    case Some(i) =>
      var start := i + |FilenameKey|;
      var name := meta[start..start + NonQuoteRun(meta, start)];
      assert forall k :: 0 <= k < |name| ==> name[k] != '"';
      assert QuotedAt(meta, start, name);
      assert forall k :: LeftmostFilename(meta, k) ==> k == i;
      Some(name)
  }

  /** `parseInt(height, 10)` of the default height. */
  lemma DefaultHeightValue()
    ensures AllDigits(DefaultHeight) && DecimalValue(DefaultHeight) == 200
  {
    assert DefaultHeight[..2] == "20" && "20"[..1] == "2";
  }

  // ------------------------------------------------------------ the tree

  /** A value of a JSX attribute: text, or an expression with its literal. */
  datatype AttributeValue = Text(text: string) | Expression(source: string, literal: nat)

  datatype JsxAttribute = JsxAttribute(name: string, value: AttributeValue)

  /** The markdown tree, reduced to what the transform looks at. */
  datatype MdNode =
    | Code(meta: Option<string>, value: string)
    | JsxFlowElement(name: string, attributes: seq<JsxAttribute>, children: seq<MdNode>)
    | Parent(kind: string, children: seq<MdNode>)
    | Leaf(kind: string, text: string)

  /** `node.meta || ''` mentions `sandstone`. */
  predicate IsSnippetCode(n: MdNode) {
    n.Code? && Contains(n.meta.GetOr(""), SnippetMarker)
  }

  /**
   * The attribute list: the height (its digits, as an expression whose
   * literal is their decimal value), the encoded code, then the file name
   * when the meta string names one.
   */
  function SnippetAttributes(meta: string, code: string, base64: string -> string): (attrs: seq<JsxAttribute>)
    ensures |attrs| == if Filename(meta).Some? then 3 else 2
    ensures attrs[0].name == "height" && attrs[0].value.Expression?
            && attrs[0].value.source == Height(meta)
            && attrs[0].value.literal == DecimalValue(Height(meta))
    ensures attrs[1] == JsxAttribute("encodedCode", Text(base64(code)))
    ensures Filename(meta).Some? ==> attrs[2] == JsxAttribute("filename", Text(Filename(meta).value))
  {
    var height := Height(meta);
    var attributes := [
      JsxAttribute("height", Expression(height, DecimalValue(height))),
      JsxAttribute("encodedCode", Text(base64(code)))];
    match Filename(meta)
    case Some(name) => attributes + [JsxAttribute("filename", Text(name))]
    case None => attributes
  }

  /** The childless element that replaces a snippet code block. */
  function SnippetElement(n: MdNode, base64: string -> string): (e: MdNode)
    requires n.Code?
    ensures e.JsxFlowElement? && e.name == SnippetElementName && e.children == []
    ensures e.attributes == SnippetAttributes(n.meta.GetOr(""), n.value, base64)
  {
    JsxFlowElement(SnippetElementName, SnippetAttributes(n.meta.GetOr(""), n.value, base64), [])
  }

  /** No code block that mentions `sandstone` is left anywhere in the tree. */
  predicate NoSnippetCode(t: MdNode)
    decreases t
  {
    !IsSnippetCode(t) && (t.JsxFlowElement? || t.Parent? ==> NoSnippetCodeAll(t.children))
  }

  predicate NoSnippetCodeAll(ts: seq<MdNode>)
    decreases ts
  {
    |ts| == 0 || (NoSnippetCode(ts[0]) && NoSnippetCodeAll(ts[1..]))
  }

  /**
   * The visit over the whole tree: each snippet code block is replaced by
   * its element; every other node keeps its kind and its number of
   * children, and its children are visited in turn.
   */
  function Transform(t: MdNode, base64: string -> string): (r: MdNode)
    decreases t
    ensures IsSnippetCode(t) ==> r == SnippetElement(t, base64)
    ensures !IsSnippetCode(t) ==> r.Code? == t.Code? && r.Leaf? == t.Leaf? && r.Parent? == t.Parent?
    ensures t.Code? && !IsSnippetCode(t) ==> r == t
    ensures t.Leaf? ==> r == t
    ensures t.Parent? ==>
              r.Parent? && r.kind == t.kind && |r.children| == |t.children|
              && r.children == TransformAll(t.children, base64)
    ensures t.JsxFlowElement? ==>
              r.JsxFlowElement? && r.name == t.name && r.attributes == t.attributes
              && |r.children| == |t.children| && r.children == TransformAll(t.children, base64)
  {
    match t
    case Code(_, _) => if IsSnippetCode(t) then SnippetElement(t, base64) else t
    case JsxFlowElement(name, attributes, children) =>
      JsxFlowElement(name, attributes, TransformAll(children, base64))
    case Parent(kind, children) => Parent(kind, TransformAll(children, base64))
    case Leaf(_, _) => t
  }

  function TransformAll(ts: seq<MdNode>, base64: string -> string): (rs: seq<MdNode>)
    decreases ts
    ensures |rs| == |ts|
    ensures forall i :: 0 <= i < |ts| ==> rs[i] == Transform(ts[i], base64)
  {
    if |ts| == 0 then []
    else
      var rs := [Transform(ts[0], base64)] + TransformAll(ts[1..], base64);
      assert rs[1..] == TransformAll(ts[1..], base64);
      rs
  }

  /** A snippet code block becomes its element. */
  lemma SnippetReplaced(n: MdNode, base64: string -> string)
    requires IsSnippetCode(n)
    ensures Transform(n, base64) == SnippetElement(n, base64)
  {
  }

  /** No snippet code block is left anywhere after the transform. */
  lemma {:induction false} TransformFinishes(t: MdNode, base64: string -> string)
    ensures NoSnippetCode(Transform(t, base64))
    decreases t
  {
    match t
    case Code(_, _) =>
    case JsxFlowElement(_, _, children) => TransformAllFinishes(children, base64);
    case Parent(_, children) => TransformAllFinishes(children, base64);
    case Leaf(_, _) =>
  }

  lemma {:induction false} TransformAllFinishes(ts: seq<MdNode>, base64: string -> string)
    ensures NoSnippetCodeAll(TransformAll(ts, base64))
    decreases ts
  {
    if |ts| > 0 {
      var rs := TransformAll(ts, base64);
      TransformFinishes(ts[0], base64);
      TransformAllFinishes(ts[1..], base64);
      assert rs[1..] == TransformAll(ts[1..], base64);
    }
  }

  /** A tree with no snippet code block left is not changed by the transform. */
  lemma {:induction false} TransformKeepsFinished(t: MdNode, base64: string -> string)
    requires NoSnippetCode(t)
    ensures Transform(t, base64) == t
    decreases t
  {
    match t
    case Code(_, _) =>
    case JsxFlowElement(_, _, children) => TransformAllKeepsFinished(children, base64);
    case Parent(_, children) => TransformAllKeepsFinished(children, base64);
    case Leaf(_, _) =>
  }

  lemma {:induction false} TransformAllKeepsFinished(ts: seq<MdNode>, base64: string -> string)
    requires NoSnippetCodeAll(ts)
    ensures TransformAll(ts, base64) == ts
    decreases ts
  {
    if |ts| > 0 {
      TransformKeepsFinished(ts[0], base64);
      TransformAllKeepsFinished(ts[1..], base64);
      assert ts == [ts[0]] + ts[1..];
    }
  }

  /** Transforming twice is transforming once. */
  lemma TransformIdempotent(t: MdNode, base64: string -> string)
    ensures Transform(Transform(t, base64), base64) == Transform(t, base64)
  {
    TransformFinishes(t, base64);
    TransformKeepsFinished(Transform(t, base64), base64);
  }

  /**
   * The visit at one child: a snippet code block is replaced in place by
   * its element (`splice(index, 1, element)`), any other node has its own
   * children visited. No other sibling changes.
   */
  method VisitChild(children: array<MdNode>, index: nat, base64: string -> string)
    requires index < children.Length
    modifies children
    ensures children[index] == Transform(old(children[index]), base64)
    ensures forall k :: 0 <= k < children.Length && k != index ==> children[k] == old(children[k])
  {
    var node := children[index];
    if IsSnippetCode(node) {
      SnippetReplaced(node, base64);
      children[index] := SnippetElement(node, base64);
    } else {
      children[index] := Transform(node, base64);
    }
  }

  /**
   * The visit over the children of one parent: the number of children is
   * unchanged and each becomes its transform.
   */
  method ReplaceInChildren(children: array<MdNode>, base64: string -> string)
    modifies children
    ensures children[..] == TransformAll(old(children[..]), base64)
  {
    ghost var original := children[..];
    var index := 0;
    while index < children.Length
      invariant 0 <= index <= children.Length
      invariant forall k :: 0 <= k < index ==> children[k] == Transform(original[k], base64)
      invariant forall k :: index <= k < children.Length ==> children[k] == original[k]
    {
      VisitChild(children, index, base64);
      index := index + 1;
    }
    assert children[..] == TransformAll(original, base64);
  }
}
