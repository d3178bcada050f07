/**
 * The rule by which the live snippet decides which library exports a piece
 * of code uses, over an abstract syntax tree: an identifier counts when its
 * text is an export name, unless it is the property name of a property
 * access (`x.say` does not use an export called `say`). Names are collected
 * without repeats, as a JavaScript `Set` keeps them; each visit only appends
 * after the names found before it.
 */
module ExportDetection {

  /** The syntax tree, reduced to what the rule looks at. */
  datatype Syntax =
    | Identifier(text: string)
    | PropertyAccess(target: Syntax, name: string)
    | Node(children: seq<Syntax>)

  /** Reference definition: the identifiers that are not property names. */
  function FreeNames(t: Syntax): set<string>
    decreases t
  {
    match t
    case Identifier(x) => {x}
    case PropertyAccess(target, _) => FreeNames(target)
    case Node(children) => FreeNamesAll(children)
  }

  function FreeNamesAll(ts: seq<Syntax>): set<string>
    decreases ts
  {
    if |ts| == 0 then {} else FreeNames(ts[0]) + FreeNamesAll(ts[1..])
  }

  predicate NoRepeats(xs: seq<string>) {
    forall i, j :: 0 <= i < j < |xs| ==> xs[i] != xs[j]
  }

  /**
   * The recursive visit, threading the names found so far: an identifier
   * adds its text if it is an export not yet seen; the property name of an
   * access is skipped; every other node visits its children in order.
   */
  function Visit(t: Syntax, exports: set<string>, used: seq<string>): (r: seq<string>)
    decreases t
    ensures |used| <= |r| && r[..|used|] == used
    ensures NoRepeats(used) ==> NoRepeats(r)
    ensures forall x :: x in r <==> x in used || (x in exports && x in FreeNames(t))
  {
    match t
    case Identifier(x) => if x in exports && x !in used then used + [x] else used
    case PropertyAccess(target, _) => Visit(target, exports, used)
    case Node(children) => VisitAll(children, exports, used)
  }

  function VisitAll(ts: seq<Syntax>, exports: set<string>, used: seq<string>): (r: seq<string>)
    decreases ts
    ensures |used| <= |r| && r[..|used|] == used
    ensures NoRepeats(used) ==> NoRepeats(r)
    ensures forall x :: x in r <==> x in used || (x in exports && x in FreeNamesAll(ts))
  {
    if |ts| == 0 then used
    else
      var mid := Visit(ts[0], exports, used);
      var r := VisitAll(ts[1..], exports, mid);
      assert r[..|used|] == r[..|mid|][..|used|];
      r
  }

  /** The used exports: every free identifier that is an export, each once. */
  function DetectUsedExports(t: Syntax, exports: set<string>): (used: seq<string>)
    ensures NoRepeats(used)
    ensures forall x :: x in used <==> x in exports && x in FreeNames(t)
  {
    Visit(t, exports, [])
  }
}
