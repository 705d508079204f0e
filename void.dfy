/** The fixed table of void elements: elements that may not contain children
    and are written without an end tag.  It is the void-element list of the
    WHATWG HTML Living Standard, section 13.1.2 "Elements", plus the obsolete
    `param`. */
module VoidElements {

  const VOID_ELEMENTS: seq<string> := [
    "area", "base", "br", "col", "embed", "hr", "img", "input", "link", "meta", "param", "source",
    "track", "wbr"
  ]

  /** Whether an element of this name is rendered self-closed, without children. */
  predicate IsVoid(name: string)
  {
    name in VOID_ELEMENTS
  }

  /** The table holds fourteen names, no name twice. */
  lemma VoidElementsDistinct()
    ensures |VOID_ELEMENTS| == 14
    ensures forall i, j :: 0 <= i < j < |VOID_ELEMENTS| ==> VOID_ELEMENTS[i] != VOID_ELEMENTS[j]
  {
  }

  /** Exactly these fourteen names are void; every other name, including
      `script`, `style`, `div` and the empty name, is not. */
  lemma VoidElementsExactly(name: string)
    ensures IsVoid(name) <==>
      name in {"area", "base", "br", "col", "embed", "hr", "img", "input", "link", "meta",
               "param", "source", "track", "wbr"}
    ensures !IsVoid("script") && !IsVoid("style") && !IsVoid("div") && !IsVoid("")
  {
  }
}
