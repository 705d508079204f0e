/** The node tree the lowering visitor consumes (built by the rstml parser,
    which is not part of this model), the opaque code fragments it carries,
    and the diagnostics the visitor and the parser report. */
module Markup {

  datatype Option<+T> = None | Some(value: T)

  /** A source location, as a half-open range of token offsets. */
  datatype Span = Span(start: nat, end: nat)

  /** An opaque token stream: an embedded Rust expression, a doctype value or
      the body of a raw-text element.  The visitor never looks inside it; it
      either passes it on unchanged as a `format!` argument or prints its
      literal source text. */
  datatype Frag = Frag(source: string, span: Span)

  /** The literal source text of a token stream, as printed at compile time. */
  function Render(f: Frag): string
  {
    f.source
  }

  /** An attribute of an element: `key` or `key=value`, or a braced block
      that spreads computed attributes. */
  datatype Attribute =
    | KeyValue(key: string, value: Option<Frag>)
    | AttributeBlock(block: Frag)

  /** The node kinds the visitor handles. */
  datatype Node =
    | Element(name: string, attributes: seq<Attribute>, children: seq<Node>, span: Span)
    | Block(block: Frag)
    | Text(value: string)
    | Doctype(doctype: Frag)
    | RawText(raw: Frag)
    | Fragment(children: seq<Node>)

  datatype Level = Warning | Error

  /** A compiler diagnostic: its level, its message and the span it points at. */
  datatype Diagnostic = Diagnostic(level: Level, message: string, span: Span)
}
