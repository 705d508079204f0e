/** The lowering visitor: an accumulator whose template text, value list and
    diagnostic list every visit appends to in place.  Each visit is proved to
    append exactly what the pure `Lowering` functions describe. */
module Visitor {
  import opened Markup
  import opened VoidElements
  import opened Lowering

  /** The visitor state.  `template` is the source's `string` field. */
  class WalkNodes {
    var template: string
    var values: seq<Frag>
    var diagnostics: seq<Diagnostic>

    /** The three fields together. */
    ghost function State(): Lowered
      reads this
    {
      Lowered(template, values, diagnostics)
    }

    /** The empty accumulator every walk starts from. */
    constructor ()
      ensures template == "" && values == [] && diagnostics == []
    {
      template := "";
      values := [];
      diagnostics := [];
    }

    /** Merges a child accumulator: its text and values are appended; its
        diagnostics are not carried over. */
    method Extend(other: WalkNodes)
      requires other != this
      modifies this
      ensures template == old(template) + other.template
      ensures values == old(values) + other.values
      ensures diagnostics == old(diagnostics)
    {
      template := template + other.template;
      values := values + other.values;
    }

    /** A block becomes one placeholder and one value. */
    method VisitBlock(block: Frag)
      modifies this
      ensures template == old(template) + "{}"
      ensures values == old(values) + [block]
      ensures diagnostics == old(diagnostics)
    {
      template := template + "{}";
      values := values + [block];
    }

    /** A doctype is printed literally; it adds no value. */
    method VisitDoctype(doctype: Frag)
      modifies this
      ensures template == old(template) + "<!doctype " + Render(doctype) + ">"
      ensures values == old(values) && diagnostics == old(diagnostics)
    {
      template := template + "<!doctype " + Render(doctype) + ">";
    }

    /** The body of a raw-text element is printed literally; it adds no value. */
    method VisitRawNode(raw: Frag)
      modifies this
      ensures template == old(template) + Render(raw)
      ensures values == old(values) && diagnostics == old(diagnostics)
    {
      template := template + Render(raw);
    }

    /** Text is appended as it is, unescaped; it adds no value. */
    method VisitTextNode(value: string)
      modifies this
      ensures template == old(template) + value
      ensures values == old(values) && diagnostics == old(diagnostics)
    {
      template := template + value;
    }

    /** One attribute: ` {}` for a block, ` key` for a bare key, and
        ` key="{}"` when the key has a value, which is then the one value added. */
    method VisitAttribute(attribute: Attribute)
      modifies this
      ensures State() == old(State()).Then(LowerAttribute(attribute))
      ensures |values| == |old(values)| + (if attribute.KeyValue? && attribute.value.None? then 0 else 1)
    {
      match attribute
      case AttributeBlock(block) =>
        template := template + " {}";
        values := values + [block];
      case KeyValue(key, value) =>
        template := template + " " + key;
        if value.Some? {
          template := template + "=\"{}\"";
          values := values + [value.value];
        }
    }

    /** Visits the attributes left to right on this accumulator. */
    method VisitAttributes(attributes: seq<Attribute>)
      modifies this
      ensures State() == old(State()).Then(LowerAttributes(attributes))
    {
      ghost var start := State();
      var i := 0;
      while i < |attributes|
        invariant 0 <= i <= |attributes|
        invariant State() == start.Then(LowerAttributes(attributes[..i]))
      {
        LowerAttributesPrefix(attributes, i);
        VisitAttribute(attributes[i]);
        ThenAssoc(start, LowerAttributes(attributes[..i]), LowerAttribute(attributes[i]));
        i := i + 1;
      }
      assert attributes[..i] == attributes;
    }

    /** The open start tag of an element: `<`, the name and the attributes,
        visited on a fresh accumulator and merged. */
    method VisitStartTag(name: string, attributes: seq<Attribute>)
      modifies this
      ensures template == old(template) + ("<" + name + LowerAttributes(attributes).template)
      ensures values == old(values) + LowerAttributes(attributes).values
      ensures diagnostics == old(diagnostics)
    {
      template := template + "<" + name;
      var attrs := new WalkNodes();
      attrs.VisitAttributes(attributes);
      Extend(attrs);
    }

    /** An element: the start tag with its attributes; then, for a void
        element, `/>` and a warning when it was given children, which are
        dropped; otherwise `>`, the children and the end tag.  The values of
        the attributes come before those of the children. */
    method VisitElement(name: string, attributes: seq<Attribute>, children: seq<Node>, span: Span)
      modifies this
      ensures IsVoid(name) ==>
        template == old(template) + ("<" + name + LowerAttributes(attributes).template + "/>")
      ensures !IsVoid(name) ==>
        template == old(template) + ("<" + name + LowerAttributes(attributes).template + ">"
                                     + LowerNodes(children).template + "</" + name + ">")
      ensures values == old(values) + (LowerAttributes(attributes).values
                                       + (if IsVoid(name) then [] else LowerNodes(children).values))
      ensures diagnostics == old(diagnostics) + (if IsVoid(name) && children != [] then [VoidWarning(span)] else [])
      decreases children, 2
    {
      ghost var t0, v0, d0 := template, values, diagnostics;
      ghost var a := LowerAttributes(attributes);
      VisitStartTag(name, attributes);

      if IsVoid(name) {
        template := template + "/>";
        assert values == v0 + (a.values + []);
        if children != [] {
          diagnostics := diagnostics + [VoidWarning(span)];
        } else {
          assert diagnostics == d0 + [];
        }
        return;
      } else {
        template := template + ">";
      }

      var kids := new WalkNodes();
      kids.VisitNodes(children);
      Extend(kids);
      template := template + "</" + name + ">";
      assert diagnostics == d0 + [];
    }

    /** A fragment appends what its children would, with nothing around
        them; their diagnostics are not carried over. */
    method VisitFragment(children: seq<Node>)
      modifies this
      ensures template == old(template) + LowerNodes(children).template
      ensures values == old(values) + LowerNodes(children).values
      ensures diagnostics == old(diagnostics)
      decreases children, 2
    {
      var kids := new WalkNodes();
      kids.VisitNodes(children);
      Extend(kids);
    }

    /** Dispatches on the node kind. */
    method VisitNode(node: Node)
      modifies this
      ensures State() == old(State()).Then(LowerNode(node))
      decreases node, 0
    {
      match node
      case Element(name, attributes, children, span) => VisitElement(name, attributes, children, span);
      case Block(block) => VisitBlock(block);
      case Text(value) => VisitTextNode(value);
      case Doctype(doctype) => VisitDoctype(doctype);
      case RawText(raw) => VisitRawNode(raw);
      case Fragment(children) => VisitFragment(children);
    }

    /** Visits the nodes left to right on this accumulator. */
    method VisitNodes(nodes: seq<Node>)
      modifies this
      ensures State() == old(State()).Then(LowerNodes(nodes))
      decreases nodes, 1
    {
      ghost var start := State();
      var i := 0;
      while i < |nodes|
        invariant 0 <= i <= |nodes|
        invariant State() == start.Then(LowerNodes(nodes[..i]))
      {
        LowerNodesPrefix(nodes, i);
        VisitNode(nodes[i]);
        ThenAssoc(start, LowerNodes(nodes[..i]), LowerNode(nodes[i]));
        i := i + 1;
      }
      assert nodes[..i] == nodes;
    }
  }
}
