/** The `template!` macro's assembly of its result: the visitor is run on the
    parsed root nodes from an empty accumulator, the parser's errors are
    reported before the visitor's diagnostics, and the template text and the
    values become the format string and the arguments of one `format!` call.
    Parsing itself is done by rstml and is not part of this model: the parsed
    nodes and the parser's errors are the inputs. */
module Sjabloon {
  import opened Markup
  import opened VoidElements
  import opened Placeholders
  import opened Lowering
  import opened Visitor

  /** The macro's expansion: one statement per diagnostic, then
      `format!(template, values...)`. */
  datatype Expansion = Expansion(diagnostics: seq<Diagnostic>, template: string, values: seq<Frag>)

  /** Lowers the parsed nodes and assembles the expansion.  The parser's
      errors come first, in order, then the visitor's warnings, in order; the
      format string and its arguments are the visitor's text and values,
      unchanged.  When no literal text contains a brace, the `format!` call
      has exactly one argument per placeholder, and for any printing `show`
      of the values it prints the markup of the whole tree. */
  method Template(nodes: seq<Node>, errors: seq<Diagnostic>, ghost show: Frag -> string) returns (out: Expansion)
    ensures out.diagnostics == errors + TopLevelWarnings(nodes)
    ensures out.template == LowerNodes(nodes).template
    ensures out.values == LowerNodes(nodes).values
    ensures NodesBraceless(nodes) ==> Holes(out.template) == |out.values|
    ensures NodesBraceless(nodes) ==> Substitute(out.template, Shown(out.values, show)) == Some(HtmlNodes(nodes, show))
  {
    var walk := new WalkNodes();
    walk.VisitNodes(nodes);
    out := Expansion(errors + walk.diagnostics, walk.template, walk.values);

    DiagnosticsAreTopLevelWarnings(nodes);
    if NodesBraceless(nodes) {
      Parity(nodes, show);
    }
  }

  /** A keyed attribute with a value: its placeholder is quoted and its
      value is the one argument. */
  lemma ScenarioKeyedAttribute(x: Frag, div: Span)
    ensures LowerNodes([Element("div", [KeyValue("class", Some(x))], [Text("hi")], div)])
         == Lowered("<div class=\"{}\">hi</div>", [x], [])
  {
    var attrs := [KeyValue("class", Some(x))];
    var hi := [Text("hi")];
    var a := Element("div", attrs, hi, div);
    assert LowerAttributes(attrs) == Lowered(" class=\"{}\"", [x], []) by {
      assert attrs[..0] == [];
    }
    assert LowerNodes(hi) == Lowered("hi", [], []) by {
      assert hi[..0] == [];
    }
    var t := "<" + "div" + " class=\"{}\"" + ">" + "hi" + "</" + "div" + ">";
    assert LowerNode(a) == Lowered(t, [x], []) by {
      assert !IsVoid("div");
      assert [x] + [] == [x];
    }
    KeyedAttributeText();
    assert LowerNodes([a]) == LowerNode(a) by {
      assert [a][..0] == [];
    }
  }

  lemma KeyedAttributeText()
    ensures "<" + "div" + " class=\"{}\"" + ">" + "hi" + "</" + "div" + ">" == "<div class=\"{}\">hi</div>"
  {
  }

  /** A void element given children: self-closed, children dropped, one warning. */
  lemma ScenarioVoidWithChildren(br: Span)
    ensures LowerNodes([Element("br", [], [Text("oops")], br)]) == Lowered("<br/>", [], [VoidWarning(br)])
  {
    assert IsVoid("br");
    var b := Element("br", [], [Text("oops")], br);
    assert [b][..0] == [];
    assert LowerNode(b) == LowerElement("br", [], [Text("oops")], br);
  }

  /** A top-level block is one placeholder and one argument. */
  lemma ScenarioBlock(y: Frag)
    ensures LowerNodes([Block(y)]) == Lowered("{}", [y], [])
  {
    assert [Block(y)][..0] == [];
  }

  /** A fragment adds nothing around its children. */
  lemma ScenarioFragment(z: Frag)
    ensures LowerNodes([Fragment([Text("a"), Block(z), Text("b")])]) == Lowered("a{}b", [z], [])
  {
    var abc := [Text("a"), Block(z), Text("b")];
    assert abc[..2][..1] == [Text("a")] && abc[..2][..1][..0] == [];
    assert LowerNodes(abc[..2][..1]) == Lowered("a", [], []);
    assert LowerNodes(abc[..2]) == Lowered("a{}", [z], []);
    assert LowerNodes(abc) == Lowered("a{}b", [z], []);
    assert [Fragment(abc)][..0] == [];
  }
}
