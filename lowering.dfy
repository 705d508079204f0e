/** What the lowering visitor appends for each node kind, as pure functions
    over the node tree, and the properties of the lowered output: placeholder
    and value parity, the order of the values, void elements dropping their
    children, fragments adding no text, and which warnings survive. */
module Lowering {
  import opened Markup
  import opened VoidElements
  import opened Placeholders

  const VOID_WARNING := "This is a void element and cannot have any children"

  /** The warning for a void element that was given children. */
  function VoidWarning(span: Span): Diagnostic
  {
    Diagnostic(Warning, VOID_WARNING, span)
  }

  /** What one visit appends to an accumulator: template text, `format!`
      arguments and diagnostics. */
  datatype Lowered = Lowered(template: string, values: seq<Frag>, diagnostics: seq<Diagnostic>)
  {
    /** This output followed by `next`, as two visits on one accumulator leave it. */
    function Then(next: Lowered): Lowered
    {
      Lowered(template + next.template, values + next.values, diagnostics + next.diagnostics)
    }
  }

  const Nothing := Lowered("", [], [])

  /** Two visits in a row append what the first and then the second append. */
  lemma ThenAssoc(x: Lowered, y: Lowered, z: Lowered)
    ensures x.Then(y).Then(z) == x.Then(y.Then(z))
  {
    AppendAssoc(x.template, y.template, z.template);
    AppendAssoc(x.values, y.values, z.values);
    AppendAssoc(x.diagnostics, y.diagnostics, z.diagnostics);
  }

  /** What visiting one attribute appends. */
  function LowerAttribute(a: Attribute): Lowered
  {
    match a
    case AttributeBlock(block) => Lowered(" {}", [block], [])
    case KeyValue(key, None) => Lowered(" " + key, [], [])
    case KeyValue(key, Some(value)) => Lowered(" " + key + "=\"{}\"", [value], [])
  }

  /** What visiting attributes left to right on one accumulator appends. */
  function LowerAttributes(attributes: seq<Attribute>): Lowered
  {
    if attributes == [] then Nothing
    else LowerAttributes(attributes[..|attributes| - 1]).Then(LowerAttribute(attributes[|attributes| - 1]))
  }

  /** What visiting one node appends. */
  function LowerNode(n: Node): Lowered
    decreases n, 1
  {
    match n
    case Element(name, attributes, children, span) => LowerElement(name, attributes, children, span)
    case Block(block) => Lowered("{}", [block], [])
    case Text(value) => Lowered(value, [], [])
    case Doctype(doctype) => Lowered("<!doctype " + Render(doctype) + ">", [], [])
    case RawText(raw) => Lowered(Render(raw), [], [])
    case Fragment(children) =>
      var c := LowerNodes(children);
      Lowered(c.template, c.values, [])
  }

  /** What visiting an element appends.  Attributes and children are lowered
      on a fresh accumulator and merged without their diagnostics, so only the
      warning of the element itself is kept. */
  function LowerElement(name: string, attributes: seq<Attribute>, children: seq<Node>, span: Span): Lowered
    decreases children, 2
  {
    var a := LowerAttributes(attributes);
    if IsVoid(name) then
      Lowered("<" + name + a.template + "/>", a.values, if children == [] then [] else [VoidWarning(span)])
    else
      var c := LowerNodes(children);
      Lowered("<" + name + a.template + ">" + c.template + "</" + name + ">", a.values + c.values, [])
  }

  /** What visiting nodes left to right on one accumulator appends. */
  function LowerNodes(nodes: seq<Node>): Lowered
    decreases nodes, 0
  {
    if nodes == [] then Nothing
    else LowerNodes(nodes[..|nodes| - 1]).Then(LowerNode(nodes[|nodes| - 1]))
  }

  // ---------------------------------------------------------------------
  // Reference rendering: the markup the final `format!` call prints when
  // every value prints as `show(value)`.

  /** The printed values, in order. */
  function Shown(values: seq<Frag>, show: Frag -> string): (r: seq<string>)
    ensures |r| == |values|
    ensures forall i :: 0 <= i < |r| ==> r[i] == show(values[i])
  {
    if values == [] then [] else Shown(values[..|values| - 1], show) + [show(values[|values| - 1])]
  }

  function HtmlAttribute(a: Attribute, show: Frag -> string): string
  {
    match a
    case AttributeBlock(block) => " " + show(block)
    case KeyValue(key, None) => " " + key
    case KeyValue(key, Some(value)) => " " + key + "=\"" + show(value) + "\""
  }

  function HtmlAttributes(attributes: seq<Attribute>, show: Frag -> string): string
  {
    if attributes == [] then ""
    else HtmlAttributes(attributes[..|attributes| - 1], show) + HtmlAttribute(attributes[|attributes| - 1], show)
  }

  function HtmlNode(n: Node, show: Frag -> string): string
    decreases n
  {
    match n
    case Element(name, attributes, children, _) =>
      if IsVoid(name) then "<" + name + HtmlAttributes(attributes, show) + "/>"
      else "<" + name + HtmlAttributes(attributes, show) + ">" + HtmlNodes(children, show) + "</" + name + ">"
    case Block(block) => show(block)
    case Text(value) => value
    case Doctype(doctype) => "<!doctype " + Render(doctype) + ">"
    case RawText(raw) => Render(raw)
    case Fragment(children) => HtmlNodes(children, show)
  }

  function HtmlNodes(nodes: seq<Node>, show: Frag -> string): string
    decreases nodes
  {
    if nodes == [] then ""
    else HtmlNodes(nodes[..|nodes| - 1], show) + HtmlNode(nodes[|nodes| - 1], show)
  }

  // ---------------------------------------------------------------------
  // Literal text is appended unescaped, so parity needs literals without braces.

  predicate AttributesBraceless(attributes: seq<Attribute>)
  {
    forall a :: a in attributes && a.KeyValue? ==> Braceless(a.key)
  }

  /** Every piece of literal text the visit of `n` appends (element names,
      attribute keys, text, doctype and raw text) is free of braces.  The
      children of a void element are never appended, so they are exempt. */
  predicate LiteralsBraceless(n: Node)
    decreases n
  {
    match n
    case Element(name, attributes, children, _) =>
      Braceless(name) && AttributesBraceless(attributes) && (IsVoid(name) || NodesBraceless(children))
    case Block(_) => true
    case Text(value) => Braceless(value)
    case Doctype(doctype) => Braceless(Render(doctype))
    case RawText(raw) => Braceless(Render(raw))
    case Fragment(children) => NodesBraceless(children)
  }

  predicate NodesBraceless(nodes: seq<Node>)
    decreases nodes
  {
    forall n :: n in nodes ==> LiteralsBraceless(n)
  }

  // ---------------------------------------------------------------------
  // Parity and ordering.

  lemma {:induction false} ShownAppend(a: seq<Frag>, b: seq<Frag>, show: Frag -> string)
    ensures Shown(a + b, show) == Shown(a, show) + Shown(b, show)
    decreases |b|
  {
    if b == [] {
      assert a + b == a;
    } else {
      var init := b[..|b| - 1];
      assert (a + b)[..|a + b| - 1] == a + init;
      ShownAppend(a, init, show);
    }
  }

  lemma FillAttribute(a: Attribute, show: Frag -> string, rest: seq<string>)
    requires a.KeyValue? ==> Braceless(a.key)
    ensures NoOpenEnd(LowerAttribute(a).template)
    ensures Fill(LowerAttribute(a).template, Shown(LowerAttribute(a).values, show) + rest)
         == Some(Filled(HtmlAttribute(a, show), rest))
  {
    match a
    case AttributeBlock(block) =>
      var args := Shown([block], show) + rest;
      assert args == [show(block)] + rest;
      FillBraceless(" ", args);
      FillHole(show(block), rest);
      FillThen(" ", "{}", args, args, rest, " ", show(block));
    case KeyValue(key, None) =>
      assert Shown([], show) + rest == rest;
      FillBraceless(" " + key, rest);
    case KeyValue(key, Some(value)) =>
      assert Shown([value], show) + rest == [show(value)] + rest;
      FillValuedKey(key, show(value), rest);
  }

  /** `key="{}"` with the value's text in the placeholder. */
  lemma FillValuedKey(key: string, x: string, rest: seq<string>)
    requires Braceless(key)
    ensures NoOpenEnd(" " + key + "=\"{}\"")
    ensures Fill(" " + key + "=\"{}\"", [x] + rest) == Some(Filled(" " + key + "=\"" + x + "\"", rest))
  {
    var open := " " + key + "=\"";
    var args := [x] + rest;
    FillBraceless(open, args);
    FillHole(x, rest);
    FillThen(open, "{}", args, args, rest, open, x);
    FillThenLiteral(open + "{}", "\"", args, rest, open + x);
    assert "=\"{}\"" == "=\"" + "{}" + "\"";
    assert " " + key + "=\"{}\"" == open + "{}" + "\"";
  }

  lemma {:induction false} FillAttributes(attributes: seq<Attribute>, show: Frag -> string, rest: seq<string>)
    requires AttributesBraceless(attributes)
    ensures NoOpenEnd(LowerAttributes(attributes).template)
    ensures Fill(LowerAttributes(attributes).template, Shown(LowerAttributes(attributes).values, show) + rest)
         == Some(Filled(HtmlAttributes(attributes, show), rest))
  {
    if attributes == [] {
      assert Shown([], show) + rest == rest;
      FillBraceless("", rest);
    } else {
      var init, last := attributes[..|attributes| - 1], attributes[|attributes| - 1];
      var p, l := LowerAttributes(init), LowerAttribute(last);
      var sp, sl := Shown(p.values, show), Shown(l.values, show);
      assert NoOpenEnd(l.template) && Fill(l.template, sl + rest) == Some(Filled(HtmlAttribute(last, show), rest)) by {
        assert last in attributes;
        FillAttribute(last, show, rest);
      }
      assert NoOpenEnd(p.template) && Fill(p.template, sp + (sl + rest)) == Some(Filled(HtmlAttributes(init, show), sl + rest)) by {
        FillAttributes(init, show, sl + rest);
      }
      assert Shown(LowerAttributes(attributes).values, show) + rest == sp + (sl + rest) by {
        assert LowerAttributes(attributes).values == p.values + l.values;
        ShownAppend(p.values, l.values, show);
        AppendAssoc(sp, sl, rest);
      }
      assert LowerAttributes(attributes).template == p.template + l.template;
      assert HtmlAttributes(attributes, show) == HtmlAttributes(init, show) + HtmlAttribute(last, show);
      FillThen(p.template, l.template, sp + (sl + rest), sl + rest, rest, HtmlAttributes(init, show), HtmlAttribute(last, show));
    }
  }

  /** Filling the template of a node with the shown values, followed by any
      further arguments, prints the node's markup and uses exactly its own
      values: the i-th placeholder receives the i-th value. */
  lemma {:induction false} FillNode(n: Node, show: Frag -> string, rest: seq<string>)
    requires LiteralsBraceless(n)
    ensures NoOpenEnd(LowerNode(n).template)
    ensures Fill(LowerNode(n).template, Shown(LowerNode(n).values, show) + rest)
         == Some(Filled(HtmlNode(n, show), rest))
    decreases n
  {
    match n
    case Element(name, attributes, children, _) =>
      FillElement(name, attributes, children, n, show, rest);
    case Block(block) =>
      assert Shown([block], show) + rest == [show(block)] + rest;
      FillHole(show(block), rest);
    case Text(value) =>
      assert Shown([], show) + rest == rest;
      FillBraceless(value, rest);
    case Doctype(doctype) =>
      assert Shown([], show) + rest == rest;
      FillBraceless("<!doctype " + Render(doctype) + ">", rest);
    case RawText(raw) =>
      assert Shown([], show) + rest == rest;
      FillBraceless(Render(raw), rest);
    case Fragment(children) =>
      FillNodes(children, show, rest);
  }

  lemma {:induction false} FillElement(name: string, attributes: seq<Attribute>, children: seq<Node>, n: Node,
                                       show: Frag -> string, rest: seq<string>)
    requires n.Element? && n.name == name && n.attributes == attributes && n.children == children
    requires LiteralsBraceless(n)
    ensures NoOpenEnd(LowerNode(n).template)
    ensures Fill(LowerNode(n).template, Shown(LowerNode(n).values, show) + rest)
         == Some(Filled(HtmlNode(n, show), rest))
    decreases n, 0
  {
    var a := LowerAttributes(attributes);
    var ha := HtmlAttributes(attributes, show);
    var open := "<" + name;
    if IsVoid(name) {
      var args := Shown(a.values, show) + rest;
      FillStartTag(name, attributes, show, rest);
      FillThenLiteral(open + a.template, "/>", args, rest, open + ha);
    } else {
      var c := LowerNodes(children);
      var hc := HtmlNodes(children, show);
      var tail := Shown(c.values, show) + rest;
      var args := Shown(a.values + c.values, show) + rest;
      assert args == Shown(a.values, show) + tail by {
        ShownAppend(a.values, c.values, show);
        AppendAssoc(Shown(a.values, show), Shown(c.values, show), rest);
      }
      FillStartTag(name, attributes, show, tail);
      FillThenLiteral(open + a.template, ">", args, tail, open + ha);
      FillNodes(children, show, rest);
      FillThen(open + a.template + ">", c.template, args, tail, rest, open + ha + ">", hc);
      FillEndTag(open + a.template + ">" + c.template, name, args, rest, open + ha + ">" + hc);
    }
  }

  /** The start tag up to its attributes prints `<`, the name and the
      printed attributes, and uses the attributes' values. */
  lemma FillStartTag(name: string, attributes: seq<Attribute>, show: Frag -> string, rest: seq<string>)
    requires Braceless(name) && AttributesBraceless(attributes)
    ensures NoOpenEnd("<" + name + LowerAttributes(attributes).template)
    ensures Fill("<" + name + LowerAttributes(attributes).template, Shown(LowerAttributes(attributes).values, show) + rest)
         == Some(Filled("<" + name + HtmlAttributes(attributes, show), rest))
  {
    var a := LowerAttributes(attributes);
    var args := Shown(a.values, show) + rest;
    FillBraceless("<" + name, args);
    FillAttributes(attributes, show, rest);
    FillThen("<" + name, a.template, args, args, rest, "<" + name, HtmlAttributes(attributes, show));
  }

  /** An end tag is literal text. */
  lemma FillEndTag(t: string, name: string, args: seq<string>, rest: seq<string>, h: string)
    requires NoOpenEnd(t) && Braceless(name)
    requires Fill(t, args) == Some(Filled(h, rest))
    ensures NoOpenEnd(t + "</" + name + ">")
    ensures Fill(t + "</" + name + ">", args) == Some(Filled(h + "</" + name + ">", rest))
  {
    FillThenLiteral(t, "</", args, rest, h);
    FillThenLiteral(t + "</", name, args, rest, h + "</");
    FillThenLiteral(t + "</" + name, ">", args, rest, h + "</" + name);
  }

  lemma {:induction false} FillNodes(nodes: seq<Node>, show: Frag -> string, rest: seq<string>)
    requires NodesBraceless(nodes)
    ensures NoOpenEnd(LowerNodes(nodes).template)
    ensures Fill(LowerNodes(nodes).template, Shown(LowerNodes(nodes).values, show) + rest)
         == Some(Filled(HtmlNodes(nodes, show), rest))
    decreases nodes
  {
    if nodes == [] {
      assert Shown([], show) + rest == rest;
      FillBraceless("", rest);
    } else {
      var init, last := nodes[..|nodes| - 1], nodes[|nodes| - 1];
      var p, l := LowerNodes(init), LowerNode(last);
      var sp, sl := Shown(p.values, show), Shown(l.values, show);
      assert NoOpenEnd(l.template) && Fill(l.template, sl + rest) == Some(Filled(HtmlNode(last, show), rest)) by {
        assert last in nodes;
        FillNode(last, show, rest);
      }
      assert NoOpenEnd(p.template) && Fill(p.template, sp + (sl + rest)) == Some(Filled(HtmlNodes(init, show), sl + rest)) by {
        FillNodes(init, show, sl + rest);
      }
      assert Shown(LowerNodes(nodes).values, show) + rest == sp + (sl + rest) by {
        assert LowerNodes(nodes).values == p.values + l.values;
        ShownAppend(p.values, l.values, show);
        AppendAssoc(sp, sl, rest);
      }
      assert LowerNodes(nodes).template == p.template + l.template;
      assert HtmlNodes(nodes, show) == HtmlNodes(init, show) + HtmlNode(last, show);
      FillThen(p.template, l.template, sp + (sl + rest), sl + rest, rest, HtmlNodes(init, show), HtmlNode(last, show));
    }
  }

  /** Placeholder/value parity and order for a node sequence: the template has
      exactly one placeholder per value, and substituting the shown values in
      their order prints the markup, each value in the place of the node or
      attribute it came from (pre-order, attributes before children). */
  lemma Parity(nodes: seq<Node>, show: Frag -> string)
    requires NodesBraceless(nodes)
    ensures Holes(LowerNodes(nodes).template) == |LowerNodes(nodes).values|
    ensures Substitute(LowerNodes(nodes).template, Shown(LowerNodes(nodes).values, show))
         == Some(HtmlNodes(nodes, show))
  {
    var out := LowerNodes(nodes);
    var args := Shown(out.values, show);
    FillNodes(nodes, show, []);
    assert args + [] == args;
    FillUses(out.template, args);
  }

  /** Without the braceless precondition parity fails: text is appended
      unescaped, so a text node `{}` adds a placeholder and no value. */
  lemma UnescapedBraceBreaksParity()
    ensures Holes(LowerNodes([Text("{}")]).template) == 1
    ensures LowerNodes([Text("{}")]).values == []
  {
    assert [Text("{}")][..0] == [];
    var t: string := "{}";
    assert t[2..] == "";
  }

  /** One more node visited on the same accumulator. */
  lemma LowerNodesPrefix(nodes: seq<Node>, i: nat)
    requires i < |nodes|
    ensures LowerNodes(nodes[..i + 1]) == LowerNodes(nodes[..i]).Then(LowerNode(nodes[i]))
  {
    assert nodes[..i + 1][..i] == nodes[..i];
  }

  /** One more attribute visited on the same accumulator. */
  lemma LowerAttributesPrefix(attributes: seq<Attribute>, i: nat)
    requires i < |attributes|
    ensures LowerAttributes(attributes[..i + 1]) == LowerAttributes(attributes[..i]).Then(LowerAttribute(attributes[i]))
  {
    assert attributes[..i + 1][..i] == attributes[..i];
  }

  /** Lowering a concatenation is lowering each part on the same accumulator. */
  lemma {:induction false} LowerNodesAppend(a: seq<Node>, b: seq<Node>)
    ensures LowerNodes(a + b) == LowerNodes(a).Then(LowerNodes(b))
    decreases |b|
  {
    if b == [] {
      assert a + b == a;
      var la := LowerNodes(a);
      assert la.template + "" == la.template && la.values + [] == la.values && la.diagnostics + [] == la.diagnostics;
    } else {
      var init := b[..|b| - 1];
      assert (a + b)[..|a + b| - 1] == a + init;
      assert (a + b)[|a + b| - 1] == b[|b| - 1];
      LowerNodesAppend(a, init);
    }
  }

  /** A fragment adds no text of its own: in any context, lowering it gives
      the same template and values as lowering its children in its place. */
  lemma FragmentTransparent(before: seq<Node>, children: seq<Node>, after: seq<Node>)
    ensures LowerNodes(before + [Fragment(children)] + after).template
         == LowerNodes(before + children + after).template
    ensures LowerNodes(before + [Fragment(children)] + after).values
         == LowerNodes(before + children + after).values
  {
    LowerNodesAppend(before + [Fragment(children)], after);
    LowerNodesAppend(before, [Fragment(children)]);
    LowerNodesAppend(before + children, after);
    LowerNodesAppend(before, children);
    assert [Fragment(children)][..0] == [];
  }

  /** A void element's children never reach the template or the values:
      any two child lists give the same output, up to the single warning. */
  lemma VoidDropsChildren(name: string, attributes: seq<Attribute>, c1: seq<Node>, c2: seq<Node>, span: Span)
    requires IsVoid(name)
    ensures LowerNode(Element(name, attributes, c1, span)).template
         == LowerNode(Element(name, attributes, c2, span)).template
    ensures LowerNode(Element(name, attributes, c1, span)).values
         == LowerNode(Element(name, attributes, c2, span)).values
  {
  }

  // ---------------------------------------------------------------------
  // Diagnostics: `extend` does not merge them, so only top-level warnings survive.

  /** Whether `n` is a void element that was given children. */
  predicate HasVoidChildren(n: Node)
  {
    n.Element? && IsVoid(n.name) && n.children != []
  }

  /** The warnings for the offending void elements among `nodes` themselves,
      in order, ignoring everything nested inside them. */
  function TopLevelWarnings(nodes: seq<Node>): seq<Diagnostic>
  {
    if nodes == [] then []
    else (if HasVoidChildren(nodes[0]) then [VoidWarning(nodes[0].span)] else []) + TopLevelWarnings(nodes[1..])
  }

  lemma {:induction false} TopLevelWarningsSnoc(nodes: seq<Node>, n: Node)
    ensures TopLevelWarnings(nodes + [n])
         == TopLevelWarnings(nodes) + (if HasVoidChildren(n) then [VoidWarning(n.span)] else [])
  {
    if nodes != [] {
      assert (nodes + [n])[1..] == nodes[1..] + [n];
      TopLevelWarningsSnoc(nodes[1..], n);
    } else {
      assert [n][1..] == [];
    }
  }

  /** One node's own warning, if any. */
  lemma NodeWarning(n: Node)
    ensures LowerNode(n).diagnostics == if HasVoidChildren(n) then [VoidWarning(n.span)] else []
  {
    if n.Element? {
      assert LowerNode(n) == LowerElement(n.name, n.attributes, n.children, n.span);
    }
  }

  /** The diagnostics of a visit are exactly one warning per top-level void
      element with children, in order; nested ones are lost. */
  lemma {:induction false} DiagnosticsAreTopLevelWarnings(nodes: seq<Node>)
    ensures LowerNodes(nodes).diagnostics == TopLevelWarnings(nodes)
    decreases |nodes|
  {
    if nodes != [] {
      var init, last := nodes[..|nodes| - 1], nodes[|nodes| - 1];
      DiagnosticsAreTopLevelWarnings(init);
      TopLevelWarningsSnoc(init, last);
      NodeWarning(last);
      assert init + [last] == nodes;
    }
  }

  /** A `<br>` with children warns at top level, but not inside a `<div>` or
      a fragment. */
  lemma NestedVoidWarningIsLost(outer: Span, inner: Span)
    ensures LowerNodes([Element("br", [], [Text("x")], inner)]).diagnostics == [VoidWarning(inner)]
    ensures LowerNodes([Element("div", [], [Element("br", [], [Text("x")], inner)], outer)]).diagnostics == []
    ensures LowerNodes([Fragment([Element("br", [], [Text("x")], inner)])]).diagnostics == []
  {
    var br := Element("br", [], [Text("x")], inner);
    assert IsVoid("br") && !IsVoid("div");
    DiagnosticsAreTopLevelWarnings([br]);
    DiagnosticsAreTopLevelWarnings([Element("div", [], [br], outer)]);
    DiagnosticsAreTopLevelWarnings([Fragment([br])]);
  }
}
