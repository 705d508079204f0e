# sjabloon: the template lowering visitor, in Dafny

`sjabloon` is a Rust procedural macro, `template!`, that accepts JSX-like
markup. rstml parses the markup into a node tree. The `WalkNodes` visitor then
lowers that tree into three things:

- a `format!` template string with positional `{}` placeholders;
- the ordered list of code values that fill those placeholders;
- a list of diagnostics.

The macro expands to the parser's errors, then the visitor's diagnostics,
then one `format!(template, values...)` call.

This project models two parts of that code:

- the visitor, with each `visit_*` override, `extend`, and the left-to-right
  folds over children and attributes;
- the void-element table and the way `template` assembles its result.

It then proves what the lowered output means.

Modules:

- `Markup` (markup.dfy) holds the parsed tree. A code value (`Frag`) is its
  source text and its span, and `Render` gives that text.
- `VoidElements` (void.dfy) holds the fourteen void element names.
- `Placeholders` (placeholders.dfy) gives the positional semantics of
  `format!`. Each `{}`, read left to right, takes the next argument. `Holes`
  counts the placeholders, `Fill` fills a prefix, and `Substitute` does the
  whole call.
- `Lowering` (lowering.dfy) holds the pure specification of what each visit
  appends (`LowerNode`, `LowerElement`, `LowerNodes`, `LowerAttribute`,
  `LowerAttributes`). It also holds a reference rendering of the markup
  (`HtmlNode`, `HtmlNodes`) and the properties of the lowering:
  - placeholder/value parity and order;
  - void elements dropping their children;
  - fragments adding no text;
  - which warnings survive.
- `Visitor` (visitor.dfy) holds the class `WalkNodes`. Its fields are updated
  in place, as in the source. The source's field `string` is called
  `template` here, because `string` is a Dafny type name. Every visit is
  proved to append exactly what `Lowering` specifies.
- `Sjabloon` (template.dfy) holds the assembly in `template`, and small
  scenarios worked out in full.

Two behaviours of the code are reproduced as written, and each is proved as a
property:

- `extend` merges the template text and the values, but not the
  diagnostics. A child walk starts on a fresh accumulator, so a void-element
  warning raised inside an element or a fragment is lost. Only warnings of
  top-level elements reach the output
  (`Lowering.DiagnosticsAreTopLevelWarnings`,
  `Lowering.NestedVoidWarningIsLost`). So a void element with children that
  is nested in an element or a fragment is never reported.
- Literal text, doctype text, raw text, element names and attribute keys are
  appended unescaped. A brace in any of them can
  add a placeholder with no value, or make the format string invalid.
  - Parity between placeholders and values is therefore proved only when no
    appended literal contains a brace (`Lowering.Parity`).
  - `Lowering.UnescapedBraceBreaksParity` shows that parity fails without
    that condition.

## Model

| member | source | states |
|---|---|---|
| VoidElements.VoidElementsDistinct | src/lib.rs:12-15 | the void table has 14 entries, no name twice |
| VoidElements.VoidElementsExactly | src/lib.rs:12-15 | a name is void iff it is one of area, base, br, col, embed, hr, img, input, link, meta, param, source, track, wbr; script, style, div and the empty name are not void |
| Visitor.WalkNodes.constructor | src/visitor.rs:11-16 | the default accumulator has empty text, values and diagnostics |
| Visitor.WalkNodes.Extend | src/visitor.rs:20-23 | appends the other accumulator's text and values; own diagnostics unchanged, the other's are dropped |
| Visitor.WalkNodes.VisitBlock | src/visitor.rs:32-37 | appends exactly `{}` and exactly the block as one value; diagnostics unchanged |
| Visitor.WalkNodes.VisitDoctype | src/visitor.rs:39-46 | appends `<!doctype ` + the rendered value + `>`; values and diagnostics unchanged |
| Visitor.WalkNodes.VisitRawNode | src/visitor.rs:48-52 | appends the raw text as rendered; values and diagnostics unchanged |
| Visitor.WalkNodes.VisitTextNode | src/visitor.rs:54-58 | appends the text unescaped; values and diagnostics unchanged |
| Visitor.WalkNodes.VisitAttribute | src/visitor.rs:101-117 | appends what `LowerAttribute` specifies; values grow by one, except for a key without a value, which adds none |
| Visitor.WalkNodes.VisitAttributes | src/visitor.rs:64-66 | visiting attributes left to right on one accumulator appends `LowerAttributes` of them |
| Visitor.WalkNodes.VisitStartTag | src/visitor.rs:61-66 | appends `<` + name + the lowered attributes, with the attribute values, merged from a fresh accumulator; diagnostics unchanged |
| Visitor.WalkNodes.VisitElement | src/visitor.rs:60-91 | void: `<name attrs/>`, attribute values only, one warning iff there are children. Otherwise `<name attrs>` + children + `</name>`, with attribute values before child values and no diagnostic |
| Visitor.WalkNodes.VisitFragment | src/visitor.rs:93-99 | appends exactly the children's lowered text and values with no delimiters; their diagnostics do not reach this accumulator |
| Visitor.WalkNodes.VisitNode | src/visitor.rs:28-117 | the visit of any node kind appends `LowerNode` of it to the whole state |
| Visitor.WalkNodes.VisitNodes | src/visitor.rs:85-87 | visiting nodes left to right on one accumulator appends `LowerNodes` of them |
| Lowering.VoidDropsChildren | src/visitor.rs:68-80 | for a void element, any two child lists give the same template and the same values |
| Lowering.NodeWarning | src/visitor.rs:68-80 | a node's own diagnostics are one warning at its span iff it is a void element with children |
| Lowering.DiagnosticsAreTopLevelWarnings | src/visitor.rs:20-23 | the diagnostics of a walk are exactly one warning per top-level void element with children, in order |
| Lowering.NestedVoidWarningIsLost | src/visitor.rs:85-96 | a `<br>` with children warns at top level but not inside a `<div>` or a fragment |
| Lowering.FragmentTransparent | src/visitor.rs:93-99 | replacing a fragment by its children, in any context, leaves the template and the values unchanged |
| Lowering.LowerNodesAppend | src/visitor.rs:85-87 | lowering a concatenation is lowering each part in turn on the same accumulator |
| Lowering.FillAttribute | src/visitor.rs:101-117 | filling one attribute's text with its shown value prints the attribute and uses exactly its own value |
| Lowering.FillValuedKey | src/visitor.rs:107-112 | `key="{}"` filled with x prints `key="x"` and uses one argument |
| Lowering.FillAttributes | src/visitor.rs:64-66 | filling the attributes' text prints them in order, the i-th placeholder taking the i-th value |
| Lowering.FillStartTag | src/visitor.rs:61-66 | filling `<name` + attributes prints `<name` + the printed attributes, using the attribute values |
| Lowering.FillEndTag | src/visitor.rs:88 | the end tag is literal text that uses no argument |
| Lowering.FillElement | src/visitor.rs:60-91 | filling an element's text prints its markup and uses its values, attributes before children |
| Lowering.FillNode | src/visitor.rs:32-117 | for every node kind, filling its text with its shown values prints its markup and uses exactly its own values |
| Lowering.FillNodes | src/visitor.rs:85-87 | the same for a node sequence, in pre-order |
| Lowering.Parity | src/visitor.rs:32-117 | with brace-free literals: placeholders == values, and the `format!` substitution prints the markup, each value in its node's place |
| Lowering.UnescapedBraceBreaksParity | src/visitor.rs:54-58 | the text `{}` gives one placeholder and no value |
| Lowering.Shown | src/lib.rs:39 | the printed arguments are as many as the values, and the i-th is the printing of the i-th value |
| Placeholders.FillUses | src/lib.rs:39 | filling succeeds iff there are at least as many arguments as placeholders; the leftover arguments are those after the first `Holes` |
| Placeholders.Substitute | src/lib.rs:39 | for a template whose only braces are `{}` placeholders (so under `NodesBraceless`), the `format!` call is well formed iff the placeholder count equals the argument count |
| Placeholders.FillBraceless | src/lib.rs:39 | text without braces is copied unchanged and uses no argument |
| Placeholders.FillConcat | src/lib.rs:39 | filling a concatenation fills the parts in order when no placeholder straddles the seam |
| Placeholders.FillThen | src/lib.rs:39 | two successful fills chain into one fill of the concatenated text |
| Sjabloon.Template | src/lib.rs:26-40 | a walk from the empty accumulator: parser errors first, in order, then exactly the top-level warnings; template and values are the lowering's, unchanged; with brace-free literals, placeholders == values, and the `format!` call prints the markup of the whole tree for any printing of the values |
| Sjabloon.ScenarioKeyedAttribute | src/visitor.rs:101-117 | `Element("div", [KeyValue("class", Some(x))], [Text("hi")], _)` lowers to `<div class="{}">hi</div>` with values [x] |
| Sjabloon.ScenarioVoidWithChildren | src/visitor.rs:68-80 | `Element("br", [], [Text("oops")], br)` lowers to `<br/>`, no values, one warning at the br |
| Sjabloon.ScenarioBlock | src/visitor.rs:32-37 | `Block(y)` at top level lowers to `{}` with values [y] |
| Sjabloon.ScenarioFragment | src/visitor.rs:93-99 | `Fragment([Text("a"), Block(z), Text("b")])` lowers to `a{}b` with values [z] |

## Left out

- Parsing by rstml (`Parser`, `ParserConfig`, raw-text elements `script` and `style`). This is an external library. The model takes the parsed nodes and the parse errors as inputs.
- The `nodes.unwrap()` panic path in `template`, for parses that yield no tree. It belongs to the parsing that is left out.
- Token plumbing. The code values of `to_token_stream`, and the text of `to_token_stream_string` and `to_string_best`, are modelled as a `Frag`, which is source text and a span. `Render` returns that text, and every rendering method is the same `Render`. `value_string` gives the `Text` node's string. The `quote!` expansion is `Expansion`.
- The printing of a value by the generated code at run time is the parameter `show`. It is arbitrary, not Rust's `Display`.
- Diagnostic rendering by `proc_macro2_diagnostics` (`emit_as_expr_tokens`). A diagnostic is a record of level, message and span. Parser errors are passed through unchanged.
- Escaped braces (`{{`, `}}`), named and formatted placeholders in `format!`. The template only ever contains `{}` placeholders, unless a literal contains a brace, and parity is proved only when none does.
- Placeholders.Substitute: a lone `{` or `}` in the template is a compile-time `format!` error, but `Fill` copies it as text; so the iff holds as `format!` means it only for templates whose braces all form `{}` placeholders, which `NodesBraceless` guarantees for lowered templates.
- Comment nodes and custom nodes. The visitor does not override them, and rstml's default handling of them is not part of this model.
- Element names given as blocks (`<{x}>`) go through `visit_element` like any other element. Their printed form comes from rstml's `NodeName` display, which is not part of this model. The model takes that printed form as the `name` string, and `Parity` does not cover a name that contains braces.
- The empty `VisitMut` impl, and the `&mut` access to nodes. The visitor never changes the tree, so nodes are immutable values here.
- rstml's `visit_nodes` and `visit_attributes` are not in the source shown; they are modelled as left-to-right loops that visit each item on one accumulator, with no descent beyond what the overrides do. Every override returns `false`.
