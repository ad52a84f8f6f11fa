/**
 The AOT back end: from JSX to the text of a JavaScript string expression
 (native/vertz-compiler-core/src/aot_string_transformer.rs).
 `rx` says whether the component has reactive names in scope; `hid` is the
 hydration id the root is to carry.
 */
module AotCompiler {
  import opened JsxSyntax
  import opened AotReader
  import opened JsxWhitespace
  import opened Replacing

  // ---- escaping ----

  function EscapeStringLiteral(text: string): string {
    Replace(Replace(Replace(Replace(text, '\\', "\\\\"), '\'', "\\'"), '\n', "\\n"), '\r', "\\r")
  }

  function EscapeAttrValue(value: string): string {
    Replace(Replace(Replace(value, '\\', "\\\\"), '\'', "\\'"), '\n', "\\n")
  }

  // ---- parts ----

  function NoText(): Code {
    Tx("''")
  }

  /** The parts other than `''`. */
  function Loud(parts: seq<Code>): seq<Code> {
    if parts == [] then []
    else if parts[0] == NoText() then Loud(parts[1..])
    else [parts[0]] + Loud(parts[1..])
  }

  function Joined(parts: seq<Code>, sep: Code): Code {
    if parts == [] then []
    else if |parts| == 1 then parts[0]
    else parts[0] + sep + Joined(parts[1..], sep)
  }

  function Sum(parts: seq<Code>): Code {
    var loud := Loud(parts);
    if loud == [] then NoText() else Joined(loud, Tx(" + "))
  }

  // ---- attributes ----

  function HtmlName(name: string): string {
    if name == "className" then "class" else if name == "htmlFor" then "for" else name
  }

  function AttrText(name: string, value: AttrValue): Option<Code> {
    if IsEventHandler(name) || IsSkipProp(name) then None
    else
      var html := HtmlName(name);
      match value
      case Quoted(text) => Some(Tx(html + "=\"" + EscapeAttrValue(text) + "\""))
      case NoValue => Some(Tx(html))
      case BracedNothing => None
      case BracedJsx => None
      case Braced(slice) => Some(BracedText(html, slice))
      case BracedObject(_, slice) => Some(BracedText(html, slice))
  }

  function BracedText(html: string, slice: Slice): Code {
    if html == "style" then Tx("style=\"' + __ssr_style_object(") + [Src(slice)] + Tx(") + '\"")
    else if IsBooleanAttribute(html) then Tx("' + (") + [Src(slice)] + Tx(" ? ' " + html + "' : '') + '")
    else Tx(html + "=\"' + __esc_attr(") + [Src(slice)] + Tx(") + '\"")
  }

  /** A fragment that closes the literal it is spliced into before anything else. */
  predicate IsSplice(code: Code) {
    StartsWith(code, "' + ")
  }

  /** Attribute texts that go, space-separated, into the tag's literal. */
  function StaticParts(attrs: seq<Attr>): seq<Code> {
    if attrs == [] then []
    else
      var rest := StaticParts(attrs[1..]);
      if attrs[0].SpreadAttr? then rest
      else
        var text := AttrText(attrs[0].name, attrs[0].value);
        if text.Some? && !IsSplice(text.value) then [text.value] + rest else rest
  }

  /** Attribute texts that close and reopen the tag's literal. */
  function DynamicSuffix(attrs: seq<Attr>): Code {
    if attrs == [] then []
    else
      var rest := DynamicSuffix(attrs[1..]);
      if attrs[0].SpreadAttr? then
        Tx("' + __ssr_spread(") + [Src(attrs[0].slice)] + Tx(") + '") + rest
      else
        var text := AttrText(attrs[0].name, attrs[0].value);
        if text.Some? && IsSplice(text.value) then text.value + rest else rest
  }

  function AttrsText(attrs: seq<Attr>): Code {
    Joined(StaticParts(attrs), Tx(" ")) + DynamicSuffix(attrs)
  }

  function HydrationAttr(hid: Option<string>): string {
    if hid.Some? then " data-v-id=\"" + hid.value + "\"" else ""
  }

  function BuildAttrString(attrs: Code, hydration: Code): Code {
    if attrs == [] then hydration
    else if IsSplice(attrs) then attrs + hydration
    else Tx(" ") + attrs + hydration
  }

  function ExtractInnerHtml(attrs: seq<Attr>): Option<Code> {
    if attrs == [] then None
    else if attrs[0].SpreadAttr? || attrs[0].name != "innerHTML" then ExtractInnerHtml(attrs[1..])
    else match attrs[0].value
      case Braced(slice) => Some([Src(slice)])
      case BracedObject(_, slice) => Some([Src(slice)])
      case Quoted(text) => Some(Tx("'" + EscapeStringLiteral(text) + "'"))
      case _ => ExtractInnerHtml(attrs[1..])
  }

  function ExtractDangerousHtml(attrs: seq<Attr>): Option<Code> {
    if attrs == [] then None
    else if attrs[0].SpreadAttr? || attrs[0].name != "dangerouslySetInnerHTML" then ExtractDangerousHtml(attrs[1..])
    else match attrs[0].value
      case Braced(slice) => Some(Tx("(") + [Src(slice)] + Tx(").__html"))
      case BracedObject(html, slice) =>
        if html.Some? then Some([Src(html.value)]) else Some(Tx("(") + [Src(slice)] + Tx(").__html"))
      case _ => ExtractDangerousHtml(attrs[1..])
  }

  function RawHtml(attrs: seq<Attr>): Option<Code> {
    var dangerous := ExtractDangerousHtml(attrs);
    if dangerous.Some? then dangerous else ExtractInnerHtml(attrs)
  }

  // ---- elements, fragments, children ----

  function ElementText(e: Element, rx: bool, hid: Option<string>): Code
    decreases e, 3
  {
    if IsComponentTag(e.tag) then ComponentText(e)
    else
      var attrStr := BuildAttrString(AttrsText(e.attrs), Tx(HydrationAttr(hid)));
      if IsVoidElement(e.tag) then Tx("'<" + e.tag) + attrStr + Tx(">'")
      else
        var html := RawHtml(e.attrs);
        var inner := if html.Some? then html.value
                     else Sum(Parts(e.children, rx, IsRawTextElement(e.tag), None));
        Tx("'<" + e.tag) + attrStr + Tx(">'") + Tx(" + ") + inner + Tx(" + ") + Tx("'</" + e.tag + ">'")
  }

  /** May this child carry the hydration id? */
  predicate TakesHydrationId(child: Child) {
    match child
    case ElementChild(e) => !IsComponentTag(e.tag)
    case FragmentChild(_) => true
    case _ => false
  }

  /** The texts of a list of children; the first that may carries the hydration id. */
  function Parts(children: seq<Child>, rx: bool, raw: bool, hid: Option<string>): seq<Code>
    decreases children, 2
  {
    if children == [] then []
    else if TakesHydrationId(children[0]) then
      [ChildText(children[0], rx, raw, hid)] + Parts(children[1..], rx, raw, None)
    else [ChildText(children[0], rx, raw, None)] + Parts(children[1..], rx, raw, hid)
  }

  function FragmentText(children: seq<Child>, rx: bool, hid: Option<string>): Code
    decreases children, 3
  {
    Sum(Parts(children, rx, false, hid))
  }

  function PropEntry(attr: Attr): seq<Code> {
    match attr
    case SpreadAttr(slice) => [Tx("...") + [Src(slice)]]
    case Attr(name, value) =>
      match value
      case Quoted(text) => [Tx(name + ": '" + EscapeStringLiteral(text) + "'")]
      case NoValue => [Tx(name + ": true")]
      case Braced(slice) => [Tx(name + ": ") + [Src(slice)]]
      case BracedObject(_, slice) => [Tx(name + ": ") + [Src(slice)]]
      case BracedNothing => []
      case BracedJsx => []
  }

  function PropEntries(attrs: seq<Attr>): seq<Code> {
    if attrs == [] then [] else PropEntry(attrs[0]) + PropEntries(attrs[1..])
  }

  /** A component reference becomes a call of its own compiled function. */
  function ComponentText(e: Element): Code
    decreases e, 2
  {
    var loud := Loud(Parts(e.children, false, false, None));
    var entries := PropEntries(e.attrs)
                   + if loud == [] then [] else [Tx("children: ") + Joined(loud, Tx(" + "))];
    var props := if entries == [] then Tx("{}") else Tx("{ ") + Joined(entries, Tx(", ")) + Tx(" }");
    Tx("__ssr_" + e.tag + "(") + props + Tx(")")
  }

  function ChildText(child: Child, rx: bool, raw: bool, hid: Option<string>): Code
    decreases child, 4
  {
    match child
    case Text(text) =>
      var cleaned := ServerClean(text);
      if cleaned == "" then NoText() else Tx("'" + EscapeStringLiteral(cleaned) + "'")
    case Hole(expr) => if expr.None? then NoText() else HoleText(expr.value, rx, raw)
    case ElementChild(e) => ElementText(e, rx, hid)
    case FragmentChild(children) => FragmentText(children, rx, hid)
    case SpreadChild => NoText()
  }

  function HoleText(expr: Expr, rx: bool, raw: bool): Code
    decreases expr, 5
  {
    match expr
    case Conditional(_, _, _, _) => TernaryText(expr, rx)
    case And(_, _, _) => AndText(expr, rx)
    case MapCall(_, _, _, _) => MapText(expr, rx)
    case JsxElement(_, whole) => SimpleText(whole, raw, false)
    case JsxFragment(_, whole) => SimpleText(whole, raw, false)
    case Paren(_, whole, reactive) => SimpleText(whole, raw, rx && reactive)
    case Other(whole, reactive) => SimpleText(whole, raw, rx && reactive)
  }

  function CallText(helper: string, slice: Slice): Code {
    Tx(helper + "(") + [Src(slice)] + Tx(")")
  }

  function SimpleText(slice: Slice, raw: bool, reactive: bool): Code {
    if raw then CallText("String", slice)
    else if reactive then
      Tx("'<!--child-->'") + Tx(" + ") + CallText("__esc", slice) + Tx(" + ") + Tx("'<!--/child-->'")
    else CallText("__esc", slice)
  }

  /** `inner` between a pair of marker comments. */
  function Marked(marker: string, inner: Code): Code {
    Tx("'<!--" + marker + "-->'") + Tx(" + ") + inner + Tx(" + ") + Tx("'<!--/" + marker + "-->'")
  }

  function Choice(test: Code, yes: Code, no: Code): Code {
    Tx("(") + test + Tx(" ? ") + yes + Tx(" : ") + no + Tx(")")
  }

  function TernaryText(expr: Expr, rx: bool): Code
    requires expr.Conditional?
    decreases expr, 3
  {
    Marked("conditional", Choice([Src(expr.test)], NodeText(expr.consequent, rx), NodeText(expr.alternate, rx)))
  }

  function AndText(expr: Expr, rx: bool): Code
    requires expr.And?
    decreases expr, 3
  {
    Marked("conditional", Choice([Src(expr.left)], NodeText(expr.right, rx), NoText()))
  }

  function NodeText(expr: Expr, rx: bool): Code
    decreases expr, 4
  {
    match expr
    case Paren(inner, _, _) => NodeText(inner, rx)
    case JsxElement(e, _) => ElementText(e, rx, None)
    case JsxFragment(children, _) => FragmentText(children, rx, None)
    case Conditional(_, _, _, _) => TernaryText(expr, rx)
    case And(_, _, _) => AndText(expr, rx)
    case MapCall(_, _, _, whole) => CallText("__esc", whole)
    case Other(whole, _) => CallText("__esc", whole)
  }

  function TryJsxText(expr: Expr, rx: bool): Option<Code>
    decreases expr, 4
  {
    match expr
    case JsxElement(e, _) => Some(ElementText(e, rx, None))
    case JsxFragment(children, _) => Some(FragmentText(children, rx, None))
    case Paren(inner, _, _) => TryJsxText(inner, rx)
    case _ => None
  }

  function StmtText(stmt: BodyStmt, rx: bool): Option<Code>
    decreases stmt, 4
  {
    match stmt
    case ExprStmt(expr) => TryJsxText(expr, rx)
    case ReturnStmt(argument) => if argument.Some? then TryJsxText(argument.value, rx) else None
    case OtherStmt => None
  }

  /** The text of the first statement (a return, or an expression statement) that yields JSX. */
  function FirstJsx(body: seq<BodyStmt>, wantReturn: bool, rx: bool): Option<Code>
    decreases body, 4
  {
    if body == [] then None
    else
      var first := if body[0].ReturnStmt? == wantReturn then StmtText(body[0], rx) else None;
      if first.Some? then first else FirstJsx(body[1..], wantReturn, rx)
  }

  function CallbackText(callback: Callback, rx: bool): Option<Code>
    requires callback.Arrow?
    decreases callback, 5
  {
    var fromExpression := if callback.isExpression then FirstJsx(callback.body, false, rx) else None;
    if fromExpression.Some? then fromExpression
    else if forall stmt | stmt in callback.body :: stmt.ReturnStmt? then FirstJsx(callback.body, true, rx)
    else None
  }

  function MapText(expr: Expr, rx: bool): Code
    requires expr.MapCall?
    decreases expr, 3
  {
    if !expr.callback.Arrow? then CallText("__esc", expr.whole)
    else
      var param := if expr.callback.param.Some? then expr.callback.param.value else "_item";
      var body := CallbackText(expr.callback, rx);
      if body.None? then CallText("__esc", expr.whole)
      else
        var caller := if expr.optional then Tx("(") + [Src(expr.receiver)] + Tx(" ?? [])") else [Src(expr.receiver)];
        Marked("list", caller + Tx(".map(" + param + " => ") + body.value + Tx(").join('')"))
  }

  /** The root expression of a component. */
  function RootText(expr: Expr, rx: bool, hid: Option<string>): Code {
    match expr
    case JsxElement(e, _) => ElementText(e, rx, hid)
    case JsxFragment(children, _) => FragmentText(children, rx, hid)
    case Paren(inner, _, _) => RootText(inner, rx, hid)
    case _ => NoText()
  }

  /** A component that returns a conditional rather than JSX. */
  function ConditionalRootText(expr: Expr, rx: bool): Code {
    match expr
    case Conditional(_, _, _, _) => TernaryText(expr, rx)
    case And(_, _, _) => AndText(expr, rx)
    case _ => CallText("__esc", expr.whole)
  }
}
