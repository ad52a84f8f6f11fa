/**
 What a JSX tree means as server-rendered HTML, written directly on the tree:
 no emitted code, no escaping into literals, no splicing. Marker comments
 bracket what hydration has to find again.
 */
module AotReference {
  import opened JsxSyntax
  import opened AotReader
  import opened JsxWhitespace

  // ---- what HTML makes of names ----

  /** The void elements of section 13.1.2 of the HTML standard, and `param`, which its parser treats alike. */
  predicate HasNoEndTag(tag: string) {
    tag in {"area", "base", "br", "col", "embed", "hr", "img", "input", "link", "meta", "param", "source", "track",
            "wbr"}
  }

  predicate HoldsRawText(tag: string) {
    tag in {"script", "style"}
  }

  /** Attributes that are on when they are there, in any mixture of upper and lower case. */
  predicate IsOnOrOff(name: string) {
    Lower(name) in {"allowfullscreen", "async", "autofocus", "autoplay", "checked", "controls", "default", "defer",
                    "disabled", "formnovalidate", "hidden", "inert", "ismap", "itemscope", "loop", "multiple", "muted",
                    "nomodule", "novalidate", "open", "playsinline", "readonly", "required", "reversed", "selected"}
  }

  /** Names with a meaning to the framework, and handlers: `on` and an upper-case letter. */
  predicate IsNeverPrinted(name: string) {
    || name == "key" || name == "ref" || name == "innerHTML" || name == "dangerouslySetInnerHTML"
    || (|name| >= 3 && name[0] == 'o' && name[1] == 'n' && 'A' <= name[2] <= 'Z')
  }

  /** The compiler's tables say the same. */
  lemma TagTables(tag: string)
    ensures IsVoidElement(tag) == HasNoEndTag(tag) && IsRawTextElement(tag) == HoldsRawText(tag)
  {
  }

  lemma AttrTables(name: string)
    ensures IsBooleanAttribute(name) == IsOnOrOff(name)
    ensures (IsEventHandler(name) || IsSkipProp(name)) == IsNeverPrinted(name)
  {
    if |name| > 2 {
      assert name[..2] == [name[0], name[1]];
    }
  }

  // ---- attributes ----

  function AttrName(name: string): string {
    match name
    case "className" => "class"
    case "htmlFor" => "for"
    case _ => name
  }

  function BracedSlice(value: AttrValue): Option<Slice> {
    match value
    case Braced(slice) => Some(slice)
    case BracedObject(_, slice) => Some(slice)
    case _ => None
  }

  /** Attributes that do not reach the HTML. */
  predicate IsDropped(attr: Attr) {
    attr.Attr? && (IsNeverPrinted(attr.name) || attr.value.BracedNothing?
      || attr.value.BracedJsx?)
  }

  /** Attributes present or absent depending on a value; they are rendered after the others. */
  predicate IsOptional(attr: Attr) {
    attr.SpreadAttr?
    || (!IsDropped(attr) && BracedSlice(attr.value).Some?
        && AttrName(attr.name) != "style" && IsOnOrOff(AttrName(attr.name)))
  }

  function RenderAttr<V>(w: World<V>, scope: map<string, V>, attr: Attr): string {
    if attr.SpreadAttr? then w.helper("__ssr_spread", w.eval(attr.slice.id, scope))
    else if IsDropped(attr) then ""
    else match attr.value
      case NoValue => " " + AttrName(attr.name)
      case Quoted(text) => " " + AttrName(attr.name) + "=\"" + text + "\""
      case Braced(slice) => RenderBraced(w, AttrName(attr.name), w.eval(slice.id, scope))
      case BracedObject(_, slice) => RenderBraced(w, AttrName(attr.name), w.eval(slice.id, scope))
  }

  function RenderBraced<V>(w: World<V>, name: string, value: V): string {
    if name == "style" then " style=\"" + w.helper("__ssr_style_object", value) + "\""
    else if IsOnOrOff(name) then if w.truthy(value) then " " + name else ""
    else " " + name + "=\"" + w.helper("__esc_attr", value) + "\""
  }

  function RenderAttrs<V>(w: World<V>, scope: map<string, V>, attrs: seq<Attr>, optional: bool): string {
    if attrs == [] then ""
    else (if IsOptional(attrs[0]) == optional then RenderAttr(w, scope, attrs[0]) else "")
         + RenderAttrs(w, scope, attrs[1..], optional)
  }

  function RenderHydration(hid: Option<string>): string {
    if hid.None? then "" else " data-v-id=\"" + hid.value + "\""
  }

  // ---- raw HTML content ----

  datatype RawContent = NoRaw | RawValue(slice: Slice) | RawHtmlOf(slice: Slice) | RawText(text: string)

  function DangerousContent(attrs: seq<Attr>): RawContent {
    if attrs == [] then NoRaw
    else if attrs[0].Attr? && attrs[0].name == "dangerouslySetInnerHTML" && attrs[0].value.Braced? then
      RawHtmlOf(attrs[0].value.slice)
    else if attrs[0].Attr? && attrs[0].name == "dangerouslySetInnerHTML" && attrs[0].value.BracedObject? then
      if attrs[0].value.html.Some? then RawValue(attrs[0].value.html.value) else RawHtmlOf(attrs[0].value.slice)
    else DangerousContent(attrs[1..])
  }

  function InnerContent(attrs: seq<Attr>): RawContent {
    if attrs == [] then NoRaw
    else if attrs[0].Attr? && attrs[0].name == "innerHTML" && BracedSlice(attrs[0].value).Some? then
      RawValue(BracedSlice(attrs[0].value).value)
    else if attrs[0].Attr? && attrs[0].name == "innerHTML" && attrs[0].value.Quoted? then
      RawText(attrs[0].value.text)
    else InnerContent(attrs[1..])
  }

  function RawContentOf(attrs: seq<Attr>): RawContent {
    var dangerous := DangerousContent(attrs);
    if dangerous.NoRaw? then InnerContent(attrs) else dangerous
  }

  function RenderRaw<V>(w: World<V>, scope: map<string, V>, raw: RawContent): string {
    match raw
    case NoRaw => ""
    case RawValue(slice) => w.toText(w.eval(slice.id, scope))
    case RawHtmlOf(slice) => w.toText(w.htmlOf(w.eval(slice.id, scope)))
    case RawText(text) => text
  }

  // ---- the tree ----

  function RenderElement<V>(w: World<V>, scope: map<string, V>, e: Element, rx: bool, hid: Option<string>): string
    decreases e, 3, 0
  {
    if IsComponentTag(e.tag) then w.component(e.tag, ComponentProps(w, scope, e))
    else
      var open := "<" + e.tag + RenderAttrs(w, scope, e.attrs, false) + RenderAttrs(w, scope, e.attrs, true)
                  + RenderHydration(hid) + ">";
      if HasNoEndTag(e.tag) then open
      else
        var raw := RawContentOf(e.attrs);
        var inner := if raw.NoRaw? then RenderChildren(w, scope, e.children, rx, HoldsRawText(e.tag), None)
                     else RenderRaw(w, scope, raw);
        open + inner + "</" + e.tag + ">"
  }

  function RenderProp<V>(w: World<V>, scope: map<string, V>, attr: Attr): seq<PropValue<V>> {
    match attr
    case SpreadAttr(slice) => [SpreadValue(w.eval(slice.id, scope))]
    case Attr(name, value) =>
      match value
      case NoValue => [FlagValue(name)]
      case Quoted(text) => [ContentValue(name, text)]
      case Braced(slice) => [GivenValue(name, w.eval(slice.id, scope))]
      case BracedObject(_, slice) => [GivenValue(name, w.eval(slice.id, scope))]
      case BracedNothing => []
      case BracedJsx => []
  }

  function RenderProps<V>(w: World<V>, scope: map<string, V>, attrs: seq<Attr>): seq<PropValue<V>> {
    if attrs == [] then [] else RenderProp(w, scope, attrs[0]) + RenderProps(w, scope, attrs[1..])
  }

  /** The props of a component: its attributes, then its children unless none renders anything. */
  function ComponentProps<V>(w: World<V>, scope: map<string, V>, e: Element): seq<PropValue<V>>
    decreases e, 2, 0
  {
    RenderProps(w, scope, e.attrs)
    + if AllSilent(e.children) then []
      else [ContentValue("children", RenderChildren(w, scope, e.children, false, false, None))]
  }

  /** Children with nothing to render: blank text, empty holes, and fragments of those. */
  predicate IsSilent(child: Child) {
    match child
    case Text(raw) => ServerClean(raw) == ""
    case Hole(expr) => expr.None?
    case ElementChild(_) => false
    case FragmentChild(children) => AllSilent(children)
    case SpreadChild => true
  }

  predicate AllSilent(children: seq<Child>) {
    children == [] || (IsSilent(children[0]) && AllSilent(children[1..]))
  }

  predicate CarriesHydration(child: Child) {
    (child.ElementChild? && !IsComponentTag(child.element.tag)) || child.FragmentChild?
  }

  /** The hydration id goes to the first child that is a DOM element or a fragment. */
  function RenderChildren<V>(w: World<V>, scope: map<string, V>, children: seq<Child>, rx: bool, raw: bool,
                             hid: Option<string>): string
    decreases children, 2, 0
  {
    if children == [] then ""
    else if CarriesHydration(children[0]) then
      RenderChild(w, scope, children[0], rx, raw, hid) + RenderChildren(w, scope, children[1..], rx, raw, None)
    else
      RenderChild(w, scope, children[0], rx, raw, None) + RenderChildren(w, scope, children[1..], rx, raw, hid)
  }

  function RenderChild<V>(w: World<V>, scope: map<string, V>, child: Child, rx: bool, raw: bool,
                          hid: Option<string>): string
    decreases child, 4, 0
  {
    match child
    case Text(text) => ServerClean(text)
    case Hole(expr) => if expr.None? then "" else RenderHole(w, scope, expr.value, rx, raw)
    case ElementChild(e) => RenderElement(w, scope, e, rx, hid)
    case FragmentChild(children) => RenderChildren(w, scope, children, rx, false, hid)
    case SpreadChild => ""
  }

  function Bracketed(marker: string, inner: string): string {
    "<!--" + marker + "-->" + inner + "<!--/" + marker + "-->"
  }

  function Escaped<V>(w: World<V>, scope: map<string, V>, slice: Slice): string {
    w.helper("__esc", w.eval(slice.id, scope))
  }

  function RenderSimple<V>(w: World<V>, scope: map<string, V>, slice: Slice, raw: bool, reactive: bool): string {
    if raw then w.helper("String", w.eval(slice.id, scope))
    else if reactive then Bracketed("child", Escaped(w, scope, slice))
    else Escaped(w, scope, slice)
  }

  /** `{expr}` among the children of an element. */
  function RenderHole<V>(w: World<V>, scope: map<string, V>, expr: Expr, rx: bool, raw: bool): string
    decreases expr, 5, 0
  {
    if expr.Conditional? || expr.And? then RenderNode(w, scope, expr, rx)
    else if expr.MapCall? then RenderMap(w, scope, expr, rx)
    else RenderSimple(w, scope, expr.whole, raw, rx && (expr.Paren? || expr.Other?) && expr.reactive)
  }

  /** An expression in a branch: JSX and nested choices are rendered, anything else is escaped. */
  function RenderNode<V>(w: World<V>, scope: map<string, V>, expr: Expr, rx: bool): string
    decreases expr, 4, 0
  {
    match expr
    case JsxElement(e, _) => RenderElement(w, scope, e, rx, None)
    case JsxFragment(children, _) => RenderChildren(w, scope, children, rx, false, None)
    case Paren(inner, _, _) => RenderNode(w, scope, inner, rx)
    case Conditional(test, yes, no, _) =>
      Bracketed("conditional", if w.truthy(w.eval(test.id, scope)) then RenderNode(w, scope, yes, rx)
                               else RenderNode(w, scope, no, rx))
    case And(left, right, _) =>
      Bracketed("conditional", if w.truthy(w.eval(left.id, scope)) then RenderNode(w, scope, right, rx) else "")
    case MapCall(_, _, _, _) => Escaped(w, scope, expr.whole)
    case Other(_, _) => Escaped(w, scope, expr.whole)
  }

  predicate IsJsx(expr: Expr) {
    expr.JsxElement? || expr.JsxFragment? || (expr.Paren? && IsJsx(expr.inner))
  }

  /** The JSX a callback produces for each item, when it is nothing but that. */
  function ItemJsx(callback: Callback): Option<Expr> {
    if !callback.Arrow? || |callback.body| == 0 then None
    else
      var first := callback.body[0];
      if callback.isExpression then
        if first.ExprStmt? && IsJsx(first.expr) then Some(first.expr) else None
      else if first.ReturnStmt? && first.argument.Some? && IsJsx(first.argument.value)
              && forall s | s in callback.body :: s.ReturnStmt? then Some(first.argument.value)
      else None
  }

  /** What a callback calls its item: its first parameter if that is a plain name, and otherwise `_item`. */
  function ItemName(callback: Callback): string
    requires callback.Arrow?
  {
    match callback.param
    case Some(name) => name
    case None => "_item"
  }

  function RenderMap<V>(w: World<V>, scope: map<string, V>, expr: Expr, rx: bool): string
    requires expr.MapCall?
    decreases expr, 3, 0
  {
    var item := ItemJsx(expr.callback);
    if item.None? then Escaped(w, scope, expr.whole)
    else
      var list := w.eval(expr.receiver.id, scope);
      assert item.value < expr by { ItemIsSmaller(expr); }
      Bracketed("list",
        if expr.optional && w.nullish(list) then ""
        else RenderItems(w, scope, ItemName(expr.callback), item.value, w.items(list), 0, rx))
  }

  lemma ItemIsSmaller(expr: Expr)
    requires expr.MapCall? && ItemJsx(expr.callback).Some?
    ensures ItemJsx(expr.callback).value < expr
  {
    var first := expr.callback.body[0];
    assert first < expr.callback;
    assert ItemJsx(expr.callback).value < first;
  }

  function RenderItems<V>(w: World<V>, scope: map<string, V>, param: string, item: Expr, items: seq<V>, i: nat,
                          rx: bool): string
    requires i <= |items|
    decreases item, 6, |items| - i
  {
    if i == |items| then ""
    else RenderNode(w, scope[param := items[i]], item, rx) + RenderItems(w, scope, param, item, items, i + 1, rx)
  }
}
