/**
 The client back end: from JSX to a program of DOM helper calls
 (native/vertz-compiler-core/src/jsx_transformer.rs), for trees of DOM elements,
 fragments and text. Strings appear in the program as quoted literals.
 */
module ClientCompiler {
  import opened JsxSyntax
  import opened JsxWhitespace
  import opened Replacing

  // ---- the emitted program ----

  /** What a statement other than construction does to the element it names. */
  datatype Action =
    | SetAttribute(name: string, value: string)       // el.setAttribute("n", "v")
    | GuardedAttribute(name: string, slice: Slice)    // { const __v = x; if (...) el.setAttribute(...) }
    | ReactiveAttribute(name: string, slice: Slice)   // __attr(el, "n", () => x)
    | StyleText(slice: Slice)                         // { const __v = x; ... el.style.cssText = ... }
    | AssignProperty(name: string, value: string)     // el.n = "v"
    | AssignTrue(name: string)                        // el.n = true
    | GuardedProperty(name: string, slice: Slice)     // { const __v = x; if (...) el.n = __v }
    | ReactiveProperty(name: string, slice: Slice)    // __prop(el, "n", () => x)
    | Listen(event: string, slice: Slice)             // __on(el, "e", x)
    | FormOnChange(slice: Slice)                      // __formOnChange(el, x)
    | SpreadProps(slice: Slice)                       // __spread(el, x)
    | HtmlText(value: string)                         // __html(el, () => "...")
    | HtmlValue(slice: Slice)                         // __html(el, () => x)
    | Ref(slice: Slice)                               // __ref(el, x)

  datatype Stmt =
    | CreateElement(v: nat, tag: string)              // const __elN = __element("tag")
    | CreateFragment(v: nat)                          // const __elN = document.createDocumentFragment()
    | Act(v: nat, action: Action)
    | EnterChildren(v: nat)
    | ExitChildren
    | Append(parent: nat, value: Value)               // __append(__elN, value)

  datatype Value =
    | StaticText(text: string)                        // __staticText("...")
    | Iife(body: seq<Stmt>, result: nat)              // (() => { body; return __elN; })()

  // ---- string literals ----

  function JsonBody(s: string): string {
    Replace(Replace(Replace(Replace(Replace(s, '\\', "\\\\"), '"', "\\\""), '\n', "\\n"), '\r', "\\r"), '\t', "\\t")
  }

  function JsonQuote(s: string): string {
    "\"" + JsonBody(s) + "\""
  }

  // ---- attributes ----

  predicate IsIdlProperty(tag: string, attr: string) {
    match tag
    case "input" => attr in {"value", "checked", "defaultValue", "defaultChecked"}
    case "textarea" => attr in {"value", "defaultValue"}
    case "select" => attr == "value"
    case _ => false
  }

  predicate IsBooleanIdlProperty(attr: string) {
    attr == "checked" || attr == "defaultChecked"
  }

  predicate IsDebounceElement(tag: string) {
    tag == "input" || tag == "textarea" || tag == "select"
  }

  /** Attributes the extraction keeps. */
  predicate IsExtracted(attr: Attr) {
    attr.SpreadAttr? || !(attr.value.BracedNothing? || attr.value.BracedJsx?)
  }

  function Expression(value: AttrValue): Option<Slice> {
    match value
    case Braced(slice) => Some(slice)
    case BracedObject(_, slice) => Some(slice)
    case _ => None
  }

  predicate IsHandlerName(name: string) {
    2 < |name| && name[..2] == "on"
  }

  predicate IsInnerHtmlAttr(attr: Attr) {
    attr.Attr? && attr.name == "innerHTML"
  }

  predicate IsRefAttr(attr: Attr) {
    attr.Attr? && Expression(attr.value).Some? && attr.name == "ref"
  }

  /** Will the attribute become a property assignment that must wait for the children? */
  predicate IsIdlAttr(attr: Attr, tag: string) {
    attr.Attr?
    && !(Expression(attr.value).Some? && (attr.name == "ref" || IsHandlerName(attr.name)))
    && IsIdlProperty(tag, if attr.name == "className" then "class" else attr.name)
  }

  function AttributeName(name: string, tag: string): string {
    if name == "className" then "class"
    else if name == "debounce" && IsDebounceElement(tag) then "data-vertz-debounce"
    else name
  }

  function EventName(name: string): string
    requires 2 < |name|
  {
    [LowerChar(name[2])] + name[3..]
  }

  /** The action an attribute compiles to; `live` says which slices read reactive state. */
  function ProcessAttr(attr: Attr, tag: string, live: Slice -> bool): Option<Action> {
    match attr
    case SpreadAttr(slice) => Some(SpreadProps(slice))
    case Attr(name, value) =>
      if name == "key" then None
      else match value
        case Quoted(text) =>
          var attrName := AttributeName(name, tag);
          if IsIdlProperty(tag, attrName) then Some(AssignProperty(attrName, JsonQuote(text)))
          else Some(SetAttribute(JsonQuote(attrName), JsonQuote(text)))
        case NoValue =>
          var attrName := if name == "className" then "class" else name;
          if IsIdlProperty(tag, attrName) then
            Some(if IsBooleanIdlProperty(attrName) then AssignTrue(attrName)
              else AssignProperty(attrName, JsonQuote("")))
          else Some(SetAttribute(JsonQuote(attrName), JsonQuote("")))
        case Braced(slice) => Some(ProcessExpression(name, slice, tag, live))
        case BracedObject(_, slice) => Some(ProcessExpression(name, slice, tag, live))
        case BracedNothing => None
        case BracedJsx => None
  }

  function ProcessExpression(name: string, slice: Slice, tag: string, live: Slice -> bool): Action {
    var attrName := AttributeName(name, tag);
    if attrName == "ref" then Ref(slice)
    else if name == "onChange" && tag == "form" then FormOnChange(slice)
    else if IsHandlerName(attrName) then Listen(EventName(attrName), slice)
    else if live(slice) then
      if IsIdlProperty(tag, attrName) then ReactiveProperty(attrName, slice) else ReactiveAttribute(attrName, slice)
    else if attrName == "style" then StyleText(slice)
    else if IsIdlProperty(tag, attrName) then GuardedProperty(attrName, slice)
    else GuardedAttribute(attrName, slice)
  }

  function InnerHtmlAction(attr: Attr): Option<Action> {
    if !attr.Attr? then None
    else match attr.value
      case Quoted(text) => Some(HtmlText(JsonQuote(text)))
      case Braced(slice) => Some(HtmlValue(slice))
      case BracedObject(_, slice) => Some(HtmlValue(slice))
      case _ => None
  }

  /** The attribute statements of an element, sorted by when they have to run. */
  datatype AttrStmts = AttrStmts(now: seq<Action>, html: Option<Action>, idl: seq<Action>, ref: Option<Action>)

  /** One pass over the attributes, as the loop in `transform_element` makes it. */
  function SortAttr(acc: AttrStmts, attr: Attr, tag: string, live: Slice -> bool): AttrStmts {
    if !IsExtracted(attr) then acc
    else if IsInnerHtmlAttr(attr) then acc.(html := InnerHtmlAction(attr))
    else if IsRefAttr(attr) then acc.(ref := ProcessAttr(attr, tag, live))
    else
      var action := ProcessAttr(attr, tag, live);
      if action.None? then acc
      else if IsIdlAttr(attr, tag) then acc.(idl := acc.idl + [action.value])
      else acc.(now := acc.now + [action.value])
  }

  function SortAttrs(acc: AttrStmts, attrs: seq<Attr>, tag: string, live: Slice -> bool): AttrStmts
    decreases |attrs|
  {
    if attrs == [] then acc else SortAttrs(SortAttr(acc, attrs[0], tag, live), attrs[1..], tag, live)
  }

  // ---- elements and children ----

  /** A program fragment with the next free variable number. */
  datatype Emitted = Emitted(value: Value, counter: nat)

  datatype EmittedStmts = EmittedStmts(stmts: seq<Stmt>, counter: nat)

  function Acts(v: nat, actions: seq<Action>): seq<Stmt> {
    if actions == [] then [] else [Act(v, actions[0])] + Acts(v, actions[1..])
  }

  function Optional(action: Option<Action>): seq<Action> {
    if action.None? then [] else [action.value]
  }

  /** Children as extraction keeps them: blank text and empty containers are gone. */
  function Extracted(children: seq<Child>): seq<Child> {
    if children == [] then []
    else
      var keep := match children[0]
        case Text(raw) => ClientClean(raw) != ""
        case Hole(expr) => expr.Some?
        case ElementChild(_) => true
        case FragmentChild(_) => true
        case SpreadChild => false;
      (if keep then [children[0]] else []) + Extracted(children[1..])
  }

  function TransformElement(e: Element, live: Slice -> bool, counter: nat): Emitted
    decreases e, 3
  {
    var v := counter;
    var sorted := SortAttrs(AttrStmts([], None, [], None), e.attrs, e.tag, live);
    var before := [CreateElement(v, JsonQuote(e.tag))] + Acts(v, sorted.now + Optional(sorted.html));
    var inner := TransformChildren(e.children, v, live, counter + 1);
    var children := if Extracted(e.children) == [] then [] else [EnterChildren(v)] + inner.stmts + [ExitChildren];
    var after := Acts(v, sorted.idl + Optional(sorted.ref));
    Emitted(Iife(before + children + after, v), inner.counter)
  }

  function TransformFragment(children: seq<Child>, live: Slice -> bool, counter: nat): Emitted
    decreases children, 3
  {
    var inner := TransformChildren(children, counter, live, counter + 1);
    Emitted(Iife([CreateFragment(counter)] + inner.stmts, counter), inner.counter)
  }

  function TransformChildren(children: seq<Child>, parent: nat, live: Slice -> bool, counter: nat): EmittedStmts
    decreases children, 2
  {
    if children == [] then EmittedStmts([], counter)
    else
      var first := TransformChild(children[0], parent, live, counter);
      var rest := TransformChildren(children[1..], parent, live, first.counter);
      EmittedStmts(first.stmts + rest.stmts, rest.counter)
  }

  function TransformChild(child: Child, parent: nat, live: Slice -> bool, counter: nat): EmittedStmts
    decreases child, 4
  {
    match child
    case Text(raw) =>
      if ClientClean(raw) == "" then EmittedStmts([], counter)
      else EmittedStmts([Append(parent, StaticText(JsonQuote(ClientClean(raw))))], counter)
    case ElementChild(e) =>
      var code := TransformElement(e, live, counter);
      EmittedStmts([Append(parent, code.value)], code.counter)
    case FragmentChild(children) =>
      var code := TransformFragment(children, live, counter);
      EmittedStmts([Append(parent, code.value)], code.counter)
    case Hole(_) => EmittedStmts([], counter)
    case SpreadChild => EmittedStmts([], counter)
  }

  /** Trees this model of the client compiles: DOM elements, fragments and text. */
  predicate IsDomTree(e: Element) {
    !IsComponentTag(e.tag) && AreDomChildren(e.children)
  }

  predicate AreDomChildren(children: seq<Child>) {
    children == [] || (IsDomChild(children[0]) && AreDomChildren(children[1..]))
  }

  predicate IsDomChild(child: Child) {
    match child
    case ElementChild(e) => IsDomTree(e)
    case FragmentChild(children) => AreDomChildren(children)
    case Hole(expr) => expr.None?
    case _ => true
  }

  // ---- the code generator as it runs ----

  /** Pushes statements and bumps the variable counter. */
  class Codegen {
    var counter: nat

    constructor ()
      ensures counter == 0
    {
      counter := 0;
    }

    /** A fresh variable `__elN`. */
    method GenVar() returns (v: nat)
      modifies this
      ensures v == old(counter) && counter == old(counter) + 1
    {
      v := counter;
      counter := counter + 1;
    }

    method ProcessAttributes(attrs: seq<Attr>, tag: string, live: Slice -> bool) returns (sorted: AttrStmts)
      ensures sorted == SortAttrs(AttrStmts([], None, [], None), attrs, tag, live)
    {
      var now: seq<Action> := [];
      var html: Option<Action> := None;
      var idl: seq<Action> := [];
      var ref: Option<Action> := None;
      assert attrs[0..] == attrs;
      for i := 0 to |attrs|
        invariant SortAttrs(AttrStmts(now, html, idl, ref), attrs[i..], tag, live)
               == SortAttrs(AttrStmts([], None, [], None), attrs, tag, live)
      {
        var attr := attrs[i];
        assert attrs[i..][1..] == attrs[i + 1..];
        if IsExtracted(attr) {
          if IsInnerHtmlAttr(attr) {
            html := InnerHtmlAction(attr);
          } else if IsRefAttr(attr) {
            ref := ProcessAttr(attr, tag, live);
          } else {
            var action := ProcessAttr(attr, tag, live);
            if action.Some? {
              if IsIdlAttr(attr, tag) {
                idl := idl + [action.value];
              } else {
                now := now + [action.value];
              }
            }
          }
        }
      }
      sorted := AttrStmts(now, html, idl, ref);
    }

    method EmitElement(e: Element, live: Slice -> bool) returns (value: Value)
      modifies this
      ensures Emitted(value, counter) == TransformElement(e, live, old(counter))
      decreases e, 3
    {
      var v := GenVar();
      var stmts := [CreateElement(v, JsonQuote(e.tag))];
      var sorted := ProcessAttributes(e.attrs, e.tag, live);
      stmts := stmts + Acts(v, sorted.now + Optional(sorted.html));
      ghost var before := stmts;
      var hasChildren := Extracted(e.children) != [];
      if hasChildren {
        stmts := stmts + [EnterChildren(v)];
      }
      var inner := EmitChildren(e.children, v, live);
      if !hasChildren {
        NothingExtracted(e.children, v, live, old(counter) + 1);
      }
      stmts := stmts + inner;
      if hasChildren {
        stmts := stmts + [ExitChildren];
      }
      assert stmts == before + if hasChildren then [EnterChildren(v)] + inner + [ExitChildren] else [];
      stmts := stmts + Acts(v, sorted.idl + Optional(sorted.ref));
      value := Iife(stmts, v);
    }

    method EmitFragment(children: seq<Child>, live: Slice -> bool) returns (value: Value)
      modifies this
      ensures Emitted(value, counter) == TransformFragment(children, live, old(counter))
      decreases children, 3
    {
      var v := GenVar();
      var inner := EmitChildren(children, v, live);
      value := Iife([CreateFragment(v)] + inner, v);
    }

    method EmitChildren(children: seq<Child>, parent: nat, live: Slice -> bool) returns (stmts: seq<Stmt>)
      modifies this
      ensures EmittedStmts(stmts, counter) == TransformChildren(children, parent, live, old(counter))
      decreases children, 2
    {
      if children == [] {
        return [];
      }
      var first := EmitChild(children[0], parent, live);
      var rest := EmitChildren(children[1..], parent, live);
      stmts := first + rest;
    }

    method EmitChild(child: Child, parent: nat, live: Slice -> bool) returns (stmts: seq<Stmt>)
      modifies this
      ensures EmittedStmts(stmts, counter) == TransformChild(child, parent, live, old(counter))
      decreases child, 4
    {
      match child {
        case Text(raw) =>
          var cleaned := CleanJsxTextClient(raw);
          stmts := if cleaned == "" then [] else [Append(parent, StaticText(JsonQuote(cleaned)))];
        case ElementChild(e) =>
          var code := EmitElement(e, live);
          stmts := [Append(parent, code)];
        case FragmentChild(children) =>
          var code := EmitFragment(children, live);
          stmts := [Append(parent, code)];
        case Hole(_) => stmts := [];
        case SpreadChild => stmts := [];
      }
    }
  }

  /** Without kept children there is nothing to emit. */
  lemma {:induction false} NothingExtracted(children: seq<Child>, parent: nat, live: Slice -> bool, counter: nat)
    requires Extracted(children) == []
    ensures TransformChildren(children, parent, live, counter) == EmittedStmts([], counter)
  {
    if children != [] {
      NothingExtracted(children[1..], parent, live, counter);
    }
  }
}
