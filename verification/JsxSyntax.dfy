/**
 The JSX source trees both back ends compile. Expressions that the compilers
 copy without looking inside are opaque slices of the (already edited) source.
 */
module JsxSyntax {

  datatype Option<+T> = None | Some(value: T)

  /** How tightly the source expression in a slice binds. */
  datatype Binding =
    | Tight    // tighter than `+`: one operand wherever it stands
    | Additive // `+` or `-` outermost: beside another `+` it falls apart
    | Test     // may stand before `?` unparenthesised
    | Loose    // assignment, conditional, arrow, ...
    | Comma    // several expressions: among arguments it is read as several of them
  {
    predicate IsLoose() {
      Loose? || Comma?
    }
  }

  /** An opaque expression: `id` names it, `binding` is its outermost precedence. */
  datatype Slice = Slice(id: nat, binding: Binding)

  datatype AttrValue =
    | NoValue
    | Quoted(text: string)
    | Braced(slice: Slice)
    | BracedObject(html: Option<Slice>, slice: Slice)  // an object literal and its `__html` entry
    | BracedNothing                                    // `{}` or a comment only
    | BracedJsx                                        // an element or fragment as the value

  datatype Attr =
    | Attr(name: string, value: AttrValue)
    | SpreadAttr(slice: Slice)

  datatype Element = Element(tag: string, attrs: seq<Attr>, children: seq<Child>)

  datatype Child =
    | Text(raw: string)
    | Hole(expr: Option<Expr>)
    | ElementChild(element: Element)
    | FragmentChild(children: seq<Child>)
    | SpreadChild

  /** Every expression also carries the slice of its own source text. */
  datatype Expr =
    | JsxElement(element: Element, whole: Slice)
    | JsxFragment(children: seq<Child>, whole: Slice)
    | Paren(inner: Expr, whole: Slice, reactive: bool)
    | Conditional(test: Slice, consequent: Expr, alternate: Expr, whole: Slice)
    | And(left: Slice, right: Expr, whole: Slice)
    | MapCall(receiver: Slice, optional: bool, callback: Callback, whole: Slice)
    | Other(whole: Slice, reactive: bool)

  /** First argument of a `.map(...)` call. */
  datatype Callback =
    | NoCallback
    | NotAnArrow
    | Arrow(param: Option<string>, isExpression: bool, body: seq<BodyStmt>)

  datatype BodyStmt =
    | ExprStmt(expr: Expr)
    | ReturnStmt(argument: Option<Expr>)
    | OtherStmt

  predicate IsVoidElement(tag: string) {
    tag in {"area", "base", "br", "col", "embed", "hr", "img", "input", "link", "meta",
            "param", "source", "track", "wbr"}
  }

  predicate IsRawTextElement(tag: string) {
    tag == "script" || tag == "style"
  }

  predicate IsUpper(c: char) {
    'A' <= c <= 'Z'
  }

  predicate IsComponentTag(tag: string) {
    tag != "" && IsUpper(tag[0])
  }

  predicate IsEventHandler(name: string) {
    2 < |name| && name[..2] == "on" && IsUpper(name[2])
  }

  predicate IsSkipProp(name: string) {
    name in {"key", "ref", "dangerouslySetInnerHTML", "innerHTML"}
  }

  function LowerChar(c: char): char {
    if IsUpper(c) then c + 32 as char else c
  }

  function Lower(s: string): string {
    seq(|s|, i requires 0 <= i < |s| => LowerChar(s[i]))
  }

  predicate IsBooleanAttribute(name: string) {
    Lower(name) in {"allowfullscreen", "async", "autofocus", "autoplay", "checked", "controls", "default",
                    "defer", "disabled", "formnovalidate", "hidden", "inert", "ismap", "itemscope", "loop",
                    "multiple", "muted", "nomodule", "novalidate", "open", "playsinline", "readonly",
                    "required", "reversed", "selected"}
  }
}
