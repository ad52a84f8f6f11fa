/**
 The two back ends compared on static trees: the DOM built by the client
 program, serialised (packages/ui-server/src/html-serializer.ts), against the
 string the AOT expression evaluates to.
 */
module BackEnds {
  import opened JsxSyntax
  import opened JsxWhitespace
  import opened Replacing
  import opened AotReader
  import opened AotReading
  import opened AotCompiler
  import opened AotReference
  import opened AotAttributes
  import opened AotCorrect
  import opened AotGuards
  import ClientCompiler
  import opened ClientDom
  import ClientRun
  import opened ClientBuild

  // ---- the DOM serializer ----

  const VOID_ELEMENTS := {"area", "base", "br", "col", "embed", "hr", "img", "input", "link", "meta", "param", "source",
                          "track", "wbr"}

  const RAW_TEXT_ELEMENTS := {"script", "style"}

  lemma SerializerTables(tag: string)
    ensures (tag in VOID_ELEMENTS) == HasNoEndTag(tag) && (tag in RAW_TEXT_ELEMENTS) == HoldsRawText(tag)
  {
  }

  function EscapeAttr(value: string): string {
    Replace(Replace(value, '&', "&amp;"), '"', "&quot;")
  }

  function EscapeHtml(text: string): string {
    Replace(Replace(Replace(Replace(text, '&', "&amp;"), '<', "&lt;"), '>', "&gt;"), '"', "&quot;")
  }

  function SerializeAttrs(attrs: seq<(string, string)>): string {
    if attrs == [] then ""
    else " " + attrs[0].0 + "=\"" + EscapeAttr(attrs[0].1) + "\"" + SerializeAttrs(attrs[1..])
  }

  /** `raw` says whether the node is a direct child of a script or style element. */
  function Serialize(dom: Dom, raw: bool): string
    decreases dom, 1
  {
    match dom
    case DomText(text) => if raw then text else EscapeHtml(text)
    case DomElement(tag, attrs, children) =>
      if tag == "fragment" then SerializeAll(children, false)
      else
        var open := "<" + tag + SerializeAttrs(attrs) + ">";
        if tag in VOID_ELEMENTS then open
        else open + SerializeAll(children, tag in RAW_TEXT_ELEMENTS) + "</" + tag + ">"
  }

  function SerializeAll(doms: seq<Dom>, raw: bool): string
    decreases doms, 0
  {
    if doms == [] then "" else Serialize(doms[0], raw) + SerializeAll(doms[1..], raw)
  }

  // ---- static trees ----

  /** A string or valueless attribute that both back ends set under the same name. */
  predicate IsStaticAttr(attr: Attr, tag: string) {
    && attr.Attr? && (attr.value.Quoted? || attr.value.NoValue?)
    && !IsNeverPrinted(attr.name) && attr.name != "htmlFor"
    && !ClientCompiler.IsIdlProperty(tag, AttrName(attr.name))
    && !(attr.name == "debounce" && ClientCompiler.IsDebounceElement(tag))
  }

  predicate DistinctNames(attrs: seq<Attr>) {
    forall i, j :: 0 <= i < j < |attrs| && attrs[i].Attr? && attrs[j].Attr?
      ==> AttrName(attrs[i].name) != AttrName(attrs[j].name)
  }

  predicate IsStatic(e: Element) {
    && !IsComponentTag(e.tag) && e.tag != "fragment"
    && (forall a :: a in e.attrs ==> IsStaticAttr(a, e.tag)) && DistinctNames(e.attrs)
    && AreStatic(e.children)
  }

  predicate AreStatic(children: seq<Child>) {
    children == [] || (IsStaticChild(children[0]) && AreStatic(children[1..]))
  }

  predicate IsStaticChild(child: Child) {
    match child
    case ElementChild(e) => IsStatic(e)
    case FragmentChild(children) => AreStatic(children)
    case Hole(expr) => expr.None?
    case _ => true
  }

  // ---- when the outputs are the same ----

  predicate IsPlainAttrValue(text: string) {
    '&' !in text && '"' !in text
  }

  predicate IsPlainText(text: string) {
    '&' !in text && '<' !in text && '>' !in text && '"' !in text
  }

  predicate SameAttr(attr: Attr) {
    attr.Attr? && attr.value.Quoted? && IsPlainAttrValue(attr.value.text)
  }

  predicate SameAttrs(attrs: seq<Attr>) {
    attrs == [] || (SameAttr(attrs[0]) && SameAttrs(attrs[1..]))
  }

  /**
   Every attribute is written out with a value free of `&` and `"`; every text
   that is printed has lost its carriage returns and, outside script and style,
   is free of `&`, `<`, `>` and `"`.
   */
  predicate PrintsSame(e: Element)
    decreases e, 3
  {
    SameAttrs(e.attrs) && (HasNoEndTag(e.tag) || AllPrintSame(e.children, HoldsRawText(e.tag)))
  }

  predicate AllPrintSame(children: seq<Child>, raw: bool)
    decreases children, 2
  {
    children == [] || (ChildPrintsSame(children[0], raw) && AllPrintSame(children[1..], raw))
  }

  predicate ChildPrintsSame(child: Child, raw: bool)
    decreases child, 4
  {
    match child
    case Text(text) => '\r' !in ServerClean(text) && (raw || IsPlainText(ServerClean(text)))
    case ElementChild(e) => PrintsSame(e)
    case FragmentChild(children) => AllPrintSame(children, raw)
    case _ => true
  }

  /** Some printed text keeps a carriage return. */
  predicate PrintsCr(e: Element)
    decreases e, 3
  {
    !HasNoEndTag(e.tag) && AnyPrintsCr(e.children)
  }

  predicate AnyPrintsCr(children: seq<Child>)
    decreases children, 2
  {
    children != [] && (ChildPrintsCr(children[0]) || AnyPrintsCr(children[1..]))
  }

  predicate ChildPrintsCr(child: Child)
    decreases child, 4
  {
    match child
    case Text(text) => '\r' in ServerClean(text)
    case ElementChild(e) => PrintsCr(e)
    case FragmentChild(children) => AnyPrintsCr(children)
    case _ => false
  }

  // ---- escaping lengthens exactly the texts it changes ----

  /** `long` is `short` when `same`, and longer otherwise. */
  predicate Stretched(long: string, short: string, same: bool) {
    if same then long == short else |long| > |short|
  }

  lemma StretchedJoin(a: string, a1: string, p: bool, b: string, b1: string, q: bool)
    requires Stretched(a, a1, p) && Stretched(b, b1, q)
    ensures Stretched(a + b, a1 + b1, p && q)
  {
  }

  lemma StretchedAround(head: string, a: string, a1: string, tail: string, p: bool)
    requires Stretched(a, a1, p)
    ensures Stretched(head + a + tail, head + a1 + tail, p)
  {
  }

  lemma StretchedAgain(a: string, b: string, c: string, p: bool, q: bool)
    requires Stretched(b, c, p) && Stretched(a, b, q)
    ensures Stretched(a, c, p && q)
  {
  }

  lemma {:induction false} ReplaceStretches(s: string, c: char, with: string)
    requires |with| > 1
    ensures Stretched(Replace(s, c, with), s, c !in s)
    ensures forall d :: d != c && d in s ==> d in Replace(s, c, with)
    ensures forall d :: d !in s && d !in with ==> d !in Replace(s, c, with)
  {
    if s != "" {
      ReplaceStretches(s[1..], c, with);
      assert s == [s[0]] + s[1..];
      StretchedJoin(if s[0] == c then with else [s[0]], [s[0]], s[0] != c,
                    Replace(s[1..], c, with), s[1..], c !in s[1..]);
    }
  }

  lemma EscapeAttrStretches(value: string)
    ensures Stretched(EscapeAttr(value), value, IsPlainAttrValue(value))
    ensures '\r' !in value ==> '\r' !in EscapeAttr(value)
  {
    var a := Replace(value, '&', "&amp;");
    ReplaceStretches(value, '&', "&amp;");
    ReplaceStretches(a, '"', "&quot;");
    StretchedAgain(EscapeAttr(value), a, value, '&' !in value, '"' !in a);
  }

  lemma EscapeHtmlStretches(text: string)
    ensures Stretched(EscapeHtml(text), text, IsPlainText(text))
    ensures '\r' !in text ==> '\r' !in EscapeHtml(text)
  {
    var a := Replace(text, '&', "&amp;");
    var b := Replace(a, '<', "&lt;");
    var c := Replace(b, '>', "&gt;");
    ReplaceStretches(text, '&', "&amp;");
    ReplaceStretches(a, '<', "&lt;");
    ReplaceStretches(b, '>', "&gt;");
    ReplaceStretches(c, '"', "&quot;");
    StretchedAgain(b, a, text, '&' !in text, '<' !in a);
    StretchedAgain(c, b, text, '&' !in text && '<' !in a, '>' !in b);
    StretchedAgain(EscapeHtml(text), c, text, '&' !in text && '<' !in a && '>' !in b, '"' !in c);
  }

  // ---- attributes ----

  function AttrPair(attr: Attr): (string, string) {
    if attr.Attr? then (AttrName(attr.name), if attr.value.Quoted? then attr.value.text else "") else ("", "")
  }

  function AttrPairs(attrs: seq<Attr>): seq<(string, string)> {
    if attrs == [] then [] else [AttrPair(attrs[0])] + AttrPairs(attrs[1..])
  }

  lemma {:induction false} SetNewAttr(acc: seq<(string, string)>, name: string, value: string)
    requires forall p :: p in acc ==> p.0 != name
    ensures SetAttr(acc, name, value) == acc + [(name, value)]
  {
    if acc != [] {
      SetNewAttr(acc[1..], name, value);
      assert acc == [acc[0]] + acc[1..];
    }
  }

  lemma StaticAttrIsFixed(attr: Attr, tag: string)
    requires IsStaticAttr(attr, tag)
    ensures FixedAttr(attr, tag) == Some(AttrPair(attr))
  {
  }

  ghost predicate NewNames(acc: seq<(string, string)>, attrs: seq<Attr>) {
    forall i, j :: 0 <= i < |acc| && 0 <= j < |attrs| && attrs[j].Attr? ==> acc[i].0 != AttrName(attrs[j].name)
  }

  lemma NewNamesStep(acc: seq<(string, string)>, attrs: seq<Attr>, own: (string, string))
    requires attrs != [] && attrs[0].Attr? && own.0 == AttrName(attrs[0].name)
    requires NewNames(acc, attrs) && DistinctNames(attrs)
    ensures NewNames(acc + [own], attrs[1..]) && DistinctNames(attrs[1..])
    ensures forall p :: p in acc ==> p.0 != own.0
  {
  }

  lemma {:induction false} FixedAreStatic(acc: seq<(string, string)>, attrs: seq<Attr>, tag: string)
    requires (forall a :: a in attrs ==> IsStaticAttr(a, tag)) && DistinctNames(attrs) && NewNames(acc, attrs)
    ensures FixedAttrs(acc, attrs, tag) == acc + AttrPairs(attrs)
    decreases |attrs|
  {
    if attrs == [] {
      assert acc + [] == acc;
    } else {
      var own := AttrPair(attrs[0]);
      assert attrs[0] in attrs;
      StaticAttrIsFixed(attrs[0], tag);
      NewNamesStep(acc, attrs, own);
      SetNewAttr(acc, own.0, own.1);
      FixedAreStatic(acc + [own], attrs[1..], tag);
      Regroup(acc, [own], AttrPairs(attrs[1..]));
    }
  }

  lemma StaticIsNotOptional(attr: Attr, tag: string)
    requires IsStaticAttr(attr, tag)
    ensures !IsOptional(attr) && !IsDropped(attr)
  {
  }

  lemma {:induction false} NothingOptional<V>(w: World<V>, scope: map<string, V>, attrs: seq<Attr>, tag: string)
    requires forall a :: a in attrs ==> IsStaticAttr(a, tag)
    ensures RenderAttrs(w, scope, attrs, true) == ""
  {
    if attrs != [] {
      StaticIsNotOptional(attrs[0], tag);
      NothingOptional(w, scope, attrs[1..], tag);
    }
  }

  lemma OneAttrStretches<V>(w: World<V>, scope: map<string, V>, attr: Attr, tag: string)
    requires IsStaticAttr(attr, tag)
    ensures var p := AttrPair(attr);
      Stretched(" " + p.0 + "=\"" + EscapeAttr(p.1) + "\"", RenderAttr(w, scope, attr), SameAttr(attr))
  {
    var p := AttrPair(attr);
    EscapeAttrStretches(p.1);
    if attr.value.Quoted? {
      StretchedAround(" " + p.0 + "=\"", EscapeAttr(p.1), p.1, "\"", IsPlainAttrValue(p.1));
    }
  }

  lemma {:induction false} AttrsStretch<V>(w: World<V>, scope: map<string, V>, attrs: seq<Attr>, tag: string)
    requires forall a :: a in attrs ==> IsStaticAttr(a, tag)
    ensures Stretched(SerializeAttrs(AttrPairs(attrs)), RenderAttrs(w, scope, attrs, false), SameAttrs(attrs))
  {
    if attrs != [] {
      var p := AttrPair(attrs[0]);
      StaticIsNotOptional(attrs[0], tag);
      OneAttrStretches(w, scope, attrs[0], tag);
      AttrsStretch(w, scope, attrs[1..], tag);
      StretchedJoin(" " + p.0 + "=\"" + EscapeAttr(p.1) + "\"", RenderAttr(w, scope, attrs[0]), SameAttr(attrs[0]),
                    SerializeAttrs(AttrPairs(attrs[1..])), RenderAttrs(w, scope, attrs[1..], false),
                        SameAttrs(attrs[1..]));
      assert AttrPairs(attrs)[1..] == AttrPairs(attrs[1..]);
    }
  }

  lemma {:induction false} NoRawContent(attrs: seq<Attr>, tag: string)
    requires forall a :: a in attrs ==> IsStaticAttr(a, tag)
    ensures DangerousContent(attrs).NoRaw? && InnerContent(attrs).NoRaw?
  {
    if attrs != [] {
      assert attrs[0] in attrs;
      NoRawContent(attrs[1..], tag);
    }
  }

  // ---- without carriage returns: same text, or a longer one ----

  lemma {:induction false} SerializeAppend(a: seq<Dom>, b: seq<Dom>, raw: bool)
    ensures SerializeAll(a + b, raw) == SerializeAll(a, raw) + SerializeAll(b, raw)
  {
    if a == [] {
      assert a + b == b;
    } else {
      assert (a + b)[1..] == a[1..] + b;
      SerializeAppend(a[1..], b, raw);
    }
  }

  lemma SerializeOne(dom: Dom, raw: bool)
    ensures SerializeAll([dom], raw) == Serialize(dom, raw)
  {
    assert [dom][1..] == [];
  }

  lemma TagsStretch(tag: string, a: string, a1: string, p: bool, inner: string, inner1: string, q: bool)
    requires Stretched(a, a1, p) && Stretched(inner, inner1, q)
    ensures Stretched("<" + tag + a + ">" + inner + "</" + tag + ">",
                      "<" + tag + a1 + ">" + inner1 + "</" + tag + ">", p && q)
  {
    StretchedAround("<" + tag, a, a1, ">", p);
    StretchedJoin("<" + tag + a + ">", "<" + tag + a1 + ">", p, inner, inner1, q);
    StretchedAround("", "<" + tag + a + ">" + inner, "<" + tag + a1 + ">" + inner1, "</" + tag + ">", p && q);
  }

  lemma OpenTagIs<V>(w: World<V>, scope: map<string, V>, e: Element, rx: bool)
    requires IsStatic(e)
    ensures RenderElement(w, scope, e, rx, None)
         == var open := "<" + e.tag + RenderAttrs(w, scope, e.attrs, false) + ">";
            if HasNoEndTag(e.tag) then open
            else open + RenderChildren(w, scope, e.children, rx, HoldsRawText(e.tag), None) + "</" + e.tag + ">"
  {
    NothingOptional(w, scope, e.attrs, e.tag);
    NoRawContent(e.attrs, e.tag);
    var a := "<" + e.tag + RenderAttrs(w, scope, e.attrs, false);
    assert a + "" == a;
  }

  lemma SerializedTree(e: Element)
    requires IsStatic(e)
    ensures Serialize(Tree(e), false)
         == var open := "<" + e.tag + SerializeAttrs(AttrPairs(e.attrs)) + ">";
            if HasNoEndTag(e.tag) then open
            else open + SerializeAll(Forest(e.children), HoldsRawText(e.tag)) + "</" + e.tag + ">"
  {
    FixedAreStatic([], e.attrs, e.tag);
    assert [] + AttrPairs(e.attrs) == AttrPairs(e.attrs);
    SerializerTables(e.tag);
  }

  lemma {:induction false} ElementStretches<V>(w: World<V>, scope: map<string, V>, e: Element, rx: bool)
    requires IsStatic(e) && !PrintsCr(e)
    ensures Stretched(Serialize(Tree(e), false), RenderElement(w, scope, e, rx, None), PrintsSame(e))
    decreases e, 3
  {
    AttrsStretch(w, scope, e.attrs, e.tag);
    OpenTagIs(w, scope, e, rx);
    SerializedTree(e);
    var a, a1 := SerializeAttrs(AttrPairs(e.attrs)), RenderAttrs(w, scope, e.attrs, false);
    if HasNoEndTag(e.tag) {
      StretchedAround("<" + e.tag, a, a1, ">", SameAttrs(e.attrs));
    } else {
      var raw := HoldsRawText(e.tag);
      ChildrenStretch(w, scope, e.children, rx, raw);
      TagsStretch(e.tag, a, a1, SameAttrs(e.attrs),
                  SerializeAll(Forest(e.children), raw), RenderChildren(w, scope, e.children, rx, raw, None),
                  AllPrintSame(e.children, raw));
    }
  }

  lemma {:induction false} ChildrenStretch<V>(w: World<V>, scope: map<string, V>, children: seq<Child>, rx: bool,
                                              raw: bool)
    requires AreStatic(children) && !AnyPrintsCr(children)
    ensures forall again: bool ::
      Stretched(SerializeAll(Forest(children), raw), RenderChildren(w, scope, children, rx, again, None),
                AllPrintSame(children, raw))
    decreases children, 2
  {
    if children != [] {
      ChildStretches(w, scope, children[0], rx, raw);
      ChildrenStretch(w, scope, children[1..], rx, raw);
      SerializeAppend(ChildTrees(children[0]), Forest(children[1..]), raw);
      var a, b := SerializeAll(ChildTrees(children[0]), raw), SerializeAll(Forest(children[1..]), raw);
      forall again: bool
        ensures Stretched(SerializeAll(Forest(children), raw), RenderChildren(w, scope, children, rx, again, None),
                          AllPrintSame(children, raw))
      {
        StretchedJoin(a, RenderChild(w, scope, children[0], rx, again, None), ChildPrintsSame(children[0], raw),
                      b, RenderChildren(w, scope, children[1..], rx, again, None), AllPrintSame(children[1..], raw));
      }
    }
  }

  lemma {:induction false} ChildStretches<V>(w: World<V>, scope: map<string, V>, child: Child, rx: bool, raw: bool)
    requires IsStaticChild(child) && !ChildPrintsCr(child)
    ensures forall again: bool ::
      Stretched(SerializeAll(ChildTrees(child), raw), RenderChild(w, scope, child, rx, again, None),
                ChildPrintsSame(child, raw))
    decreases child, 4
  {
    match child {
      case Text(text) =>
        CleanersAgree(text);
        EscapeHtmlStretches(ServerClean(text));
        SerializeOne(DomText(ServerClean(text)), raw);
      case ElementChild(e) =>
        ElementStretches(w, scope, e, rx);
        SerializeOne(Tree(e), raw);
      case FragmentChild(inner) =>
        ChildrenStretch(w, scope, inner, rx, raw);
      case _ =>
    }
  }

  // ---- with a carriage return: only the server prints it ----

  lemma {:induction false} AttrsLackCr(attrs: seq<Attr>, tag: string)
    requires forall a :: a in attrs ==> IsStaticAttr(a, tag) && IsAttrName(a.name) && IsReadableAttr(a)
    ensures '\r' !in SerializeAttrs(AttrPairs(attrs))
  {
    if attrs != [] {
      var p := AttrPair(attrs[0]);
      assert attrs[0] in attrs;
      StaticIsNotOptional(attrs[0], tag);
      EscapeAttrStretches(p.1);
      AttrNameLacksCr(attrs[0].name);
      AttrsLackCr(attrs[1..], tag);
      assert AttrPairs(attrs)[1..] == AttrPairs(attrs[1..]);
    }
  }

  lemma AttrNameLacksCr(name: string)
    requires IsAttrName(name)
    ensures '\r' !in AttrName(name)
  {
  }

  lemma TagLacksCr(tag: string)
    requires IsTag(tag) && !IsComponentTag(tag)
    ensures '\r' !in tag
  {
  }

  lemma {:induction false} ElementLacksCr(e: Element)
    requires ParsedElement(e) && IsStatic(e) && IsReadableElement(e)
    ensures '\r' !in Serialize(Tree(e), false)
    decreases e, 3
  {
    SerializedTree(e);
    TagLacksCr(e.tag);
    AttrsLackCr(e.attrs, e.tag);
    var inner := SerializeAll(Forest(e.children), HoldsRawText(e.tag));
    if !HasNoEndTag(e.tag) {
      NoRawContent(e.attrs, e.tag);
      ChildrenLackCr(e.children, HoldsRawText(e.tag));
      TextLacksCr(e.tag, SerializeAttrs(AttrPairs(e.attrs)), inner);
    } else {
      TextLacksCr(e.tag, SerializeAttrs(AttrPairs(e.attrs)), "");
    }
  }

  lemma TextLacksCr(tag: string, attrs: string, inner: string)
    requires '\r' !in tag && '\r' !in attrs && '\r' !in inner
    ensures '\r' !in "<" + tag + attrs + ">"
    ensures '\r' !in "<" + tag + attrs + ">" + inner + "</" + tag + ">"
  {
    assert '\r' !in "<" && '\r' !in ">" && '\r' !in "</";
  }

  lemma {:induction false} ChildrenLackCr(children: seq<Child>, raw: bool)
    requires ParsedChildren(children) && AreStatic(children) && AreReadableChildren(children)
    ensures '\r' !in SerializeAll(Forest(children), raw)
    decreases children, 2
  {
    if children != [] {
      ChildLacksCr(children[0], raw);
      ChildrenLackCr(children[1..], raw);
      SerializeAppend(ChildTrees(children[0]), Forest(children[1..]), raw);
    }
  }

  lemma {:induction false} ChildLacksCr(child: Child, raw: bool)
    requires ParsedChild(child) && IsStaticChild(child) && IsReadableChild(child)
    ensures '\r' !in SerializeAll(ChildTrees(child), raw)
    decreases child, 4
  {
    match child {
      case Text(text) =>
        ClientHasNoBreaks(text);
        EscapeHtmlStretches(ClientClean(text));
        SerializeOne(DomText(ClientClean(text)), raw);
      case ElementChild(e) =>
        ElementLacksCr(e);
        SerializeOne(Tree(e), raw);
      case FragmentChild(inner) =>
        ChildrenLackCr(inner, raw);
      case _ =>
    }
  }

  lemma {:induction false} ElementPrintsCr<V>(w: World<V>, scope: map<string, V>, e: Element, rx: bool)
    requires IsStatic(e) && PrintsCr(e)
    ensures '\r' in RenderElement(w, scope, e, rx, None)
    decreases e, 3
  {
    OpenTagIs(w, scope, e, rx);
    ChildrenPrintCr(w, scope, e.children, rx, HoldsRawText(e.tag));
  }

  lemma {:induction false} ChildrenPrintCr<V>(w: World<V>, scope: map<string, V>, children: seq<Child>, rx: bool,
                                              raw: bool)
    requires AreStatic(children) && AnyPrintsCr(children)
    ensures '\r' in RenderChildren(w, scope, children, rx, raw, None)
    decreases children, 2
  {
    if ChildPrintsCr(children[0]) {
      var child := children[0];
      match child {
        case Text(text) =>
        case ElementChild(e) =>
          assert e < child;
          ElementPrintsCr(w, scope, e, rx);
        case FragmentChild(inner) => ChildrenPrintCr(w, scope, inner, rx, false);
      }
    } else {
      ChildrenPrintCr(w, scope, children[1..], rx, raw);
    }
  }

  // ---- the two back ends ----

  lemma {:induction false} SameHasNoCr(e: Element)
    requires PrintsSame(e)
    ensures !PrintsCr(e)
    decreases e, 3
  {
    if !HasNoEndTag(e.tag) {
      SameChildrenNoCr(e.children, HoldsRawText(e.tag));
    }
  }

  lemma {:induction false} SameChildrenNoCr(children: seq<Child>, raw: bool)
    requires AllPrintSame(children, raw)
    ensures !AnyPrintsCr(children)
    decreases children, 2
  {
    if children != [] {
      SameChildrenNoCr(children[1..], raw);
      var child := children[0];
      match child {
        case ElementChild(e) =>
          assert e < child;
          SameHasNoCr(e);
        case FragmentChild(inner) => SameChildrenNoCr(inner, raw);
        case _ =>
      }
    }
  }

  /** The serialised tree is the reference rendering exactly when `PrintsSame`. */
  lemma SameOutput<V>(w: World<V>, scope: map<string, V>, e: Element, rx: bool)
    requires ParsedElement(e) && IsStatic(e) && IsReadableElement(e)
    ensures Serialize(Tree(e), false) == RenderElement(w, scope, e, rx, None) <==> PrintsSame(e)
  {
    if PrintsCr(e) {
      ElementPrintsCr(w, scope, e, rx);
      ElementLacksCr(e);
      if PrintsSame(e) {
        SameHasNoCr(e);
      }
    } else {
      ElementStretches(w, scope, e, rx);
    }
  }

  lemma {:induction false} StaticIsDom(e: Element)
    requires IsStatic(e)
    ensures ClientCompiler.IsDomTree(e)
    decreases e, 3
  {
    StaticAreDom(e.children);
  }

  lemma {:induction false} StaticAreDom(children: seq<Child>)
    requires AreStatic(children)
    ensures ClientCompiler.AreDomChildren(children)
    decreases children, 2
  {
    if children != [] {
      var child := children[0];
      match child {
        case ElementChild(e) =>
          assert e < child;
          StaticIsDom(e);
        case FragmentChild(inner) => StaticAreDom(inner);
        case _ =>
      }
      StaticAreDom(children[1..]);
    }
  }

  /**
   For every static tree: the client program runs and leaves a node that shows
   one tree; the AOT text reads as it was written exactly when the tree is readable;
   and then the serialised tree is what the expression evaluates to exactly
   when `PrintsSame`.
   */
  lemma BackEndsAgree<V>(w: World<V>, scope: map<string, V>, e: Element, rx: bool, live: Slice -> bool, counter: nat,
                         env: Env, m: Machine)
    requires ParsedElement(e) && IsStatic(e)
    ensures var run := RunValue(ClientCompiler.TransformElement(e, live, counter).value, env, m);
      var aot := ReadChain(ElementText(e, rx, None));
      && run.Valued?
      && Shows(run.m.heap, run.id, Tree(e), run.id, |run.m.heap|)
      && (aot.Got? <==> IsReadableElement(e))
      && (aot.Got? ==> forall dom :: (Shows(run.m.heap, run.id, dom, run.id, |run.m.heap|)
            ==> (Serialize(dom, false) == Eval(w, scope, aot.value) <==> PrintsSame(e))))
  {
    StaticIsDom(e);
    ElementBuilds(e, live, counter, env, m);
    var run := RunValue(ClientCompiler.TransformElement(e, live, counter).value, env, m);
    var k := ElementReads(w, e, rx, None);
    WholeReading(ElementText(e, rx, None), k);
    if k.Some? {
      SameOutput(w, scope, e, rx);
      forall dom | Shows(run.m.heap, run.id, dom, run.id, |run.m.heap|) ensures dom == Tree(e) {
        ShowsOneTree(run.m.heap, run.id, dom, Tree(e), run.id, |run.m.heap|);
      }
    }
  }

  /** A valueless boolean attribute: the DOM writes it out with an empty value, the AOT text does not. */
  lemma BooleanAttributeDiffers<V>(w: World<V>, scope: map<string, V>)
    ensures var attr := Attr("hidden", NoValue);
      && SerializeAttrs([AttrPair(attr)]) == " hidden=\"\""
      && RenderAttr(w, scope, attr) == " hidden"
  {
    var attr := Attr("hidden", NoValue);
    assert [AttrPair(attr)][1..] == [];
    assert EscapeAttr("") == "";
    NamedHidden();
  }

  lemma NamedHidden()
    ensures var attr := Attr("hidden", NoValue); AttrPair(attr) == ("hidden", "") && !IsDropped(attr)
  {
    assert "hidden"[0] == 'h' && "on"[0] == 'o';
    assert !IsEventHandler("hidden");
  }

  /** An ampersand in text: the DOM serializer escapes it, the AOT text copies it. */
  lemma AmpersandDiffers<V>(w: World<V>, scope: map<string, V>, rx: bool)
    ensures Serialize(DomText(ClientClean("&")), false) == "&amp;"
    ensures RenderChild(w, scope, Text("&"), rx, false, None) == "&"
  {
    assert ClientClean("&") == ServerClean("&") == "&";
    AmpersandEscapes();
  }

  lemma AmpersandEscapes()
    ensures EscapeHtml("&") == "&amp;"
  {
    ReplaceOne('&', '&', "&amp;");
    OnlyAmpersands("&", "&amp;");
  }

  lemma OnlyAmpersands(text: string, out: string)
    requires Replace(text, '&', "&amp;") == out && '<' !in out && '>' !in out && '"' !in out
    ensures EscapeHtml(text) == out
  {
    ReplaceAbsent(out, '<', "&lt;");
    ReplaceAbsent(out, '>', "&gt;");
    ReplaceAbsent(out, '"', "&quot;");
  }

  lemma {:induction false} ReplaceAbsent(s: string, c: char, with: string)
    requires c !in s
    ensures Replace(s, c, with) == s
  {
    if s != "" {
      ReplaceAbsent(s[1..], c, with);
      assert s == [s[0]] + s[1..];
    }
  }
}
