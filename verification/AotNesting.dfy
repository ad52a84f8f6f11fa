/**
 The shape of the rendered HTML: a properly nested word of tags and hydration
 markers, in which the component's hydration id occurs at most once.
 */
module AotNesting {
  import opened JsxSyntax
  import opened JsxWhitespace
  import opened AotReader
  import opened AotReference
  import AotCompiler
  import AotCorrect
  import AotBodies
  import AotGuards

  /** `hid` is the hydration id a tag carries; `Chars` is text, escaped values, raw HTML and component output. */
  datatype Token =
    | OpenTag(tag: string, attrs: string, hid: Option<string>)
    | VoidTag(tag: string, attrs: string, hid: Option<string>)
    | CloseTag(tag: string)
    | OpenMark(marker: string)
    | CloseMark(marker: string)
    | Chars(text: string)

  function Spell(t: Token): string {
    match t
    case OpenTag(tag, attrs, hid) => "<" + tag + attrs + RenderHydration(hid) + ">"
    case VoidTag(tag, attrs, hid) => "<" + tag + attrs + RenderHydration(hid) + ">"
    case CloseTag(tag) => "</" + tag + ">"
    case OpenMark(marker) => "<!--" + marker + "-->"
    case CloseMark(marker) => "<!--/" + marker + "-->"
    case Chars(text) => text
  }

  function SpellAll(word: seq<Token>): string {
    if word == [] then "" else Spell(word[0]) + SpellAll(word[1..])
  }

  /** What is open on the way: tags and markers. */
  datatype Frame = TagFrame(name: string) | MarkFrame(name: string)

  function Read(t: Token, open: seq<Frame>): Option<seq<Frame>> {
    match t
    case OpenTag(tag, _, _) => if HasNoEndTag(tag) then None else Some(open + [TagFrame(tag)])
    case VoidTag(tag, _, _) => if HasNoEndTag(tag) then Some(open) else None
    case CloseTag(tag) => Close(TagFrame(tag), open)
    case OpenMark(marker) => Some(open + [MarkFrame(marker)])
    case CloseMark(marker) => Close(MarkFrame(marker), open)
    case Chars(_) => Some(open)
  }

  function Close(frame: Frame, open: seq<Frame>): Option<seq<Frame>> {
    if open != [] && open[|open| - 1] == frame then Some(open[..|open| - 1]) else None
  }

  function ReadAll(word: seq<Token>, open: seq<Frame>): Option<seq<Frame>> {
    if word == [] then Some(open)
    else
      var next := Read(word[0], open);
      if next.None? then None else ReadAll(word[1..], next.value)
  }

  /** Every end closes the latest thing open, everything opened is closed, and void elements have no end. */
  ghost predicate Nested(word: seq<Token>) {
    forall open :: ReadAll(word, open) == Some(open)
  }

  function Hydrated(word: seq<Token>): nat {
    if word == [] then 0
    else (if (word[0].OpenTag? || word[0].VoidTag?) && word[0].hid.Some? then 1 else 0) + Hydrated(word[1..])
  }

  // ---- the word of a tree ----

  function TagWord<V>(w: World<V>, scope: map<string, V>, e: Element, hid: Option<string>,
                      inner: seq<Token>): seq<Token> {
    var attrs := RenderAttrs(w, scope, e.attrs, false) + RenderAttrs(w, scope, e.attrs, true);
    if HasNoEndTag(e.tag) then [VoidTag(e.tag, attrs, hid)]
    else [OpenTag(e.tag, attrs, hid)] + inner + [CloseTag(e.tag)]
  }

  function ElementWord<V>(w: World<V>, scope: map<string, V>, e: Element, rx: bool, hid: Option<string>): seq<Token>
    decreases e, 3, 0
  {
    if IsComponentTag(e.tag) then [Chars(RenderElement(w, scope, e, rx, hid))]
    else
      var raw := RawContentOf(e.attrs);
      TagWord(w, scope, e, hid,
              if raw.NoRaw? then ChildrenWord(w, scope, e.children, rx, HoldsRawText(e.tag), None)
              else [Chars(RenderRaw(w, scope, raw))])
  }

  function ChildrenWord<V>(w: World<V>, scope: map<string, V>, children: seq<Child>, rx: bool, raw: bool,
                           hid: Option<string>): seq<Token>
    decreases children, 2, 0
  {
    if children == [] then []
    else if CarriesHydration(children[0]) then
      ChildWord(w, scope, children[0], rx, raw, hid) + ChildrenWord(w, scope, children[1..], rx, raw, None)
    else
      ChildWord(w, scope, children[0], rx, raw, None) + ChildrenWord(w, scope, children[1..], rx, raw, hid)
  }

  function ChildWord<V>(w: World<V>, scope: map<string, V>, child: Child, rx: bool, raw: bool,
                        hid: Option<string>): seq<Token>
    decreases child, 4, 0
  {
    match child
    case Text(text) => [Chars(ServerClean(text))]
    case Hole(expr) => if expr.None? then [] else HoleWord(w, scope, expr.value, rx, raw)
    case ElementChild(e) => ElementWord(w, scope, e, rx, hid)
    case FragmentChild(children) => ChildrenWord(w, scope, children, rx, false, hid)
    case SpreadChild => []
  }

  function Marked(marker: string, inner: seq<Token>): seq<Token> {
    [OpenMark(marker)] + inner + [CloseMark(marker)]
  }

  function HoleWord<V>(w: World<V>, scope: map<string, V>, expr: Expr, rx: bool, raw: bool): seq<Token>
    decreases expr, 5, 0
  {
    if expr.Conditional? || expr.And? then NodeWord(w, scope, expr, rx)
    else if expr.MapCall? then MapWord(w, scope, expr, rx)
    else if !raw && rx && (expr.Paren? || expr.Other?) && expr.reactive then
      Marked("child", [Chars(Escaped(w, scope, expr.whole))])
    else [Chars(RenderSimple(w, scope, expr.whole, raw, false))]
  }

  function NodeWord<V>(w: World<V>, scope: map<string, V>, expr: Expr, rx: bool): seq<Token>
    decreases expr, 4, 0
  {
    match expr
    case JsxElement(e, _) => ElementWord(w, scope, e, rx, None)
    case JsxFragment(children, _) => ChildrenWord(w, scope, children, rx, false, None)
    case Paren(inner, _, _) => NodeWord(w, scope, inner, rx)
    case Conditional(test, yes, no, _) =>
      Marked("conditional",
             if w.truthy(w.eval(test.id, scope)) then NodeWord(w, scope, yes, rx) else NodeWord(w, scope, no, rx))
    case And(left, right, _) =>
      Marked("conditional", if w.truthy(w.eval(left.id, scope)) then NodeWord(w, scope, right, rx) else [])
    case MapCall(_, _, _, whole) => [Chars(Escaped(w, scope, whole))]
    case Other(whole, _) => [Chars(Escaped(w, scope, whole))]
  }

  function MapWord<V>(w: World<V>, scope: map<string, V>, expr: Expr, rx: bool): seq<Token>
    requires expr.MapCall?
    decreases expr, 3, 0
  {
    var item := ItemJsx(expr.callback);
    if item.None? then [Chars(Escaped(w, scope, expr.whole))]
    else
      var list := w.eval(expr.receiver.id, scope);
      assert item.value < expr by { ItemIsSmaller(expr); }
      Marked("list",
        if expr.optional && w.nullish(list) then []
        else ItemsWord(w, scope, ItemName(expr.callback), item.value, w.items(list), 0, rx))
  }

  function ItemsWord<V>(w: World<V>, scope: map<string, V>, param: string, item: Expr, items: seq<V>, i: nat,
                        rx: bool): seq<Token>
    requires i <= |items|
    decreases item, 6, |items| - i
  {
    if i == |items| then []
    else NodeWord(w, scope[param := items[i]], item, rx) + ItemsWord(w, scope, param, item, items, i + 1, rx)
  }

  // ---- words compose ----

  lemma {:induction false} SpellAppend(a: seq<Token>, b: seq<Token>)
    ensures SpellAll(a + b) == SpellAll(a) + SpellAll(b)
  {
    if a == [] {
      assert a + b == b;
    } else {
      assert (a + b)[1..] == a[1..] + b;
      SpellAppend(a[1..], b);
    }
  }

  lemma SpellOne(t: Token)
    ensures SpellAll([t]) == Spell(t)
  {
    assert [t][1..] == [];
  }

  lemma SpellAround(first: Token, inner: seq<Token>, last: Token)
    ensures SpellAll([first] + inner + [last]) == Spell(first) + SpellAll(inner) + Spell(last)
  {
    SpellAppend([first] + inner, [last]);
    SpellAppend([first], inner);
    SpellOne(first);
    SpellOne(last);
  }

  lemma {:induction false} ReadAppend(a: seq<Token>, b: seq<Token>, open: seq<Frame>)
    ensures ReadAll(a + b, open) == var r := ReadAll(a, open); if r.None? then None else ReadAll(b, r.value)
    decreases |a|
  {
    if a == [] {
      assert a + b == b;
    } else {
      assert (a + b)[1..] == a[1..] + b;
      var next := Read(a[0], open);
      if next.Some? {
        ReadAppend(a[1..], b, next.value);
      }
    }
  }

  lemma NestedAppend(a: seq<Token>, b: seq<Token>)
    requires Nested(a) && Nested(b)
    ensures Nested(a + b)
  {
    forall open ensures ReadAll(a + b, open) == Some(open) {
      ReadAppend(a, b, open);
    }
  }

  lemma NestedOne(t: Token)
    requires forall open :: Read(t, open) == Some(open)
    ensures Nested([t])
  {
    assert [t][1..] == [];
    forall open ensures ReadAll([t], open) == Some(open) {
    }
  }

  /** Matching ends around a nested word. */
  lemma NestedAround(first: Token, inner: seq<Token>, last: Token, frame: Frame)
    requires Nested(inner)
    requires forall open :: Read(first, open) == Some(open + [frame])
    requires forall open :: Read(last, open) == Close(frame, open)
    ensures Nested([first] + inner + [last])
  {
    forall open ensures ReadAll([first] + inner + [last], open) == Some(open) {
      ReadAppend([first] + inner, [last], open);
      ReadAppend([first], inner, open);
      assert [first][1..] == [] && [last][1..] == [];
      assert ReadAll([first], open) == Some(open + [frame]);
      assert (open + [frame])[..|open|] == open;
      assert ReadAll([last], open + [frame]) == Some(open);
    }
  }

  lemma {:induction false} HydratedAppend(a: seq<Token>, b: seq<Token>)
    ensures Hydrated(a + b) == Hydrated(a) + Hydrated(b)
  {
    if a == [] {
      assert a + b == b;
    } else {
      assert (a + b)[1..] == a[1..] + b;
      HydratedAppend(a[1..], b);
    }
  }

  lemma HydratedAround(first: Token, inner: seq<Token>, last: Token)
    requires !last.OpenTag? && !last.VoidTag?
    ensures Hydrated([first] + inner + [last]) == Hydrated([first]) + Hydrated(inner)
  {
    HydratedAppend([first] + inner, [last]);
    HydratedAppend([first], inner);
    assert [last][1..] == [];
  }

  /** Does the hydration id, offered to these children, arrive at a tag? */
  predicate Arrives(children: seq<Child>) {
    children != []
    && if CarriesHydration(children[0]) then ArrivesAt(children[0]) else Arrives(children[1..])
  }

  predicate ArrivesAt(child: Child) {
    match child
    case ElementChild(e) => !IsComponentTag(e.tag)
    case FragmentChild(children) => Arrives(children)
    case _ => false
  }

  function Once(condition: bool): nat {
    if condition then 1 else 0
  }

  /** A word is the rendering, is nested, and carries the hydration id `n` times. */
  ghost predicate IsWord(word: seq<Token>, text: string, n: nat) {
    SpellAll(word) == text && Nested(word) && Hydrated(word) == n
  }

  lemma CharsWord(text: string)
    ensures IsWord([Chars(text)], text, 0)
  {
    SpellOne(Chars(text));
    NestedOne(Chars(text));
    assert [Chars(text)][1..] == [];
  }

  lemma WordAppend(a: seq<Token>, s: string, m: nat, b: seq<Token>, t: string, n: nat)
    requires IsWord(a, s, m) && IsWord(b, t, n)
    ensures IsWord(a + b, s + t, m + n)
  {
    SpellAppend(a, b);
    NestedAppend(a, b);
    HydratedAppend(a, b);
  }

  lemma MarkedWord(marker: string, inner: seq<Token>, text: string, n: nat)
    requires IsWord(inner, text, n)
    ensures IsWord(Marked(marker, inner), Bracketed(marker, text), n)
  {
    SpellAround(OpenMark(marker), inner, CloseMark(marker));
    NestedAround(OpenMark(marker), inner, CloseMark(marker), MarkFrame(marker));
    HydratedAround(OpenMark(marker), inner, CloseMark(marker));
    assert [OpenMark(marker)][1..] == [];
    var a, b := "<!--" + marker + "-->", "<!--/" + marker + "-->";
    assert a + text + b == Bracketed(marker, text);
  }

  lemma TagIsWord<V>(w: World<V>, scope: map<string, V>, e: Element, hid: Option<string>, inner: seq<Token>,
                     text: string)
    requires IsWord(inner, text, 0)
    ensures var open := "<" + e.tag + RenderAttrs(w, scope, e.attrs, false) + RenderAttrs(w, scope, e.attrs, true)
                        + RenderHydration(hid) + ">";
      IsWord(TagWord(w, scope, e, hid, inner),
             if HasNoEndTag(e.tag) then open else open + text + "</" + e.tag + ">", Once(hid.Some?))
  {
    var a, b := RenderAttrs(w, scope, e.attrs, false), RenderAttrs(w, scope, e.attrs, true);
    var open := "<" + e.tag + a + b + RenderHydration(hid) + ">";
    OpenSpelling("<" + e.tag, a, b, RenderHydration(hid));
    if HasNoEndTag(e.tag) {
      var t := VoidTag(e.tag, a + b, hid);
      SpellOne(t);
      NestedOne(t);
      assert [t][1..] == [];
    } else {
      var t := OpenTag(e.tag, a + b, hid);
      SpellAround(t, inner, CloseTag(e.tag));
      NestedAround(t, inner, CloseTag(e.tag), TagFrame(e.tag));
      HydratedAround(t, inner, CloseTag(e.tag));
      assert [t][1..] == [];
      EndSpelling(open, text, e.tag);
    }
  }

  lemma OpenSpelling(head: string, a: string, b: string, hydration: string)
    ensures head + (a + b) + hydration + ">" == head + a + b + hydration + ">"
  {
    assert head + (a + b) == head + a + b;
  }

  lemma EndSpelling(open: string, text: string, tag: string)
    ensures open + text + ("</" + tag + ">") == open + text + "</" + tag + ">"
  {
  }

  /** An element's rendering is a nested word; the id given to a DOM element is on its own tag and nowhere else. */
  lemma {:induction false} ElementIsWord<V>(w: World<V>, scope: map<string, V>, e: Element, rx: bool,
                                            hid: Option<string>)
    ensures IsWord(ElementWord(w, scope, e, rx, hid), RenderElement(w, scope, e, rx, hid),
                   Once(hid.Some? && !IsComponentTag(e.tag)))
    decreases e, 3, 0
  {
    if IsComponentTag(e.tag) {
      CharsWord(RenderElement(w, scope, e, rx, hid));
    } else {
      var raw := RawContentOf(e.attrs);
      if raw.NoRaw? {
        var inText := HoldsRawText(e.tag);
        ChildrenAreWord(w, scope, e.children, rx, inText, None);
        TagIsWord(w, scope, e, hid, ChildrenWord(w, scope, e.children, rx, inText, None),
                  RenderChildren(w, scope, e.children, rx, inText, None));
      } else {
        CharsWord(RenderRaw(w, scope, raw));
        TagIsWord(w, scope, e, hid, [Chars(RenderRaw(w, scope, raw))], RenderRaw(w, scope, raw));
      }
    }
  }

  /**
   The id offered to children arrives once, or not at all when the first that may
   take it is a fragment without elements.
   */
  lemma {:induction false} ChildrenAreWord<V>(w: World<V>, scope: map<string, V>, children: seq<Child>, rx: bool,
                                              raw: bool,
                                              hid: Option<string>)
    ensures IsWord(ChildrenWord(w, scope, children, rx, raw, hid), RenderChildren(w, scope, children, rx, raw, hid),
                   Once(hid.Some? && Arrives(children)))
    decreases children, 2, 0
  {
    if children != [] {
      var carries := CarriesHydration(children[0]);
      var own, rest := if carries then hid else None, if carries then None else hid;
      ChildIsWord(w, scope, children[0], rx, raw, own);
      ChildrenAreWord(w, scope, children[1..], rx, raw, rest);
      WordAppend(ChildWord(w, scope, children[0], rx, raw, own), RenderChild(w, scope, children[0], rx, raw, own),
                 Once(own.Some? && ArrivesAt(children[0])),
                 ChildrenWord(w, scope, children[1..], rx, raw, rest),
                     RenderChildren(w, scope, children[1..], rx, raw, rest),
                 Once(rest.Some? && Arrives(children[1..])));
    }
  }

  lemma {:induction false} ChildIsWord<V>(w: World<V>, scope: map<string, V>, child: Child, rx: bool, raw: bool,
                                          hid: Option<string>)
    ensures IsWord(ChildWord(w, scope, child, rx, raw, hid), RenderChild(w, scope, child, rx, raw, hid),
                   Once(hid.Some? && ArrivesAt(child)))
    decreases child, 4, 0
  {
    match child {
      case Text(text) => CharsWord(ServerClean(text));
      case Hole(expr) =>
        if expr.Some? {
          HoleIsWord(w, scope, expr.value, rx, raw);
        }
      case ElementChild(e) => ElementIsWord(w, scope, e, rx, hid);
      case FragmentChild(children) => ChildrenAreWord(w, scope, children, rx, false, hid);
      case SpreadChild =>
    }
  }

  lemma {:induction false} HoleIsWord<V>(w: World<V>, scope: map<string, V>, expr: Expr, rx: bool, raw: bool)
    ensures IsWord(HoleWord(w, scope, expr, rx, raw), RenderHole(w, scope, expr, rx, raw), 0)
    decreases expr, 5, 0
  {
    if expr.Conditional? || expr.And? {
      NodeIsWord(w, scope, expr, rx);
    } else if expr.MapCall? {
      MapIsWord(w, scope, expr, rx);
    } else if !raw && rx && (expr.Paren? || expr.Other?) && expr.reactive {
      CharsWord(Escaped(w, scope, expr.whole));
      MarkedWord("child", [Chars(Escaped(w, scope, expr.whole))], Escaped(w, scope, expr.whole), 0);
    } else {
      CharsWord(RenderSimple(w, scope, expr.whole, raw, false));
    }
  }

  lemma {:induction false} NodeIsWord<V>(w: World<V>, scope: map<string, V>, expr: Expr, rx: bool)
    ensures IsWord(NodeWord(w, scope, expr, rx), RenderNode(w, scope, expr, rx), 0)
    decreases expr, 4, 0
  {
    match expr {
      case JsxElement(e, _) => ElementIsWord(w, scope, e, rx, None);
      case JsxFragment(children, _) => ChildrenAreWord(w, scope, children, rx, false, None);
      case Paren(inner, _, _) => NodeIsWord(w, scope, inner, rx);
      case Conditional(test, yes, no, _) =>
        var chosen := if w.truthy(w.eval(test.id, scope)) then yes else no;
        NodeIsWord(w, scope, chosen, rx);
        MarkedWord("conditional", NodeWord(w, scope, chosen, rx), RenderNode(w, scope, chosen, rx), 0);
      case And(left, right, _) =>
        if w.truthy(w.eval(left.id, scope)) {
          NodeIsWord(w, scope, right, rx);
          MarkedWord("conditional", NodeWord(w, scope, right, rx), RenderNode(w, scope, right, rx), 0);
        } else {
          MarkedWord("conditional", [], "", 0);
        }
      case MapCall(_, _, _, whole) => CharsWord(Escaped(w, scope, whole));
      case Other(whole, _) => CharsWord(Escaped(w, scope, whole));
    }
  }

  lemma {:induction false} MapIsWord<V>(w: World<V>, scope: map<string, V>, expr: Expr, rx: bool)
    requires expr.MapCall?
    ensures IsWord(MapWord(w, scope, expr, rx), RenderMap(w, scope, expr, rx), 0)
    decreases expr, 3, 0
  {
    var item := ItemJsx(expr.callback);
    if item.None? {
      CharsWord(Escaped(w, scope, expr.whole));
    } else {
      var list := w.eval(expr.receiver.id, scope);
      ItemIsSmaller(expr);
      if expr.optional && w.nullish(list) {
        MarkedWord("list", [], "", 0);
      } else {
        var param := ItemName(expr.callback);
        ItemsAreWord(w, scope, param, item.value, w.items(list), 0, rx);
        MarkedWord("list", ItemsWord(w, scope, param, item.value, w.items(list), 0, rx),
                   RenderItems(w, scope, param, item.value, w.items(list), 0, rx), 0);
      }
    }
  }

  lemma {:induction false} ItemsAreWord<V>(w: World<V>, scope: map<string, V>, param: string, item: Expr, items: seq<V>,
                                           i: nat, rx: bool)
    requires i <= |items|
    ensures IsWord(ItemsWord(w, scope, param, item, items, i, rx), RenderItems(w, scope, param, item, items, i, rx), 0)
    decreases item, 6, |items| - i
  {
    if i < |items| {
      var own := scope[param := items[i]];
      NodeIsWord(w, own, item, rx);
      ItemsAreWord(w, scope, param, item, items, i + 1, rx);
      WordAppend(NodeWord(w, own, item, rx), RenderNode(w, own, item, rx), 0,
                 ItemsWord(w, scope, param, item, items, i + 1, rx),
                     RenderItems(w, scope, param, item, items, i + 1, rx), 0);
    }
  }

  /** Does the root of a component hand the id to a tag? */
  predicate RootArrives(root: Expr) {
    match root
    case JsxElement(e, _) => !IsComponentTag(e.tag)
    case JsxFragment(children, _) => Arrives(children)
    case Paren(inner, _, _) => RootArrives(inner)
    case _ => false
  }

  /** The word of a component's root. */
  function RootWord<V>(w: World<V>, scope: map<string, V>, root: Expr, rx: bool, hid: Option<string>): seq<Token> {
    match root
    case JsxElement(e, _) => ElementWord(w, scope, e, rx, hid)
    case JsxFragment(children, _) => ChildrenWord(w, scope, children, rx, false, hid)
    case Paren(inner, _, _) => RootWord(w, scope, inner, rx, hid)
    case _ => []
  }

  lemma {:induction false} RootIsWord<V>(w: World<V>, scope: map<string, V>, root: Expr, rx: bool, hid: Option<string>)
    ensures IsWord(RootWord(w, scope, root, rx, hid), AotGuards.RenderRoot(w, scope, root, rx, hid),
                   Once(hid.Some? && RootArrives(root)))
  {
    match root {
      case JsxElement(e, _) => ElementIsWord(w, scope, e, rx, hid);
      case JsxFragment(children, _) => ChildrenAreWord(w, scope, children, rx, false, hid);
      case Paren(inner, _, _) => RootIsWord(w, scope, inner, rx, hid);
      case _ =>
    }
  }

  /**
   Whatever the world and the scope: the string a compiled component evaluates
   to is spelt by the word of its own tree, one token for every tag and marker
   and characters only for text, escaped values, raw HTML and component output.
   That word is nested, and the component's hydration id is in it once if the
   root hands it to a tag, and never otherwise.
   */
  lemma AotOutputIsNested<V>(w: World<V>, scope: map<string, V>, root: Expr, rx: bool, hid: Option<string>)
    requires AotCorrect.ParsedExpr(root) && AotCorrect.HidOk(hid)
    ensures var r := ReadChain(AotCompiler.RootText(root, rx, hid));
      r.Got? ==>
        IsWord(RootWord(w, scope, root, rx, hid), Eval(w, scope, r.value), Once(hid.Some? && RootArrives(root)))
  {
    RootIsWord(w, scope, root, rx, hid);
    AotGuards.AotPreservesMeaning(w, root, rx, hid);
  }

  /** The word of a whole body: of its JSX, of its choice, or of the guarded JSX that is chosen, between markers. */
  function BodyWord<V>(w: World<V>, scope: map<string, V>, stmts: seq<AotGuards.Stmt>, rx: bool,
                       hid: Option<string>): seq<Token>
    requires AotGuards.BodyReturns(stmts) != [] || AotGuards.Choices(stmts) != []
  {
    var found := AotGuards.BodyReturns(stmts);
    if found == [] then NodeWord(w, scope, AotGuards.Choices(stmts)[0], rx)
    else if |found| == 1 then RootWord(w, scope, found[0].jsx, rx, hid)
    else
      var chosen := found[AotGuards.Chosen(w, scope, found)];
      Marked("conditional", RootWord(w, scope, chosen.jsx, rx, if chosen.guard.None? then hid else None))
  }

  /** Does the hydration id reach a tag? A guarded return does not pass it on, nor does a choice. */
  predicate BodyArrives<V>(w: World<V>, scope: map<string, V>, stmts: seq<AotGuards.Stmt>) {
    var found := AotGuards.BodyReturns(stmts);
    if found == [] then false
    else if |found| == 1 then RootArrives(found[0].jsx)
    else
      var chosen := found[AotGuards.Chosen(w, scope, found)];
      chosen.guard.None? && RootArrives(chosen.jsx)
  }

  predicate ParsedBody(stmts: seq<AotGuards.Stmt>) {
    && AotGuards.ParsedFound(AotGuards.BodyReturns(stmts))
    && forall choice :: choice in AotGuards.Choices(stmts) ==> AotCorrect.ParsedExpr(choice)
  }

  lemma GuardedIsWord<V>(w: World<V>, scope: map<string, V>, found: seq<AotGuards.Found>, rx: bool,
                         hid: Option<string>)
    requires found != []
    ensures var chosen := found[AotGuards.Chosen(w, scope, found)];
      IsWord(RootWord(w, scope, chosen.jsx, rx, if chosen.guard.None? then hid else None),
             AotGuards.RenderChosen(w, scope, found, rx, hid),
             Once(hid.Some? && chosen.guard.None? && RootArrives(chosen.jsx)))
  {
    var chosen := found[AotGuards.Chosen(w, scope, found)];
    RootIsWord(w, scope, chosen.jsx, rx, if chosen.guard.None? then hid else None);
  }

  /**
   The same for every body that is compiled: a single JSX return, guarded
   returns, or a returned conditional. The markers of guards and conditionals
   nest too, and the id is printed once if the chosen return is the unguarded
   one and hands it to a tag, and never otherwise.
   */
  lemma BodyOutputIsNested<V>(w: World<V>, scope: map<string, V>, stmts: seq<AotGuards.Stmt>, rx: bool,
                              hid: Option<string>)
    requires ParsedBody(stmts) && AotCorrect.HidOk(hid)
    ensures AotGuards.BodyText(stmts, rx, hid).Some? ==>
      var r := ReadChain(AotGuards.BodyText(stmts, rx, hid).value);
      r.Got? ==>
        IsWord(BodyWord(w, scope, stmts, rx, hid), Eval(w, scope, r.value),
               Once(hid.Some? && BodyArrives(w, scope, stmts)))
  {
    var found := AotGuards.BodyReturns(stmts);
    if |found| == 1 {
      AotOutputIsNested(w, scope, found[0].jsx, rx, hid);
    } else if AotGuards.IsGuardPattern(found) {
      GuardedOutputIsNested(w, scope, found, rx, hid);
    } else if AotGuards.Choices(stmts) != [] {
      ChoiceOutputIsNested(w, scope, stmts, rx);
    }
  }

  lemma GuardedOutputIsNested<V>(w: World<V>, scope: map<string, V>, found: seq<AotGuards.Found>, rx: bool,
                                 hid: Option<string>)
    requires |found| > 1 && AotGuards.ParsedFound(found) && AotGuards.IsGuardPattern(found) && AotCorrect.HidOk(hid)
    ensures var r := ReadChain(AotCompiler.Marked("conditional", AotGuards.GuardedText(found, rx, hid)));
      var chosen := found[AotGuards.Chosen(w, scope, found)];
      r.Got? ==>
        IsWord(Marked("conditional", RootWord(w, scope, chosen.jsx, rx, if chosen.guard.None? then hid else None)),
               Eval(w, scope, r.value), Once(hid.Some? && chosen.guard.None? && RootArrives(chosen.jsx)))
  {
    var chosen := found[AotGuards.Chosen(w, scope, found)];
    AotGuards.PatternReads(w, found, rx, hid);
    GuardedIsWord(w, scope, found, rx, hid);
    MarkedWord("conditional", RootWord(w, scope, chosen.jsx, rx, if chosen.guard.None? then hid else None),
               AotGuards.RenderChosen(w, scope, found, rx, hid),
               Once(hid.Some? && chosen.guard.None? && RootArrives(chosen.jsx)));
  }

  lemma ChoiceOutputIsNested<V>(w: World<V>, scope: map<string, V>, stmts: seq<AotGuards.Stmt>, rx: bool)
    requires AotGuards.Choices(stmts) != [] && AotCorrect.ParsedExpr(AotGuards.Choices(stmts)[0])
    ensures var r := ReadChain(AotCompiler.ConditionalRootText(AotGuards.Choices(stmts)[0], rx));
      r.Got? ==> IsWord(NodeWord(w, scope, AotGuards.Choices(stmts)[0], rx), Eval(w, scope, r.value), 0)
  {
    var choice := AotGuards.Choices(stmts)[0];
    AotBodies.AllAreChoices(stmts, choice);
    AotGuards.ConditionalRootPreservesMeaning(w, choice, rx);
    NodeIsWord(w, scope, choice, rx);
  }

  // ---- the id, in the text ----

  function HidLength(hid: Option<string>, arrives: bool): nat {
    if arrives then |RenderHydration(hid)| else 0
  }

  lemma {:induction false} ChildrenLonger<V>(w: World<V>, scope: map<string, V>, children: seq<Child>, rx: bool,
                                             raw: bool,
                                             hid: Option<string>)
    ensures |RenderChildren(w, scope, children, rx, raw, hid)|
         == |RenderChildren(w, scope, children, rx, raw, None)| + HidLength(hid, Arrives(children))
    ensures !Arrives(children) ==>
      RenderChildren(w, scope, children, rx, raw, hid) == RenderChildren(w, scope, children, rx, raw, None)
    decreases children
  {
    if children != [] {
      if CarriesHydration(children[0]) {
        ChildLonger(w, scope, children[0], rx, raw, hid);
      } else {
        ChildrenLonger(w, scope, children[1..], rx, raw, hid);
      }
    }
  }

  lemma {:induction false} ChildLonger<V>(w: World<V>, scope: map<string, V>, child: Child, rx: bool, raw: bool,
                                          hid: Option<string>)
    requires CarriesHydration(child)
    ensures |RenderChild(w, scope, child, rx, raw, hid)|
         == |RenderChild(w, scope, child, rx, raw, None)| + HidLength(hid, ArrivesAt(child))
    ensures !ArrivesAt(child) ==>
      RenderChild(w, scope, child, rx, raw, hid) == RenderChild(w, scope, child, rx, raw, None)
    decreases child
  {
    match child {
      case ElementChild(e) => TagLonger(w, scope, e, rx, hid);
      case FragmentChild(children) => ChildrenLonger(w, scope, children, rx, false, hid);
    }
  }

  lemma TagLonger<V>(w: World<V>, scope: map<string, V>, e: Element, rx: bool, hid: Option<string>)
    requires !IsComponentTag(e.tag)
    ensures |RenderElement(w, scope, e, rx, hid)| == |RenderElement(w, scope, e, rx, None)| + |RenderHydration(hid)|
  {
  }

  /**
   A hydration id offered to children leaves no trace in their rendering exactly
   when it does not arrive: the first child that may take it is a fragment
   without elements, or there is no such child.
   */
  lemma HydrationIdLost<V>(w: World<V>, scope: map<string, V>, children: seq<Child>, rx: bool, raw: bool, hid: string)
    ensures RenderChildren(w, scope, children, rx, raw, Some(hid)) == RenderChildren(w, scope, children, rx, raw, None)
       <==> !Arrives(children)
  {
    ChildrenLonger(w, scope, children, rx, raw, Some(hid));
  }
}
