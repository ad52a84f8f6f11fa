/**
 The AOT back end preserves meaning: the emitted text reads as the chain of
 operands it was written as, every slice one operand, exactly when the tree
 meets four checkable conditions, and that chain then evaluates to the
 reference rendering in every world.
 */
module AotCorrect {
  import opened JsxSyntax
  import opened JsxWhitespace
  import opened AotReader
  import opened AotReading
  import opened AotCompiler
  import opened AotReference
  import opened AotAttributes

  // ---- what the parser guarantees ----

  predicate IsTag(tag: string) {
    if IsComponentTag(tag) then IsKey(tag) else AllPlain(tag)
  }

  predicate ParsedElement(e: Element) {
    IsTag(e.tag) && (forall a :: a in e.attrs && a.Attr? ==> IsAttrName(a.name)) && ParsedChildren(e.children)
  }

  predicate ParsedChildren(children: seq<Child>) {
    children == [] || (ParsedChild(children[0]) && ParsedChildren(children[1..]))
  }

  predicate ParsedChild(child: Child) {
    match child
    case Hole(expr) => expr.Some? ==> ParsedExpr(expr.value)
    case ElementChild(e) => ParsedElement(e)
    case FragmentChild(children) => ParsedChildren(children)
    case _ => true
  }

  /**
   Conditions stand at test precedence, receivers of calls bind tightest, and only
   `Other` is a comma expression; an arrow's expression body is one expression.
   Callbacks that yield JSX yield it from their first statement.
   */
  predicate ParsedExpr(expr: Expr) {
    match expr
    case JsxElement(e, whole) => !whole.binding.Comma? && ParsedElement(e)
    case JsxFragment(children, whole) => !whole.binding.Comma? && ParsedChildren(children)
    case Paren(inner, whole, _) => !whole.binding.Comma? && ParsedExpr(inner)
    case Conditional(test, yes, no, _) => !test.binding.IsLoose() && ParsedExpr(yes) && ParsedExpr(no)
    case And(left, right, _) => !left.binding.IsLoose() && ParsedExpr(right)
    case MapCall(receiver, _, callback, whole) =>
      receiver.binding.Tight? && !whole.binding.Comma? && ParsedCallback(callback)
    case Other(_, _) => true
  }

  predicate ParsedCallback(callback: Callback) {
    callback.Arrow? ==>
      && (callback.isExpression ==> |callback.body| == 1 && callback.body[0].ExprStmt?)
      && (callback.param.Some? ==> IsKey(callback.param.value))
      && (ItemJsx(callback).None? ==> forall s :: s in callback.body ==> !YieldsJsx(s))
      && ParsedBody(callback.body)
  }

  predicate YieldsJsx(stmt: BodyStmt) {
    match stmt
    case ExprStmt(expr) => IsJsx(expr)
    case ReturnStmt(argument) => argument.Some? && IsJsx(argument.value)
    case OtherStmt => false
  }

  predicate ParsedBody(body: seq<BodyStmt>) {
    body == [] || (ParsedStmt(body[0]) && ParsedBody(body[1..]))
  }

  predicate ParsedStmt(stmt: BodyStmt) {
    match stmt
    case ExprStmt(expr) => ParsedExpr(expr)
    case ReturnStmt(argument) => argument.Some? ==> ParsedExpr(argument.value)
    case OtherStmt => true
  }

  // ---- when the emitted text reads as it was written ----

  predicate IsReadableProp(attr: Attr) {
    match attr
    case SpreadAttr(slice) => !slice.binding.Comma?
    case Attr(name, value) =>
      value.BracedNothing? || value.BracedJsx?
      || (IsKey(name) && (BracedSlice(value).Some? ==> !BracedSlice(value).value.binding.Comma?))
  }

  /**
   Quoted attributes of DOM elements hold no carriage return, values of boolean
   attributes bind tighter than `?`, raw HTML values bind tighter than `+`, props
   of components have identifier names, and nothing handed to a helper or as a
   prop is a comma expression.
   */
  predicate IsReadableElement(e: Element) {
    if IsComponentTag(e.tag) then (forall a :: a in e.attrs ==> IsReadableProp(a)) && AreReadableChildren(e.children)
    else
      && IsReadableAttrs(e.attrs)
      && (HasNoEndTag(e.tag)
          || (if RawContentOf(e.attrs).NoRaw? then AreReadableChildren(e.children)
              else RawContentOf(e.attrs).RawValue? ==> RawContentOf(e.attrs).slice.binding.Tight?))
  }

  predicate AreReadableChildren(children: seq<Child>) {
    children == [] || (IsReadableChild(children[0]) && AreReadableChildren(children[1..]))
  }

  predicate IsReadableChild(child: Child) {
    match child
    case Hole(expr) => expr.Some? ==> IsReadableHole(expr.value)
    case ElementChild(e) => IsReadableElement(e)
    case FragmentChild(children) => AreReadableChildren(children)
    case _ => true
  }

  predicate IsReadableHole(expr: Expr) {
    match expr
    case Conditional(_, yes, no, _) => IsReadableNode(yes) && IsReadableNode(no)
    case And(_, right, _) => IsReadableNode(right)
    case MapCall(_, _, callback, _) => IsReadableCallback(callback)
    case Other(whole, _) => !whole.binding.Comma?
    case _ => true
  }

  predicate IsReadableCallback(callback: Callback) {
    callback.Arrow? && ItemJsx(callback).Some? ==> IsReadableStmt(callback.body[0])
  }

  predicate IsReadableStmt(stmt: BodyStmt) {
    match stmt
    case ExprStmt(expr) => IsReadableNode(expr)
    case ReturnStmt(argument) => argument.Some? ==> IsReadableNode(argument.value)
    case OtherStmt => true
  }

  predicate IsReadableNode(expr: Expr) {
    match expr
    case JsxElement(e, _) => IsReadableElement(e)
    case JsxFragment(children, _) => AreReadableChildren(children)
    case Paren(inner, _, _) => IsReadableNode(inner)
    case Conditional(_, yes, no, _) => IsReadableNode(yes) && IsReadableNode(no)
    case And(_, right, _) => IsReadableNode(right)
    case Other(whole, _) => !whole.binding.Comma?
    case _ => true
  }

  // ---- sums of parts ----

  function All(ks: seq<Option<Chain>>): Option<Chain> {
    if ks == [] then Some(End) else Both(ks[0], All(ks[1..]))
  }

  ghost predicate PartsAre(parts: seq<Code>, ks: seq<Option<Chain>>) {
    |parts| == |ks| && forall i :: 0 <= i < |parts| ==> ChainIs(parts[i], ks[i])
  }

  lemma NoTextIs(k: Option<Chain>)
    requires ChainIs(NoText(), k)
    ensures k == Some(End)
  {
    EmptyLiteral();
    assert ReadChain(NoText() + []) == Follow(k, ReadMore([])) == Follow(Some(End), ReadMore([]));
    assert ReadMore([]) == Got(End, []);
    if k.Some? {
      AppendEnd(k.value);
    }
  }

  lemma {:induction false} SilentParts(parts: seq<Code>, ks: seq<Option<Chain>>)
    requires PartsAre(parts, ks) && Loud(parts) == []
    ensures All(ks) == Some(End)
  {
    if parts != [] {
      NoTextIs(ks[0]);
      SilentParts(parts[1..], ks[1..]);
    }
  }

  lemma {:induction false} LoudReads(parts: seq<Code>, ks: seq<Option<Chain>>)
    requires PartsAre(parts, ks) && Loud(parts) != []
    ensures ChainIs(Joined(Loud(parts), Tx(" + ")), All(ks))
  {
    if parts[0] == NoText() {
      NoTextIs(ks[0]);
      LoudReads(parts[1..], ks[1..]);
      assert Both(Some(End), All(ks[1..])) == All(ks[1..]);
    } else if Loud(parts[1..]) == [] {
      SilentParts(parts[1..], ks[1..]);
      if ks[0].Some? {
        AppendEnd(ks[0].value);
      }
      assert Loud(parts) == [parts[0]];
    } else {
      LoudReads(parts[1..], ks[1..]);
      PlusChains(parts[0], ks[0], Joined(Loud(parts[1..]), Tx(" + ")), All(ks[1..]));
      assert Loud(parts)[1..] == Loud(parts[1..]);
    }
  }

  lemma SumReads(parts: seq<Code>, ks: seq<Option<Chain>>)
    requires PartsAre(parts, ks)
    ensures ChainIs(Sum(parts), All(ks))
  {
    if Loud(parts) == [] {
      SilentParts(parts, ks);
      EmptyLiteral();
    } else {
      LoudReads(parts, ks);
    }
  }

  lemma LoudIsLoud(parts: seq<Code>)
    requires forall p :: p in parts ==> IsOperandStart(p)
    ensures Sum(parts) == NoText() <==> Loud(parts) == []
  {
    var loud := Loud(parts);
    if loud != [] {
      LoudMembers(parts, loud[0]);
      if |loud| > 1 {
        assert |Joined(loud, Tx(" + "))| > 2;
      }
    }
  }

  lemma {:induction false} LoudMembers(parts: seq<Code>, x: Code)
    ensures x in Loud(parts) ==> x in parts && x != NoText()
  {
    if parts != [] {
      LoudMembers(parts[1..], x);
    }
  }

  lemma {:induction false} LoudStart(parts: seq<Code>)
    requires forall p :: p in parts ==> IsOperandStart(p)
    ensures Loud(parts) != [] ==> IsOperandStart(Joined(Loud(parts), Tx(" + ")))
  {
    if parts != [] {
      LoudStart(parts[1..]);
      if parts[0] != NoText() {
        assert parts[0] in parts;
        JoinedStart(Loud(parts), Tx(" + "));
      }
    }
  }

  // ---- markers ----

  function Surround(open: string, k: Option<Chain>, close: string): Option<Chain> {
    Both(Both(SomeChars(open), k), SomeChars(close))
  }

  lemma SurroundReads(open: string, x: Code, k: Option<Chain>, close: string)
    requires AllPlain(open) && AllPlain(close) && ChainIs(x, k)
    ensures ChainIs(Tx("'" + open + "'") + Tx(" + ") + x + Tx(" + ") + Tx("'" + close + "'"), Surround(open, k, close))
  {
    PlainChain(open);
    PlainChain(close);
    PlusChains(Tx("'" + open + "'"), SomeChars(open), x, k);
    PlusChains(Tx("'" + open + "'") + Tx(" + ") + x, Both(SomeChars(open), k), Tx("'" + close + "'"), SomeChars(close));
  }

  lemma EvalSurround<V>(w: World<V>, scope: map<string, V>, open: string, k: Chain, close: string)
    ensures Eval(w, scope, Surround(open, Some(k), close).value) == open + Eval(w, scope, k) + close
  {
    EvalAppend(w, scope, Append(Chars(open), k), Chars(close));
    EvalAppend(w, scope, Chars(open), k);
    EvalChars(w, scope, open);
    EvalChars(w, scope, close);
  }

  lemma MarkedReads(marker: string, x: Code, k: Option<Chain>)
    requires AllPlain(marker) && ChainIs(x, k)
    ensures ChainIs(Marked(marker, x), Surround("<!--" + marker + "-->", k, "<!--/" + marker + "-->"))
    ensures IsOperandStart(Marked(marker, x)) && Marked(marker, x) != NoText()
  {
    SurroundReads("<!--" + marker + "-->", x, k, "<!--/" + marker + "-->");
    assert Tx("'<!--" + marker + "-->'") == Tx("'" + ("<!--" + marker + "-->") + "'");
    assert Tx("'<!--/" + marker + "-->'") == Tx("'" + ("<!--/" + marker + "-->") + "'");
    assert Marked(marker, x)[1] == Ch('<');
  }

  lemma CallReads<V>(w: World<V>, helper: string, slice: Slice) returns (k: Option<Chain>)
    requires IsKey(helper) && helper[0] != 't'
    ensures ChainIs(CallText(helper, slice), k) && (k.Some? <==> !slice.binding.Comma?)
    ensures IsOperandStart(CallText(helper, slice)) && CallText(helper, slice) != NoText()
    ensures k.Some? ==> forall scope :: Eval(w, scope, k.value) == w.helper(helper, w.eval(slice.id, scope))
  {
    k := CallOp(helper, slice);
    CallChain(helper, slice);
    assert CallText(helper, slice)[0] == Ch(helper[0]);
    assert NoText()[0] == Ch('\'');
  }

  /** A pair of marker comments around what reads as `inner`. */
  lemma BracketReads<V>(w: World<V>, marker: string, x: Code, inner: Option<Chain>) returns (k: Option<Chain>)
    requires AllPlain(marker) && ChainIs(x, inner)
    ensures ChainIs(Marked(marker, x), k)
    ensures IsOperandStart(Marked(marker, x)) && Marked(marker, x) != NoText()
    ensures k.Some? <==> inner.Some?
    ensures k.Some? ==> forall scope :: Eval(w, scope, k.value) == Bracketed(marker, Eval(w, scope, inner.value))
  {
    MarkedReads(marker, x, inner);
    k := Surround("<!--" + marker + "-->", inner, "<!--/" + marker + "-->");
    forall scope: map<string, V> | inner.Some?
      ensures Eval(w, scope, k.value) == Bracketed(marker, Eval(w, scope, inner.value))
    {
      EvalSurround(w, scope, "<!--" + marker + "-->", inner.value, "<!--/" + marker + "-->");
    }
  }

  /** The markers around a reactive value, as the compiler spells them. */
  lemma ChildMarkers(x: Code)
    ensures Marked("child", x) == Tx("'<!--child-->'") + Tx(" + ") + x + Tx(" + ") + Tx("'<!--/child-->'")
    ensures AllPlain("child")
  {
    assert "'<!--" + "child" + "-->'" == "'<!--child-->'";
    assert "'<!--/" + "child" + "-->'" == "'<!--/child-->'";
  }

  lemma ReactiveReads<V>(w: World<V>, slice: Slice) returns (k: Option<Chain>)
    ensures var text := SimpleText(slice, false, true);
      ChainIs(text, k) && (k.Some? <==> !slice.binding.Comma?) && IsOperandStart(text) && text != NoText()
    ensures k.Some? ==> forall scope :: Eval(w, scope, k.value) == Bracketed("child", Escaped(w, scope, slice))
  {
    var x := CallText("__esc", slice);
    var inner := CallReads(w, "__esc", slice);
    ChildMarkers(x);
    k := BracketReads(w, "child", x, inner);
  }

  lemma SimpleReads<V>(w: World<V>, slice: Slice, raw: bool, reactive: bool) returns (k: Option<Chain>)
    ensures ChainIs(SimpleText(slice, raw, reactive), k) && (k.Some? <==> !slice.binding.Comma?)
    ensures IsOperandStart(SimpleText(slice, raw, reactive)) && SimpleText(slice, raw, reactive) != NoText()
    ensures k.Some? ==> forall scope :: Eval(w, scope, k.value) == RenderSimple(w, scope, slice, raw, reactive)
  {
    if raw {
      k := CallReads(w, "String", slice);
    } else if reactive {
      k := ReactiveReads(w, slice);
    } else {
      k := CallReads(w, "__esc", slice);
    }
  }

  // ---- component props ----

  function AllProps(ps: seq<Option<Prop>>): Option<seq<Prop>> {
    if ps == [] then Some([]) else Cons(ps[0], AllProps(ps[1..]))
  }

  ghost predicate EntriesAre(entries: seq<Code>, ps: seq<Option<Prop>>) {
    |entries| == |ps| && forall i :: 0 <= i < |entries| ==> PropIs(entries[i], ps[i])
  }

  lemma {:induction false} EntriesRead(entries: seq<Code>, ps: seq<Option<Prop>>)
    requires EntriesAre(entries, ps) && entries != []
    ensures PropsAre(Joined(entries, Tx(", ")), AllProps(ps))
  {
    if |entries| == 1 {
      LastProp(entries[0], ps[0]);
      assert AllProps(ps[1..]) == Some([]);
    } else {
      EntriesRead(entries[1..], ps[1..]);
      MoreProps(entries[0], ps[0], Joined(entries[1..], Tx(", ")), AllProps(ps[1..]));
    }
  }

  lemma {:induction false} AllPropsLast(ps: seq<Option<Prop>>, p: Option<Prop>)
    ensures AllProps(ps + [p]) == if AllProps(ps).None? || p.None? then None else Some(AllProps(ps).value + [p.value])
  {
    if ps == [] {
      assert [] + [p] == [p];
      assert [p][1..] == [];
      if p.Some? {
        assert [p.value] + [] == [] + [p.value];
      }
    } else {
      assert (ps + [p])[1..] == ps[1..] + [p];
      AllPropsLast(ps[1..], p);
      if AllProps(ps).Some? && p.Some? {
        assert [ps[0].value] + (AllProps(ps[1..]).value + [p.value]) == AllProps(ps).value + [p.value];
      }
    }
  }

  lemma {:induction false} EvalPropsAppend<V>(w: World<V>, scope: map<string, V>, a: seq<Prop>, b: seq<Prop>)
    ensures EvalProps(w, scope, a + b) == EvalProps(w, scope, a) + EvalProps(w, scope, b)
  {
    if a == [] {
      assert a + b == b;
    } else {
      assert (a + b)[1..] == a[1..] + b;
      EvalPropsAppend(w, scope, a[1..], b);
    }
  }

  /** One attribute of a component gives at most one property. */
  lemma EntryReads<V>(w: World<V>, attr: Attr) returns (p: Option<Prop>)
    requires attr.Attr? ==> IsAttrName(attr.name)
    ensures |PropEntry(attr)| <= 1
    ensures PropEntry(attr) != [] ==> PropIs(PropEntry(attr)[0], p)
    ensures PropEntry(attr) == [] ==> IsReadableProp(attr) && forall scope :: RenderProp(w, scope, attr) == []
    ensures PropEntry(attr) != [] ==> (p.Some? <==> IsReadableProp(attr))
    ensures PropEntry(attr) != [] && p.Some? ==>
      forall scope :: RenderProp(w, scope, attr) == [EvalProp(w, scope, p.value)]
  {
    match attr {
      case SpreadAttr(slice) =>
        p := if slice.binding.Comma? then None else Some(Spread(slice));
        SpreadProp(slice);
      case Attr(name, value) =>
        match value {
          case Quoted(text) =>
            var x := Tx("'") + Tx(EscapeStringLiteral(text)) + Tx("'");
            EscapedStringReads(text);
            QuotedChain(Tx(EscapeStringLiteral(text)), SomeChars(text));
            ContentProp(name, x, SomeChars(text));
            p := Keyed(name, Holding(name, SomeChars(text)));
            assert Tx(name + ": ") + x == Tx(name + ": '" + EscapeStringLiteral(text) + "'");
            forall scope: map<string, V> { EvalChars(w, scope, text); }
          case NoValue =>
            p := Keyed(name, Some(Flag(name)));
            FlagProp(name);
          case Braced(slice) =>
            p := GivenKeyed(name, slice);
            GivenProp(name, slice);
          case BracedObject(_, slice) =>
            p := GivenKeyed(name, slice);
            GivenProp(name, slice);
          case BracedNothing => p := None;
          case BracedJsx => p := None;
        }
    }
  }

  lemma {:induction false} EntryListReads<V>(w: World<V>, attrs: seq<Attr>) returns (ps: seq<Option<Prop>>)
    requires NamedAttrs(attrs)
    ensures EntriesAre(PropEntries(attrs), ps)
    ensures AllProps(ps).Some? <==> forall a :: a in attrs ==> IsReadableProp(a)
    ensures AllProps(ps).Some? ==>
      forall scope :: EvalProps(w, scope, AllProps(ps).value) == RenderProps(w, scope, attrs)
  {
    if attrs == [] {
      ps := [];
    } else {
      var p := EntryReads(w, attrs[0]);
      var more := EntryListReads(w, attrs[1..]);
      assert attrs == [attrs[0]] + attrs[1..];
      if PropEntry(attrs[0]) == [] {
        ps := more;
        assert PropEntries(attrs) == PropEntries(attrs[1..]);
        forall scope: map<string, V> ensures RenderProps(w, scope, attrs) == RenderProps(w, scope, attrs[1..]) {
          assert [] + RenderProps(w, scope, attrs[1..]) == RenderProps(w, scope, attrs[1..]);
        }
      } else {
        ps := [p] + more;
        EntryFirst(attrs, p, more);
        forall scope: map<string, V> | AllProps(ps).Some?
          ensures EvalProps(w, scope, AllProps(ps).value) == RenderProps(w, scope, attrs)
        {
          assert EvalProps(w, scope, AllProps(ps).value)
            == [EvalProp(w, scope, p.value)] + EvalProps(w, scope, AllProps(more).value);
        }
      }
    }
  }

  lemma EntryFirst(attrs: seq<Attr>, p: Option<Prop>, more: seq<Option<Prop>>)
    requires attrs != [] && |PropEntry(attrs[0])| == 1 && PropIs(PropEntry(attrs[0])[0], p)
    requires EntriesAre(PropEntries(attrs[1..]), more)
    ensures EntriesAre(PropEntries(attrs), [p] + more)
    ensures AllProps([p] + more).Some? <==> p.Some? && AllProps(more).Some?
    ensures AllProps([p] + more).Some? ==>
      var all := AllProps([p] + more).value; all != [] && all[0] == p.value && all[1..] == AllProps(more).value
  {
    var ps := [p] + more;
    assert PropEntries(attrs) == [PropEntry(attrs[0])[0]] + PropEntries(attrs[1..]);
    assert ps[1..] == more;
  }

  // ---- raw HTML ----

  lemma PlusInner(x: Code, a: Option<Chain>, y: Code, b: Option<Chain>)
    requires InnerIs(x, a) && InnerIs(y, b)
    ensures InnerIs(x + Tx(" + ") + y, Both(a, b))
  {
    forall rest: Code
      ensures ReadChain(x + Tx(" + ") + y + (Tx(" + ") + rest)) == Follow(Both(a, b), ReadChain(rest))
    {
      PlusText(x, y, Tx(" + ") + rest);
      FollowBoth(a, b, ReadChain(rest));
    }
  }

  lemma PlusText(x: Code, y: Code, rest: Code)
    ensures x + Tx(" + ") + y + rest == x + (Tx(" + ") + (y + rest))
  {
  }

  function RawReading(raw: RawContent): Option<Chain> {
    match raw
    case NoRaw => Some(End)
    case RawValue(slice) => if slice.binding.Tight? then One(Bare(slice)) else None
    case RawHtmlOf(slice) => One(Html(slice))
    case RawText(text) => SomeChars(text)
  }

  lemma {:induction false} DangerousReads(attrs: seq<Attr>)
    ensures ExtractDangerousHtml(attrs).Some? <==> !DangerousContent(attrs).NoRaw?
    ensures ExtractDangerousHtml(attrs).Some? ==>
      InnerIs(ExtractDangerousHtml(attrs).value, RawReading(DangerousContent(attrs)))
  {
    if attrs != [] {
      if attrs[0].SpreadAttr? || attrs[0].name != "dangerouslySetInnerHTML"
         || !(attrs[0].value.Braced? || attrs[0].value.BracedObject?) {
        DangerousReads(attrs[1..]);
      } else if attrs[0].value.BracedObject? && attrs[0].value.html.Some? {
        BareInner(attrs[0].value.html.value);
      } else {
        HtmlChain(attrs[0].value.slice);
        ChainInner(Tx("(") + [Src(attrs[0].value.slice)] + Tx(").__html"), One(Html(attrs[0].value.slice)));
      }
    }
  }

  lemma {:induction false} InnerHtmlReads(attrs: seq<Attr>)
    ensures ExtractInnerHtml(attrs).Some? <==> !InnerContent(attrs).NoRaw?
    ensures ExtractInnerHtml(attrs).Some? ==>
      InnerIs(ExtractInnerHtml(attrs).value, RawReading(InnerContent(attrs)))
  {
    if attrs != [] {
      if attrs[0].SpreadAttr? || attrs[0].name != "innerHTML"
         || !(attrs[0].value.Braced? || attrs[0].value.BracedObject? || attrs[0].value.Quoted?) {
        InnerHtmlReads(attrs[1..]);
      } else if attrs[0].value.Quoted? {
        var text := attrs[0].value.text;
        EscapedStringReads(text);
        QuotedChain(Tx(EscapeStringLiteral(text)), SomeChars(text));
        var x := Tx("'") + Tx(EscapeStringLiteral(text)) + Tx("'");
        assert x == Tx("'" + EscapeStringLiteral(text) + "'");
        ChainInner(x, SomeChars(text));
      } else {
        BareInner(attrs[0].value.slice);
      }
    }
  }

  lemma RawReads<V>(w: World<V>, attrs: seq<Attr>) returns (k: Option<Chain>)
    ensures RawHtml(attrs).Some? <==> !RawContentOf(attrs).NoRaw?
    ensures RawHtml(attrs).Some? ==>
      && InnerIs(RawHtml(attrs).value, k)
      && (k.Some? <==> (RawContentOf(attrs).RawValue? ==> RawContentOf(attrs).slice.binding.Tight?))
      && (k.Some? ==> forall scope :: Eval(w, scope, k.value) == RenderRaw(w, scope, RawContentOf(attrs)))
  {
    DangerousReads(attrs);
    InnerHtmlReads(attrs);
    var raw := RawContentOf(attrs);
    k := RawReading(raw);
    forall scope: map<string, V> | k.Some? ensures Eval(w, scope, k.value) == RenderRaw(w, scope, raw) {
      if raw.RawText? {
        EvalChars(w, scope, raw.text);
      }
    }
  }

  // ---- the tree ----

  ghost predicate HidOk(hid: Option<string>) {
    hid.Some? ==> AllPlain(hid.value)
  }

  /** An opening tag, content and a closing tag, side by side. */
  lemma ElementFrame<V>(w: World<V>, open: Code, a: Option<Chain>, inner: Code, b: Option<Chain>, tag: string)
    returns (k: Option<Chain>)
    requires AllPlain(tag) && ChainIs(open, a) && InnerIs(inner, b)
    ensures ChainIs(open + Tx(" + ") + inner + Tx(" + ") + Tx("'</" + tag + ">'"), k)
    ensures k.Some? <==> a.Some? && b.Some?
    ensures k.Some? ==> forall scope ::
      Eval(w, scope, k.value) == Eval(w, scope, a.value) + Eval(w, scope, b.value) + "</" + tag + ">"
  {
    var close := "</" + tag + ">";
    k := Both(Both(a, b), SomeChars(close));
    FrameReads(open, a, inner, b, close);
    CloseText(tag);
    forall scope: map<string, V> | k.Some?
      ensures Eval(w, scope, k.value) == Eval(w, scope, a.value) + Eval(w, scope, b.value) + "</" + tag + ">"
    {
      FrameEval(w, scope, a.value, b.value, close);
      CloseAfter(Eval(w, scope, a.value) + Eval(w, scope, b.value), tag);
    }
  }

  lemma CloseText(tag: string)
    ensures Tx("'" + ("</" + tag + ">") + "'") == Tx("'</" + tag + ">'")
  {
    assert "'" + ("</" + tag + ">") + "'" == "'</" + tag + ">'";
  }

  lemma CloseAfter(x: string, tag: string)
    ensures x + ("</" + tag + ">") == x + "</" + tag + ">"
  {
  }

  lemma FrameReads(open: Code, a: Option<Chain>, inner: Code, b: Option<Chain>, close: string)
    requires AllPlain(close) && ChainIs(open, a) && InnerIs(inner, b)
    ensures ChainIs(open + Tx(" + ") + inner + Tx(" + ") + Tx("'" + close + "'"), Both(Both(a, b), SomeChars(close)))
  {
    ChainInner(open, a);
    PlusInner(open, a, inner, b);
    PlainChain(close);
    PlusChain(open + Tx(" + ") + inner, Both(a, b), Tx("'" + close + "'"), SomeChars(close));
  }

  lemma FrameEval<V>(w: World<V>, scope: map<string, V>, a: Chain, b: Chain, close: string)
    ensures Eval(w, scope, Append(Append(a, b), Chars(close))) == Eval(w, scope, a) + Eval(w, scope, b) + close
  {
    EvalAppend(w, scope, Append(a, b), Chars(close));
    EvalAppend(w, scope, a, b);
    EvalChars(w, scope, close);
  }

  lemma {:induction false} ElementReads<V>(w: World<V>, e: Element, rx: bool, hid: Option<string>)
    returns (k: Option<Chain>)
    requires ParsedElement(e) && HidOk(hid)
    ensures ChainIs(ElementText(e, rx, hid), k)
    ensures IsOperandStart(ElementText(e, rx, hid)) && ElementText(e, rx, hid) != NoText()
    ensures k.Some? <==> IsReadableElement(e)
    ensures k.Some? ==> forall scope :: Eval(w, scope, k.value) == RenderElement(w, scope, e, rx, hid)
    decreases e, 3
  {
    if IsComponentTag(e.tag) {
      k := ComponentReads(w, e);
    } else {
      var attrStr := BuildAttrString(AttrsText(e.attrs), Tx(HydrationAttr(hid)));
      var a := OpenTagReads(w, e.tag, e.attrs, hid);
      if HasNoEndTag(e.tag) {
        k := a;
        TagStart(e.tag, attrStr, []);
      } else {
        var inner, b := InsideReads(w, e, rx);
        k := ElementFrame(w, Tx("'<" + e.tag) + attrStr + Tx(">'"), a, inner, b, e.tag);
        TagStart(e.tag, attrStr, Tx(" + ") + inner + Tx(" + ") + Tx("'</" + e.tag + ">'"));
        EndTagLast(Tx("'<" + e.tag) + attrStr + Tx(">'"), inner, Tx("'</" + e.tag + ">'"));
      }
    }
  }

  lemma EndTagLast(open: Code, inner: Code, close: Code)
    ensures open + Tx(" + ") + inner + Tx(" + ") + close == open + (Tx(" + ") + inner + Tx(" + ") + close)
  {
  }

  /** The text of an element starts like a literal, and not like an empty one. */
  lemma TagStart(tag: string, attrStr: Code, rest: Code)
    ensures var text := Tx("'<" + tag) + attrStr + Tx(">'") + rest;
      IsOperandStart(text) && text != NoText()
    ensures Tx("'<" + tag) + attrStr + Tx(">'") + [] == Tx("'<" + tag) + attrStr + Tx(">'")
  {
    var text := Tx("'<" + tag) + attrStr + Tx(">'") + rest;
    assert text[0] == Ch('\'') && text[1] == Ch('<');
  }

  /** What stands between the tags: raw HTML, or the children. */
  lemma {:induction false} InsideReads<V>(w: World<V>, e: Element, rx: bool) returns (inner: Code, k: Option<Chain>)
    requires ParsedElement(e) && !IsComponentTag(e.tag) && !HasNoEndTag(e.tag)
    ensures inner == if RawHtml(e.attrs).Some? then RawHtml(e.attrs).value
      else Sum(Parts(e.children, rx, IsRawTextElement(e.tag), None))
    ensures InnerIs(inner, k)
    ensures k.Some?
       <==> if RawContentOf(e.attrs).NoRaw? then AreReadableChildren(e.children)
            else RawContentOf(e.attrs).RawValue? ==> RawContentOf(e.attrs).slice.binding.Tight?
    ensures k.Some? ==> forall scope ::
      Eval(w, scope, k.value)
      == if RawContentOf(e.attrs).NoRaw? then RenderChildren(w, scope, e.children, rx, HoldsRawText(e.tag), None)
         else RenderRaw(w, scope, RawContentOf(e.attrs))
    decreases e, 2
  {
    var raw := RawReads(w, e.attrs);
    if RawHtml(e.attrs).Some? {
      inner, k := RawHtml(e.attrs).value, raw;
    } else {
      var ks := ChildrenRead(w, e.children, rx, HoldsRawText(e.tag), None);
      var parts := Parts(e.children, rx, IsRawTextElement(e.tag), None);
      SumReads(parts, ks);
      inner, k := Sum(parts), All(ks);
      ChainInner(inner, k);
    }
  }

  lemma {:induction false} ComponentReads<V>(w: World<V>, e: Element) returns (k: Option<Chain>)
    requires ParsedElement(e) && IsComponentTag(e.tag)
    ensures ChainIs(ComponentText(e), k)
    ensures IsOperandStart(ComponentText(e)) && ComponentText(e) != NoText()
    ensures k.Some? <==> IsReadableElement(e)
    ensures k.Some? ==> forall scope :: Eval(w, scope, k.value) == w.component(e.tag, ComponentProps(w, scope, e))
    decreases e, 2
  {
    var ks := ChildrenRead(w, e.children, false, false, None);
    var parts := Parts(e.children, false, false, None);
    var ps := EntryListReads(w, e.attrs);
    var entries := PropEntries(e.attrs);
    k := ComponentFrame(w, e.tag, entries, ps, parts, ks);
    forall scope: map<string, V> | k.Some?
      ensures Eval(w, scope, k.value) == w.component(e.tag, ComponentProps(w, scope, e))
    {
      assert AllSilent(e.children) <==> Loud(parts) == [];
    }
  }

  /** A component call from its entries and its children's parts. */
  lemma ComponentFrame<V>(w: World<V>, tag: string, entries: seq<Code>, ps: seq<Option<Prop>>,
                          parts: seq<Code>, ks: seq<Option<Chain>>) returns (k: Option<Chain>)
    requires IsKey(tag) && EntriesAre(entries, ps) && PartsAre(parts, ks)
    requires forall p :: p in parts ==> IsOperandStart(p)
    ensures var loud := Loud(parts);
            var all := entries + if loud == [] then [] else [Tx("children: ") + Joined(loud, Tx(" + "))];
            var props := if all == [] then Tx("{}") else Tx("{ ") + Joined(all, Tx(", ")) + Tx(" }");
            ChainIs(Tx("__ssr_" + tag + "(") + props + Tx(")"), k)
    ensures k.Some? <==> AllProps(ps).Some? && All(ks).Some?
    ensures k.Some? ==> forall scope ::
      Eval(w, scope, k.value)
      == w.component(tag, EvalProps(w, scope, AllProps(ps).value)
                          + if Loud(parts) == [] then [] else [ContentValue("children", Eval(w, scope, All(ks).value))])
  {
    if Loud(parts) == [] {
      SilentParts(parts, ks);
      assert entries + [] == entries;
      k := PropsFrame(w, tag, entries, ps);
      forall scope: map<string, V> | k.Some?
        ensures Eval(w, scope, k.value) == w.component(tag, EvalProps(w, scope, AllProps(ps).value) + [])
      {
        assert EvalProps(w, scope, AllProps(ps).value) + [] == EvalProps(w, scope, AllProps(ps).value);
      }
    } else {
      k := ContentFrame(w, tag, entries, ps, parts, ks);
    }
  }

  lemma ContentFrame<V>(w: World<V>, tag: string, entries: seq<Code>, ps: seq<Option<Prop>>,
                        parts: seq<Code>, ks: seq<Option<Chain>>) returns (k: Option<Chain>)
    requires IsKey(tag) && EntriesAre(entries, ps) && PartsAre(parts, ks)
    requires forall p :: p in parts ==> IsOperandStart(p)
    requires Loud(parts) != []
    ensures var all := entries + [Tx("children: ") + Joined(Loud(parts), Tx(" + "))];
            ChainIs(Tx("__ssr_" + tag + "(") + (Tx("{ ") + Joined(all, Tx(", ")) + Tx(" }")) + Tx(")"), k)
    ensures k.Some? <==> AllProps(ps).Some? && All(ks).Some?
    ensures k.Some? ==> forall scope ::
      Eval(w, scope, k.value)
      == w.component(tag, EvalProps(w, scope, AllProps(ps).value)
                          + [ContentValue("children", Eval(w, scope, All(ks).value))])
  {
    var p := ContentReads(parts, ks);
    var entry := Tx("children: ") + Joined(Loud(parts), Tx(" + "));
    AllPropsLast(ps, p);
    k := PropsFrame(w, tag, entries + [entry], ps + [p]);
    forall scope: map<string, V> | k.Some?
      ensures Eval(w, scope, k.value)
           == w.component(tag, EvalProps(w, scope, AllProps(ps).value)
                               + [ContentValue("children", Eval(w, scope, All(ks).value))])
    {
      LastPropValue(w, scope, AllProps(ps).value, p.value);
    }
  }

  lemma LastPropValue<V>(w: World<V>, scope: map<string, V>, ps: seq<Prop>, p: Prop)
    ensures EvalProps(w, scope, ps + [p]) == EvalProps(w, scope, ps) + [EvalProp(w, scope, p)]
  {
    EvalPropsAppend(w, scope, ps, [p]);
    assert EvalProps(w, scope, [p]) == [EvalProp(w, scope, p)];
  }

  lemma ContentReads(parts: seq<Code>, ks: seq<Option<Chain>>) returns (p: Option<Prop>)
    requires PartsAre(parts, ks) && Loud(parts) != []
    requires forall x :: x in parts ==> IsOperandStart(x)
    ensures PropIs(Tx("children: ") + Joined(Loud(parts), Tx(" + ")), p)
    ensures p == Holding("children", All(ks))
  {
    LoudReads(parts, ks);
    LoudStart(parts);
    ContentProp("children", Joined(Loud(parts), Tx(" + ")), All(ks));
    assert "children" + ": " == "children: ";
    p := Holding("children", All(ks));
  }

  lemma PropsFrame<V>(w: World<V>, tag: string, entries: seq<Code>, ps: seq<Option<Prop>>) returns (k: Option<Chain>)
    requires IsKey(tag) && EntriesAre(entries, ps)
    ensures var props := if entries == [] then Tx("{}") else Tx("{ ") + Joined(entries, Tx(", ")) + Tx(" }");
            ChainIs(Tx("__ssr_" + tag + "(") + props + Tx(")"), k)
    ensures k.Some? <==> AllProps(ps).Some?
    ensures k.Some? ==> forall scope ::
      Eval(w, scope, k.value) == w.component(tag, EvalProps(w, scope, AllProps(ps).value))
  {
    k := Built(tag, AllProps(ps));
    if entries == [] {
      EmptyComponent(tag);
    } else {
      EntriesRead(entries, ps);
      PropsComponent(tag, Joined(entries, Tx(", ")), AllProps(ps));
    }
    forall scope: map<string, V> | k.Some?
      ensures Eval(w, scope, k.value) == w.component(tag, EvalProps(w, scope, AllProps(ps).value))
    {
      var s := EvalOperand(w, scope, k.value.op);
      assert Eval(w, scope, k.value) == s + "" == s;
    }
  }

  lemma PartFirst(part: Code, k: Option<Chain>, parts: seq<Code>, more: seq<Option<Chain>>)
    requires ChainIs(part, k) && PartsAre(parts, more)
    ensures PartsAre([part] + parts, [k] + more)
    ensures All([k] + more) == if k.None? || All(more).None? then None else Some(Append(k.value, All(more).value))
    ensures Loud([part] + parts) == [] <==> part == NoText() && Loud(parts) == []
  {
    assert ([part] + parts)[1..] == parts && ([k] + more)[1..] == more;
  }

  lemma {:induction false} ChildrenRead<V>(w: World<V>, children: seq<Child>, rx: bool, raw: bool, hid: Option<string>)
    returns (ks: seq<Option<Chain>>)
    requires ParsedChildren(children) && HidOk(hid)
    ensures PartsAre(Parts(children, rx, raw, hid), ks)
    ensures forall p :: p in Parts(children, rx, raw, hid) ==> IsOperandStart(p)
    ensures Loud(Parts(children, rx, raw, hid)) == [] <==> AllSilent(children)
    ensures All(ks).Some? <==> AreReadableChildren(children)
    ensures All(ks).Some? ==>
      forall scope :: Eval(w, scope, All(ks).value) == RenderChildren(w, scope, children, rx, raw, hid)
    decreases children, 2
  {
    if children == [] {
      ks := [];
    } else {
      var own := if TakesHydrationId(children[0]) then hid else None;
      var later := if TakesHydrationId(children[0]) then None else hid;
      var k := ChildReads(w, children[0], rx, raw, own);
      var more := ChildrenRead(w, children[1..], rx, raw, later);
      ks := [k] + more;
      PartFirst(ChildText(children[0], rx, raw, own), k, Parts(children[1..], rx, raw, later), more);
      assert Parts(children, rx, raw, hid)
        == [ChildText(children[0], rx, raw, own)] + Parts(children[1..], rx, raw, later);
      if All(ks).Some? {
        JoinedRender(w, children, rx, raw, hid, k.value, All(more).value);
      }
    }
  }

  lemma JoinedRender<V>(w: World<V>, children: seq<Child>, rx: bool, raw: bool, hid: Option<string>, k: Chain,
                        more: Chain)
    requires children != []
    requires var takes := TakesHydrationId(children[0]);
      && (forall scope ::
            Eval(w, scope, k) == RenderChild(w, scope, children[0], rx, raw, if takes then hid else None))
      && (forall scope ::
            Eval(w, scope, more) == RenderChildren(w, scope, children[1..], rx, raw, if takes then None else hid))
    ensures forall scope :: Eval(w, scope, Append(k, more)) == RenderChildren(w, scope, children, rx, raw, hid)
  {
    forall scope: map<string, V>
      ensures Eval(w, scope, Append(k, more)) == RenderChildren(w, scope, children, rx, raw, hid)
    {
      EvalAppend(w, scope, k, more);
    }
  }

  lemma {:induction false} FragmentReads<V>(w: World<V>, children: seq<Child>, rx: bool, hid: Option<string>)
    returns (k: Option<Chain>)
    requires ParsedChildren(children) && HidOk(hid)
    ensures ChainIs(FragmentText(children, rx, hid), k)
    ensures IsOperandStart(FragmentText(children, rx, hid))
    ensures FragmentText(children, rx, hid) == NoText() <==> AllSilent(children)
    ensures k.Some? <==> AreReadableChildren(children)
    ensures k.Some? ==> forall scope :: Eval(w, scope, k.value) == RenderChildren(w, scope, children, rx, false, hid)
    decreases children, 3
  {
    var ks := ChildrenRead(w, children, rx, false, hid);
    var parts := Parts(children, rx, false, hid);
    SumReads(parts, ks);
    LoudStart(parts);
    LoudIsLoud(parts);
    k := All(ks);
  }

  lemma {:induction false} ChildReads<V>(w: World<V>, child: Child, rx: bool, raw: bool, hid: Option<string>)
    returns (k: Option<Chain>)
    requires ParsedChild(child) && HidOk(hid)
    ensures ChainIs(ChildText(child, rx, raw, hid), k)
    ensures IsOperandStart(ChildText(child, rx, raw, hid))
    ensures ChildText(child, rx, raw, hid) == NoText() <==> IsSilent(child)
    ensures k.Some? <==> IsReadableChild(child)
    ensures k.Some? ==> forall scope :: Eval(w, scope, k.value) == RenderChild(w, scope, child, rx, raw, hid)
    decreases child, 4
  {
    EmptyLiteral();
    match child {
      case Text(text) =>
        k := TextReads(w, ServerClean(text));
      case Hole(expr) =>
        if expr.None? { k := Some(End); } else { k := HoleReads(w, expr.value, rx, raw); }
      case ElementChild(e) => k := ElementReads(w, e, rx, hid);
      case FragmentChild(children) => k := FragmentReads(w, children, rx, hid);
      case SpreadChild => k := Some(End);
    }
  }

  lemma QuotedText(s: string)
    ensures Tx("'") + Tx(s) + Tx("'") == Tx("'" + s + "'") && IsOperandStart(Tx("'" + s + "'"))
  {
    TxAppend("'", s);
    TxAppend("'" + s, "'");
  }

  lemma TextReads<V>(w: World<V>, text: string) returns (k: Option<Chain>)
    ensures var code := if text == "" then NoText() else Tx("'" + EscapeStringLiteral(text) + "'");
            ChainIs(code, k) && IsOperandStart(code) && (code == NoText() <==> text == "")
    ensures k.Some? && forall scope :: Eval(w, scope, k.value) == text
  {
    EmptyLiteral();
    k := SomeChars(text);
    if text != "" {
      EscapedStringReads(text);
      QuotedChain(Tx(EscapeStringLiteral(text)), k);
      QuotedText(EscapeStringLiteral(text));
      if Tx("'" + EscapeStringLiteral(text) + "'") == NoText() {
        NoTextIs(k);
      }
    }
    forall scope: map<string, V> { EvalChars(w, scope, text); }
  }

  lemma {:induction false} HoleReads<V>(w: World<V>, expr: Expr, rx: bool, raw: bool) returns (k: Option<Chain>)
    requires ParsedExpr(expr)
    ensures ChainIs(HoleText(expr, rx, raw), k)
    ensures IsOperandStart(HoleText(expr, rx, raw)) && HoleText(expr, rx, raw) != NoText()
    ensures k.Some? <==> IsReadableHole(expr)
    ensures k.Some? ==> forall scope :: Eval(w, scope, k.value) == RenderHole(w, scope, expr, rx, raw)
    decreases expr, 5
  {
    if expr.Conditional? {
      k := TernaryReads(w, expr, rx);
    } else if expr.And? {
      k := AndReads(w, expr, rx);
    } else if expr.MapCall? {
      k := MapReads(w, expr, rx);
    } else {
      k := SimpleReads(w, expr.whole, raw, rx && (expr.Paren? || expr.Other?) && expr.reactive);
    }
  }

  lemma {:induction false} NodeReads<V>(w: World<V>, expr: Expr, rx: bool) returns (k: Option<Chain>)
    requires ParsedExpr(expr)
    ensures ChainIs(NodeText(expr, rx), k)
    ensures k.Some? <==> IsReadableNode(expr)
    ensures k.Some? ==> forall scope :: Eval(w, scope, k.value) == RenderNode(w, scope, expr, rx)
    decreases expr, 4
  {
    match expr {
      case Paren(inner, _, _) => k := NodeReads(w, inner, rx);
      case JsxElement(e, _) => k := ElementReads(w, e, rx, None);
      case JsxFragment(children, _) => k := FragmentReads(w, children, rx, None);
      case Conditional(_, _, _, _) => k := TernaryReads(w, expr, rx);
      case And(_, _, _) => k := AndReads(w, expr, rx);
      case MapCall(_, _, _, whole) => k := CallReads(w, "__esc", whole);
      case Other(whole, _) => k := CallReads(w, "__esc", whole);
    }
  }

  lemma {:induction false} TernaryReads<V>(w: World<V>, expr: Expr, rx: bool) returns (k: Option<Chain>)
    requires expr.Conditional? && ParsedExpr(expr)
    ensures ChainIs(TernaryText(expr, rx), k)
    ensures IsOperandStart(TernaryText(expr, rx)) && TernaryText(expr, rx) != NoText()
    ensures k.Some? <==> IsReadableNode(expr)
    ensures k.Some? ==> forall scope :: Eval(w, scope, k.value) == RenderNode(w, scope, expr, rx)
    decreases expr, 3
  {
    var a := NodeReads(w, expr.consequent, rx);
    var b := NodeReads(w, expr.alternate, rx);
    k := ChoiceReads(w, expr.test, NodeText(expr.consequent, rx), a, NodeText(expr.alternate, rx), b);
  }

  /** A marked conditional over two branches. */
  lemma ChoiceReads<V>(w: World<V>, test: Slice, yes: Code, a: Option<Chain>, no: Code, b: Option<Chain>)
    returns (k: Option<Chain>)
    requires !test.binding.IsLoose() && ChainIs(yes, a) && ChainIs(no, b)
    ensures var text := Marked("conditional", Choice([Src(test)], yes, no));
            ChainIs(text, k) && IsOperandStart(text) && text != NoText()
    ensures k.Some? <==> a.Some? && b.Some?
    ensures k.Some? ==> forall scope ::
      Eval(w, scope, k.value)
      == Bracketed("conditional",
                   if w.truthy(w.eval(test.id, scope)) then Eval(w, scope, a.value) else Eval(w, scope, b.value))
  {
    ChoiceChain(test, yes, a, no, b);
    var inner := BranchOp(false, test, a, b);
    k := BracketReads(w, "conditional", Choice([Src(test)], yes, no), inner);
    forall scope: map<string, V> | inner.Some?
      ensures Eval(w, scope, inner.value)
           == if w.truthy(w.eval(test.id, scope)) then Eval(w, scope, a.value) else Eval(w, scope, b.value)
    {
      var s := if w.truthy(w.eval(test.id, scope)) then Eval(w, scope, a.value) else Eval(w, scope, b.value);
      assert Eval(w, scope, inner.value) == s + "" == s;
    }
  }

  lemma {:induction false} AndReads<V>(w: World<V>, expr: Expr, rx: bool) returns (k: Option<Chain>)
    requires expr.And? && ParsedExpr(expr)
    ensures ChainIs(AndText(expr, rx), k)
    ensures IsOperandStart(AndText(expr, rx)) && AndText(expr, rx) != NoText()
    ensures k.Some? <==> IsReadableNode(expr)
    ensures k.Some? ==> forall scope :: Eval(w, scope, k.value) == RenderNode(w, scope, expr, rx)
    decreases expr, 3
  {
    var a := NodeReads(w, expr.right, rx);
    EmptyLiteral();
    k := ChoiceReads(w, expr.left, NodeText(expr.right, rx), a, NoText(), Some(End));
  }

  // ---- lists ----

  lemma {:induction false} TryIsNode(expr: Expr, rx: bool)
    ensures TryJsxText(expr, rx) == if IsJsx(expr) then Some(NodeText(expr, rx)) else None
  {
    if expr.Paren? {
      TryIsNode(expr.inner, rx);
    }
  }

  lemma {:induction false} NoJsxFound(body: seq<BodyStmt>, wantReturn: bool, rx: bool)
    requires forall s :: s in body ==> !YieldsJsx(s)
    ensures FirstJsx(body, wantReturn, rx) == None
  {
    if body != [] {
      NoJsxFound(body[1..], wantReturn, rx);
      assert !YieldsJsx(body[0]);
      match body[0] {
        case ExprStmt(expr) => TryIsNode(expr, rx);
        case ReturnStmt(argument) => if argument.Some? { TryIsNode(argument.value, rx); }
        case OtherStmt =>
      }
    }
  }

  /** The compiler finds the callback's JSX exactly where running the callback would. */
  lemma CallbackFinds(callback: Callback, rx: bool)
    requires callback.Arrow? && ParsedCallback(callback)
    ensures CallbackText(callback, rx)
         == if ItemJsx(callback).None? then None else Some(NodeText(ItemJsx(callback).value, rx))
  {
    if ItemJsx(callback).None? {
      NoJsxFound(callback.body, false, rx);
      NoJsxFound(callback.body, true, rx);
    } else {
      var item := ItemJsx(callback).value;
      TryIsNode(item, rx);
      assert StmtText(callback.body[0], rx) == Some(NodeText(item, rx));
      assert FirstJsx(callback.body, !callback.isExpression, rx) == Some(NodeText(item, rx));
    }
  }

  lemma {:induction false} EachIsItem<V>(w: World<V>, scope: map<string, V>, param: string, body: Chain, item: Expr,
                                         items: seq<V>, i: nat, rx: bool)
    requires i <= |items|
    requires forall inner :: Eval(w, inner, body) == RenderNode(w, inner, item, rx)
    ensures EvalEach(w, scope, param, body, items, i) == RenderItems(w, scope, param, item, items, i, rx)
    decreases |items| - i
  {
    if i < |items| {
      EachIsItem(w, scope, param, body, item, items, i + 1, rx);
    }
  }

  /** A marked list over what reads as the item's body. */
  lemma ListReads<V>(w: World<V>, expr: Expr, rx: bool, body: Option<Chain>) returns (k: Option<Chain>)
    requires expr.MapCall? && ItemJsx(expr.callback).Some?
    requires IsKey(ItemName(expr.callback)) && expr.receiver.binding.Tight?
    requires CallbackText(expr.callback, rx) == Some(NodeText(ItemJsx(expr.callback).value, rx))
    requires ChainIs(NodeText(ItemJsx(expr.callback).value, rx), body)
    requires body.Some? ==>
      forall scope :: Eval(w, scope, body.value) == RenderNode(w, scope, ItemJsx(expr.callback).value, rx)
    ensures ChainIs(MapText(expr, rx), k)
    ensures IsOperandStart(MapText(expr, rx)) && MapText(expr, rx) != NoText()
    ensures k.Some? <==> body.Some?
    ensures k.Some? ==> forall scope :: Eval(w, scope, k.value) == RenderMap(w, scope, expr, rx)
  {
    var item := ItemJsx(expr.callback).value;
    var param := ItemName(expr.callback);
    MapChain(expr.receiver, expr.optional, param, NodeText(item, rx), body);
    var inner := ListOp(expr.receiver, expr.optional, param, body);
    var code := Caller(expr.receiver, expr.optional) + Tx(".map(" + param + " => ") + NodeText(item, rx)
      + Tx(").join('')");
    k := BracketReads(w, "list", code, inner);
    ListText(expr, rx, code);
    forall scope: map<string, V> | inner.Some?
      ensures Eval(w, scope, k.value) == RenderMap(w, scope, expr, rx)
    {
      ListValue(w, scope, expr, rx, body.value);
    }
  }

  lemma ListText(expr: Expr, rx: bool, code: Code)
    requires expr.MapCall? && ItemJsx(expr.callback).Some?
    requires CallbackText(expr.callback, rx) == Some(NodeText(ItemJsx(expr.callback).value, rx))
    requires code == Caller(expr.receiver, expr.optional) + Tx(".map(" + ItemName(expr.callback) + " => ")
                     + NodeText(ItemJsx(expr.callback).value, rx) + Tx(").join('')")
    ensures MapText(expr, rx) == Marked("list", code) && AllPlain("list")
  {
  }

  lemma ListValue<V>(w: World<V>, scope: map<string, V>, expr: Expr, rx: bool, body: Chain)
    requires expr.MapCall? && ItemJsx(expr.callback).Some?
    requires forall inner :: Eval(w, inner, body) == RenderNode(w, inner, ItemJsx(expr.callback).value, rx)
    ensures Bracketed("list",
                      Eval(w, scope, ListOp(expr.receiver, expr.optional, ItemName(expr.callback), Some(body)).value))
         == RenderMap(w, scope, expr, rx)
  {
    var param := ItemName(expr.callback);
    var op := MapJoin(expr.receiver, expr.optional, param, body);
    EachIsItem(w, scope, param, body, ItemJsx(expr.callback).value, w.items(w.eval(expr.receiver.id, scope)), 0, rx);
    var s := EvalOperand(w, scope, op);
    assert s + "" == s;
  }

  lemma ItemParsed(callback: Callback)
    requires ParsedCallback(callback) && ItemJsx(callback).Some?
    ensures ParsedExpr(ItemJsx(callback).value)
    ensures IsReadableCallback(callback) <==> IsReadableNode(ItemJsx(callback).value)
  {
    assert ParsedBody(callback.body);
    assert ParsedStmt(callback.body[0]);
  }

  lemma {:induction false} MapReads<V>(w: World<V>, expr: Expr, rx: bool) returns (k: Option<Chain>)
    requires expr.MapCall? && ParsedExpr(expr)
    ensures ChainIs(MapText(expr, rx), k)
    ensures IsOperandStart(MapText(expr, rx)) && MapText(expr, rx) != NoText()
    ensures k.Some? <==> IsReadableCallback(expr.callback)
    ensures k.Some? ==> forall scope :: Eval(w, scope, k.value) == RenderMap(w, scope, expr, rx)
    decreases expr, 3
  {
    if !expr.callback.Arrow? {
      k := CallReads(w, "__esc", expr.whole);
    } else {
      CallbackFinds(expr.callback, rx);
      if ItemJsx(expr.callback).None? {
        k := CallReads(w, "__esc", expr.whole);
      } else {
        ItemIsSmaller(expr);
        ItemParsed(expr.callback);
        assert IsKey("_item");
        var body := NodeReads(w, ItemJsx(expr.callback).value, rx);
        k := ListReads(w, expr, rx, body);
      }
    }
  }
}
