/**
 What the tables of tag and attribute names make of the output, with the names
 written out: end tags, unescaped text, attributes that are printed, renamed,
 dropped or switched on and off, and component tags.
 */
module AotTables {
  import opened JsxSyntax
  import opened AotReader
  import opened AotReference

  // ---- tags ----

  predicate StartsUpper(tag: string) {
    tag != "" && 'A' <= tag[0] <= 'Z'
  }

  function StartTag<V>(w: World<V>, scope: map<string, V>, e: Element, hid: Option<string>): string {
    "<" + e.tag + RenderAttrs(w, scope, e.attrs, false) + RenderAttrs(w, scope, e.attrs, true) + RenderHydration(hid)
    + ">"
  }

  /** These fourteen elements are their start tag; every other element has an end tag. */
  lemma EndTags<V>(w: World<V>, scope: map<string, V>, e: Element, rx: bool, hid: Option<string>)
    requires !StartsUpper(e.tag)
    ensures e.tag in {"area", "base", "br", "col", "embed", "hr", "img", "input", "link", "meta", "param", "source",
                      "track", "wbr"} ==>
      RenderElement(w, scope, e, rx, hid) == StartTag(w, scope, e, hid)
    ensures e.tag !in {"area", "base", "br", "col", "embed", "hr", "img", "input", "link", "meta", "param", "source",
                       "track", "wbr"} ==>
      exists inner :: RenderElement(w, scope, e, rx, hid) == StartTag(w, scope, e, hid) + inner + "</" + e.tag + ">"
  {
    if !HasNoEndTag(e.tag) {
      var raw := RawContentOf(e.attrs);
      var inner := if raw.NoRaw? then RenderChildren(w, scope, e.children, rx, HoldsRawText(e.tag), None)
                   else RenderRaw(w, scope, raw);
      assert RenderElement(w, scope, e, rx, hid) == StartTag(w, scope, e, hid) + inner + "</" + e.tag + ">";
    }
  }

  /** An upper-case letter makes a tag a component. */
  lemma ComponentIsCalled<V>(w: World<V>, scope: map<string, V>, e: Element, rx: bool, hid: Option<string>)
    requires StartsUpper(e.tag)
    ensures RenderElement(w, scope, e, rx, hid) == w.component(e.tag, ComponentProps(w, scope, e))
  {
  }

  /** Nothing else does: any other element begins with its tag. */
  lemma ElementOpens<V>(w: World<V>, scope: map<string, V>, e: Element, rx: bool, hid: Option<string>)
    requires !StartsUpper(e.tag)
    ensures "<" + e.tag <= RenderElement(w, scope, e, rx, hid)
  {
    var open, out := StartTag(w, scope, e, hid), RenderElement(w, scope, e, rx, hid);
    var a, b := RenderAttrs(w, scope, e.attrs, false), RenderAttrs(w, scope, e.attrs, true);
    TagFirst(e.tag, a, b, RenderHydration(hid));
    EndTags(w, scope, e, rx, hid);
    if !HasNoEndTag(e.tag) {
      var inner :| out == open + inner + "</" + e.tag + ">";
      PrefixStays("<" + e.tag, open, inner, e.tag);
    }
  }

  lemma TagFirst(tag: string, a: string, b: string, hydration: string)
    ensures "<" + tag <= "<" + tag + a + b + hydration + ">"
  {
  }

  lemma PrefixStays(p: string, open: string, inner: string, tag: string)
    requires p <= open
    ensures p <= open + inner + "</" + tag + ">"
  {
  }

  /** A value is printed unescaped directly inside `script` and `style`, and escaped inside every other element. */
  lemma UnescapedExactlyWhen<V>(w: World<V>, scope: map<string, V>, tag: string, value: Slice)
    requires !StartsUpper(tag) && !HasNoEndTag(tag)
    ensures RenderElement(w, scope, Element(tag, [], [Hole(Some(Other(value, false)))]), false, None)
         == "<" + tag + ">"
            + w.helper(if tag == "script" || tag == "style" then "String" else "__esc", w.eval(value.id, scope))
            + "</" + tag + ">"
  {
    var hole := Hole(Some(Other(value, false)));
    var text := w.helper(if tag == "script" || tag == "style" then "String" else "__esc", w.eval(value.id, scope));
    assert RenderChild(w, scope, hole, false, HoldsRawText(tag), None) == text;
    assert [hole][1..] == [] && text + "" == text;
    assert RenderChildren(w, scope, [hole], false, HoldsRawText(tag), None) == text;
    assert "<" + tag + "" + "" + "" + ">" == "<" + tag + ">";
  }

  // ---- attributes ----

  predicate IsHandler(name: string) {
    |name| >= 3 && name[0] == 'o' && name[1] == 'n' && 'A' <= name[2] <= 'Z'
  }

  /** A text attribute is printed unless it is a handler or one of four names, under its own name but for two. */
  lemma PrintedExactlyWhen<V>(w: World<V>, scope: map<string, V>, name: string, text: string)
    ensures RenderAttr(w, scope, Attr(name, Quoted(text)))
         == if name in {"dangerouslySetInnerHTML", "innerHTML", "key", "ref"} || IsHandler(name) then ""
            else if name == "className" then " class=\"" + text + "\""
            else if name == "htmlFor" then " for=\"" + text + "\""
            else " " + name + "=\"" + text + "\""
  {
  }

  /** The same letters, in upper or lower case. */
  predicate SameLetters(name: string, lower: string) {
    |name| == |lower|
    && forall i :: 0 <= i < |name|
         ==> name[i] == lower[i] || ('A' <= name[i] <= 'Z' && lower[i] as int == name[i] as int + 32)
  }

  predicate IsLowerCase(text: string) {
    forall i :: 0 <= i < |text| ==> 'a' <= text[i] <= 'z'
  }

  lemma LowerIsSameLetters(name: string, lower: string)
    requires IsLowerCase(lower)
    ensures Lower(name) == lower <==> SameLetters(name, lower)
  {
    if Lower(name) == lower {
      forall i | 0 <= i < |name|
        ensures name[i] == lower[i] || ('A' <= name[i] <= 'Z' && lower[i] as int == name[i] as int + 32)
      {
        assert lower[i] == Lower(name)[i];
      }
    }
    if SameLetters(name, lower) {
      assert forall i :: 0 <= i < |name| ==> Lower(name)[i] == lower[i];
    }
  }

  const ON_OR_OFF := {"allowfullscreen", "async", "autofocus", "autoplay", "checked", "controls", "default", "defer",
                      "disabled", "formnovalidate", "hidden", "inert", "ismap", "itemscope", "loop", "multiple",
                      "muted", "nomodule", "novalidate", "open", "playsinline", "readonly", "required", "reversed",
                      "selected"}

  lemma ListedInLowerCase(b: string)
    requires b in ON_OR_OFF
    ensures IsLowerCase(b)
  {
  }

  lemma OnOrOffNames(name: string)
    ensures IsOnOrOff(name) <==> exists b :: b in ON_OR_OFF && SameLetters(name, b)
  {
    if Lower(name) in ON_OR_OFF {
      ListedInLowerCase(Lower(name));
      LowerIsSameLetters(name, Lower(name));
    }
    if b :| b in ON_OR_OFF && SameLetters(name, b) {
      ListedInLowerCase(b);
      LowerIsSameLetters(name, b);
    }
  }

  /**
   An attribute is left out for a falsy value and printed bare for a truthy one
   exactly when its name is, in any mixture of cases, one of these.
   */
  lemma OnOrOffExactlyWhen<V>(w: World<V>, scope: map<string, V>, name: string, slice: Slice)
    requires name !in {"className", "dangerouslySetInnerHTML", "htmlFor", "innerHTML", "key", "ref", "style"}
    requires !IsHandler(name)
    ensures RenderAttr(w, scope, Attr(name, Braced(slice)))
         == (if w.truthy(w.eval(slice.id, scope)) then " " + name else "")
       <==> exists b :: b in ON_OR_OFF && SameLetters(name, b)
  {
    OnOrOffNames(name);
    var value := w.helper("__esc_attr", w.eval(slice.id, scope));
    assert |" " + name + "=\"" + value + "\""| > |" " + name|;
  }

  /** A given value is printed through its helper: styles, other attributes and spreads each have one. */
  lemma ValuePrinted<V>(w: World<V>, scope: map<string, V>, name: string, slice: Slice)
    requires name !in {"dangerouslySetInnerHTML", "innerHTML", "key", "ref"} && !IsHandler(name)
    ensures var html := if name == "className" then "class" else if name == "htmlFor" then "for" else name;
      var v := w.eval(slice.id, scope);
      && RenderAttr(w, scope, SpreadAttr(slice)) == w.helper("__ssr_spread", v)
      && (html == "style" ==>
          RenderAttr(w, scope, Attr(name, Braced(slice))) == " style=\"" + w.helper("__ssr_style_object", v) + "\"")
      && (html != "style" && !(exists b :: b in ON_OR_OFF && SameLetters(html, b)) ==>
          RenderAttr(w, scope, Attr(name, Braced(slice))) == " " + html + "=\"" + w.helper("__esc_attr", v) + "\"")
  {
    var html := if name == "className" then "class" else if name == "htmlFor" then "for" else name;
    OnOrOffNames(html);
    PrintedExactlyWhen(w, scope, name, "");
  }

  lemma HydrationPrinted(id: string)
    ensures RenderHydration(Some(id)) == " data-v-id=\"" + id + "\"" && RenderHydration(None) == ""
  {
  }

  /** Text, holes, spreads and components leave the id to a later child. */
  predicate LeavesId(child: Child) {
    child.Text? || child.Hole? || child.SpreadChild? || (child.ElementChild? && StartsUpper(child.element.tag))
  }

  /** The id reaches the first DOM element or fragment and no other child. */
  lemma HydrationGoesToFirst<V>(w: World<V>, scope: map<string, V>, before: seq<Child>, first: Child,
                                after: seq<Child>, rx: bool, raw: bool, id: string)
    requires !LeavesId(first) && forall c :: c in before ==> LeavesId(c)
    ensures RenderChildren(w, scope, before + [first] + after, rx, raw, Some(id))
         == RenderChildren(w, scope, before, rx, raw, None) + RenderChild(w, scope, first, rx, raw, Some(id))
            + RenderChildren(w, scope, after, rx, raw, None)
  {
    assert before + [first] + after == before + ([first] + after);
    IdPasses(w, scope, before, [first] + after, rx, raw, Some(id));
    FirstRendered(w, scope, first, after, rx, raw, Some(id));
  }

  lemma {:induction false} IdPasses<V>(w: World<V>, scope: map<string, V>, before: seq<Child>, rest: seq<Child>,
                                       rx: bool, raw: bool, hid: Option<string>)
    requires forall c :: c in before ==> LeavesId(c)
    ensures RenderChildren(w, scope, before + rest, rx, raw, hid)
         == RenderChildren(w, scope, before, rx, raw, None) + RenderChildren(w, scope, rest, rx, raw, hid)
  {
    if before == [] {
      assert before + rest == rest;
    } else {
      assert before[0] in before && before == [before[0]] + before[1..];
      IdPasses(w, scope, before[1..], rest, rx, raw, hid);
      IdPassesOne(w, scope, before[0], before[1..], rest, rx, raw, hid);
    }
  }

  lemma IdPassesOne<V>(w: World<V>, scope: map<string, V>, c: Child, before: seq<Child>, rest: seq<Child>, rx: bool,
                       raw: bool, hid: Option<string>)
    requires LeavesId(c)
    requires RenderChildren(w, scope, before + rest, rx, raw, hid)
          == RenderChildren(w, scope, before, rx, raw, None) + RenderChildren(w, scope, rest, rx, raw, hid)
    ensures RenderChildren(w, scope, [c] + before + rest, rx, raw, hid)
         == RenderChildren(w, scope, [c] + before, rx, raw, None) + RenderChildren(w, scope, rest, rx, raw, hid)
  {
    assert [c] + before + rest == [c] + (before + rest);
    FirstRendered(w, scope, c, before + rest, rx, raw, hid);
    FirstRendered(w, scope, c, before, rx, raw, None);
  }

  lemma FirstRendered<V>(w: World<V>, scope: map<string, V>, c: Child, rest: seq<Child>, rx: bool, raw: bool,
                         hid: Option<string>)
    ensures RenderChildren(w, scope, [c] + rest, rx, raw, hid)
         == RenderChild(w, scope, c, rx, raw, if LeavesId(c) then None else hid)
            + RenderChildren(w, scope, rest, rx, raw, if LeavesId(c) then hid else None)
  {
    assert ([c] + rest)[1..] == rest;
  }

  // ---- content given as HTML ----

  predicate GivesHtml(attr: Attr) {
    attr.Attr? && attr.name == "dangerouslySetInnerHTML" && (attr.value.Braced? || attr.value.BracedObject?)
  }

  predicate GivesInner(attr: Attr) {
    attr.Attr? && attr.name == "innerHTML" && (attr.value.Braced? || attr.value.BracedObject? || attr.value.Quoted?)
  }

  lemma {:induction false} FirstDangerous(attrs: seq<Attr>, i: nat)
    requires i < |attrs| && GivesHtml(attrs[i]) && forall j :: 0 <= j < i ==> !GivesHtml(attrs[j])
    ensures DangerousContent(attrs)
         == if attrs[i].value.BracedObject? && attrs[i].value.html.Some? then RawValue(attrs[i].value.html.value)
            else RawHtmlOf(attrs[i].value.slice)
  {
    if i > 0 {
      FirstDangerous(attrs[1..], i - 1);
      DangerousIsLater(attrs);
    }
  }

  /** The first `dangerouslySetInnerHTML` with a value decides, wherever `innerHTML` stands. */
  lemma DangerousWins(attrs: seq<Attr>, i: nat)
    requires i < |attrs| && GivesHtml(attrs[i]) && forall j :: 0 <= j < i ==> !GivesHtml(attrs[j])
    ensures RawContentOf(attrs)
         == if attrs[i].value.BracedObject? && attrs[i].value.html.Some? then RawValue(attrs[i].value.html.value)
            else RawHtmlOf(attrs[i].value.slice)
  {
    FirstDangerous(attrs, i);
  }

  lemma DangerousIsLater(attrs: seq<Attr>)
    requires attrs != [] && !GivesHtml(attrs[0])
    ensures DangerousContent(attrs) == DangerousContent(attrs[1..])
  {
  }

  lemma {:induction false} NoDangerous(attrs: seq<Attr>)
    requires forall j :: 0 <= j < |attrs| ==> !GivesHtml(attrs[j])
    ensures DangerousContent(attrs) == NoRaw
  {
    if attrs != [] {
      NoDangerous(attrs[1..]);
      DangerousIsLater(attrs);
    }
  }

  lemma {:induction false} FirstInner(attrs: seq<Attr>, i: nat)
    requires i < |attrs| && GivesInner(attrs[i]) && forall j :: 0 <= j < i ==> !GivesInner(attrs[j])
    ensures InnerContent(attrs)
         == if attrs[i].value.Quoted? then RawText(attrs[i].value.text) else RawValue(attrs[i].value.slice)
  {
    if i > 0 {
      FirstInner(attrs[1..], i - 1);
    }
  }

  /** Without one the first `innerHTML` does. */
  lemma InnerHtmlDecides(attrs: seq<Attr>, i: nat)
    requires (forall j :: 0 <= j < |attrs| ==> !GivesHtml(attrs[j]))
    requires i < |attrs| && GivesInner(attrs[i]) && forall j :: 0 <= j < i ==> !GivesInner(attrs[j])
    ensures RawContentOf(attrs)
         == if attrs[i].value.Quoted? then RawText(attrs[i].value.text) else RawValue(attrs[i].value.slice)
  {
    NoDangerous(attrs);
    FirstInner(attrs, i);
  }

  // ---- markers ----

  lemma MarkerText(inner: string)
    ensures Bracketed("conditional", inner) == "<!--conditional-->" + inner + "<!--/conditional-->"
    ensures Bracketed("list", inner) == "<!--list-->" + inner + "<!--/list-->"
  {
  }

  /** The comments between which hydration finds a choice. */
  lemma ConditionalMarkers<V>(w: World<V>, scope: map<string, V>, expr: Expr, rx: bool, raw: bool)
    requires expr.Conditional?
    ensures var taken := if w.truthy(w.eval(expr.test.id, scope)) then expr.consequent else expr.alternate;
      RenderHole(w, scope, expr, rx, raw)
      == "<!--conditional-->" + RenderNode(w, scope, taken, rx) + "<!--/conditional-->"
  {
    var taken := if w.truthy(w.eval(expr.test.id, scope)) then expr.consequent else expr.alternate;
    MarkerText(RenderNode(w, scope, taken, rx));
  }

  lemma AndMarkers<V>(w: World<V>, scope: map<string, V>, expr: Expr, rx: bool, raw: bool)
    requires expr.And?
    ensures RenderHole(w, scope, expr, rx, raw)
         == "<!--conditional-->" + (if w.truthy(w.eval(expr.left.id, scope)) then RenderNode(w, scope, expr.right, rx)
                                    else "")
            + "<!--/conditional-->"
  {
    MarkerText(if w.truthy(w.eval(expr.left.id, scope)) then RenderNode(w, scope, expr.right, rx) else "");
  }

  /** Those around a value that reads reactive state; no other value has any. */
  lemma ValueMarkers<V>(w: World<V>, scope: map<string, V>, value: Slice, reactive: bool, rx: bool)
    ensures var text := w.helper("__esc", w.eval(value.id, scope));
      RenderHole(w, scope, Other(value, reactive), rx, false)
      == if rx && reactive then "<!--child-->" + text + "<!--/child-->" else text
  {
  }

  /** Those around a list; each item is bound to the first parameter, or to `_item` where that is no plain name. */
  lemma ListMarkers<V>(w: World<V>, scope: map<string, V>, expr: Expr, rx: bool, raw: bool)
    requires expr.MapCall? && ItemJsx(expr.callback).Some?
    ensures var name := if expr.callback.param.None? then "_item" else expr.callback.param.value;
            var list := w.eval(expr.receiver.id, scope);
            var items := if expr.optional && w.nullish(list) then ""
                         else RenderItems(w, scope, name, ItemJsx(expr.callback).value, w.items(list), 0, rx);
      RenderHole(w, scope, expr, rx, raw) == "<!--list-->" + items + "<!--/list-->"
  {
    var list := w.eval(expr.receiver.id, scope);
    var items := if expr.optional && w.nullish(list) then ""
                 else RenderItems(w, scope, ItemName(expr.callback), ItemJsx(expr.callback).value, w.items(list), 0,
                                  rx);
    assert RenderHole(w, scope, expr, rx, raw) == Bracketed("list", items);
    MarkerText(items);
  }

  /** Children of a component are rendered without markers for reactive values, and only if one of them shows. */
  lemma ComponentChildren<V>(w: World<V>, scope: map<string, V>, e: Element)
    ensures AllSilent(e.children) ==> ComponentProps(w, scope, e) == RenderProps(w, scope, e.attrs)
    ensures !AllSilent(e.children) ==>
      ComponentProps(w, scope, e)
      == RenderProps(w, scope, e.attrs)
         + [ContentValue("children", RenderChildren(w, scope, e.children, false, false, None))]
  {
    assert RenderProps(w, scope, e.attrs) + [] == RenderProps(w, scope, e.attrs);
  }
}
