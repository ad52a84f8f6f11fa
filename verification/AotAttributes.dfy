/**
 Attribute texts are spliced into the open literal of their tag; reading the
 tag's literal gives the attributes back.
 */
module AotAttributes {
  import opened JsxSyntax
  import opened AotReader
  import opened AotReading
  import opened AotCompiler
  import opened Replacing
  import opened AotReference

  // ---- escaped characters read back as themselves ----

  lemma EscapeStringAppend(a: string, b: string)
    ensures EscapeStringLiteral(a + b) == EscapeStringLiteral(a) + EscapeStringLiteral(b)
  {
    ReplaceAppend(a, b, '\\', "\\\\");
    var a1, b1 := Replace(a, '\\', "\\\\"), Replace(b, '\\', "\\\\");
    ReplaceAppend(a1, b1, '\'', "\\'");
    var a2, b2 := Replace(a1, '\'', "\\'"), Replace(b1, '\'', "\\'");
    ReplaceAppend(a2, b2, '\n', "\\n");
    ReplaceAppend(Replace(a2, '\n', "\\n"), Replace(b2, '\n', "\\n"), '\r', "\\r");
  }

  lemma EscapeAttrAppend(a: string, b: string)
    ensures EscapeAttrValue(a + b) == EscapeAttrValue(a) + EscapeAttrValue(b)
  {
    ReplaceAppend(a, b, '\\', "\\\\");
    var a1, b1 := Replace(a, '\\', "\\\\"), Replace(b, '\\', "\\\\");
    ReplaceAppend(a1, b1, '\'', "\\'");
    ReplaceAppend(Replace(a1, '\'', "\\'"), Replace(b1, '\'', "\\'"), '\n', "\\n");
  }

  function EscapeChar(c: char): string {
    if c == '\\' then "\\\\" else if c == '\'' then "\\'" else if c == '\n' then "\\n"
    else if c == '\r' then "\\r" else [c]
  }

  lemma EscapeOneAttr(c: char)
    ensures EscapeAttrValue([c]) == if c == '\r' then [c] else EscapeChar(c)
  {
    ReplaceOne(c, '\\', "\\\\");
    if c == '\\' {
      ReplaceTwo('\\', '\\', '\'', "\\'");
      ReplaceTwo('\\', '\\', '\n', "\\n");
    } else {
      ReplaceOne(c, '\'', "\\'");
      if c == '\'' {
        ReplaceTwo('\\', '\'', '\n', "\\n");
      } else {
        ReplaceOne(c, '\n', "\\n");
      }
    }
  }

  lemma EscapeOneString(c: char)
    ensures EscapeStringLiteral([c]) == EscapeChar(c)
  {
    EscapeOneAttr(c);
    assert EscapeStringLiteral([c]) == Replace(EscapeAttrValue([c]), '\r', "\\r");
    if |EscapeAttrValue([c])| == 1 {
      ReplaceOne(c, '\r', "\\r");
    } else {
      ReplaceTwo(EscapeAttrValue([c])[0], EscapeAttrValue([c])[1], '\r', "\\r");
    }
  }

  lemma CharsOne(c: char)
    ensures SomeChars([c]) == Some(Char(c, End))
  {
    assert Chars([c]) == Char([c][0], Chars([c][1..]));
    assert Chars([c][1..]) == End;
  }

  lemma EscapedCharLiteral(c: char)
    ensures LiteralIs(Tx(EscapeChar(c)), SomeChars([c]))
  {
    forall rest: Code ensures ReadLiteral(Tx(EscapeChar(c)) + rest) == Follow(SomeChars([c]), ReadLiteral(rest)) {
      var t := Tx(EscapeChar(c)) + rest;
      CharsOne(c);
      assert t[|EscapeChar(c)|..] == rest;
      assert Follow(SomeChars([c]), ReadLiteral(rest)) == Before(c, ReadLiteral(rest)) by {
        if ReadLiteral(rest).Got? {
          assert Append(End, ReadLiteral(rest).value) == ReadLiteral(rest).value;
        }
      }
    }
  }

  lemma {:induction false} CharsAppend(a: string, b: string)
    ensures Both(SomeChars(a), SomeChars(b)) == SomeChars(a + b)
  {
    if a == "" {
      assert a + b == b;
    } else {
      assert (a + b)[1..] == a[1..] + b;
      CharsAppend(a[1..], b);
    }
  }

  /** Escaping for a string literal loses nothing: inside a literal the escaped text reads as the text. */
  lemma {:induction false} EscapedStringReads(s: string)
    ensures LiteralIs(Tx(EscapeStringLiteral(s)), SomeChars(s))
  {
    if s == "" {
      LiteralNothing();
      assert Tx(EscapeStringLiteral(s)) == [];
    } else {
      assert s == [s[0]] + s[1..];
      EscapeStringAppend([s[0]], s[1..]);
      EscapeOneString(s[0]);
      EscapedCharLiteral(s[0]);
      EscapedStringReads(s[1..]);
      LiteralAppend(Tx(EscapeChar(s[0])), SomeChars([s[0]]), Tx(EscapeStringLiteral(s[1..])), SomeChars(s[1..]));
      CharsAppend([s[0]], s[1..]);
      TxAppend(EscapeChar(s[0]), EscapeStringLiteral(s[1..]));
    }
  }

  function IfNoCr(s: string, k: Option<Chain>): Option<Chain> {
    if '\r' in s then None else k
  }

  lemma BareCr()
    ensures LiteralIs(Tx("\r"), None)
  {
    forall rest: Code ensures ReadLiteral(Tx("\r") + rest) == Follow(None, ReadLiteral(rest)) {
    }
  }

  /** Escaping for an attribute forgets carriage returns: the text reads back unless it holds one. */
  lemma {:induction false} EscapedAttrReads(s: string)
    ensures LiteralIs(Tx(EscapeAttrValue(s)), IfNoCr(s, SomeChars(s)))
  {
    if s == "" {
      LiteralNothing();
      assert Tx(EscapeAttrValue(s)) == [];
    } else {
      assert s == [s[0]] + s[1..];
      EscapeAttrAppend([s[0]], s[1..]);
      EscapeOneAttr(s[0]);
      EscapedAttrReads(s[1..]);
      var head := EscapeAttrValue([s[0]]);
      if s[0] == '\r' {
        BareCr();
      } else {
        EscapedCharLiteral(s[0]);
      }
      LiteralAppend(Tx(head), IfNoCr([s[0]], SomeChars([s[0]])), Tx(EscapeAttrValue(s[1..])),
                    IfNoCr(s[1..], SomeChars(s[1..])));
      CharsAppend([s[0]], s[1..]);
      TxAppend(head, EscapeAttrValue(s[1..]));
    }
  }

  // ---- one attribute ----

  /** When the text emitted for an attribute is a legal part of its tag's literal. */
  predicate IsReadableAttr(attr: Attr) {
    if attr.SpreadAttr? then !attr.slice.binding.Comma?
    else
      IsDropped(attr)
      || ((attr.value.Quoted? ==> '\r' !in attr.value.text)
          && (BracedSlice(attr.value).Some? ==>
                if IsOptional(attr) then !BracedSlice(attr.value).value.binding.IsLoose()
                else !BracedSlice(attr.value).value.binding.Comma?))
  }

  predicate IsReadableAttrs(attrs: seq<Attr>) {
    forall a :: a in attrs ==> IsReadableAttr(a)
  }

  ghost predicate NamedAttrs(attrs: seq<Attr>) {
    forall a :: a in attrs && a.Attr? ==> IsAttrName(a.name)
  }

  lemma NameIsPlain(name: string)
    requires IsAttrName(name)
    ensures AllPlain(name) && AllPlain(AttrName(name)) && HtmlName(name) == AttrName(name) && AttrName(name) != ""
  {
  }

  lemma ThreeLiterals(x: Code, a: Option<Chain>, y: Code, b: Option<Chain>, z: Code, c: Option<Chain>)
    requires LiteralIs(x, a) && LiteralIs(y, b) && LiteralIs(z, c)
    ensures LiteralIs(x + y + z, Both(Both(a, b), c))
  {
    LiteralAppend(x, a, y, b);
    LiteralAppend(x + y, Both(a, b), z, c);
  }

  lemma QuotedAttrText(name: string, value: string)
    ensures Tx(" " + name + "=\"") + Tx(value) + Tx("\"") == Tx(" ") + Tx(name + "=\"" + value + "\"")
  {
  }

  /** ` name="value"` with the value escaped. */
  lemma QuotedAttrReads(name: string, text: string)
    requires AllPlain(name)
    ensures LiteralIs(Tx(" ") + Tx(name + "=\"" + EscapeAttrValue(text) + "\""),
                      IfNoCr(text, SomeChars(" " + name + "=\"" + text + "\"")))
  {
    var head := " " + name + "=\"";
    PlainLiteral(head);
    PlainLiteral("\"");
    EscapedAttrReads(text);
    QuotedAttrText(name, EscapeAttrValue(text));
    ThreeLiterals(Tx(head), SomeChars(head), Tx(EscapeAttrValue(text)), IfNoCr(text, SomeChars(text)),
                  Tx("\""), SomeChars("\""));
    CharsAppend(head, text);
    CharsAppend(head + text, "\"");
  }

  lemma HelperAttrText(name: string, helper: string, slice: Slice)
    ensures Tx(" " + name + "=\"") + (Tx("' + ") + CallText(helper, slice) + Tx(" + '")) + Tx("\"")
         == Tx(" ") + (Tx(name + "=\"' + " + helper + "(") + [Src(slice)] + Tx(") + '\""))
  {
    var head := " " + name + "=\"";
    assert Tx(" ") + Tx(name + "=\"' + " + helper + "(") == Tx(head) + Tx("' + ") + Tx(helper + "(");
    assert Tx(") + '\"") == Tx(")") + Tx(" + '") + Tx("\"");
  }

  lemma EvalAround<V>(w: World<V>, scope: map<string, V>, head: string, op: Operand, tail: string)
    ensures Eval(w, scope, Append(Append(Chars(head), Op(op, End)), Chars(tail)))
         == head + EvalOperand(w, scope, op) + tail
  {
    EvalAppend(w, scope, Chars(head), Op(op, End));
    EvalAppend(w, scope, Append(Chars(head), Op(op, End)), Chars(tail));
    EvalChars(w, scope, head);
    EvalChars(w, scope, tail);
    assert Eval(w, scope, Op(op, End)) == EvalOperand(w, scope, op) + "" == EvalOperand(w, scope, op);
  }

  /** ` name="' + helper(x) + '"`. */
  lemma HelperAttrReads<V>(w: World<V>, name: string, helper: string, slice: Slice) returns (k: Option<Chain>)
    requires AllPlain(name) && IsKey(helper)
    ensures LiteralIs(Tx(" ") + (Tx(name + "=\"' + " + helper + "(") + [Src(slice)] + Tx(") + '\"")), k)
    ensures k.Some? <==> !slice.binding.Comma?
    ensures k.Some? ==> forall scope :: Eval(w, scope, k.value)
                            == " " + name + "=\"" + w.helper(helper, w.eval(slice.id, scope)) + "\""
  {
    var head := " " + name + "=\"";
    var op := CallOp(helper, slice);
    PlainLiteral(head);
    PlainLiteral("\"");
    CallChain(helper, slice);
    ChainInner(CallText(helper, slice), op);
    SpliceLiteral(CallText(helper, slice), op);
    ThreeLiterals(Tx(head), SomeChars(head), Tx("' + ") + CallText(helper, slice) + Tx(" + '"), op,
                  Tx("\""), SomeChars("\""));
    k := Both(Both(SomeChars(head), op), SomeChars("\""));
    HelperAttrText(name, helper, slice);
    forall scope: map<string, V> | k.Some?
      ensures Eval(w, scope, k.value) == head + w.helper(helper, w.eval(slice.id, scope)) + "\""
    {
      EvalAround(w, scope, head, Call(helper, slice), "\"");
    }
  }

  /** `' + helper(x) + '`. */
  lemma SpreadReads<V>(w: World<V>, slice: Slice) returns (k: Option<Chain>)
    ensures LiteralIs(Tx("' + __ssr_spread(") + [Src(slice)] + Tx(") + '"), k)
    ensures k.Some? <==> !slice.binding.Comma?
    ensures k.Some? ==> forall scope :: Eval(w, scope, k.value) == w.helper("__ssr_spread", w.eval(slice.id, scope))
  {
    k := CallOp("__ssr_spread", slice);
    CallChain("__ssr_spread", slice);
    ChainInner(CallText("__ssr_spread", slice), k);
    SpliceLiteral(CallText("__ssr_spread", slice), k);
    SpreadText(slice);
  }

  lemma SpreadText(slice: Slice)
    ensures Tx("' + ") + CallText("__ssr_spread", slice) + Tx(" + '")
         == Tx("' + __ssr_spread(") + [Src(slice)] + Tx(") + '")
  {
    assert Tx("' + ") + Tx("__ssr_spread" + "(") == Tx("' + __ssr_spread(");
    assert Tx(")") + Tx(" + '") == Tx(") + '");
    FiveCodes(Tx("' + "), Tx("__ssr_spread" + "("), [Src(slice)], Tx(")"), Tx(" + '"));
  }

  lemma FiveCodes(a: Code, b: Code, c: Code, d: Code, e: Code)
    ensures a + (b + c + d) + e == (a + b) + c + (d + e)
  {
  }

  lemma BooleanChoiceText(name: string, slice: Slice)
    ensures Tx("' + ")
            + (Tx("(") + [Src(slice)] + Tx(" ? ") + Tx("'" + (" " + name) + "'") + Tx(" : ") + Tx("''") + Tx(")"))
            + Tx(" + '")
         == Tx("' + (") + [Src(slice)] + Tx(" ? ' " + name + "' : '') + '")
  {
    NineParts(Tx("' + "), Tx("("), [Src(slice)], Tx(" ? "), Tx("'" + (" " + name) + "'"), Tx(" : "), Tx("''"), Tx(")"),
              Tx(" + '"));
    assert Tx("' + ") + Tx("(") == Tx("' + (");
    BooleanTail(name);
  }

  lemma NineParts(a: Code, b: Code, c: Code, d: Code, e: Code, f: Code, g: Code, h: Code, i: Code)
    ensures a + (b + c + d + e + f + g + h) + i == (a + b) + c + (d + e + (f + g + h + i))
  {
  }

  lemma BooleanTail(name: string)
    ensures Tx(" ? ") + Tx("'" + (" " + name) + "'") + (Tx(" : ") + Tx("''") + Tx(")") + Tx(" + '"))
         == Tx(" ? ' " + name + "' : '') + '")
  {
    var head, tail := " ? ' " + name, "' : '') + '";
    assert Tx(" : ") + Tx("''") + Tx(")") + Tx(" + '") == Tx(" : '') + '");
    TxAppend(" ? ", "'" + (" " + name) + "'");
    TxAppend(" ? " + ("'" + (" " + name) + "'"), " : '') + '");
    assert " ? " + ("'" + (" " + name) + "'") == head + "'";
    assert (head + "'") + " : '') + '" == head + tail;
  }

  /** `' + (x ? ' name' : '') + '`. */
  lemma BooleanReads<V>(w: World<V>, name: string, slice: Slice) returns (k: Option<Chain>)
    requires AllPlain(name)
    ensures LiteralIs(Tx("' + (") + [Src(slice)] + Tx(" ? ' " + name + "' : '') + '"), k)
    ensures k.Some? <==> !slice.binding.IsLoose()
    ensures k.Some? ==> forall scope :: Eval(w, scope, k.value)
                                        == if w.truthy(w.eval(slice.id, scope)) then " " + name else ""
  {
    var yes := SomeChars(" " + name);
    PlainChain(" " + name);
    EmptyLiteral();
    k := Unless(slice.binding.IsLoose(), BranchOp(false, slice, yes, Some(End)));
    ChoiceChain(slice, Tx("'" + (" " + name) + "'"), yes, Tx("''"), Some(End));
    var choice := Tx("(") + [Src(slice)] + Tx(" ? ") + Tx("'" + (" " + name) + "'") + Tx(" : ") + Tx("''") + Tx(")");
    ChainInner(choice, k);
    SpliceLiteral(choice, k);
    BooleanChoiceText(name, slice);
    forall scope: map<string, V> | k.Some?
      ensures Eval(w, scope, k.value) == if w.truthy(w.eval(slice.id, scope)) then " " + name else ""
    {
      EvalChars(w, scope, " " + name);
    }
  }

  /** The text of a braced value. */
  lemma BracedReads<V>(w: World<V>, name: string, slice: Slice) returns (k: Option<Chain>)
    requires AllPlain(name) && name != ""
    ensures var optional := name != "style" && IsOnOrOff(name);
            && (IsSplice(BracedText(name, slice)) <==> optional)
            && LiteralIs(if optional then BracedText(name, slice) else Tx(" ") + BracedText(name, slice), k)
            && (k.Some? <==> if optional then !slice.binding.IsLoose() else !slice.binding.Comma?)
    ensures k.Some? ==> forall scope :: Eval(w, scope, k.value) == RenderBraced(w, name, w.eval(slice.id, scope))
  {
    if name == "style" {
      k := HelperAttrReads(w, name, "__ssr_style_object", slice);
      StyleText(slice);
      StartsNot(BracedText(name, slice), "' + ", 0);
    } else if IsOnOrOff(name) {
      k := BooleanReads(w, name, slice);
      BooleanText(name, slice);
      Starts("' + ", Tx("(") + [Src(slice)] + Tx(" ? ' " + name + "' : '') + '"));
    } else {
      k := HelperAttrReads(w, name, "__esc_attr", slice);
      EscAttrText(name, slice);
      StartsNot(BracedText(name, slice), "' + ", 0);
    }
  }

  lemma StyleText(slice: Slice)
    ensures Tx("style" + "=\"' + " + "__ssr_style_object" + "(") + [Src(slice)] + Tx(") + '\"")
      == BracedText("style", slice)
  {
    assert "style" + "=\"' + " + "__ssr_style_object" + "(" == "style=\"' + __ssr_style_object(";
  }

  lemma EscAttrText(name: string, slice: Slice)
    requires name != "style" && !IsOnOrOff(name)
    ensures Tx(name + "=\"' + " + "__esc_attr" + "(") + [Src(slice)] + Tx(") + '\"") == BracedText(name, slice)
  {
    assert name + "=\"' + " + "__esc_attr" + "(" == name + "=\"' + __esc_attr(";
  }

  lemma BooleanText(name: string, slice: Slice)
    requires name != "style" && IsOnOrOff(name)
    ensures BracedText(name, slice) == Tx("' + ") + (Tx("(") + [Src(slice)] + Tx(" ? ' " + name + "' : '') + '"))
  {
  }

  /** What `attr_to_string` (or the spread case) contributes for one attribute. */
  function OwnText(attr: Attr): Option<Code> {
    if attr.SpreadAttr? then Some(Tx("' + __ssr_spread(") + [Src(attr.slice)] + Tx(") + '"))
    else AttrText(attr.name, attr.value)
  }

  lemma QuotedReads<V>(w: World<V>, name: string, text: string) returns (k: Option<Chain>)
    requires name != "" && name[0] != '\'' && AllPlain(name)
    ensures var t := Tx(name + "=\"" + EscapeAttrValue(text) + "\"");
      t != [] && !IsSplice(t) && t[0] != Ch('\'') && LiteralIs(Tx(" ") + t, k)
    ensures k.Some? <==> '\r' !in text
    ensures k.Some? ==> forall scope :: Eval(w, scope, k.value) == " " + name + "=\"" + text + "\""
  {
    var plain := " " + name + "=\"" + text + "\"";
    k := IfNoCr(text, SomeChars(plain));
    QuotedAttrReads(name, text);
    StartsNot(Tx(name + "=\"" + EscapeAttrValue(text) + "\""), "' + ", 0);
    forall scope: map<string, V> { EvalChars(w, scope, plain); }
  }

  lemma ValuelessReads<V>(w: World<V>, name: string) returns (k: Option<Chain>)
    requires name != "" && name[0] != '\'' && AllPlain(name)
    ensures Tx(name) != [] && !IsSplice(Tx(name)) && Tx(name)[0] != Ch('\'') && LiteralIs(Tx(" ") + Tx(name), k)
    ensures k.Some? && forall scope :: Eval(w, scope, k.value) == " " + name
  {
    k := SomeChars(" " + name);
    PlainLiteral(" " + name);
    TxAppend(" ", name);
    StartsNot(Tx(name), "' + ", 0);
    forall scope: map<string, V> { EvalChars(w, scope, " " + name); }
  }

  lemma SpreadStarts(slice: Slice)
    ensures var t := Tx("' + __ssr_spread(") + [Src(slice)] + Tx(") + '"); t != [] && IsSplice(t)
  {
    var t := Tx("' + __ssr_spread(") + [Src(slice)] + Tx(") + '");
    Starts("' + ", Tx("__ssr_spread(") + [Src(slice)] + Tx(") + '"));
    TxAppend("' + ", "__ssr_spread(");
    assert "' + " + "__ssr_spread(" == "' + __ssr_spread(";
    assert t == Tx("' + ") + (Tx("__ssr_spread(") + [Src(slice)] + Tx(") + '"));
  }

  lemma AttrReads<V>(w: World<V>, attr: Attr) returns (k: Option<Chain>)
    requires attr.Attr? ==> IsAttrName(attr.name)
    ensures OwnText(attr).None? <==> IsDropped(attr)
    ensures OwnText(attr).Some? ==>
      var t := OwnText(attr).value;
      && t != [] && (IsSplice(t) <==> IsOptional(attr)) && (!IsOptional(attr) ==> t[0] != Ch('\''))
      && LiteralIs(if IsOptional(attr) then t else Tx(" ") + t, k)
    ensures IsDropped(attr) ==> k == Some(End)
    ensures k.Some? <==> IsReadableAttr(attr)
    ensures k.Some? ==> forall scope :: Eval(w, scope, k.value) == RenderAttr(w, scope, attr)
  {
    if attr.SpreadAttr? {
      k := SpreadReads(w, attr.slice);
      SpreadStarts(attr.slice);
    } else if IsDropped(attr) {
      k := Some(End);
    } else {
      k := GivenReads(w, attr);
    }
  }

  lemma GivenText(attr: Attr)
    requires attr.Attr? && !IsDropped(attr) && IsAttrName(attr.name)
    ensures OwnText(attr) == Some(match attr.value
                                  case Quoted(text) => Tx(AttrName(attr.name) + "=\"" + EscapeAttrValue(text) + "\"")
                                  case Braced(slice) => BracedText(AttrName(attr.name), slice)
                                  case BracedObject(_, slice) => BracedText(AttrName(attr.name), slice)
                                  case _ => Tx(AttrName(attr.name)))
    ensures attr.value.NoValue? || attr.value.Quoted? || attr.value.Braced? || attr.value.BracedObject?
  {
    NameIsPlain(attr.name);
    AttrTables(attr.name);
  }

  /** An attribute that is not dropped, by the form of its value. */
  lemma GivenReads<V>(w: World<V>, attr: Attr) returns (k: Option<Chain>)
    requires attr.Attr? && !IsDropped(attr) && IsAttrName(attr.name)
    ensures OwnText(attr).Some?
    ensures var t := OwnText(attr).value;
      && t != [] && (IsSplice(t) <==> IsOptional(attr)) && (!IsOptional(attr) ==> t[0] != Ch('\''))
      && LiteralIs(if IsOptional(attr) then t else Tx(" ") + t, k)
    ensures k.Some? <==> IsReadableAttr(attr)
    ensures k.Some? ==> forall scope :: Eval(w, scope, k.value) == RenderAttr(w, scope, attr)
  {
    var name := AttrName(attr.name);
    NameIsPlain(attr.name);
    GivenText(attr);
    match attr.value {
      case Quoted(text) => k := QuotedReads(w, name, text);
      case NoValue => k := ValuelessReads(w, name);
      case Braced(slice) => k := BracedReads(w, name, slice);
      case BracedObject(_, slice) => k := BracedReads(w, name, slice);
    }
  }

  // ---- all attributes of a tag ----

  function Spaced(parts: seq<Code>): Code {
    if parts == [] then [] else Tx(" ") + parts[0] + Spaced(parts[1..])
  }

  lemma {:induction false} JoinedIsSpaced(parts: seq<Code>)
    requires parts != []
    ensures Tx(" ") + Joined(parts, Tx(" ")) == Spaced(parts)
  {
    if |parts| == 1 {
      assert Spaced(parts[1..]) == [];
      assert Tx(" ") + parts[0] + [] == Tx(" ") + parts[0];
    } else {
      JoinedIsSpaced(parts[1..]);
      var more := Joined(parts[1..], Tx(" "));
      assert Tx(" ") + (parts[0] + Tx(" ") + more) == Tx(" ") + parts[0] + (Tx(" ") + more);
    }
  }

  predicate ReadableWhere(attrs: seq<Attr>, optional: bool) {
    forall a :: a in attrs && IsOptional(a) == optional ==> IsReadableAttr(a)
  }

  function AttrListText(attrs: seq<Attr>, optional: bool): Code {
    if optional then DynamicSuffix(attrs) else Spaced(StaticParts(attrs))
  }

  /** One attribute at a time. */
  lemma ListTextStep(attrs: seq<Attr>, optional: bool)
    requires attrs != []
    ensures var own := OwnText(attrs[0]);
            AttrListText(attrs, optional)
            == if own.None? || IsSplice(own.value) != optional then AttrListText(attrs[1..], optional)
               else (if optional then own.value else Tx(" ") + own.value) + AttrListText(attrs[1..], optional)
  {
    var own := OwnText(attrs[0]);
    if attrs[0].SpreadAttr? {
      SpreadIsSplice(attrs[0].slice);
    }
    if own.Some? && !IsSplice(own.value) {
      assert StaticParts(attrs) == [own.value] + StaticParts(attrs[1..]);
      assert StaticParts(attrs)[1..] == StaticParts(attrs[1..]);
    }
  }

  lemma SpreadIsSplice(slice: Slice)
    ensures IsSplice(Tx("' + __ssr_spread(") + [Src(slice)] + Tx(") + '"))
  {
    Starts("' + ", Tx("__ssr_spread(") + [Src(slice)] + Tx(") + '"));
    assert Tx("' + __ssr_spread(") + [Src(slice)] + Tx(") + '")
      == Tx("' + ") + (Tx("__ssr_spread(") + [Src(slice)] + Tx(") + '"));
  }

  lemma ReadableStep(attrs: seq<Attr>, optional: bool)
    requires attrs != []
    ensures ReadableWhere(attrs, optional)
       <==> (IsOptional(attrs[0]) == optional ==> IsReadableAttr(attrs[0])) && ReadableWhere(attrs[1..], optional)
  {
    assert attrs == [attrs[0]] + attrs[1..];
  }

  lemma {:induction false} AttrListReads<V>(w: World<V>, attrs: seq<Attr>, optional: bool) returns (k: Option<Chain>)
    requires NamedAttrs(attrs)
    ensures LiteralIs(AttrListText(attrs, optional), k)
    ensures k.Some? <==> ReadableWhere(attrs, optional)
    ensures k.Some? ==> forall scope :: Eval(w, scope, k.value) == RenderAttrs(w, scope, attrs, optional)
  {
    if attrs == [] {
      k := Some(End);
      LiteralNothing();
    } else {
      var head := AttrReads(w, attrs[0]);
      var tail := AttrListReads(w, attrs[1..], optional);
      ReadableStep(attrs, optional);
      ListTextStep(attrs, optional);
      if IsOptional(attrs[0]) != optional || OwnText(attrs[0]).None? {
        k := tail;
        forall scope: map<string, V>
          ensures RenderAttrs(w, scope, attrs, optional) == RenderAttrs(w, scope, attrs[1..], optional)
        {
          var r := RenderAttrs(w, scope, attrs[1..], optional);
          assert "" + r == r;
        }
      } else {
        k := Both(head, tail);
        var own := if optional then OwnText(attrs[0]).value else Tx(" ") + OwnText(attrs[0]).value;
        LiteralAppend(own, head, AttrListText(attrs[1..], optional), tail);
        forall scope: map<string, V> | k.Some?
          ensures Eval(w, scope, k.value) == RenderAttrs(w, scope, attrs, optional)
        {
          EvalAppend(w, scope, head.value, tail.value);
        }
      }
    }
  }

  lemma {:induction false} StaticStarts(attrs: seq<Attr>)
    requires NamedAttrs(attrs)
    ensures forall p :: p in StaticParts(attrs) ==> p != [] && p[0] != Ch('\'')
  {
    if attrs != [] {
      StaticStarts(attrs[1..]);
      if attrs[0].Attr? {
        OwnStart(attrs[0]);
      }
    }
  }

  lemma OwnStart(attr: Attr)
    requires attr.Attr? && IsAttrName(attr.name)
    ensures var t := OwnText(attr); t.Some? && !IsSplice(t.value) ==> t.value != [] && t.value[0] != Ch('\'')
  {
    NameIsPlain(attr.name);
    var name := AttrName(attr.name);
    if BracedSlice(attr.value).Some? && name != "style" && IsOnOrOff(name) {
      BooleanText(name, BracedSlice(attr.value).value);
      Starts("' + ", Tx("(") + [Src(BracedSlice(attr.value).value)] + Tx(" ? ' " + name + "' : '') + '"));
    }
  }

  /** The attribute string is the static parts, each after a space, then the splices, then the hydration id. */
  lemma AttrStringText(attrs: seq<Attr>, hydration: Code)
    requires forall p :: p in StaticParts(attrs) ==> p != [] && p[0] != Ch('\'')
    requires DynamicSuffix(attrs) != [] ==> IsSplice(DynamicSuffix(attrs))
    ensures BuildAttrString(AttrsText(attrs), hydration)
         == Spaced(StaticParts(attrs)) + DynamicSuffix(attrs) + hydration
  {
    var parts, dynamic := StaticParts(attrs), DynamicSuffix(attrs);
    var text := AttrsText(attrs);
    if parts == [] {
      assert text == dynamic;
      assert [] + dynamic + hydration == dynamic + hydration;
      if dynamic == [] {
        assert [] + [] + hydration == hydration;
      }
    } else {
      JoinedIsSpaced(parts);
      assert parts[0] in parts;
      JoinedStart(parts, Tx(" "));
      BuildStatic(Joined(parts, Tx(" ")), dynamic, hydration);
    }
  }

  lemma BuildStatic(joined: Code, dynamic: Code, hydration: Code)
    requires joined != [] && joined[0] != Ch('\'')
    ensures BuildAttrString(joined + dynamic, hydration) == (Tx(" ") + joined) + dynamic + hydration
  {
    var text := joined + dynamic;
    assert text[0] == joined[0];
    StartsNot(text, "' + ", 0);
    assert Tx(" ") + text + hydration == (Tx(" ") + joined) + dynamic + hydration;
  }

  lemma JoinedStart(parts: seq<Code>, sep: Code)
    requires parts != [] && parts[0] != []
    ensures Joined(parts, sep) != [] && Joined(parts, sep)[0] == parts[0][0]
  {
  }

  lemma {:induction false} DynamicStart(attrs: seq<Attr>)
    ensures DynamicSuffix(attrs) != [] ==> IsSplice(DynamicSuffix(attrs))
  {
    if attrs != [] {
      DynamicStart(attrs[1..]);
      ListTextStep(attrs, true);
      var own := OwnText(attrs[0]);
      if own.Some? && IsSplice(own.value) {
        SpliceStays(own.value, AttrListText(attrs[1..], true));
      }
    }
  }

  lemma SpliceStays(x: Code, y: Code)
    requires IsSplice(x)
    ensures IsSplice(x + y)
  {
    assert (x + y)[..4] == x[..4];
  }

  /** The opening tag's literal, attributes spliced in, reads as the opening tag. */
  lemma OpenTagReads<V>(w: World<V>, tag: string, attrs: seq<Attr>, hid: Option<string>) returns (k: Option<Chain>)
    requires AllPlain(tag) && NamedAttrs(attrs) && (hid.Some? ==> AllPlain(hid.value))
    ensures ChainIs(Tx("'<" + tag) + BuildAttrString(AttrsText(attrs), Tx(HydrationAttr(hid))) + Tx(">'"), k)
    ensures k.Some? <==> IsReadableAttrs(attrs)
    ensures k.Some? ==> forall scope ::
      Eval(w, scope, k.value) == "<" + tag + RenderAttrs(w, scope, attrs, false) + RenderAttrs(w, scope, attrs, true)
                                 + RenderHydration(hid) + ">"
  {
    var k1 := AttrListReads(w, attrs, false);
    var k2 := AttrListReads(w, attrs, true);
    var head, tail := "<" + tag, HydrationAttr(hid) + ">";
    k := Both(Both(SomeChars(head), k1), Both(k2, SomeChars(tail)));
    OpenTagChain(tag, attrs, hid, k1, k2);
    BothReadable(attrs);
    forall scope: map<string, V> | k.Some?
      ensures Eval(w, scope, k.value) == "<" + tag + RenderAttrs(w, scope, attrs, false)
                                         + RenderAttrs(w, scope, attrs, true) + RenderHydration(hid) + ">"
    {
      OpenTagEval(w, scope, tag, attrs, hid, k1.value, k2.value);
    }
  }

  lemma OpenTagChain(tag: string, attrs: seq<Attr>, hid: Option<string>, k1: Option<Chain>, k2: Option<Chain>)
    requires AllPlain(tag) && NamedAttrs(attrs) && (hid.Some? ==> AllPlain(hid.value))
    requires LiteralIs(AttrListText(attrs, false), k1) && LiteralIs(AttrListText(attrs, true), k2)
    ensures ChainIs(Tx("'<" + tag) + BuildAttrString(AttrsText(attrs), Tx(HydrationAttr(hid))) + Tx(">'"),
                    Both(Both(SomeChars("<" + tag), k1), Both(k2, SomeChars(HydrationAttr(hid) + ">"))))
  {
    var head, tail := "<" + tag, HydrationAttr(hid) + ">";
    var s, d := Spaced(StaticParts(attrs)), DynamicSuffix(attrs);
    HydrationIsPlain(tag, hid);
    PlainLiteral(head);
    PlainLiteral(tail);
    FourLiterals(Tx(head), SomeChars(head), s, k1, d, k2, Tx(tail), SomeChars(tail));
    QuotedChain((Tx(head) + s) + (d + Tx(tail)), Both(Both(SomeChars(head), k1), Both(k2, SomeChars(tail))));
    OpenTagShape(tag, attrs, hid);
  }

  lemma HydrationIsPlain(tag: string, hid: Option<string>)
    requires AllPlain(tag) && (hid.Some? ==> AllPlain(hid.value))
    ensures AllPlain("<" + tag) && AllPlain(HydrationAttr(hid) + ">")
  {
  }

  lemma OpenTagShape(tag: string, attrs: seq<Attr>, hid: Option<string>)
    requires NamedAttrs(attrs)
    ensures Tx("'<" + tag) + BuildAttrString(AttrsText(attrs), Tx(HydrationAttr(hid))) + Tx(">'")
         == Tx("'") + ((Tx("<" + tag) + Spaced(StaticParts(attrs)))
           + (DynamicSuffix(attrs) + Tx(HydrationAttr(hid) + ">"))) + Tx("'")
  {
    StaticStarts(attrs);
    DynamicStart(attrs);
    AttrStringText(attrs, Tx(HydrationAttr(hid)));
    OpenTagText(tag, Spaced(StaticParts(attrs)), DynamicSuffix(attrs), HydrationAttr(hid));
  }

  lemma OpenTagEval<V>(w: World<V>, scope: map<string, V>, tag: string, attrs: seq<Attr>, hid: Option<string>,
                       k1: Chain, k2: Chain)
    requires Eval(w, scope, k1) == RenderAttrs(w, scope, attrs, false)
    requires Eval(w, scope, k2) == RenderAttrs(w, scope, attrs, true)
    ensures Eval(w, scope, Append(Append(Chars("<" + tag), k1), Append(k2, Chars(HydrationAttr(hid) + ">"))))
         == "<" + tag + RenderAttrs(w, scope, attrs, false) + RenderAttrs(w, scope, attrs, true) + RenderHydration(hid)
           + ">"
  {
    EvalFour(w, scope, "<" + tag, k1, k2, HydrationAttr(hid) + ">");
    FourParts("<" + tag, RenderAttrs(w, scope, attrs, false), RenderAttrs(w, scope, attrs, true), RenderHydration(hid));
  }

  lemma BothReadable(attrs: seq<Attr>)
    ensures IsReadableAttrs(attrs) <==> ReadableWhere(attrs, false) && ReadableWhere(attrs, true)
  {
  }

  lemma FourLiterals(x: Code, a: Option<Chain>, y: Code, b: Option<Chain>, z: Code, c: Option<Chain>, u: Code,
                     d: Option<Chain>)
    requires LiteralIs(x, a) && LiteralIs(y, b) && LiteralIs(z, c) && LiteralIs(u, d)
    ensures LiteralIs((x + y) + (z + u), Both(Both(a, b), Both(c, d)))
  {
    LiteralAppend(x, a, y, b);
    LiteralAppend(z, c, u, d);
    LiteralAppend(x + y, Both(a, b), z + u, Both(c, d));
  }

  lemma OpenTagText(tag: string, s: Code, d: Code, hydration: string)
    ensures Tx("'") + ((Tx("<" + tag) + s) + (d + Tx(hydration + ">"))) + Tx("'")
         == Tx("'<" + tag) + (s + d + Tx(hydration)) + Tx(">'")
  {
    assert Tx("'") + Tx("<" + tag) == Tx("'<" + tag);
    assert Tx(hydration + ">") + Tx("'") == Tx(hydration) + Tx(">'");
  }

  lemma FourParts(head: string, a: string, b: string, hydration: string)
    ensures (head + a) + (b + (hydration + ">")) == head + a + b + hydration + ">"
  {
  }

  lemma EvalFour<V>(w: World<V>, scope: map<string, V>, head: string, a: Chain, b: Chain, tail: string)
    ensures Eval(w, scope, Append(Append(Chars(head), a), Append(b, Chars(tail))))
         == (head + Eval(w, scope, a)) + (Eval(w, scope, b) + tail)
  {
    EvalAppend(w, scope, Append(Chars(head), a), Append(b, Chars(tail)));
    EvalAppend(w, scope, Chars(head), a);
    EvalAppend(w, scope, b, Chars(tail));
    EvalChars(w, scope, head);
    EvalChars(w, scope, tail);
  }
}
