/**
 When the compiled text of a component body is what running the body renders
 (native/vertz-compiler-core/src/aot_string_transformer.rs): the compiler looks
 at the returns it can compile and not at the ones it cannot. Where a body
 leaves by one of those, the text is wrong, and it shows, because rendered tags
 and markers are never what an escaped value or nothing looks like.
 */
module AotBodies {
  import opened JsxSyntax
  import opened AotReader
  import opened AotReference
  import opened AotCompiler
  import opened AotCorrect
  import opened AotGuards

  /** `__esc` replaces every `<` (packages/ui-server/src/ssr-aot-runtime.ts). */
  ghost predicate IsEscaping<V(!new)>(w: World<V>) {
    forall v :: '<' !in w.helper("__esc", v)
  }

  // ---- what a rendering starts with ----

  predicate BeginsTag(s: string) {
    2 <= |s| && s[0] == '<' && IsNameChar(s[1])
  }

  predicate BeginsMarker(s: string) {
    2 <= |s| && s[0] == '<' && s[1] == '!'
  }

  predicate IsDomTag(tag: string) {
    tag != "" && IsNameChar(tag[0]) && !IsComponentTag(tag)
  }

  /** Nothing is rendered before the start tag of some DOM element. */
  predicate TagLeads(children: seq<Child>) {
    children != []
    && (if IsSilent(children[0]) then TagLeads(children[1..])
        else
          match children[0]
          case ElementChild(e) => IsDomTag(e.tag)
          case FragmentChild(inner) => TagLeads(inner)
          case _ => false)
  }

  /** JSX whose rendering starts with a tag, whatever its values are. */
  predicate StartsWithTag(expr: Expr) {
    match expr
    case JsxElement(e, _) => IsDomTag(e.tag)
    case JsxFragment(children, _) => TagLeads(children)
    case Paren(inner, _, _) => StartsWithTag(inner)
    case _ => false
  }

  lemma ElementBegins<V>(w: World<V>, scope: map<string, V>, e: Element, rx: bool, hid: Option<string>)
    requires IsDomTag(e.tag)
    ensures BeginsTag(RenderElement(w, scope, e, rx, hid))
  {
    var raw := RawContentOf(e.attrs);
    TagFirst(e.tag, RenderAttrs(w, scope, e.attrs, false), RenderAttrs(w, scope, e.attrs, true), RenderHydration(hid),
             if raw.NoRaw? then RenderChildren(w, scope, e.children, rx, HoldsRawText(e.tag), None)
             else RenderRaw(w, scope, raw));
  }

  lemma TagFirst(tag: string, a: string, b: string, c: string, inner: string)
    requires tag != "" && IsNameChar(tag[0])
    ensures var open := "<" + tag + a + b + c + ">";
      BeginsTag(open) && BeginsTag(open + inner + "</" + tag + ">")
  {
    var open := "<" + tag + a + b + c + ">";
    assert open[0] == '<' && open[1] == tag[0];
    assert (open + inner + "</" + tag + ">")[..2] == open[..2];
  }

  lemma {:induction false} SilentRendersNothing<V>(w: World<V>, scope: map<string, V>, child: Child, rx: bool,
                                                   raw: bool, hid: Option<string>)
    requires IsSilent(child)
    ensures RenderChild(w, scope, child, rx, raw, hid) == ""
    decreases child
  {
    if child.FragmentChild? {
      AllSilentRenderNothing(w, scope, child.children, rx, false, hid);
    }
  }

  lemma {:induction false} AllSilentRenderNothing<V>(w: World<V>, scope: map<string, V>, children: seq<Child>,
                                                     rx: bool, raw: bool, hid: Option<string>)
    requires AllSilent(children)
    ensures RenderChildren(w, scope, children, rx, raw, hid) == ""
    decreases children
  {
    if children != [] {
      var own := if CarriesHydration(children[0]) then hid else None;
      SilentRendersNothing(w, scope, children[0], rx, raw, own);
      AllSilentRenderNothing(w, scope, children[1..], rx, raw, if CarriesHydration(children[0]) then None else hid);
    }
  }

  lemma {:induction false} ChildrenBegin<V>(w: World<V>, scope: map<string, V>, children: seq<Child>, rx: bool,
                                            raw: bool, hid: Option<string>)
    requires TagLeads(children)
    ensures BeginsTag(RenderChildren(w, scope, children, rx, raw, hid))
    decreases children
  {
    var own := if CarriesHydration(children[0]) then hid else None;
    var later := if CarriesHydration(children[0]) then None else hid;
    if IsSilent(children[0]) {
      SilentRendersNothing(w, scope, children[0], rx, raw, own);
      ChildrenBegin(w, scope, children[1..], rx, raw, later);
    } else {
      match children[0] {
        case ElementChild(e) => ElementBegins(w, scope, e, rx, own);
        case FragmentChild(inner) => ChildrenBegin(w, scope, inner, rx, false, own);
      }
    }
  }

  lemma {:induction false} RootBegins<V>(w: World<V>, scope: map<string, V>, expr: Expr, rx: bool, hid: Option<string>)
    requires StartsWithTag(expr)
    ensures BeginsTag(RenderRoot(w, scope, expr, rx, hid))
  {
    match expr {
      case JsxElement(e, _) => ElementBegins(w, scope, e, rx, hid);
      case JsxFragment(children, _) => ChildrenBegin(w, scope, children, rx, false, hid);
      case Paren(inner, _, _) => RootBegins(w, scope, inner, rx, hid);
    }
  }

  lemma {:induction false} ChoiceBegins<V>(w: World<V>, scope: map<string, V>, expr: Expr, rx: bool)
    requires IsChoice(expr)
    ensures BeginsMarker(RenderNode(w, scope, expr, rx))
  {
    if expr.Paren? {
      ChoiceBegins(w, scope, expr.inner, rx);
    }
  }

  lemma {:induction false} JsxFound(expr: Expr)
    ensures FindJsx(expr).Some? <==> IsJsx(expr)
  {
    if expr.Paren? {
      JsxFound(expr.inner);
    }
  }

  /** What a return without JSX renders never starts with a tag, and with a marker only if it is a choice. */
  lemma OtherReturnBegins<V(!new)>(w: World<V>, scope: map<string, V>, outcome: Outcome, rx: bool, hid: Option<string>)
    requires IsEscaping(w) && LeftWithoutJsx(outcome)
    ensures !BeginsTag(RenderOutcome(w, scope, outcome, rx, hid))
    ensures BeginsMarker(RenderOutcome(w, scope, outcome, rx, hid)) ==> LeftByChoice(outcome)
  {
    if outcome.argument.Some? {
      var expr := outcome.argument.value;
      JsxFound(expr);
      if IsChoice(expr) {
        ChoiceBegins(w, scope, expr, rx);
      }
    }
  }

  lemma OtherOutcomeBegins<V(!new)>(w: World<V>, scope: map<string, V>, outcome: Outcome, rx: bool, hid: Option<string>)
    requires IsEscaping(w) && !LeftByJsx(outcome)
    ensures !BeginsTag(RenderOutcome(w, scope, outcome, rx, hid))
    ensures BeginsMarker(RenderOutcome(w, scope, outcome, rx, hid)) ==> LeftByChoice(outcome)
  {
    if outcome.Returned? {
      OtherReturnBegins(w, scope, outcome, rx, hid);
    }
  }

  predicate LeftByChoice(outcome: Outcome) {
    outcome.Returned? && outcome.argument.Some? && IsChoice(outcome.argument.value)
  }

  predicate LeftByJsx(outcome: Outcome) {
    outcome.Returned? && !HoldsNoJsx(outcome.argument)
  }

  // ---- guards ----

  predicate AllStartWithTag(found: seq<Found>) {
    forall f :: f in found ==> StartsWithTag(f.jsx)
  }

  /**
   Where every JSX return starts with a tag, the compiled guards choose what the
   body renders exactly if the body does not leave by a return without JSX.
   */
  lemma GuardsRightExactlyWhen<V(!new)>(w: World<V>, scope: map<string, V>, stmts: seq<Stmt>, rx: bool,
                                        hid: Option<string>)
    requires IsGuardBody(Seen(stmts)) && IsEscaping(w) && AllStartWithTag(BodyReturns(stmts))
    ensures BodyReturns(stmts) != []
    ensures RenderChosen(w, scope, BodyReturns(stmts), rx, hid)
         == RenderOutcome(w, scope, Run(w, scope, stmts), rx, hid)
       <==> !LeftWithoutJsx(Run(w, scope, stmts))
  {
    var found := BodyReturns(stmts);
    GuardsChooseSeen(w, scope, stmts, rx, hid);
    if LeftWithoutJsx(Run(w, scope, stmts)) {
      var i := Chosen(w, scope, found);
      RootBegins(w, scope, found[i].jsx, rx, if found[i].guard.None? then hid else None);
      OtherReturnBegins(w, scope, Run(w, scope, stmts), rx, hid);
    }
  }

  // ---- a single JSX return, anywhere ----

  lemma {:induction false} ReturnIsFound<V>(w: World<V>, scope: map<string, V>, stmts: seq<Stmt>, guard: Option<Guard>)
    requires LeftByJsx(Run(w, scope, stmts))
    ensures exists f :: f in FindReturns(stmts, guard) && Some(f.jsx) == FindJsx(Run(w, scope, stmts).argument.value)
    decreases stmts
  {
    var first := RunStmt(w, scope, stmts[0]);
    if first.Returned? {
      StmtReturnIsFound(w, scope, stmts[0], guard);
      var f :| f in FindInStmt(stmts[0], guard) && Some(f.jsx) == FindJsx(first.argument.value);
      assert f in FindReturns(stmts, guard);
    } else {
      ReturnIsFound(w, scope, stmts[1..], guard);
      var f :| f in FindReturns(stmts[1..], guard) && Some(f.jsx) == FindJsx(Run(w, scope, stmts).argument.value);
      assert f in FindReturns(stmts, guard);
    }
  }

  lemma {:induction false} StmtReturnIsFound<V>(w: World<V>, scope: map<string, V>, stmt: Stmt, guard: Option<Guard>)
    requires LeftByJsx(RunStmt(w, scope, stmt))
    ensures exists f :: f in FindInStmt(stmt, guard) && Some(f.jsx) == FindJsx(RunStmt(w, scope, stmt).argument.value)
    decreases stmt
  {
    match stmt {
      case Return(argument) =>
        var f := Found(guard, FindJsx(argument.value).value);
        assert f in FindInStmt(stmt, guard);
      case Block(body) => ReturnIsFound(w, scope, body, guard);
      case If(test, yes, no) =>
        var taken := if w.truthy(w.eval(test.id, scope)) then yes else no;
        ReturnIsFound(w, scope, taken, guard);
        var f :| f in FindReturns(taken, guard)
              && Some(f.jsx) == FindJsx(RunStmt(w, scope, stmt).argument.value);
        assert f in FindInStmt(stmt, guard);
    }
  }

  /** The JSX a body leaves by is among the returns the compiler has collected. */
  lemma {:induction false} BodyReturnIsFound<V>(w: World<V>, scope: map<string, V>, stmts: seq<Stmt>)
    requires LeftByJsx(Run(w, scope, stmts))
    ensures exists f :: f in BodyReturns(stmts) && Some(f.jsx) == FindJsx(Run(w, scope, stmts).argument.value)
    decreases stmts
  {
    var first := RunStmt(w, scope, stmts[0]);
    if first.Returned? {
      FirstReturnIsFound(w, scope, stmts);
    } else {
      BodyReturnIsFound(w, scope, stmts[1..]);
      var f :| f in BodyReturns(stmts[1..]) && Some(f.jsx) == FindJsx(Run(w, scope, stmts).argument.value);
      assert f in BodyReturns(stmts);
    }
  }

  lemma FirstReturnIsFound<V>(w: World<V>, scope: map<string, V>, stmts: seq<Stmt>)
    requires stmts != [] && LeftByJsx(RunStmt(w, scope, stmts[0]))
    ensures exists f ::
      f in BodyReturns(stmts) && Some(f.jsx) == FindJsx(RunStmt(w, scope, stmts[0]).argument.value)
  {
    var jsx := FindJsx(RunStmt(w, scope, stmts[0]).argument.value);
    if stmts[0].If? {
      var test := stmts[0].test;
      var holds := w.truthy(w.eval(test.id, scope));
      var taken := if holds then stmts[0].thenBranch else stmts[0].elseBranch;
      var guard := Some(Guard(!holds, test));
      ReturnIsFound(w, scope, taken, guard);
      var f :| f in FindReturns(taken, guard) && Some(f.jsx) == jsx;
      assert f in BodyReturns(stmts);
    } else {
      StmtReturnIsFound(w, scope, stmts[0], None);
      var f :| f in FindInStmt(stmts[0], None) && Some(f.jsx) == jsx;
      assert f in BodyReturns(stmts);
    }
  }

  /** What a body renders if each of its returns may carry the hydration id. */
  function RenderResult<V>(w: World<V>, scope: map<string, V>, outcome: Outcome, rx: bool,
                           hid: Option<string>): string {
    RenderOutcome(w, scope, AsLast(outcome), rx, hid)
  }

  function AsLast(outcome: Outcome): Outcome {
    if outcome.Returned? then Returned(outcome.argument, true) else outcome
  }

  lemma OnlyReturnIsFound<V>(w: World<V>, scope: map<string, V>, stmts: seq<Stmt>)
    requires |BodyReturns(stmts)| == 1 && LeftByJsx(Run(w, scope, stmts))
    ensures FindJsx(Run(w, scope, stmts).argument.value) == Some(BodyReturns(stmts)[0].jsx)
  {
    BodyReturnIsFound(w, scope, stmts);
  }

  /**
   A body with one JSX return is compiled to it, whatever stands around it. That
   is what the body renders exactly in the runs that leave by it.
   */
  lemma SingleReturnRightExactlyWhen<V(!new)>(w: World<V>, scope: map<string, V>, stmts: seq<Stmt>, rx: bool,
                                        hid: Option<string>)
    requires |BodyReturns(stmts)| == 1 && IsEscaping(w) && HidOk(hid)
    requires ParsedExpr(BodyReturns(stmts)[0].jsx) && IsJsx(BodyReturns(stmts)[0].jsx)
    requires StartsWithTag(BodyReturns(stmts)[0].jsx)
    ensures BodyText(stmts, rx, hid).Some?
    ensures var r := ReadChain(BodyText(stmts, rx, hid).value);
      && (r.Got? <==> IsReadableRoot(BodyReturns(stmts)[0].jsx))
      && (r.Got? ==>
            (Eval(w, scope, r.value) == RenderResult(w, scope, Run(w, scope, stmts), rx, hid)
             <==> LeftByJsx(Run(w, scope, stmts))))
  {
    AotPreservesMeaning(w, BodyReturns(stmts)[0].jsx, rx, hid);
    SingleIsResult(w, scope, stmts, rx, hid);
  }

  lemma JsxResult<V>(w: World<V>, scope: map<string, V>, expr: Expr, rx: bool, hid: Option<string>)
    requires FindJsx(expr).Some?
    ensures RenderOutcome(w, scope, Returned(Some(expr), true), rx, hid)
         == RenderRoot(w, scope, FindJsx(expr).value, rx, hid)
  {
    JsxFound(expr);
    FoundRenders(w, scope, expr, rx, hid);
  }

  lemma SingleIsResult<V(!new)>(w: World<V>, scope: map<string, V>, stmts: seq<Stmt>, rx: bool, hid: Option<string>)
    requires |BodyReturns(stmts)| == 1 && IsEscaping(w) && StartsWithTag(BodyReturns(stmts)[0].jsx)
    ensures RenderRoot(w, scope, BodyReturns(stmts)[0].jsx, rx, hid)
         == RenderResult(w, scope, Run(w, scope, stmts), rx, hid)
       <==> LeftByJsx(Run(w, scope, stmts))
  {
    var jsx, run := BodyReturns(stmts)[0].jsx, Run(w, scope, stmts);
    RootBegins(w, scope, jsx, rx, hid);
    if LeftByJsx(run) {
      OnlyReturnIsFound(w, scope, stmts);
      JsxResult(w, scope, run.argument.value, rx, hid);
    } else {
      OtherOutcomeBegins(w, scope, AsLast(run), rx, hid);
    }
  }

  // ---- returned choices ----

  lemma {:induction false} ChoiceIsListed<V>(w: World<V>, scope: map<string, V>, stmts: seq<Stmt>)
    requires LeftByChoice(Run(w, scope, stmts))
    ensures Unwrap(Run(w, scope, stmts).argument.value) in Choices(stmts)
    decreases stmts
  {
    if RunStmt(w, scope, stmts[0]).Returned? {
      StmtChoiceIsListed(w, scope, stmts[0]);
    } else {
      ChoiceIsListed(w, scope, stmts[1..]);
    }
  }

  lemma {:induction false} StmtChoiceIsListed<V>(w: World<V>, scope: map<string, V>, stmt: Stmt)
    requires LeftByChoice(RunStmt(w, scope, stmt))
    ensures Unwrap(RunStmt(w, scope, stmt).argument.value) in ChoicesIn(stmt)
    decreases stmt
  {
    match stmt {
      case Block(body) => ChoiceIsListed(w, scope, body);
      case If(test, yes, no) =>
        ChoiceIsListed(w, scope, if w.truthy(w.eval(test.id, scope)) then yes else no);
      case _ =>
    }
  }

  lemma {:induction false} UnwrapRenders<V>(w: World<V>, scope: map<string, V>, expr: Expr, rx: bool)
    ensures RenderNode(w, scope, Unwrap(expr), rx) == RenderNode(w, scope, expr, rx)
    ensures IsChoice(expr) ==> IsChoice(Unwrap(expr)) && !IsJsx(expr)
  {
    if expr.Paren? {
      UnwrapRenders(w, scope, expr.inner, rx);
    }
  }

  lemma {:induction false} AllAreChoices(stmts: seq<Stmt>, choice: Expr)
    requires choice in Choices(stmts)
    ensures IsChoice(choice) && (choice.Conditional? || choice.And?)
    decreases stmts
  {
    if choice in ChoicesIn(stmts[0]) {
      IsAChoice(stmts[0], choice);
    } else {
      AllAreChoices(stmts[1..], choice);
    }
  }

  lemma {:induction false} IsAChoice(stmt: Stmt, choice: Expr)
    requires choice in ChoicesIn(stmt)
    ensures IsChoice(choice) && (choice.Conditional? || choice.And?)
    decreases stmt
  {
    match stmt {
      case Block(body) => AllAreChoices(body, choice);
      case If(_, yes, no) => AllAreChoices(if choice in Choices(yes) then yes else no, choice);
      case _ =>
    }
  }

  /**
   A body without JSX returns and with one returned choice is compiled to it.
   That is what the body renders exactly in the runs that leave by it.
   */
  lemma ChoiceRightExactlyWhen<V(!new)>(w: World<V>, scope: map<string, V>, stmts: seq<Stmt>, rx: bool,
                                        hid: Option<string>)
    requires BodyReturns(stmts) == [] && |Choices(stmts)| == 1 && IsEscaping(w) && ParsedExpr(Choices(stmts)[0])
    ensures BodyText(stmts, rx, hid).Some?
    ensures var r := ReadChain(BodyText(stmts, rx, hid).value);
      && (r.Got? <==> IsReadableNode(Choices(stmts)[0]))
      && (r.Got? ==>
            (Eval(w, scope, r.value) == RenderOutcome(w, scope, Run(w, scope, stmts), rx, hid)
             <==> LeftByChoice(Run(w, scope, stmts))))
  {
    var choice, run := Choices(stmts)[0], Run(w, scope, stmts);
    AllAreChoices(stmts, choice);
    ConditionalRootPreservesMeaning(w, choice, rx);
    ChoiceIsResult(w, scope, stmts, rx, hid);
  }

  lemma ChoiceResult<V>(w: World<V>, scope: map<string, V>, outcome: Outcome, rx: bool, hid: Option<string>)
    requires LeftByChoice(outcome)
    ensures RenderOutcome(w, scope, outcome, rx, hid) == RenderNode(w, scope, Unwrap(outcome.argument.value), rx)
  {
    UnwrapRenders(w, scope, outcome.argument.value, rx);
  }

  lemma ChoiceIsResult<V(!new)>(w: World<V>, scope: map<string, V>, stmts: seq<Stmt>, rx: bool, hid: Option<string>)
    requires BodyReturns(stmts) == [] && |Choices(stmts)| == 1 && IsEscaping(w)
    ensures RenderNode(w, scope, Choices(stmts)[0], rx) == RenderOutcome(w, scope, Run(w, scope, stmts), rx, hid)
       <==> LeftByChoice(Run(w, scope, stmts))
  {
    var choice, run := Choices(stmts)[0], Run(w, scope, stmts);
    AllAreChoices(stmts, choice);
    ChoiceBegins(w, scope, choice, rx);
    if LeftByChoice(run) {
      ChoiceIsListed(w, scope, stmts);
      ChoiceResult(w, scope, run, rx, hid);
    } else if LeftByJsx(run) {
      BodyReturnIsFound(w, scope, stmts);
    } else {
      OtherOutcomeBegins(w, scope, run, rx, hid);
    }
  }

  /** Of several returned choices only the first is compiled. */
  lemma SecondChoiceIsDropped<V>(w: World<V>, scope: map<string, V>, test: Slice, first: Expr, second: Expr, rx: bool,
                                 hid: Option<string>)
    requires first.Conditional? && second.Conditional? && DeepJsx(first) && DeepJsx(second)
    requires !w.truthy(w.eval(test.id, scope))
    ensures var body := [If(test, [Return(Some(first))], []), Return(Some(second))];
      && BodyText(body, rx, hid) == Some(ConditionalRootText(first, rx))
      && RenderOutcome(w, scope, Run(w, scope, body), rx, hid) == RenderNode(w, scope, second, rx)
  {
    var skipped, last := If(test, [Return(Some(first))], []), [Return(Some(second))];
    assert [skipped, Return(Some(second))] == [skipped] + last;
    OnlyChoice(first, Some(Guard(false, test)));
    OnlyChoice(second, None);
    ChoiceBehindIf(test, first, second);
    RunSkips(w, scope, skipped, last);
    assert Run(w, scope, last) == Returned(Some(second), true);
  }

  lemma OnlyChoice(choice: Expr, guard: Option<Guard>)
    requires choice.Conditional? && DeepJsx(choice)
    ensures Choices([Return(Some(choice))]) == [choice]
    ensures FindReturns([Return(Some(choice))], guard) == [] && BodyReturns([Return(Some(choice))]) == []
  {
    assert [Return(Some(choice))][1..] == [];
    assert [choice] + [] == [choice];
  }

  lemma ChoiceBehindIf(test: Slice, first: Expr, second: Expr)
    requires first.Conditional? && second.Conditional? && DeepJsx(first) && DeepJsx(second)
    ensures var body := [If(test, [Return(Some(first))], [])] + [Return(Some(second))];
      BodyReturns(body) == [] && Choices(body) == [first, second]
  {
    var skipped := If(test, [Return(Some(first))], []);
    var body := [skipped] + [Return(Some(second))];
    OnlyChoice(first, Some(Guard(false, test)));
    OnlyChoice(second, None);
    assert body[1..] == [Return(Some(second))];
    IfEntries(body);
    assert ChoicesIn(skipped) == [first] + [] == [first];
  }

  lemma RunSkips<V>(w: World<V>, scope: map<string, V>, skipped: Stmt, rest: seq<Stmt>)
    requires skipped.If? && skipped.elseBranch == [] && !w.truthy(w.eval(skipped.test.id, scope))
    ensures Run(w, scope, [skipped] + rest) == Run(w, scope, rest)
  {
    assert ([skipped] + rest)[1..] == rest;
    assert Run(w, scope, []) == FellThrough;
  }

  /** A fragment that renders nothing hides that the body left by a bare return. */
  lemma EmptyFragmentHides<V>(w: World<V>, scope: map<string, V>, test: Slice, children: seq<Child>, whole: Slice,
                              rx: bool, hid: Option<string>)
    requires AllSilent(children) && w.truthy(w.eval(test.id, scope))
    ensures var body := [If(test, [Return(None)], []), Return(Some(JsxFragment(children, whole)))];
      && LeftWithoutJsx(Run(w, scope, body))
      && RenderRoot(w, scope, JsxFragment(children, whole), rx, hid)
         == RenderOutcome(w, scope, Run(w, scope, body), rx, hid)
  {
    var body := [If(test, [Return(None)], []), Return(Some(JsxFragment(children, whole)))];
    assert Run(w, scope, [Return(None)]) == Returned(None, true);
    assert RunStmt(w, scope, body[0]) == Returned(None, true);
    AllSilentRenderNothing(w, scope, children, rx, false, hid);
  }
}
