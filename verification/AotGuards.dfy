/**
 Component bodies: which of several JSX returns a body takes, and the nested
 conditional the AOT back end compiles them to
 (native/vertz-compiler-core/src/aot_string_transformer.rs).
 */
module AotGuards {
  import opened JsxSyntax
  import opened AotReader
  import opened AotReading
  import opened AotCompiler
  import opened AotReference
  import opened AotCorrect

  /** Statements of a component body, as far as returns are concerned. */
  datatype Stmt =
    | Plain
    | Return(argument: Option<Expr>)
    | Block(body: seq<Stmt>)
    | If(test: Slice, thenBranch: seq<Stmt>, elseBranch: seq<Stmt>)

  // ---- the compiler's analysis ----

  /** A JSX return, with the top-level `if` it sits in, if any. */
  datatype Found = Found(guard: Option<Guard>, jsx: Expr)

  datatype Guard = Guard(negated: bool, test: Slice)

  function FindJsx(expr: Expr): Option<Expr> {
    match expr
    case JsxElement(_, _) => Some(expr)
    case JsxFragment(_, _) => Some(expr)
    case Paren(inner, _, _) => FindJsx(inner)
    case _ => None
  }

  function FoundReturn(argument: Option<Expr>, guard: Option<Guard>): seq<Found> {
    if argument.None? || FindJsx(argument.value).None? then []
    else [Found(guard, FindJsx(argument.value).value)]
  }

  /** All JSX returns of a list of statements below the top level. */
  function FindReturns(stmts: seq<Stmt>, guard: Option<Guard>): seq<Found> {
    if stmts == [] then [] else FindInStmt(stmts[0], guard) + FindReturns(stmts[1..], guard)
  }

  function FindInStmt(stmt: Stmt, guard: Option<Guard>): seq<Found> {
    match stmt
    case Plain => []
    case Return(argument) => FoundReturn(argument, guard)
    case Block(body) => FindReturns(body, guard)
    case If(_, yes, no) => FindReturns(yes, guard) + FindReturns(no, guard)
  }

  /** The JSX returns of a body; only its top-level `if`s are guards. */
  function BodyReturns(stmts: seq<Stmt>): seq<Found> {
    if stmts == [] then []
    else
      (match stmts[0]
       case If(test, yes, no) =>
         FindReturns(yes, Some(Guard(false, test))) + FindReturns(no, Some(Guard(true, test)))
       case _ => FindInStmt(stmts[0], None))
      + BodyReturns(stmts[1..])
  }

  /** All but the last JSX return are guarded, and the last is not. */
  predicate IsGuardPattern(found: seq<Found>) {
    1 < |found| && found[|found| - 1].guard.None? && forall i :: 0 <= i < |found| - 1 ==> found[i].guard.Some?
  }

  function GuardedText(found: seq<Found>, rx: bool, hid: Option<string>): Code
    requires found != []
  {
    if |found| == 1 || found[0].guard.None? then RootText(found[0].jsx, rx, hid)
    else
      var guard := found[0].guard.value;
      var test := if guard.negated then Tx("!(") + [Src(guard.test)] + Tx(")") else [Src(guard.test)];
      Choice(test, RootText(found[0].jsx, rx, None), GuardedText(found[1..], rx, hid))
  }

  // ---- returned conditionals ----

  predicate DeepJsx(expr: Expr) {
    match expr
    case JsxElement(_, _) => true
    case JsxFragment(_, _) => true
    case Conditional(_, yes, no, _) => DeepJsx(yes) || DeepJsx(no)
    case And(_, right, _) => DeepJsx(right)
    case Paren(inner, _, _) => DeepJsx(inner)
    case _ => false
  }

  function Unwrap(expr: Expr): Expr {
    if expr.Paren? then Unwrap(expr.inner) else expr
  }

  /** A conditional or `&&` that holds JSX, possibly in parentheses. */
  predicate IsChoice(expr: Expr) {
    (Unwrap(expr).Conditional? || Unwrap(expr).And?) && DeepJsx(Unwrap(expr))
  }

  /** The returned choices of a list of statements, in source order. */
  function Choices(stmts: seq<Stmt>): seq<Expr>
    decreases stmts
  {
    if stmts == [] then [] else ChoicesIn(stmts[0]) + Choices(stmts[1..])
  }

  function ChoicesIn(stmt: Stmt): seq<Expr>
    decreases stmt
  {
    match stmt
    case Plain => []
    case Return(argument) => if argument.Some? && IsChoice(argument.value) then [Unwrap(argument.value)] else []
    case Block(body) => Choices(body)
    case If(_, yes, no) => Choices(yes) + Choices(no)
  }

  /**
   The compiled expression of a component body, unless it falls back to the
   runtime. A single JSX return is compiled wherever it stands, and without JSX
   returns the first returned choice is.
   */
  function BodyText(stmts: seq<Stmt>, rx: bool, hid: Option<string>): Option<Code> {
    var found := BodyReturns(stmts);
    if |found| > 1 then
      if IsGuardPattern(found) then Some(Marked("conditional", GuardedText(found, rx, hid))) else None
    else if |found| == 1 then Some(RootText(found[0].jsx, rx, hid))
    else if Choices(stmts) != [] then Some(ConditionalRootText(Choices(stmts)[0], rx))
    else None
  }

  // ---- running the body ----

  datatype Outcome = FellThrough | Returned(argument: Option<Expr>, last: bool)

  /** What a body with pure conditions returns, and whether its last statement returned it. */
  function Run<V>(w: World<V>, scope: map<string, V>, stmts: seq<Stmt>): Outcome
    decreases stmts
  {
    if stmts == [] then FellThrough
    else
      var first := RunStmt(w, scope, stmts[0]);
      if first.Returned? then Returned(first.argument, |stmts| == 1 && stmts[0].Return?)
      else Run(w, scope, stmts[1..])
  }

  function RunStmt<V>(w: World<V>, scope: map<string, V>, stmt: Stmt): Outcome
    decreases stmt
  {
    match stmt
    case Plain => FellThrough
    case Return(argument) => Returned(argument, false)
    case Block(body) => Run(w, scope, body)
    case If(test, yes, no) => if w.truthy(w.eval(test.id, scope)) then Run(w, scope, yes) else Run(w, scope, no)
  }

  function RenderRoot<V>(w: World<V>, scope: map<string, V>, expr: Expr, rx: bool, hid: Option<string>): string {
    match expr
    case JsxElement(e, _) => RenderElement(w, scope, e, rx, hid)
    case JsxFragment(children, _) => RenderChildren(w, scope, children, rx, false, hid)
    case Paren(inner, _, _) => RenderRoot(w, scope, inner, rx, hid)
    case _ => ""
  }

  /** A returned expression: JSX, a choice between JSX, or any other value, which is escaped. */
  function RenderReturned<V>(w: World<V>, scope: map<string, V>, expr: Expr, rx: bool, hid: Option<string>): string {
    if IsJsx(expr) then RenderRoot(w, scope, expr, rx, hid)
    else if IsChoice(expr) then RenderNode(w, scope, expr, rx)
    else Escaped(w, scope, expr.whole)
  }

  /** What a body renders: what it returns; only the final return carries the hydration id. */
  function RenderOutcome<V>(w: World<V>, scope: map<string, V>, outcome: Outcome, rx: bool,
                            hid: Option<string>): string {
    if outcome.FellThrough? || outcome.argument.None? then ""
    else RenderReturned(w, scope, outcome.argument.value, rx, if outcome.last then hid else None)
  }

  // ---- single roots ----

  predicate IsReadableRoot(expr: Expr) {
    IsJsx(expr) ==> IsReadableNode(expr)
  }

  lemma {:induction false} RootReads<V>(w: World<V>, expr: Expr, rx: bool, hid: Option<string>)
    returns (k: Option<Chain>)
    requires ParsedExpr(expr) && HidOk(hid)
    ensures ChainIs(RootText(expr, rx, hid), k)
    ensures k.Some? <==> IsReadableRoot(expr)
    ensures k.Some? ==> forall scope :: Eval(w, scope, k.value) == RenderRoot(w, scope, expr, rx, hid)
  {
    match expr {
      case JsxElement(e, _) => k := ElementReads(w, e, rx, hid);
      case JsxFragment(children, _) => k := FragmentReads(w, children, rx, hid);
      case Paren(inner, _, _) => k := RootReads(w, inner, rx, hid);
      case _ =>
        k := Some(End);
        EmptyLiteral();
    }
  }

  /** Text that contributes a chain is read, whole, as that chain; text that breaks is not read. */
  lemma WholeReading(x: Code, k: Option<Chain>)
    requires ChainIs(x, k)
    ensures ReadChain(x) == if k.None? then Fail else Got(k.value, [])
  {
    assert x + [] == x;
    assert !StartsWith([], " + ");
    ChainEnds(x, k, []);
  }

  /**
   A component with a single JSX root: its compiled text reads as it was written,
   every slice one operand, exactly when the tree is readable, and then evaluates
   to the reference rendering.
   */
  lemma AotPreservesMeaning<V>(w: World<V>, root: Expr, rx: bool, hid: Option<string>)
    requires ParsedExpr(root) && HidOk(hid)
    ensures var r := ReadChain(RootText(root, rx, hid));
            && (r.Got? <==> IsReadableRoot(root))
            && (r.Got? ==> r.rest == [])
            && (r.Got? ==> forall scope :: Eval(w, scope, r.value) == RenderRoot(w, scope, root, rx, hid))
  {
    var k := RootReads(w, root, rx, hid);
    WholeReading(RootText(root, rx, hid), k);
  }

  /**
   A component that returns a conditional or `&&`: its compiled text reads as it
   was written exactly when its branches are readable, and evaluates to the taken
   branch between markers.
   */
  lemma ConditionalRootPreservesMeaning<V>(w: World<V>, root: Expr, rx: bool)
    requires ParsedExpr(root)
    ensures var r := ReadChain(ConditionalRootText(root, rx));
            var choice := root.Conditional? || root.And?;
            && (r.Got? <==> if choice then IsReadableNode(root) else !root.whole.binding.Comma?)
            && (r.Got? ==> r.rest == [] && forall scope ::
                  Eval(w, scope, r.value)
                  == if choice then RenderNode(w, scope, root, rx) else Escaped(w, scope, root.whole))
  {
    var k: Option<Chain>;
    if root.Conditional? || root.And? {
      k := NodeReads(w, root, rx);
    } else {
      k := CallReads(w, "__esc", root.whole);
    }
    WholeReading(ConditionalRootText(root, rx), k);
  }

  // ---- guard patterns ----

  predicate ParsedFound(found: seq<Found>) {
    forall f :: f in found ==> ParsedExpr(f.jsx) && IsJsx(f.jsx)
  }

  /** Conditions copied bare bind tighter than `?`, and every branch is readable. */
  predicate IsReadablePattern(found: seq<Found>) {
    forall i :: 0 <= i < |found| ==>
      IsReadableRoot(found[i].jsx)
        && (found[i].guard.Some? && !found[i].guard.value.negated ==> !found[i].guard.value.test.binding.IsLoose())
  }

  /** The first entry whose guard holds, or the last. */
  function Chosen<V>(w: World<V>, scope: map<string, V>, found: seq<Found>): nat
    requires found != []
    ensures Chosen(w, scope, found) < |found|
  {
    if |found| == 1 || found[0].guard.None? then 0
    else if w.truthy(w.eval(found[0].guard.value.test.id, scope)) != found[0].guard.value.negated then 0
    else 1 + Chosen(w, scope, found[1..])
  }

  function RenderChosen<V>(w: World<V>, scope: map<string, V>, found: seq<Found>, rx: bool, hid: Option<string>): string
    requires found != []
  {
    var i := Chosen(w, scope, found);
    RenderRoot(w, scope, found[i].jsx, rx, if found[i].guard.None? then hid else None)
  }

  lemma GuardChoice(guard: Guard, yes: Code, a: Option<Chain>, no: Code, b: Option<Chain>)
    requires ChainIs(yes, a) && ChainIs(no, b)
    ensures var test := if guard.negated then Tx("!(") + [Src(guard.test)] + Tx(")") else [Src(guard.test)];
            ChainIs(Choice(test, yes, no),
                    Unless(!guard.negated && guard.test.binding.IsLoose(), BranchOp(guard.negated, guard.test, a, b)))
  {
    if guard.negated {
      NotChoiceChain(guard.test, yes, a, no, b);
      assert Tx("(") + (Tx("!(") + [Src(guard.test)] + Tx(")")) + Tx(" ? ")
          == Tx("(!(") + [Src(guard.test)] + Tx(") ? ");
    } else {
      ChoiceChain(guard.test, yes, a, no, b);
    }
  }

  lemma {:induction false} GuardedReads<V>(w: World<V>, found: seq<Found>, rx: bool, hid: Option<string>)
    returns (k: Option<Chain>)
    requires found != [] && ParsedFound(found) && HidOk(hid)
    requires found[|found| - 1].guard.None? && forall i :: 0 <= i < |found| - 1 ==> found[i].guard.Some?
    ensures ChainIs(GuardedText(found, rx, hid), k)
    ensures k.Some? <==> IsReadablePattern(found)
    ensures k.Some? ==> forall scope :: Eval(w, scope, k.value) == RenderChosen(w, scope, found, rx, hid)
  {
    if |found| == 1 {
      k := RootReads(w, found[0].jsx, rx, hid);
    } else {
      var guard := found[0].guard.value;
      var a := RootReads(w, found[0].jsx, rx, None);
      var b := GuardedReads(w, found[1..], rx, hid);
      GuardChoice(guard, RootText(found[0].jsx, rx, None), a, GuardedText(found[1..], rx, hid), b);
      k := Unless(!guard.negated && guard.test.binding.IsLoose(), BranchOp(guard.negated, guard.test, a, b));
      PatternStep(found);
      forall scope: map<string, V> | k.Some?
        ensures Eval(w, scope, k.value) == RenderChosen(w, scope, found, rx, hid)
      {
        BranchValue(w, scope, guard, a.value, b.value);
        ChosenStep(w, scope, found, rx, hid);
      }
    }
  }

  lemma BranchValue<V>(w: World<V>, scope: map<string, V>, guard: Guard, a: Chain, b: Chain)
    ensures Eval(w, scope, BranchOp(guard.negated, guard.test, Some(a), Some(b)).value)
         == if w.truthy(w.eval(guard.test.id, scope)) != guard.negated then Eval(w, scope, a) else Eval(w, scope, b)
  {
    var op := BranchOp(guard.negated, guard.test, Some(a), Some(b)).value.op;
    var s := EvalOperand(w, scope, op);
    assert s + "" == s;
  }

  lemma ChosenStep<V>(w: World<V>, scope: map<string, V>, found: seq<Found>, rx: bool, hid: Option<string>)
    requires 1 < |found| && found[0].guard.Some?
    ensures RenderChosen(w, scope, found, rx, hid)
         == if w.truthy(w.eval(found[0].guard.value.test.id, scope)) != found[0].guard.value.negated
            then RenderRoot(w, scope, found[0].jsx, rx, None)
            else RenderChosen(w, scope, found[1..], rx, hid)
  {
  }

  lemma PatternStep(found: seq<Found>)
    requires found != []
    ensures IsReadablePattern(found)
       <==> IsReadableRoot(found[0].jsx)
            && (found[0].guard.Some? && !found[0].guard.value.negated ==> !found[0].guard.value.test.binding.IsLoose())
            && IsReadablePattern(found[1..])
  {
    assert found == [found[0]] + found[1..];
  }

  // ---- whole bodies ----

  /** No return stands in the statement. */
  predicate IsQuiet(stmt: Stmt) {
    match stmt
    case Plain => true
    case Return(_) => false
    case Block(body) => AllQuiet(body)
    case If(_, yes, no) => AllQuiet(yes) && AllQuiet(no)
  }

  predicate AllQuiet(stmts: seq<Stmt>) {
    stmts == [] || (IsQuiet(stmts[0]) && AllQuiet(stmts[1..]))
  }

  /** Quiet statements, with at most one JSX return among them, possibly inside blocks. */
  predicate IsStraight(branch: seq<Stmt>) {
    branch == []
    || (IsQuiet(branch[0]) && IsStraight(branch[1..]))
    || ((ReturnsJsx(branch[0]) || (branch[0].Block? && IsStraight(branch[0].body))) && AllQuiet(branch[1..]))
  }

  predicate ReturnsJsx(stmt: Stmt) {
    stmt.Return? && stmt.argument.Some? && ParsedExpr(stmt.argument.value) && IsJsx(stmt.argument.value)
  }

  /** Quiet statements and top-level `if`s with straight branches, then a JSX return. */
  predicate IsGuardBody(stmts: seq<Stmt>) {
    stmts != []
    && (if |stmts| == 1 then ReturnsJsx(stmts[0])
        else (IsQuiet(stmts[0]) || (stmts[0].If? && IsStraight(stmts[0].thenBranch) && IsStraight(stmts[0].elseBranch)))
             && IsGuardBody(stmts[1..]))
  }

  lemma {:induction false} FoundIsJsx(expr: Expr)
    requires IsJsx(expr)
    ensures FindJsx(expr).Some? && IsJsx(FindJsx(expr).value)
    ensures ParsedExpr(expr) ==> ParsedExpr(FindJsx(expr).value)
  {
    if expr.Paren? {
      FoundIsJsx(expr.inner);
    }
  }

  lemma {:induction false} FoundRenders<V>(w: World<V>, scope: map<string, V>, expr: Expr, rx: bool,
                                           hid: Option<string>)
    requires IsJsx(expr)
    ensures FindJsx(expr).Some?
    ensures RenderRoot(w, scope, FindJsx(expr).value, rx, hid) == RenderRoot(w, scope, expr, rx, hid)
  {
    if expr.Paren? {
      FoundRenders(w, scope, expr.inner, rx, hid);
    }
  }

  lemma {:induction false} QuietFalls<V>(w: World<V>, scope: map<string, V>, stmt: Stmt, guard: Option<Guard>)
    requires IsQuiet(stmt)
    ensures FindInStmt(stmt, guard) == [] && RunStmt(w, scope, stmt).FellThrough?
    decreases stmt
  {
    match stmt {
      case Block(body) => AllQuietFall(w, scope, body, guard);
      case If(_, yes, no) =>
        AllQuietFall(w, scope, yes, guard);
        AllQuietFall(w, scope, no, guard);
      case _ =>
    }
  }

  lemma {:induction false} AllQuietFall<V>(w: World<V>, scope: map<string, V>, stmts: seq<Stmt>, guard: Option<Guard>)
    requires AllQuiet(stmts)
    ensures FindReturns(stmts, guard) == [] && Run(w, scope, stmts).FellThrough?
    decreases stmts
  {
    if stmts != [] {
      QuietFalls(w, scope, stmts[0], guard);
      AllQuietFall(w, scope, stmts[1..], guard);
    }
  }

  /** A straight branch gives at most one guard entry, and running it returns just that. */
  lemma {:induction false} StraightRuns<V>(w: World<V>, scope: map<string, V>, branch: seq<Stmt>, guard: Guard,
                                           rx: bool)
    requires IsStraight(branch)
    ensures var found := FindReturns(branch, Some(guard));
            && |found| <= 1 && ParsedFound(found)
            && (found == [] ==> Run(w, scope, branch).FellThrough?)
            && (found != [] ==> found[0].guard == Some(guard) && Run(w, scope, branch).Returned?
                                && RenderOutcome(w, scope, Returned(Run(w, scope, branch).argument, false), rx, None)
                                   == RenderRoot(w, scope, found[0].jsx, rx, None))
    decreases branch
  {
    if branch == [] {
    } else if IsQuiet(branch[0]) && IsStraight(branch[1..]) {
      StraightRuns(w, scope, branch[1..], guard, rx);
      QuietFalls(w, scope, branch[0], Some(guard));
      QuietFirst(w, scope, branch, Some(guard));
    } else {
      AllQuietFall(w, scope, branch[1..], Some(guard));
      EndingOnly(w, scope, branch, Some(guard));
      if branch[0].Block? {
        StraightRuns(w, scope, branch[0].body, guard, rx);
      } else {
        var argument := branch[0].argument;
        FoundIsJsx(argument.value);
        FoundRenders(w, scope, argument.value, rx, None);
      }
    }
  }

  lemma QuietFirst<V>(w: World<V>, scope: map<string, V>, branch: seq<Stmt>, guard: Option<Guard>)
    requires branch != [] && FindInStmt(branch[0], guard) == [] && RunStmt(w, scope, branch[0]).FellThrough?
    ensures FindReturns(branch, guard) == FindReturns(branch[1..], guard)
    ensures Run(w, scope, branch) == Run(w, scope, branch[1..])
  {
  }

  lemma EndingOnly<V>(w: World<V>, scope: map<string, V>, branch: seq<Stmt>, guard: Option<Guard>)
    requires branch != [] && FindReturns(branch[1..], guard) == [] && Run(w, scope, branch[1..]).FellThrough?
    ensures FindReturns(branch, guard) == FindInStmt(branch[0], guard)
    ensures var first, run := RunStmt(w, scope, branch[0]), Run(w, scope, branch);
      if first.Returned? then run.Returned? && run.argument == first.argument else run.FellThrough?
  {
  }

  ghost predicate IsPatternList(found: seq<Found>) {
    found != [] && found[|found| - 1].guard.None? && ParsedFound(found)
    && forall i :: 0 <= i < |found| - 1 ==> found[i].guard.Some?
  }

  /** The compiled list of guards chooses the JSX that running the body returns. */
  lemma {:induction false} GuardBodyRuns<V>(w: World<V>, scope: map<string, V>, stmts: seq<Stmt>, rx: bool,
                                            hid: Option<string>)
    requires IsGuardBody(stmts)
    ensures IsPatternList(BodyReturns(stmts))
    ensures RenderOutcome(w, scope, Run(w, scope, stmts), rx, hid)
      == RenderChosen(w, scope, BodyReturns(stmts), rx, hid)
  {
    if |stmts| == 1 {
      var argument := stmts[0].argument;
      FoundIsJsx(argument.value);
      FoundRenders(w, scope, argument.value, rx, hid);
      assert BodyReturns(stmts) == FoundReturn(argument, None) + [] == FoundReturn(argument, None);
    } else {
      GuardBodyRuns(w, scope, stmts[1..], rx, hid);
      if IsQuiet(stmts[0]) {
        QuietBodyFirst(w, scope, stmts);
      } else {
        GuardIfRuns(w, scope, stmts, rx, hid);
      }
    }
  }

  lemma QuietBodyFirst<V>(w: World<V>, scope: map<string, V>, stmts: seq<Stmt>)
    requires stmts != [] && IsQuiet(stmts[0])
    ensures BodyReturns(stmts) == BodyReturns(stmts[1..])
    ensures Run(w, scope, stmts) == Run(w, scope, stmts[1..])
  {
    var rest := BodyReturns(stmts[1..]);
    QuietFalls(w, scope, stmts[0], None);
    assert [] + rest == rest;
    if stmts[0].If? {
      AllQuietFall(w, scope, stmts[0].thenBranch, Some(Guard(false, stmts[0].test)));
      AllQuietFall(w, scope, stmts[0].elseBranch, Some(Guard(true, stmts[0].test)));
    }
  }

  lemma GuardIfRuns<V>(w: World<V>, scope: map<string, V>, stmts: seq<Stmt>, rx: bool, hid: Option<string>)
    requires 1 < |stmts| && stmts[0].If? && IsStraight(stmts[0].thenBranch) && IsStraight(stmts[0].elseBranch)
    requires IsPatternList(BodyReturns(stmts[1..]))
    requires RenderOutcome(w, scope, Run(w, scope, stmts[1..]), rx, hid)
          == RenderChosen(w, scope, BodyReturns(stmts[1..]), rx, hid)
    ensures IsPatternList(BodyReturns(stmts))
    ensures RenderOutcome(w, scope, Run(w, scope, stmts), rx, hid)
      == RenderChosen(w, scope, BodyReturns(stmts), rx, hid)
  {
    var test, yes, no := stmts[0].test, stmts[0].thenBranch, stmts[0].elseBranch;
    var a := FindReturns(yes, Some(Guard(false, test)));
    var b := FindReturns(no, Some(Guard(true, test)));
    var rest := BodyReturns(stmts[1..]);
    StraightRuns(w, scope, yes, Guard(false, test), rx);
    StraightRuns(w, scope, no, Guard(true, test), rx);
    ChosenIf(w, scope, a, b, rest, test, rx, hid);
    RunIf(w, scope, stmts, rx, hid);
    IfEntries(stmts);
  }

  lemma IfEntries(stmts: seq<Stmt>)
    requires stmts != [] && stmts[0].If?
    ensures BodyReturns(stmts)
         == FindReturns(stmts[0].thenBranch, Some(Guard(false, stmts[0].test)))
            + (FindReturns(stmts[0].elseBranch, Some(Guard(true, stmts[0].test))) + BodyReturns(stmts[1..]))
  {
    var a := FindReturns(stmts[0].thenBranch, Some(Guard(false, stmts[0].test)));
    var b := FindReturns(stmts[0].elseBranch, Some(Guard(true, stmts[0].test)));
    assert (a + b) + BodyReturns(stmts[1..]) == a + (b + BodyReturns(stmts[1..]));
  }

  lemma ChosenIf<V>(w: World<V>, scope: map<string, V>, a: seq<Found>, b: seq<Found>, rest: seq<Found>, test: Slice,
                    rx: bool, hid: Option<string>)
    requires |a| <= 1 && ParsedFound(a) && (a != [] ==> a[0].guard == Some(Guard(false, test)))
    requires |b| <= 1 && ParsedFound(b) && (b != [] ==> b[0].guard == Some(Guard(true, test)))
    requires IsPatternList(rest)
    ensures IsPatternList(a + (b + rest))
    ensures var taken := if w.truthy(w.eval(test.id, scope)) then a else b;
            RenderChosen(w, scope, a + (b + rest), rx, hid)
            == if taken != [] then RenderRoot(w, scope, taken[0].jsx, rx, None)
               else RenderChosen(w, scope, rest, rx, hid)
  {
    EntryStep(w, scope, b, rest, Guard(true, test), rx, hid);
    EntryStep(w, scope, a, b + rest, Guard(false, test), rx, hid);
  }

  lemma RunIf<V>(w: World<V>, scope: map<string, V>, stmts: seq<Stmt>, rx: bool, hid: Option<string>)
    requires 1 < |stmts| && stmts[0].If?
    ensures var branch := if w.truthy(w.eval(stmts[0].test.id, scope)) then stmts[0].thenBranch
                          else stmts[0].elseBranch;
            var taken := Run(w, scope, branch);
            RenderOutcome(w, scope, Run(w, scope, stmts), rx, hid)
            == if taken.Returned? then RenderOutcome(w, scope, Returned(taken.argument, false), rx, None)
               else RenderOutcome(w, scope, Run(w, scope, stmts[1..]), rx, hid)
  {
  }

  /** Putting at most one guarded entry before a list of entries. */
  lemma EntryStep<V>(w: World<V>, scope: map<string, V>, entry: seq<Found>, rest: seq<Found>, guard: Guard, rx: bool,
                     hid: Option<string>)
    requires |entry| <= 1 && ParsedFound(entry) && (entry != [] ==> entry[0].guard == Some(guard))
      && IsPatternList(rest)
    ensures IsPatternList(entry + rest)
    ensures RenderChosen(w, scope, entry + rest, rx, hid)
         == if entry != [] && w.truthy(w.eval(guard.test.id, scope)) != guard.negated
            then RenderRoot(w, scope, entry[0].jsx, rx, None)
            else RenderChosen(w, scope, rest, rx, hid)
  {
    if entry == [] {
      assert entry + rest == rest;
    } else {
      assert (entry + rest)[1..] == rest;
      EntryJoins(entry, rest);
      ChosenStep(w, scope, entry + rest, rx, hid);
    }
  }

  lemma EntryJoins(entry: seq<Found>, rest: seq<Found>)
    requires |entry| == 1 && ParsedFound(entry) && entry[0].guard.Some? && IsPatternList(rest)
    ensures IsPatternList(entry + rest)
  {
    var found := entry + rest;
    forall i | 0 <= i < |found| - 1 ensures found[i].guard.Some? {
      if i > 0 { assert found[i] == rest[i - 1]; }
    }
    assert found[|found| - 1] == rest[|rest| - 1];
  }

  // ---- returns without JSX ----

  predicate HoldsNoJsx(argument: Option<Expr>) {
    argument.None? || FindJsx(argument.value).None?
  }

  /** The statements as the compiler sees them: a return without JSX is nothing. */
  function SeenStmt(stmt: Stmt): Stmt
    decreases stmt
  {
    match stmt
    case Return(argument) => if HoldsNoJsx(argument) then Plain else stmt
    case Block(body) => Block(Seen(body))
    case If(test, yes, no) => If(test, Seen(yes), Seen(no))
    case Plain => Plain
  }

  function Seen(stmts: seq<Stmt>): seq<Stmt>
    decreases stmts
  {
    if stmts == [] then [] else [SeenStmt(stmts[0])] + Seen(stmts[1..])
  }

  lemma {:induction false} SeenIsFound(stmts: seq<Stmt>, guard: Option<Guard>)
    ensures FindReturns(Seen(stmts), guard) == FindReturns(stmts, guard)
    decreases stmts
  {
    if stmts != [] {
      SeenStmtIsFound(stmts[0], guard);
      SeenIsFound(stmts[1..], guard);
      assert Seen(stmts)[1..] == Seen(stmts[1..]);
    }
  }

  lemma {:induction false} SeenStmtIsFound(stmt: Stmt, guard: Option<Guard>)
    ensures FindInStmt(SeenStmt(stmt), guard) == FindInStmt(stmt, guard)
    decreases stmt
  {
    match stmt {
      case Block(body) => SeenIsFound(body, guard);
      case If(_, yes, no) =>
        SeenIsFound(yes, guard);
        SeenIsFound(no, guard);
      case _ =>
    }
  }

  lemma {:induction false} SeenBody(stmts: seq<Stmt>)
    ensures BodyReturns(Seen(stmts)) == BodyReturns(stmts)
  {
    if stmts != [] {
      SeenBody(stmts[1..]);
      assert Seen(stmts)[1..] == Seen(stmts[1..]);
      SeenStmtIsFound(stmts[0], None);
      if stmts[0].If? {
        SeenIsFound(stmts[0].thenBranch, Some(Guard(false, stmts[0].test)));
        SeenIsFound(stmts[0].elseBranch, Some(Guard(true, stmts[0].test)));
      }
    }
  }

  /** The body has left by a return that holds no JSX. */
  predicate LeftWithoutJsx(outcome: Outcome) {
    outcome.Returned? && HoldsNoJsx(outcome.argument)
  }

  /** Any body runs as the compiler sees it, up to the first return without JSX. */
  lemma {:induction false} SeenRuns<V>(w: World<V>, scope: map<string, V>, stmts: seq<Stmt>)
    ensures !LeftWithoutJsx(Run(w, scope, stmts)) ==> Run(w, scope, Seen(stmts)) == Run(w, scope, stmts)
    decreases stmts
  {
    if stmts != [] {
      SeenStmtRuns(w, scope, stmts[0]);
      SeenRuns(w, scope, stmts[1..]);
      assert Seen(stmts)[1..] == Seen(stmts[1..]);
      assert Seen(stmts[1..]) == [] <==> stmts[1..] == [];
    }
  }

  lemma {:induction false} SeenStmtRuns<V>(w: World<V>, scope: map<string, V>, stmt: Stmt)
    ensures !LeftWithoutJsx(RunStmt(w, scope, stmt)) ==> RunStmt(w, scope, SeenStmt(stmt)) == RunStmt(w, scope, stmt)
    decreases stmt
  {
    match stmt {
      case Block(body) => SeenRuns(w, scope, body);
      case If(_, yes, no) =>
        SeenRuns(w, scope, yes);
        SeenRuns(w, scope, no);
      case _ =>
    }
  }

  /**
   The compiled guards choose what the body returns as the compiler sees it, and
   that is what the body returns unless it leaves by a return without JSX.
   */
  lemma GuardsChooseSeen<V>(w: World<V>, scope: map<string, V>, stmts: seq<Stmt>, rx: bool, hid: Option<string>)
    requires IsGuardBody(Seen(stmts))
    ensures IsPatternList(BodyReturns(stmts))
    ensures var chosen, run := RenderChosen(w, scope, BodyReturns(stmts), rx, hid), Run(w, scope, stmts);
      && chosen == RenderOutcome(w, scope, Run(w, scope, Seen(stmts)), rx, hid)
      && (!LeftWithoutJsx(run) ==> chosen == RenderOutcome(w, scope, run, rx, hid))
  {
    SeenBody(stmts);
    GuardBodyRuns(w, scope, Seen(stmts), rx, hid);
    SeenRuns(w, scope, stmts);
  }

  /**
   Guard returns are compiled faithfully: the compiled conditional reads as it was
   written exactly when its branches are readable and no unnegated condition is
   loose, and it then evaluates to the JSX the body returns, unless the body
   leaves by a return without JSX.
   */
  lemma GuardsPreserveMeaning<V>(w: World<V>, stmts: seq<Stmt>, rx: bool, hid: Option<string>)
    requires IsGuardBody(Seen(stmts)) && HidOk(hid)
    ensures BodyText(stmts, rx, hid).Some?
    ensures var r := ReadChain(BodyText(stmts, rx, hid).value);
            && (r.Got? <==> IsReadablePattern(BodyReturns(stmts)))
            && (r.Got? ==> r.rest == [] && forall scope ::
                  !LeftWithoutJsx(Run(w, scope, stmts)) ==>
                    Eval(w, scope, r.value)
                    == if |BodyReturns(stmts)| == 1 then RenderOutcome(w, scope, Run(w, scope, stmts), rx, hid)
                       else Bracketed("conditional", RenderOutcome(w, scope, Run(w, scope, stmts), rx, hid)))
  {
    GuardsChooseSeen(w, map[], stmts, rx, hid);
    PatternText(stmts, rx, hid);
    forall scope: map<string, V> | !LeftWithoutJsx(Run(w, scope, stmts))
      ensures RenderOutcome(w, scope, Run(w, scope, stmts), rx, hid)
        == RenderChosen(w, scope, BodyReturns(stmts), rx, hid)
    {
      GuardsChooseSeen(w, scope, stmts, rx, hid);
    }
    PatternReads(w, BodyReturns(stmts), rx, hid);
  }

  lemma PatternText(stmts: seq<Stmt>, rx: bool, hid: Option<string>)
    requires IsPatternList(BodyReturns(stmts))
    ensures var found := BodyReturns(stmts);
      BodyText(stmts, rx, hid) == Some(if |found| == 1 then RootText(found[0].jsx, rx, hid)
                                       else Marked("conditional", GuardedText(found, rx, hid)))
  {
  }

  lemma PatternReads<V>(w: World<V>, found: seq<Found>, rx: bool, hid: Option<string>)
    requires IsPatternList(found) && HidOk(hid)
    ensures var code := if |found| == 1 then RootText(found[0].jsx, rx, hid)
      else Marked("conditional", GuardedText(found, rx, hid));
            var r := ReadChain(code);
            && (r.Got? <==> IsReadablePattern(found))
            && (r.Got? ==> r.rest == [] && forall scope ::
                  Eval(w, scope, r.value) == if |found| == 1 then RenderChosen(w, scope, found, rx, hid)
                                             else Bracketed("conditional", RenderChosen(w, scope, found, rx, hid)))
  {
    var k := GuardedReads(w, found, rx, hid);
    if |found| == 1 {
      WholeReading(RootText(found[0].jsx, rx, hid), k);
    } else {
      MarkedReading(w, GuardedText(found, rx, hid), k);
    }
  }

  /** A whole text between conditional markers. */
  lemma MarkedReading<V>(w: World<V>, x: Code, k: Option<Chain>)
    requires ChainIs(x, k)
    ensures var r := ReadChain(Marked("conditional", x));
            && (r.Got? <==> k.Some?)
            && (r.Got? ==> r.rest == [] && forall scope ::
                  Eval(w, scope, r.value) == Bracketed("conditional", Eval(w, scope, k.value)))
  {
    var m := BracketReads(w, "conditional", x, k);
    WholeReading(Marked("conditional", x), m);
  }

  // ---- bodies outside the pattern ----

  lemma OneReturn(jsx: Expr, guard: Option<Guard>)
    requires jsx.JsxElement?
    ensures FindReturns([Return(Some(jsx))], guard) == [Found(guard, jsx)]
    ensures BodyReturns([Return(Some(jsx))]) == [Found(None, jsx)]
  {
    assert [Return(Some(jsx))][1..] == [];
  }

  /** An early return without JSX is not seen: the compiled body renders what the source skips. */
  lemma EarlyReturnIsIgnored<V>(w: World<V>, scope: map<string, V>, test: Slice, jsx: Expr, rx: bool,
                                hid: Option<string>)
    requires jsx.JsxElement? && w.truthy(w.eval(test.id, scope))
    ensures var body := [If(test, [Return(None)], []), Return(Some(jsx))];
      && BodyText(body, rx, hid) == Some(RootText(jsx, rx, hid))
      && RenderOutcome(w, scope, Run(w, scope, body), rx, hid) == ""
  {
    var body := [If(test, [Return(None)], []), Return(Some(jsx))];
    OneReturn(jsx, None);
    assert body[1..] == [Return(Some(jsx))];
    assert [Return(None)][1..] == [];
    IfEntries(body);
    assert BodyReturns(body) == [Found(None, jsx)];
    assert Run(w, scope, [Return(None)]) == Returned(None, true);
  }

  /** Only the outer test of nested `if`s becomes a guard. */
  lemma NestedGuardIsFlattened<V>(w: World<V>, scope: map<string, V>, outer: Slice, inner: Slice, a: Expr, b: Expr,
                                  rx: bool, hid: Option<string>)
    requires a.JsxElement? && b.JsxElement?
    requires w.truthy(w.eval(outer.id, scope)) && !w.truthy(w.eval(inner.id, scope))
    ensures var body := [If(outer, [If(inner, [Return(Some(a))], [])], []), Return(Some(b))];
      && BodyReturns(body) != []
      && RenderChosen(w, scope, BodyReturns(body), rx, hid) == RenderRoot(w, scope, a, rx, None)
      && RenderOutcome(w, scope, Run(w, scope, body), rx, hid) == RenderRoot(w, scope, b, rx, hid)
  {
    var nested := If(inner, [Return(Some(a))], []);
    var body := [If(outer, [nested], []), Return(Some(b))];
    var guard := Some(Guard(false, outer));
    OneReturn(a, guard);
    OneReturn(b, None);
    assert body[1..] == [Return(Some(b))];
    assert [nested][1..] == [];
    IfEntries(body);
    assert FindReturns([nested], guard) == [Found(guard, a)];
    assert BodyReturns(body) == [Found(guard, a), Found(None, b)];
    assert RunStmt(w, scope, nested) == FellThrough by {
      assert Run(w, scope, []) == FellThrough;
    }
    assert Run(w, scope, [nested]).FellThrough? by {
      assert Run(w, scope, [nested][1..]) == FellThrough;
    }
    RunIf(w, scope, body, rx, hid);
  }
}
