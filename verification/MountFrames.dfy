/**
 Mount-frame wrapping of component bodies
 (native/vertz-compiler-core/src/mount_frame_transformer.rs): which returns are
 collected, and what the body reads like after its returns are overwritten.
 */
module MountFrames {
  import opened JsxSyntax

  /**
   Expressions: opaque steps, `onMount` calls and component calls, in evaluation
   order. `Comma` is a comma expression without parentheses around it, `Assign`
   an assignment to a name; a parenthesised comma expression is a `Then`.
   */
  datatype Expression =
    | Step(id: nat)
    | OnMount(callback: nat)
    | Call(component: nat)
    | Then(first: Expression, second: Expression)
    | Choose(test: Expression, yes: Expression, no: Expression)
    | Comma(first: Expression, rest: Expression)
    | Assign(value: Expression, target: nat)

  datatype Stmt =
    | Do(e: Expression)
    | Return(argument: Option<Expression>)
    | Throw(e: Expression)
    | If(test: Expression, yes: Stmt, no: Option<Stmt>)
    | While(test: Expression, body: Stmt)
    | Block(stmts: seq<Stmt>)
    | Try(body: Stmt, handler: Option<Stmt>, finalizer: Option<Stmt>)   // all blocks
    | Nested(stmts: seq<Stmt>)            // a function declared inside the body
    // only in compiled bodies:
    | Const(i: nat, e: Expression)              // const __mfResultI = e;
    | Hide(e: Expression)                 // a further name declared there, hiding the one that is meant
    | Flush                               // __flushMountFrame();
    | ReturnResult(i: nat)                // return __mfResultI;

  datatype Component = FunctionBody(stmts: seq<Stmt>) | ArrowBody(e: Expression)

  // ---- collecting returns ----

  datatype ReturnInfo = ReturnInfo(hasExpression: bool, isBraceless: bool)

  /** The returns of a statement in source order; `braceless` is the mark inherited from the enclosing `if`. */
  function Returns(stmt: Stmt, braceless: bool): seq<ReturnInfo>
    decreases stmt
  {
    match stmt
    case Return(argument) => [ReturnInfo(argument.Some?, braceless)]
    case If(_, yes, no) =>
      Returns(yes, !yes.Block?) + if no.None? then [] else Returns(no.value, !no.value.Block?)
    case While(_, body) => Returns(body, braceless)
    case Block(stmts) => ReturnsOf(stmts, braceless)
    case Try(body, handler, finalizer) =>
      Returns(body, braceless) + (if handler.None? then [] else Returns(handler.value, braceless))
      + if finalizer.None? then [] else Returns(finalizer.value, braceless)
    case _ => []
  }

  function ReturnsOpt(stmt: Option<Stmt>, braceless: bool): seq<ReturnInfo> {
    if stmt.None? then [] else Returns(stmt.value, braceless)
  }

  function ReturnsOf(stmts: seq<Stmt>, braceless: bool): seq<ReturnInfo>
    decreases stmts
  {
    if stmts == [] then [] else Returns(stmts[0], braceless) + ReturnsOf(stmts[1..], braceless)
  }

  lemma Grouped(a: seq<ReturnInfo>, b: seq<ReturnInfo>, c: seq<ReturnInfo>, d: seq<ReturnInfo>)
    ensures a + b + c + d == a + (b + c + d) && a + b == a + b + []
  {
  }

  /** The visitor, with the mark it saves and restores around the arms of an `if`. */
  class ReturnCollector {
    var found: seq<ReturnInfo>
    var parentIsBraceless: bool

    constructor ()
      ensures found == [] && !parentIsBraceless
    {
      found, parentIsBraceless := [], false;
    }

    method VisitStatement(stmt: Stmt)
      modifies this
      ensures found == old(found) + Returns(stmt, old(parentIsBraceless))
      ensures parentIsBraceless == old(parentIsBraceless)
      decreases stmt, 1
    {
      match stmt {
        case Return(argument) =>
          found := found + [ReturnInfo(argument.Some?, parentIsBraceless)];
        case If(_, _, _) =>
          VisitIf(stmt);
        case While(_, body) =>
          VisitStatement(body);
        case Block(stmts) =>
          VisitStatements(stmts);
        case Try(_, _, _) =>
          VisitTry(stmt);
        case _ =>
      }
    }

    method VisitIf(stmt: Stmt)
      requires stmt.If?
      modifies this
      ensures found == old(found) + Returns(stmt, old(parentIsBraceless))
      ensures parentIsBraceless == old(parentIsBraceless)
      decreases stmt, 0
    {
      var prev := parentIsBraceless;
      parentIsBraceless := !stmt.yes.Block?;
      VisitStatement(stmt.yes);
      parentIsBraceless := prev;
      if stmt.no.Some? {
        parentIsBraceless := !stmt.no.value.Block?;
        VisitStatement(stmt.no.value);
        parentIsBraceless := prev;
      }
    }

    method VisitTry(stmt: Stmt)
      requires stmt.Try?
      modifies this
      ensures found == old(found) + Returns(stmt, old(parentIsBraceless))
      ensures parentIsBraceless == old(parentIsBraceless)
      decreases stmt, 0
    {
      VisitStatement(stmt.body);
      VisitOptional(stmt.handler);
      VisitOptional(stmt.finalizer);
      Grouped(old(found), Returns(stmt.body, parentIsBraceless), ReturnsOpt(stmt.handler, parentIsBraceless),
              ReturnsOpt(stmt.finalizer, parentIsBraceless));
    }

    method VisitOptional(stmt: Option<Stmt>)
      modifies this
      ensures found == old(found) + ReturnsOpt(stmt, old(parentIsBraceless))
      ensures parentIsBraceless == old(parentIsBraceless)
      decreases stmt
    {
      if stmt.Some? {
        VisitStatement(stmt.value);
      }
    }

    method VisitStatements(stmts: seq<Stmt>)
      modifies this
      ensures found == old(found) + ReturnsOf(stmts, old(parentIsBraceless))
      ensures parentIsBraceless == old(parentIsBraceless)
      decreases stmts
    {
      if stmts != [] {
        VisitStatement(stmts[0]);
        VisitStatements(stmts[1..]);
      }
    }
  }

  // ---- overwriting them ----

  /** How many returns a statement holds. */
  function Count(stmt: Stmt): nat
    decreases stmt
  {
    match stmt
    case Return(_) => 1
    case If(_, yes, no) => Count(yes) + if no.None? then 0 else Count(no.value)
    case While(_, body) => Count(body)
    case Block(stmts) => CountOf(stmts)
    case Try(body, handler, finalizer) =>
      Count(body) + (if handler.None? then 0 else Count(handler.value))
      + if finalizer.None? then 0 else Count(finalizer.value)
    case _ => 0
  }

  function CountOf(stmts: seq<Stmt>): nat
    decreases stmts
  {
    if stmts == [] then 0 else Count(stmts[0]) + CountOf(stmts[1..])
  }

  function CountOpt(stmt: Option<Stmt>): nat {
    if stmt.None? then 0 else Count(stmt.value)
  }

  /** After a comma in a declaration, only assignments to names can be read, as further declarations. */
  predicate ReadsAsDeclarations(e: Expression) {
    match e
    case Comma(first, rest) => first.Assign? && ReadsAsDeclarations(rest)
    case _ => e.Assign?
  }

  predicate IsComma(argument: Option<Expression>) {
    argument.Some? && argument.value.Comma?
  }

  function Hidden(e: Expression): seq<Stmt> {
    match e
    case Comma(first, rest) => Hidden(first) + Hidden(rest)
    case Assign(value, _) => [Hide(value)]
    case _ => []
  }

  /** The overwritten text of one return, the `i`-th. */
  function ReturnText(argument: Option<Expression>, info: ReturnInfo, i: nat): seq<Stmt> {
    var text := match argument
      case Some(Comma(first, rest)) => [Const(i, first)] + Hidden(rest) + [Flush, ReturnResult(i)]
      case Some(e) => [Const(i, e), Flush, ReturnResult(i)]
      case None => [Flush, Return(None)];
    if info.isBraceless then [Block(text)] else text
  }

  /**
   What a statement reads like afterwards. The text of a return may be several
   statements: where only one is allowed the rest spill out behind the enclosing
   statement, and where a declaration is not allowed the text does not parse. A
   comma expression does not parse as the value of a declaration either, unless
   what follows the comma can spill into further declarations.
   */
  datatype Rewritten = SyntaxError | Spliced(stmts: seq<Stmt>, spills: bool)

  /** A statement text used as an arm or a loop body. */
  predicate FitsAlone(r: Rewritten) {
    r.Spliced? && r.stmts != [] && !r.stmts[0].Const?
  }

  function RewriteIf(test: Expression, yes: Rewritten): Rewritten {
    if !FitsAlone(yes) then SyntaxError
    else Spliced([If(test, yes.stmts[0], None)] + yes.stmts[1..], yes.spills || |yes.stmts| > 1)
  }

  function RewriteIfElse(test: Expression, yes: Rewritten, no: Rewritten): Rewritten {
    if !FitsAlone(yes) || |yes.stmts| > 1 || !FitsAlone(no) then SyntaxError
    else Spliced([If(test, yes.stmts[0], Some(no.stmts[0]))] + no.stmts[1..], yes.spills || no.spills || |no.stmts| > 1)
  }

  function RewriteWhile(test: Expression, body: Rewritten): Rewritten {
    if !FitsAlone(body) then SyntaxError
    else Spliced([While(test, body.stmts[0])] + body.stmts[1..], body.spills || |body.stmts| > 1)
  }

  function Enclose(r: Rewritten): Rewritten {
    if r.SyntaxError? then r else Spliced([Block(r.stmts)], r.spills)
  }

  function Follow(a: Rewritten, b: Rewritten): Rewritten {
    if a.SyntaxError? || b.SyntaxError? then SyntaxError else Spliced(a.stmts + b.stmts, a.spills || b.spills)
  }

  function RewriteTry(a: Rewritten, b: Option<Rewritten>, c: Option<Rewritten>): Rewritten {
    if !FitsAlone(a) || (b.Some? && !FitsAlone(b.value)) || (c.Some? && !FitsAlone(c.value)) then SyntaxError
    else Spliced([Try(a.stmts[0], if b.Some? then Some(b.value.stmts[0]) else None,
                      if c.Some? then Some(c.value.stmts[0]) else None)],
                 a.spills || (b.Some? && b.value.spills) || (c.Some? && c.value.spills))
  }

  function Rewrite(stmt: Stmt, infos: seq<ReturnInfo>, i: nat): Rewritten
    decreases stmt
  {
    match stmt
    case Return(argument) =>
      if i >= |infos| || (IsComma(argument) && !ReadsAsDeclarations(argument.value.rest)) then SyntaxError
      else Spliced(ReturnText(argument, infos[i], i), IsComma(argument))
    case If(test, yes, no) =>
      var y := Rewrite(yes, infos, i);
      if no.None? then RewriteIf(test, y) else RewriteIfElse(test, y, Rewrite(no.value, infos, i + Count(yes)))
    case While(test, body) => RewriteWhile(test, Rewrite(body, infos, i))
    case Block(stmts) => Enclose(RewriteAll(stmts, infos, i))
    case Try(body, handler, finalizer) =>
      var j := i + Count(body);
      RewriteTry(Rewrite(body, infos, i),
                 if handler.None? then None else Some(Rewrite(handler.value, infos, j)),
                 if finalizer.None? then None else Some(Rewrite(finalizer.value, infos, j + CountOpt(handler))))
    case _ => Spliced([stmt], false)
  }

  function RewriteAll(stmts: seq<Stmt>, infos: seq<ReturnInfo>, i: nat): Rewritten
    decreases stmts
  {
    if stmts == [] then Spliced([], false)
    else Follow(Rewrite(stmts[0], infos, i), RewriteAll(stmts[1..], infos, i + Count(stmts[0])))
  }

  /** A component as compiled: left alone, or pushing a frame around its body. */
  datatype Compiled = Unframed(stmts: seq<Stmt>) | Framed(stmts: seq<Stmt>) | Broken

  function Compile(component: Component): Compiled {
    match component
    case ArrowBody(e) => Framed([Const(0, e), Flush, ReturnResult(0)])
    case FunctionBody(stmts) =>
      var infos := ReturnsOf(stmts, false);
      if infos == [] then Unframed(stmts)
      else
        var r := RewriteAll(stmts, infos, 0);
        if r.SyntaxError? then Broken else Framed(r.stmts)
  }

  // ---- when the text says what was meant ----

  /**
   Every return that is itself the body of a loop stands, without braces in
   between, in an arm of an `if`, and none returns a bare comma expression.
   `alone` says that `stmt` is a loop's body.
   */
  predicate TextSafe(stmt: Stmt, braceless: bool, alone: bool)
    decreases stmt
  {
    match stmt
    case Return(argument) => (alone ==> braceless) && !IsComma(argument)
    case If(_, yes, no) =>
      TextSafe(yes, !yes.Block?, true) && (no.Some? ==> TextSafe(no.value, !no.value.Block?, true))
    case While(_, body) => TextSafe(body, braceless, true)
    case Block(stmts) => TextSafeAll(stmts, braceless)
    case Try(body, handler, finalizer) =>
      TextSafe(body, braceless, false) && (handler.Some? ==> TextSafe(handler.value, braceless, false))
      && (finalizer.Some? ==> TextSafe(finalizer.value, braceless, false))
    case _ => true
  }

  predicate TextSafeAll(stmts: seq<Stmt>, braceless: bool)
    decreases stmts
  {
    stmts == [] || (TextSafe(stmts[0], braceless, false) && TextSafeAll(stmts[1..], braceless))
  }

  predicate IsSource(stmt: Stmt)
    decreases stmt
  {
    match stmt
    case If(_, yes, no) => IsSource(yes) && (no.Some? ==> IsSource(no.value))
    case While(_, body) => IsSource(body)
    case Block(stmts) => AreSource(stmts)
    case Try(body, handler, finalizer) =>
      body.Block? && IsSource(body) && (handler.Some? ==> handler.value.Block? && IsSource(handler.value))
      && (finalizer.Some? ==> finalizer.value.Block? && IsSource(finalizer.value))
    case Const(_, _) => false
    case Hide(_) => false
    case Flush => false
    case ReturnResult(_) => false
    case _ => true
  }

  predicate AreSource(stmts: seq<Stmt>)
    decreases stmts
  {
    stmts == [] || (IsSource(stmts[0]) && AreSource(stmts[1..]))
  }

  /** `infos` holds `part` from position `i` on. */
  predicate Holds(infos: seq<ReturnInfo>, i: nat, part: seq<ReturnInfo>) {
    i + |part| <= |infos| && forall k :: 0 <= k < |part| ==> infos[i + k] == part[k]
  }

  lemma HoldsSplit(infos: seq<ReturnInfo>, i: nat, a: seq<ReturnInfo>, b: seq<ReturnInfo>)
    requires Holds(infos, i, a + b)
    ensures Holds(infos, i, a) && Holds(infos, i + |a|, b)
  {
    forall k | 0 <= k < |b| ensures infos[i + |a| + k] == b[k] {
      assert infos[i + (|a| + k)] == (a + b)[|a| + k];
    }
    forall k | 0 <= k < |a| ensures infos[i + k] == a[k] {
      assert (a + b)[k] == a[k];
    }
  }

  lemma {:induction false} CountIsFixed(stmt: Stmt, braceless: bool)
    ensures |Returns(stmt, braceless)| == Count(stmt)
    decreases stmt
  {
    match stmt {
      case If(_, yes, no) =>
        CountIsFixed(yes, !yes.Block?);
        if no.Some? { CountIsFixed(no.value, !no.value.Block?); }
      case While(_, body) =>
        CountIsFixed(body, braceless);
      case Block(stmts) =>
        CountOfIsFixed(stmts, braceless);
      case Try(body, handler, finalizer) =>
        CountIsFixed(body, braceless);
        if handler.Some? { CountIsFixed(handler.value, braceless); }
        if finalizer.Some? { CountIsFixed(finalizer.value, braceless); }
      case _ =>
    }
  }

  lemma {:induction false} CountOfIsFixed(stmts: seq<Stmt>, braceless: bool)
    ensures |ReturnsOf(stmts, braceless)| == CountOf(stmts)
    decreases stmts
  {
    if stmts != [] {
      CountIsFixed(stmts[0], braceless);
      CountOfIsFixed(stmts[1..], braceless);
    }
  }

  /** The parts of a statement find their own entries. */
  lemma HoldsIf(stmt: Stmt, braceless: bool, infos: seq<ReturnInfo>, i: nat)
    requires stmt.If? && Holds(infos, i, Returns(stmt, braceless))
    ensures Holds(infos, i, Returns(stmt.yes, !stmt.yes.Block?))
    ensures stmt.no.Some? ==> Holds(infos, i + Count(stmt.yes), Returns(stmt.no.value, !stmt.no.value.Block?))
  {
    var y := Returns(stmt.yes, !stmt.yes.Block?);
    CountIsFixed(stmt.yes, !stmt.yes.Block?);
    HoldsSplit(infos, i, y, if stmt.no.None? then [] else Returns(stmt.no.value, !stmt.no.value.Block?));
  }

  lemma CountOptIsFixed(stmt: Option<Stmt>, braceless: bool)
    ensures |ReturnsOpt(stmt, braceless)| == CountOpt(stmt)
  {
    if stmt.Some? {
      CountIsFixed(stmt.value, braceless);
    }
  }

  lemma HoldsTry(stmt: Stmt, braceless: bool, infos: seq<ReturnInfo>, i: nat)
    requires stmt.Try? && Holds(infos, i, Returns(stmt, braceless))
    ensures Holds(infos, i, Returns(stmt.body, braceless))
    ensures Holds(infos, i + Count(stmt.body), ReturnsOpt(stmt.handler, braceless))
    ensures Holds(infos, i + Count(stmt.body) + CountOpt(stmt.handler), ReturnsOpt(stmt.finalizer, braceless))
  {
    CountIsFixed(stmt.body, braceless);
    CountOptIsFixed(stmt.handler, braceless);
    HoldsThree(infos, i, Returns(stmt.body, braceless), ReturnsOpt(stmt.handler, braceless),
               ReturnsOpt(stmt.finalizer, braceless));
  }

  lemma HoldsThree(infos: seq<ReturnInfo>, i: nat, a: seq<ReturnInfo>, b: seq<ReturnInfo>, c: seq<ReturnInfo>)
    requires Holds(infos, i, a + b + c)
    ensures Holds(infos, i, a) && Holds(infos, i + |a|, b) && Holds(infos, i + |a| + |b|, c)
  {
    HoldsSplit(infos, i, a + b, c);
    HoldsSplit(infos, i, a, b);
  }

  lemma HoldsList(stmts: seq<Stmt>, braceless: bool, infos: seq<ReturnInfo>, i: nat)
    requires stmts != [] && Holds(infos, i, ReturnsOf(stmts, braceless))
    ensures Holds(infos, i, Returns(stmts[0], braceless))
    ensures Holds(infos, i + Count(stmts[0]), ReturnsOf(stmts[1..], braceless))
  {
    var first := Returns(stmts[0], braceless);
    assert |first| == Count(stmts[0]) by {
      CountIsFixed(stmts[0], braceless);
    }
    HoldsSplit(infos, i, first, ReturnsOf(stmts[1..], braceless));
  }

  /** The text parses and nothing spills. */
  predicate IsClean(r: Rewritten) {
    r.Spliced? && !r.spills
  }

  predicate IsOne(r: Rewritten) {
    IsClean(r) && |r.stmts| == 1 && FitsAlone(r)
  }

  predicate IsEnclosed(r: Rewritten) {
    r.Spliced? ==> |r.stmts| == 1 && r.stmts[0].Block?
  }

  lemma TryIsClean(a: Rewritten, b: Option<Rewritten>, c: Option<Rewritten>)
    requires IsEnclosed(a) && (b.Some? ==> IsEnclosed(b.value)) && (c.Some? ==> IsEnclosed(c.value))
    ensures var r := RewriteTry(a, b, c);
      && (IsClean(r) <==> IsClean(a) && (b.Some? ==> IsClean(b.value)) && (c.Some? ==> IsClean(c.value)))
      && (IsOne(r) <==> IsClean(r)) && (r.Spliced? ==> r.stmts != [])
  {
  }

  lemma {:induction false} IfCleanIffTextSafe(stmt: Stmt, braceless: bool, infos: seq<ReturnInfo>, i: nat)
    requires stmt.If? && IsSource(stmt) && Holds(infos, i, Returns(stmt, braceless))
    ensures var r := Rewrite(stmt, infos, i);
      && (IsClean(r) <==> TextSafe(stmt, braceless, false))
      && (IsOne(r) <==> IsClean(r)) && (r.Spliced? ==> r.stmts != [])
    decreases stmt, 0
  {
    HoldsIf(stmt, braceless, infos, i);
    CleanIffTextSafe(stmt.yes, !stmt.yes.Block?, infos, i);
    var y, j := Rewrite(stmt.yes, infos, i), i + Count(stmt.yes);
    if stmt.no.Some? {
      CleanIffTextSafe(stmt.no.value, !stmt.no.value.Block?, infos, j);
      IfElseIsClean(stmt.test, y, Rewrite(stmt.no.value, infos, j));
    } else {
      IfIsClean(stmt.test, y);
    }
  }

  lemma IfIsClean(test: Expression, y: Rewritten)
    ensures var r := RewriteIf(test, y);
      (IsClean(r) <==> IsOne(y)) && (IsOne(r) <==> IsClean(r)) && (r.Spliced? ==> r.stmts != [])
  {
  }

  lemma IfElseIsClean(test: Expression, y: Rewritten, n: Rewritten)
    ensures var r := RewriteIfElse(test, y, n);
      (IsClean(r) <==> IsOne(y) && IsOne(n)) && (IsOne(r) <==> IsClean(r)) && (r.Spliced? ==> r.stmts != [])
  {
  }

  lemma {:induction false} TryCleanIffTextSafe(stmt: Stmt, braceless: bool, infos: seq<ReturnInfo>, i: nat)
    requires stmt.Try? && IsSource(stmt) && Holds(infos, i, Returns(stmt, braceless))
    ensures var r := Rewrite(stmt, infos, i);
      && (IsClean(r) <==> TextSafe(stmt, braceless, false))
      && (IsOne(r) <==> IsClean(r)) && (r.Spliced? ==> r.stmts != [])
    decreases stmt, 0
  {
    HoldsTry(stmt, braceless, infos, i);
    CleanIffTextSafe(stmt.body, braceless, infos, i);
    var j := i + Count(stmt.body);
    var b := OptionCleanIffTextSafe(stmt.handler, braceless, infos, j);
    var c := OptionCleanIffTextSafe(stmt.finalizer, braceless, infos, j + CountOpt(stmt.handler));
    TryTextSafe(stmt, braceless, infos, i, j, b, c);
  }

  function RewriteOpt(stmt: Option<Stmt>, infos: seq<ReturnInfo>, i: nat): Option<Rewritten> {
    if stmt.None? then None else Some(Rewrite(stmt.value, infos, i))
  }

  lemma TryParts(stmt: Stmt, infos: seq<ReturnInfo>, i: nat)
    requires stmt.Try?
    ensures var j := i + Count(stmt.body);
      Rewrite(stmt, infos, i) == RewriteTry(Rewrite(stmt.body, infos, i), RewriteOpt(stmt.handler, infos, j),
                                            RewriteOpt(stmt.finalizer, infos, j + CountOpt(stmt.handler)))
  {
  }

  lemma BlockIsEnclosed(stmt: Stmt, infos: seq<ReturnInfo>, i: nat)
    requires stmt.Block?
    ensures IsEnclosed(Rewrite(stmt, infos, i))
  {
  }

  lemma TryTextSafe(stmt: Stmt, braceless: bool, infos: seq<ReturnInfo>, i: nat, j: nat, b: Option<Rewritten>,
                    c: Option<Rewritten>)
    requires stmt.Try? && stmt.body.Block? && j == i + Count(stmt.body)
    requires b == RewriteOpt(stmt.handler, infos, j)
    requires c == RewriteOpt(stmt.finalizer, infos, j + CountOpt(stmt.handler))
    requires IsClean(Rewrite(stmt.body, infos, i)) <==> TextSafe(stmt.body, braceless, false)
    requires stmt.handler.Some? ==>
      IsEnclosed(b.value) && (IsClean(b.value) <==> TextSafe(stmt.handler.value, braceless, false))
    requires stmt.finalizer.Some? ==>
      IsEnclosed(c.value) && (IsClean(c.value) <==> TextSafe(stmt.finalizer.value, braceless, false))
    ensures var r := Rewrite(stmt, infos, i);
      && (IsClean(r) <==> TextSafe(stmt, braceless, false))
      && (IsOne(r) <==> IsClean(r)) && (r.Spliced? ==> r.stmts != [])
  {
    BlockIsEnclosed(stmt.body, infos, i);
    TryParts(stmt, infos, i);
    TryIsClean(Rewrite(stmt.body, infos, i), b, c);
  }

  lemma {:induction false} OptionCleanIffTextSafe(stmt: Option<Stmt>, braceless: bool, infos: seq<ReturnInfo>, i: nat)
    returns (r: Option<Rewritten>)
    requires stmt.Some? ==>
      stmt.value.Block? && IsSource(stmt.value) && Holds(infos, i, Returns(stmt.value, braceless))
    ensures r == RewriteOpt(stmt, infos, i)
    ensures stmt.Some? ==> IsEnclosed(r.value) && (IsClean(r.value) <==> TextSafe(stmt.value, braceless, false))
    decreases stmt, 2
  {
    if stmt.None? {
      r := None;
    } else {
      CleanIffTextSafe(stmt.value, braceless, infos, i);
      r := Some(Rewrite(stmt.value, infos, i));
    }
  }

  /** A statement is rewritten to one clean statement, or to a clean list where a list may stand. */
  lemma {:induction false} CleanIffTextSafe(stmt: Stmt, braceless: bool, infos: seq<ReturnInfo>, i: nat)
    requires IsSource(stmt) && Holds(infos, i, Returns(stmt, braceless))
    ensures IsClean(Rewrite(stmt, infos, i)) <==> TextSafe(stmt, braceless, false)
    ensures IsOne(Rewrite(stmt, infos, i)) <==> TextSafe(stmt, braceless, true)
    ensures Rewrite(stmt, infos, i).Spliced? ==> Rewrite(stmt, infos, i).stmts != []
    decreases stmt, 1
  {
    match stmt {
      case Return(argument) =>
        assert infos[i + 0] == Returns(stmt, braceless)[0];
      case If(_, _, _) =>
        IfCleanIffTextSafe(stmt, braceless, infos, i);
      case While(_, body) =>
        CleanIffTextSafe(body, braceless, infos, i);
      case Block(stmts) =>
        CleanListIffTextSafe(stmts, braceless, infos, i);
      case Try(_, _, _) =>
        TryCleanIffTextSafe(stmt, braceless, infos, i);
      case _ =>
    }
  }

  /**
   The overwritten body parses, with every return's text where the return was,
   exactly when no return is the braceless body of a loop outside an `if` arm
   and none returns a bare comma expression.
   */
  lemma {:induction false} CleanListIffTextSafe(stmts: seq<Stmt>, braceless: bool, infos: seq<ReturnInfo>, i: nat)
    requires AreSource(stmts) && Holds(infos, i, ReturnsOf(stmts, braceless))
    ensures IsClean(RewriteAll(stmts, infos, i)) <==> TextSafeAll(stmts, braceless)
    decreases stmts
  {
    if stmts != [] {
      HoldsList(stmts, braceless, infos, i);
      CleanIffTextSafe(stmts[0], braceless, infos, i);
      CleanListIffTextSafe(stmts[1..], braceless, infos, i + Count(stmts[0]));
    }
  }

  // ---- result names ----

  function ConstsOf(stmt: Stmt): seq<nat>
    decreases stmt
  {
    match stmt
    case Const(i, _) => [i]
    case If(_, yes, no) => ConstsOf(yes) + if no.None? then [] else ConstsOf(no.value)
    case While(_, body) => ConstsOf(body)
    case Block(stmts) => ConstsIn(stmts)
    case Try(body, handler, finalizer) =>
      ConstsOf(body) + (if handler.None? then [] else ConstsOf(handler.value))
      + if finalizer.None? then [] else ConstsOf(finalizer.value)
    case _ => []
  }

  function ConstsIn(stmts: seq<Stmt>): seq<nat>
    decreases stmts
  {
    if stmts == [] then [] else ConstsOf(stmts[0]) + ConstsIn(stmts[1..])
  }

  predicate Rising(names: seq<nat>, lo: nat, hi: nat) {
    (forall k :: 0 <= k < |names| ==> lo <= names[k] < hi) && forall k, l :: 0 <= k < l < |names| ==>
      names[k] < names[l]
  }

  lemma RisingJoin(a: seq<nat>, b: seq<nat>, lo: nat, mid: nat, hi: nat)
    requires Rising(a, lo, mid) && Rising(b, mid, hi) && lo <= mid <= hi
    ensures Rising(a + b, lo, hi)
  {
  }

  lemma {:induction false} ConstsAppend(a: seq<Stmt>, b: seq<Stmt>)
    ensures ConstsIn(a + b) == ConstsIn(a) + ConstsIn(b)
  {
    if a == [] {
      assert a + b == b;
    } else {
      assert (a + b)[1..] == a[1..] + b;
      ConstsAppend(a[1..], b);
    }
  }

  lemma FollowNames(a: Rewritten, b: Rewritten, lo: nat, mid: nat, hi: nat)
    requires IsClean(Follow(a, b)) && lo <= mid <= hi
    requires Rising(ConstsIn(a.stmts), lo, mid) && Rising(ConstsIn(b.stmts), mid, hi)
    ensures Rising(ConstsIn(Follow(a, b).stmts), lo, hi)
  {
    ConstsAppend(a.stmts, b.stmts);
    RisingJoin(ConstsIn(a.stmts), ConstsIn(b.stmts), lo, mid, hi);
  }

  lemma ConstsOfOne(stmt: Stmt)
    ensures ConstsIn([stmt]) == ConstsOf(stmt)
  {
    assert [stmt][1..] == [];
  }

  lemma ReturnTextConsts(argument: Option<Expression>, info: ReturnInfo, i: nat)
    requires !IsComma(argument)
    ensures Rising(ConstsIn(ReturnText(argument, info, i)), i, i + 1)
  {
    var text := ReturnText(argument, ReturnInfo(info.hasExpression, false), i);
    if argument.Some? {
      FlushedConsts(ReturnResult(i));
      ConstsAppend([Const(i, argument.value)], [Flush, ReturnResult(i)]);
      ConstsOfOne(Const(i, argument.value));
      assert text == [Const(i, argument.value)] + [Flush, ReturnResult(i)];
    } else {
      FlushedConsts(Return(None));
    }
    ConstsOfOne(Block(text));
  }

  lemma FlushedConsts(last: Stmt)
    requires last.Return? || last.ReturnResult?
    ensures ConstsIn([Flush, last]) == []
  {
    ConstsOfOne(Flush);
    ConstsOfOne(last);
    ConstsAppend([Flush], [last]);
    assert [Flush, last] == [Flush] + [last];
  }

  lemma OneName(r: Rewritten)
    requires r.Spliced? && |r.stmts| == 1
    ensures ConstsIn(r.stmts) == ConstsOf(r.stmts[0])
  {
    ConstsOfOne(r.stmts[0]);
    assert r.stmts == [r.stmts[0]];
  }

  lemma IfNames(test: Expression, y: Rewritten, lo: nat, hi: nat)
    requires IsClean(RewriteIf(test, y)) && Rising(ConstsIn(y.stmts), lo, hi)
    ensures Rising(ConstsIn(RewriteIf(test, y).stmts), lo, hi)
  {
    OneName(y);
    OneName(RewriteIf(test, y));
  }

  lemma IfElseNames(test: Expression, y: Rewritten, n: Rewritten, lo: nat, mid: nat, hi: nat)
    requires IsClean(RewriteIfElse(test, y, n)) && lo <= mid <= hi
    requires Rising(ConstsIn(y.stmts), lo, mid) && Rising(ConstsIn(n.stmts), mid, hi)
    ensures Rising(ConstsIn(RewriteIfElse(test, y, n).stmts), lo, hi)
  {
    IfElseConsts(test, y, n);
    RisingJoin(ConstsIn(y.stmts), ConstsIn(n.stmts), lo, mid, hi);
  }

  lemma IfElseConsts(test: Expression, y: Rewritten, n: Rewritten)
    requires IsClean(RewriteIfElse(test, y, n))
    ensures ConstsIn(RewriteIfElse(test, y, n).stmts) == ConstsIn(y.stmts) + ConstsIn(n.stmts)
  {
    OneName(y);
    OneName(n);
    OneName(RewriteIfElse(test, y, n));
  }

  lemma WhileNames(test: Expression, b: Rewritten, lo: nat, hi: nat)
    requires IsClean(RewriteWhile(test, b)) && Rising(ConstsIn(b.stmts), lo, hi)
    ensures Rising(ConstsIn(RewriteWhile(test, b).stmts), lo, hi)
  {
    OneName(b);
    OneName(RewriteWhile(test, b));
  }

  lemma {:induction false} ResultNames(stmt: Stmt, infos: seq<ReturnInfo>, i: nat)
    requires IsSource(stmt) && IsClean(Rewrite(stmt, infos, i))
    ensures Rising(ConstsIn(Rewrite(stmt, infos, i).stmts), i, i + Count(stmt))
    decreases stmt, 1
  {
    match stmt {
      case Return(argument) =>
        ReturnTextConsts(argument, infos[i], i);
      case If(test, yes, no) =>
        ResultNames(yes, infos, i);
        var y, j := Rewrite(yes, infos, i), i + Count(yes);
        if no.Some? {
          ResultNames(no.value, infos, j);
          IfElseNames(test, y, Rewrite(no.value, infos, j), i, j, i + Count(stmt));
        } else {
          IfNames(test, y, i, j);
        }
      case While(test, body) =>
        ResultNames(body, infos, i);
        WhileNames(test, Rewrite(body, infos, i), i, i + Count(body));
      case Block(stmts) =>
        ResultNamesIn(stmts, infos, i);
        ConstsOfOne(Block(RewriteAll(stmts, infos, i).stmts));
      case Try(body, handler, finalizer) =>
        TryNames(stmt, infos, i);
      case _ =>
        ConstsOfOne(stmt);
    }
  }

  lemma {:induction false} TryNames(stmt: Stmt, infos: seq<ReturnInfo>, i: nat)
    requires stmt.Try? && IsSource(stmt) && IsClean(Rewrite(stmt, infos, i))
    ensures Rising(ConstsIn(Rewrite(stmt, infos, i).stmts), i, i + Count(stmt))
    decreases stmt, 0
  {
    var j := i + Count(stmt.body);
    var k := j + CountOpt(stmt.handler);
    var a := BlockNames(stmt.body, infos, i);
    var b: seq<nat>, c: seq<nat> := [], [];
    if stmt.handler.Some? { b := BlockNames(stmt.handler.value, infos, j); }
    if stmt.finalizer.Some? { c := BlockNames(stmt.finalizer.value, infos, k); }
    ThreeRising(a, b, c, i, j, k, i + Count(stmt));
    OneName(Rewrite(stmt, infos, i));
  }

  lemma ThreeRising(a: seq<nat>, b: seq<nat>, c: seq<nat>, i: nat, j: nat, k: nat, l: nat)
    requires Rising(a, i, j) && Rising(b, j, k) && Rising(c, k, l) && i <= j <= k <= l
    ensures Rising(a + b + c, i, l)
  {
    RisingJoin(a, b, i, j, k);
    RisingJoin(a + b, c, i, k, l);
  }

  lemma {:induction false} BlockNames(stmt: Stmt, infos: seq<ReturnInfo>, i: nat) returns (names: seq<nat>)
    requires stmt.Block? && IsSource(stmt) && IsClean(Rewrite(stmt, infos, i))
    ensures names == ConstsOf(Rewrite(stmt, infos, i).stmts[0]) && Rising(names, i, i + Count(stmt))
    decreases stmt, 2
  {
    ResultNames(stmt, infos, i);
    var r := Rewrite(stmt, infos, i);
    ConstsOfOne(r.stmts[0]);
    assert r.stmts == [r.stmts[0]];
    names := ConstsOf(r.stmts[0]);
  }

  lemma ListSteps(stmts: seq<Stmt>, infos: seq<ReturnInfo>, i: nat)
    requires stmts != [] && AreSource(stmts)
    ensures RewriteAll(stmts, infos, i)
      == Follow(Rewrite(stmts[0], infos, i), RewriteAll(stmts[1..], infos, i + Count(stmts[0])))
    ensures CountOf(stmts) == Count(stmts[0]) + CountOf(stmts[1..])
    ensures IsSource(stmts[0]) && AreSource(stmts[1..])
    ensures IsClean(RewriteAll(stmts, infos, i)) ==>
      IsClean(Rewrite(stmts[0], infos, i)) && IsClean(RewriteAll(stmts[1..], infos, i + Count(stmts[0])))
  {
  }

  /** No two returns share a result name. */
  lemma {:induction false} ResultNamesIn(stmts: seq<Stmt>, infos: seq<ReturnInfo>, i: nat)
    requires AreSource(stmts) && IsClean(RewriteAll(stmts, infos, i))
    ensures Rising(ConstsIn(RewriteAll(stmts, infos, i).stmts), i, i + CountOf(stmts))
    decreases stmts
  {
    if |stmts| > 0 {
      var head, tail, j := stmts[0], stmts[1..], i + Count(stmts[0]);
      var hi := j + CountOf(tail);
      ListSteps(stmts, infos, i);
      assert i + CountOf(stmts) == hi;
      ResultNames(head, infos, i);
      ResultNamesIn(tail, infos, j);
      FollowNames(Rewrite(head, infos, i), RewriteAll(tail, infos, j), i, j, hi);
    }
  }

  /**
   A braceless return of a loop outside an `if`: with a value the text does not
   parse, bare it says something else.
   */
  lemma LoopReturnBreaks(test: Expression, e: Expression)
    requires !e.Comma?
    ensures Compile(FunctionBody([While(test, Return(Some(e)))])) == Broken
    ensures Compile(FunctionBody([While(test, Return(None))])) == Framed([While(test, Flush), Return(None)])
  {
    var valued, bare := While(test, Return(Some(e))), While(test, Return(None));
    assert ReturnsOf([valued], false) == [ReturnInfo(true, false)] by {
      ReturnsOfOne(valued, false);
    }
    assert ReturnsOf([bare], false) == [ReturnInfo(false, false)] by {
      ReturnsOfOne(bare, false);
    }
    RewriteOne(valued, [ReturnInfo(true, false)]);
    RewriteOne(bare, [ReturnInfo(false, false)]);
    assert Rewrite(bare, [ReturnInfo(false, false)], 0).stmts == [While(test, Flush), Return(None)];
  }

  /** `return a, b;` does not parse afterwards, or returns `a` and declares what was to be assigned. */
  lemma CommaReturnBreaks(first: Expression, rest: Expression)
    ensures Compile(FunctionBody([Return(Some(Expression.Comma(first, rest)))]))
         == if ReadsAsDeclarations(rest) then Framed([Const(0, first)] + Hidden(rest) + [Flush, ReturnResult(0)])
            else Broken
  {
    var stmt, info := Return(Some(Expression.Comma(first, rest))), ReturnInfo(true, false);
    ReturnsOfOne(stmt, false);
    assert ReturnsOf([stmt], false) == [info];
    RewriteOne(stmt, [info]);
  }

  lemma ReturnsOfOne(stmt: Stmt, braceless: bool)
    ensures ReturnsOf([stmt], braceless) == Returns(stmt, braceless)
  {
    assert [stmt][1..] == [];
  }

  lemma RewriteOne(stmt: Stmt, infos: seq<ReturnInfo>)
    ensures RewriteAll([stmt], infos, 0) == Rewrite(stmt, infos, 0)
  {
    RewriteOneAt(stmt, infos, 0);
  }

  lemma RewriteOneAt(stmt: Stmt, infos: seq<ReturnInfo>, i: nat)
    ensures RewriteAll([stmt], infos, i) == Rewrite(stmt, infos, i)
  {
    assert [stmt][1..] == [];
    var r := Rewrite(stmt, infos, i);
    if r.Spliced? {
      assert r.stmts + [] == r.stmts;
    }
  }
}
