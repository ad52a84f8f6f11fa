/**
 Running component bodies. The reference has no frame stack: each call collects
 its own callbacks and runs them when it returns. The compiled bodies keep one
 global stack of frames (packages/ui/src/component/lifecycle.ts). On disciplined
 programs the two do the same.
 */
module MountFrameRun {
  import opened JsxSyntax
  import opened MountFrames

  /** The effect of a piece of user code: a new store, and a value or an exception. */
  datatype Effect<S, V> = Effect(store: S, threw: bool, value: V)

  datatype World<!S, !V> = World(
    step: (nat, S) -> Effect<S, V>,
    callback: (nat, S) -> Effect<S, V>,
    caught: (V, S) -> S,                 // binds the exception in a handler
    truthy: V -> bool,
    undefined: V)

  datatype Outcome<V> =
    | Normal(value: V)
    | Returned(value: V)
    | Threw(error: V)
    | Fell                               // some framed call ran off its end
    | Exhausted                          // out of fuel

  function Finished<S, V>(e: Effect<S, V>): Outcome<V> {
    if e.threw then Threw(e.value) else Normal(e.value)
  }

  // ---- callbacks ----

  /** Runs every callback, then rethrows the first error, as far as it is not `undefined`. */
  function RunCallbacks<S, V(==)>(w: World<S, V>, callbacks: seq<nat>, store: S, first: V): Effect<S, V> {
    if callbacks == [] then Effect(store, first != w.undefined, first)
    else
      var e := w.callback(callbacks[0], store);
      RunCallbacks(w, callbacks[1..], e.store, if e.threw && first == w.undefined then e.value else first)
  }

  datatype Settled<S, V> = Settled(store: S, queue: Option<seq<nat>>, error: Option<V>)

  /** The end of a frame: run its callbacks, or queue them while hydrating. */
  function Settle<S, V(==)>(w: World<S, V>, store: S, queue: Option<seq<nat>>, frame: seq<nat>): Settled<S, V> {
    if queue.Some? then Settled(store, Some(queue.value + frame), None)
    else
      var e := RunCallbacks(w, frame, store, w.undefined);
      Settled(e.store, None, if e.threw then Some(e.value) else None)
  }

  // ---- the reference: no stack ----

  datatype Ref<S> = Ref(store: S, queue: Option<seq<nat>>, pending: seq<nat>)

  datatype RefRun<S, V> = RefRun(outcome: Outcome<V>, st: Ref<S>)

  function RefExpr<S, V(==)>(w: World<S, V>, program: seq<Component>, e: Expression, st: Ref<S>,
                        fuel: nat): RefRun<S, V>
    decreases fuel, 0, e
  {
    match e
    case Step(id) =>
      var r := w.step(id, st.store);
      RefRun(Finished(r), st.(store := r.store))
    case OnMount(callback) => RefRun(Normal(w.undefined), st.(pending := st.pending + [callback]))
    case Call(component) =>
      if fuel == 0 then RefRun(Exhausted, st)
      else if component >= |program| then RefRun(Threw(w.undefined), st)
      else RefCall(w, program, program[component], st, fuel - 1)
    case Then(first, second) =>
      var a := RefExpr(w, program, first, st, fuel);
      if a.outcome.Normal? then RefExpr(w, program, second, a.st, fuel) else a
    case Choose(test, yes, no) =>
      var t := RefExpr(w, program, test, st, fuel);
      if !t.outcome.Normal? then t
      else if w.truthy(t.outcome.value) then RefExpr(w, program, yes, t.st, fuel)
      else RefExpr(w, program, no, t.st, fuel)
    case Comma(first, rest) =>
      var a := RefExpr(w, program, first, st, fuel);
      if a.outcome.Normal? then RefExpr(w, program, rest, a.st, fuel) else a
    case Assign(value, target) =>
      var a := RefExpr(w, program, value, st, fuel);
      if !a.outcome.Normal? then a
      else
        var r := w.step(target, a.st.store);
        RefRun(Finished(r), a.st.(store := r.store))
  }

  /** A component without returns shares its caller's callbacks; any other collects its own and settles them. */
  function RefCall<S, V(==)>(w: World<S, V>, program: seq<Component>, c: Component, st: Ref<S>, fuel: nat): RefRun<S, V>
    decreases fuel, 3
  {
    var stmts := Body(c);
    if CountOf(stmts) == 0 then
      var r := RefStmts(w, program, stmts, st, fuel);
      if r.outcome.Normal? then RefRun(Normal(w.undefined), r.st) else r
    else
      var r := RefStmts(w, program, stmts, st.(pending := []), fuel);
      match r.outcome
      case Returned(value) =>
        var s := Settle(w, r.st.store, r.st.queue, r.st.pending);
        RefRun(if s.error.Some? then Threw(s.error.value) else Normal(value), Ref(s.store, s.queue, st.pending))
      case Normal(_) => RefRun(Fell, st)
      case _ => RefRun(r.outcome, r.st.(pending := st.pending))
  }

  function Body(c: Component): seq<Stmt> {
    match c
    case FunctionBody(stmts) => stmts
    case ArrowBody(e) => [Return(Some(e))]
  }

  function RefStmts<S, V(==)>(w: World<S, V>, program: seq<Component>, stmts: seq<Stmt>, st: Ref<S>,
                         fuel: nat): RefRun<S, V>
    decreases fuel, 1, stmts
  {
    if stmts == [] then RefRun(Normal(w.undefined), st)
    else
      var a := RefStmt(w, program, stmts[0], st, fuel);
      if a.outcome.Normal? then RefStmts(w, program, stmts[1..], a.st, fuel) else a
  }

  function RefStmt<S, V(==)>(w: World<S, V>, program: seq<Component>, stmt: Stmt, st: Ref<S>, fuel: nat): RefRun<S, V>
    decreases fuel, 1, stmt
  {
    match stmt
    case Do(e) => RefExpr(w, program, e, st, fuel)
    case Return(argument) =>
      if argument.None? then RefRun(Returned(w.undefined), st)
      else
        var a := RefExpr(w, program, argument.value, st, fuel);
        if a.outcome.Normal? then RefRun(Returned(a.outcome.value), a.st) else a
    case Throw(e) =>
      var a := RefExpr(w, program, e, st, fuel);
      if a.outcome.Normal? then RefRun(Threw(a.outcome.value), a.st) else a
    case If(test, yes, no) =>
      var t := RefExpr(w, program, test, st, fuel);
      if !t.outcome.Normal? then t
      else if w.truthy(t.outcome.value) then RefStmt(w, program, yes, t.st, fuel)
      else if no.Some? then RefStmt(w, program, no.value, t.st, fuel)
      else t
    case While(test, body) =>
      var t := RefExpr(w, program, test, st, fuel);
      if !t.outcome.Normal? || !w.truthy(t.outcome.value) then t
      else
        var b := RefStmt(w, program, body, t.st, fuel);
        if !b.outcome.Normal? then b
        else if fuel == 0 then RefRun(Exhausted, b.st)
        else RefStmt(w, program, stmt, b.st, fuel - 1)
    case Block(stmts) => RefStmts(w, program, stmts, st, fuel)
    case Try(body, handler, finalizer) =>
      var b := RefStmt(w, program, body, st, fuel);
      var h := if b.outcome.Threw? && handler.Some?
               then RefStmt(w, program, handler.value, b.st.(store := w.caught(b.outcome.error, b.st.store)), fuel)
               else b;
      if finalizer.None? || h.outcome.Fell? || h.outcome.Exhausted? then h
      else
        var f := RefStmt(w, program, finalizer.value, h.st, fuel);
        if f.outcome.Normal? then RefRun(h.outcome, f.st) else f
    case _ => RefRun(Normal(w.undefined), st)
  }

  // ---- compiled bodies: one stack of frames ----

  datatype Stk<S, V> = Stk(store: S, queue: Option<seq<nat>>, frames: seq<seq<nat>>, results: map<nat, V>)

  datatype StkRun<S, V> = StkRun(outcome: Outcome<V>, st: Stk<S, V>)

  function Top<S, V>(st: Stk<S, V>): seq<nat>
    requires st.frames != []
  {
    st.frames[|st.frames| - 1]
  }

  function Popped<S, V>(st: Stk<S, V>): Stk<S, V>
    requires st.frames != []
  {
    st.(frames := st.frames[..|st.frames| - 1])
  }

  /** `onMount`: onto the top frame, or at once when there is none. */
  function Mount<S, V>(w: World<S, V>, callback: nat, st: Stk<S, V>): StkRun<S, V> {
    if st.frames == [] then
      var e := w.callback(callback, st.store);
      StkRun(Finished(e), st.(store := e.store))
    else StkRun(Normal(w.undefined), st.(frames := Popped(st).frames + [Top(st) + [callback]]))
  }

  /** `__flushMountFrame`: pops first, then settles. */
  function FlushFrame<S, V(==)>(w: World<S, V>, st: Stk<S, V>): StkRun<S, V> {
    if st.frames == [] then StkRun(Normal(w.undefined), st)
    else
      var s := Settle(w, st.store, st.queue, Top(st));
      StkRun(if s.error.Some? then Threw(s.error.value) else Normal(w.undefined),
             Popped(st).(store := s.store, queue := s.queue))
  }

  /** `__discardMountFrame`: pops only at the depth the frame was pushed to. */
  function Discard<S, V>(st: Stk<S, V>, depth: nat): Stk<S, V> {
    if |st.frames| == depth && st.frames != [] then Popped(st) else st
  }

  function StkExpr<S, V(==)>(w: World<S, V>, program: seq<Compiled>, e: Expression, st: Stk<S, V>,
                        fuel: nat): StkRun<S, V>
    decreases fuel, 0, e
  {
    match e
    case Step(id) =>
      var r := w.step(id, st.store);
      StkRun(Finished(r), st.(store := r.store))
    case OnMount(callback) => Mount(w, callback, st)
    case Call(component) =>
      if fuel == 0 then StkRun(Exhausted, st)
      else if component >= |program| then StkRun(Threw(w.undefined), st)
      else StkCall(w, program, program[component], st, fuel - 1)
    case Then(first, second) =>
      var a := StkExpr(w, program, first, st, fuel);
      if a.outcome.Normal? then StkExpr(w, program, second, a.st, fuel) else a
    case Choose(test, yes, no) =>
      var t := StkExpr(w, program, test, st, fuel);
      if !t.outcome.Normal? then t
      else if w.truthy(t.outcome.value) then StkExpr(w, program, yes, t.st, fuel)
      else StkExpr(w, program, no, t.st, fuel)
    case Comma(first, rest) =>
      var a := StkExpr(w, program, first, st, fuel);
      if a.outcome.Normal? then StkExpr(w, program, rest, a.st, fuel) else a
    case Assign(value, target) =>
      var a := StkExpr(w, program, value, st, fuel);
      if !a.outcome.Normal? then a
      else
        var r := w.step(target, a.st.store);
        StkRun(Finished(r), a.st.(store := r.store))
  }

  /** What a call expression makes of the outcome of the body. */
  function CallOutcome<S, V>(w: World<S, V>, outcome: Outcome<V>): Outcome<V> {
    match outcome
    case Returned(value) => Normal(value)
    case Normal(_) => Normal(w.undefined)
    case _ => outcome
  }

  /** `push; try { body } catch { discard; rethrow }` around a framed body. */
  function StkCall<S, V(==)>(w: World<S, V>, program: seq<Compiled>, c: Compiled, st: Stk<S, V>,
                        fuel: nat): StkRun<S, V>
    decreases fuel, 3
  {
    match c
    case Unframed(stmts) =>
      var r := StkStmts(w, program, stmts, st.(results := map[]), fuel);
      StkRun(CallOutcome(w, r.outcome), r.st.(results := st.results))
    case Framed(stmts) =>
      var depth := |st.frames| + 1;
      var r := StkStmts(w, program, stmts, st.(frames := st.frames + [[]], results := map[]), fuel);
      var end := if r.outcome.Threw? then Discard(r.st, depth) else r.st;
      StkRun(CallOutcome(w, r.outcome), end.(results := st.results))
    case Broken => StkRun(Threw(w.undefined), st)
  }

  function StkStmts<S, V(==)>(w: World<S, V>, program: seq<Compiled>, stmts: seq<Stmt>, st: Stk<S, V>,
                         fuel: nat): StkRun<S, V>
    decreases fuel, 1, stmts
  {
    if stmts == [] then StkRun(Normal(w.undefined), st)
    else
      var a := StkStmt(w, program, stmts[0], st, fuel);
      if a.outcome.Normal? then StkStmts(w, program, stmts[1..], a.st, fuel) else a
  }

  function StkStmt<S, V(==)>(w: World<S, V>, program: seq<Compiled>, stmt: Stmt, st: Stk<S, V>, fuel: nat): StkRun<S, V>
    decreases fuel, 1, stmt
  {
    match stmt
    case Do(e) => StkExpr(w, program, e, st, fuel)
    case Return(argument) =>
      if argument.None? then StkRun(Returned(w.undefined), st)
      else
        var a := StkExpr(w, program, argument.value, st, fuel);
        if a.outcome.Normal? then StkRun(Returned(a.outcome.value), a.st) else a
    case Throw(e) =>
      var a := StkExpr(w, program, e, st, fuel);
      if a.outcome.Normal? then StkRun(Threw(a.outcome.value), a.st) else a
    case If(test, yes, no) =>
      var t := StkExpr(w, program, test, st, fuel);
      if !t.outcome.Normal? then t
      else if w.truthy(t.outcome.value) then StkStmt(w, program, yes, t.st, fuel)
      else if no.Some? then StkStmt(w, program, no.value, t.st, fuel)
      else t
    case While(test, body) =>
      var t := StkExpr(w, program, test, st, fuel);
      if !t.outcome.Normal? || !w.truthy(t.outcome.value) then t
      else
        var b := StkStmt(w, program, body, t.st, fuel);
        if !b.outcome.Normal? then b
        else if fuel == 0 then StkRun(Exhausted, b.st)
        else StkStmt(w, program, stmt, b.st, fuel - 1)
    case Block(stmts) => StkStmts(w, program, stmts, st, fuel)
    case Try(body, handler, finalizer) =>
      var b := StkStmt(w, program, body, st, fuel);
      var h := if b.outcome.Threw? && handler.Some?
               then StkStmt(w, program, handler.value, b.st.(store := w.caught(b.outcome.error, b.st.store)), fuel)
               else b;
      if finalizer.None? || h.outcome.Fell? || h.outcome.Exhausted? then h
      else
        var f := StkStmt(w, program, finalizer.value, h.st, fuel);
        if f.outcome.Normal? then StkRun(h.outcome, f.st) else f
    case Nested(_) => StkRun(Normal(w.undefined), st)
    case Const(i, e) =>
      var a := StkExpr(w, program, e, st, fuel);
      if a.outcome.Normal? then StkRun(a.outcome, a.st.(results := a.st.results[i := a.outcome.value])) else a
    case Hide(e) => StkExpr(w, program, e, st, fuel)
    case Flush => FlushFrame(w, st)
    case ReturnResult(i) =>
      StkRun(if i in st.results then Returned(st.results[i]) else Threw(w.undefined), st)
  }

  lemma {:induction false} StkAppend<S, V>(w: World<S, V>, program: seq<Compiled>, a: seq<Stmt>, b: seq<Stmt>,
                                                st: Stk<S, V>, fuel: nat)
    ensures StkStmts(w, program, a + b, st, fuel)
         == var r := StkStmts(w, program, a, st, fuel);
            if r.outcome.Normal? then StkStmts(w, program, b, r.st, fuel) else r
  {
    if a == [] {
      assert a + b == b;
    } else {
      assert (a + b)[1..] == a[1..] + b;
      var first := StkStmt(w, program, a[0], st, fuel);
      if first.outcome.Normal? {
        StkAppend(w, program, a[1..], b, first.st, fuel);
      }
    }
  }

  /** A list of one statement, up to the value of a statement that ends normally. */
  lemma StkOne<S, V>(w: World<S, V>, program: seq<Compiled>, stmt: Stmt, st: Stk<S, V>, fuel: nat)
    ensures var r := StkStmt(w, program, stmt, st, fuel);
      StkStmts(w, program, [stmt], st, fuel) == if r.outcome.Normal? then StkRun(Normal(w.undefined), r.st) else r
  {
    assert [stmt][1..] == [];
  }

  // ---- discipline ----

  /** Nothing happens in the statement. */
  predicate IsIdle(stmt: Stmt) {
    stmt.Nested? || (stmt.Block? && AllIdle(stmt.stmts))
  }

  predicate AllIdle(stmts: seq<Stmt>) {
    stmts == [] || (IsIdle(stmts[0]) && AllIdle(stmts[1..]))
  }

  /**
   No return stands in a `try` block with a handler. Before a `finally` in which
   something happens nothing returns, neither the block nor a handler it can reach.
   */
  predicate Disciplined(stmt: Stmt)
    decreases stmt
  {
    match stmt
    case If(_, yes, no) => Disciplined(yes) && (no.Some? ==> Disciplined(no.value))
    case While(_, body) => Disciplined(body)
    case Block(stmts) => AllDisciplined(stmts)
    case Try(body, handler, finalizer) =>
      && Disciplined(body) && (handler.Some? ==> Disciplined(handler.value))
      && (finalizer.Some? ==> Disciplined(finalizer.value)) && TryIsDisciplined(body, handler, finalizer)
    case _ => true
  }

  predicate TryIsDisciplined(body: Stmt, handler: Option<Stmt>, finalizer: Option<Stmt>) {
    && (handler.Some? ==> Count(body) == 0)
    && (finalizer.Some? && !IsIdle(finalizer.value) ==> Count(body) == 0 && (CountOpt(handler) == 0 || IsIdle(body)))
  }

  predicate AllDisciplined(stmts: seq<Stmt>)
    decreases stmts
  {
    stmts == [] || (Disciplined(stmts[0]) && AllDisciplined(stmts[1..]))
  }

  /** A component body the wrapping is meant for. */
  predicate IsRegular(c: Component) {
    AreSource(Body(c)) && AllDisciplined(Body(c)) && TextSafeAll(Body(c), false)
  }

  predicate AllRegular(program: seq<Component>) {
    forall i :: 0 <= i < |program| ==> IsRegular(program[i])
  }

  function CompileAll(program: seq<Component>): seq<Compiled> {
    seq(|program|, i requires 0 <= i < |program| => Compile(program[i]))
  }

  // ---- the two runs side by side ----

  /** Inside a frame: same store and queue, the pending callbacks on top of the stack. */
  ghost predicate Sim<S, V>(r: Ref<S>, s: Stk<S, V>, below: seq<seq<nat>>) {
    s.store == r.store && s.queue == r.queue && s.frames == below + [r.pending]
  }

  /** A returned body has settled its frame and popped it. */
  ghost predicate SettledAs<S, V>(w: World<S, V>, r: RefRun<S, V>, s: StkRun<S, V>, below: seq<seq<nat>>)
    requires r.outcome.Returned?
  {
    var end := Settle(w, r.st.store, r.st.queue, r.st.pending);
    && s.st.store == end.store && s.st.queue == end.queue && s.st.frames == below
    && s.outcome == if end.error.Some? then Threw(end.error.value) else Returned(r.outcome.value)
  }

  /** What the compiled run does, given what the reference does. */
  ghost predicate Matches<S, V>(w: World<S, V>, r: RefRun<S, V>, s: StkRun<S, V>, below: seq<seq<nat>>) {
    match r.outcome
    case Fell => true
    case Exhausted => s.outcome.Exhausted?
    case Returned(_) => SettledAs(w, r, s, below)
    case Normal(_) => s.outcome.Normal? && Sim(r.st, s.st, below)
    case Threw(_) => s.outcome == r.outcome && Sim(r.st, s.st, below)
  }

  /** As `Matches`, and the values of expressions agree as well. */
  ghost predicate MatchesExpr<S, V>(w: World<S, V>, r: RefRun<S, V>, s: StkRun<S, V>, below: seq<seq<nat>>) {
    match r.outcome
    case Fell => true
    case Exhausted => s.outcome.Exhausted?
    case Returned(_) => false
    case _ => s.outcome == r.outcome && Sim(r.st, s.st, below)
  }

  /** Without returns nothing returns. */
  lemma {:induction false} NothingReturns<S, V>(w: World<S, V>, program: seq<Component>, stmt: Stmt, r: Ref<S>,
                                                fuel: nat)
    requires Count(stmt) == 0
    ensures !RefStmt(w, program, stmt, r, fuel).outcome.Returned?
    decreases fuel, 1, stmt
  {
    match stmt {
      case If(test, yes, no) =>
        var t := RefExpr(w, program, test, r, fuel);
        ExprsDoNotReturn(w, program, test, r, fuel);
        NothingReturns(w, program, yes, t.st, fuel);
        if no.Some? {
          NothingReturns(w, program, no.value, t.st, fuel);
        }
      case While(test, body) =>
        var t := RefExpr(w, program, test, r, fuel);
        ExprsDoNotReturn(w, program, test, r, fuel);
        NothingReturns(w, program, body, t.st, fuel);
        if fuel > 0 {
          NothingReturns(w, program, stmt, RefStmt(w, program, body, t.st, fuel).st, fuel - 1);
        }
      case Block(stmts) =>
        NothingReturnsIn(w, program, stmts, r, fuel);
      case Try(body, handler, finalizer) =>
        NothingReturns(w, program, body, r, fuel);
        var b := RefStmt(w, program, body, r, fuel);
        var h := b;
        if b.outcome.Threw? && handler.Some? {
          var st := b.st.(store := w.caught(b.outcome.error, b.st.store));
          NothingReturns(w, program, handler.value, st, fuel);
          h := RefStmt(w, program, handler.value, st, fuel);
        }
        if finalizer.Some? {
          NothingReturns(w, program, finalizer.value, h.st, fuel);
        }
      case Do(e) =>
        ExprsDoNotReturn(w, program, e, r, fuel);
      case Throw(e) =>
        ExprsDoNotReturn(w, program, e, r, fuel);
      case _ =>
    }
  }

  lemma {:induction false} NothingReturnsIn<S, V>(w: World<S, V>, program: seq<Component>, stmts: seq<Stmt>, r: Ref<S>,
                                                  fuel: nat)
    requires CountOf(stmts) == 0
    ensures !RefStmts(w, program, stmts, r, fuel).outcome.Returned?
    decreases fuel, 1, stmts
  {
    if stmts != [] {
      NothingReturns(w, program, stmts[0], r, fuel);
      NothingReturnsIn(w, program, stmts[1..], RefStmt(w, program, stmts[0], r, fuel).st, fuel);
    }
  }

  lemma {:induction false} ExprsDoNotReturn<S, V>(w: World<S, V>, program: seq<Component>, e: Expression, r: Ref<S>,
                                                  fuel: nat)
    ensures !RefExpr(w, program, e, r, fuel).outcome.Returned?
    decreases fuel, 0, e
  {
    match e {
      case Call(component) =>
        if fuel > 0 && component < |program| && CountOf(Body(program[component])) == 0 {
          NothingReturnsIn(w, program, Body(program[component]), r, fuel - 1);
        }
      case Then(first, second) =>
        ExprsDoNotReturn(w, program, first, r, fuel);
        ExprsDoNotReturn(w, program, second, RefExpr(w, program, first, r, fuel).st, fuel);
      case Choose(test, yes, no) =>
        ExprsDoNotReturn(w, program, test, r, fuel);
        ExprsDoNotReturn(w, program, yes, RefExpr(w, program, test, r, fuel).st, fuel);
        ExprsDoNotReturn(w, program, no, RefExpr(w, program, test, r, fuel).st, fuel);
      case Comma(first, rest) =>
        ExprsDoNotReturn(w, program, first, r, fuel);
        ExprsDoNotReturn(w, program, rest, RefExpr(w, program, first, r, fuel).st, fuel);
      case Assign(value, _) => ExprsDoNotReturn(w, program, value, r, fuel);
      case _ =>
    }
  }

  // ---- simulation ----

  lemma MountMatches<S, V>(w: World<S, V>, callback: nat, r: Ref<S>, s: Stk<S, V>, below: seq<seq<nat>>)
    requires Sim(r, s, below)
    ensures Mount(w, callback, s).outcome == Normal(w.undefined)
    ensures Sim(r.(pending := r.pending + [callback]), Mount(w, callback, s).st, below)
  {
    assert s.frames[..|s.frames| - 1] == below;
  }

  lemma FlushSettles<S, V>(w: World<S, V>, r: Ref<S>, s: Stk<S, V>, below: seq<seq<nat>>)
    requires Sim(r, s, below)
    ensures var end := Settle(w, r.store, r.queue, r.pending);
      var f := FlushFrame(w, s);
      && f.st.store == end.store && f.st.queue == end.queue && f.st.frames == below && f.st.results == s.results
      && f.outcome == if end.error.Some? then Threw(end.error.value) else Normal(w.undefined)
  {
    assert s.frames[..|s.frames| - 1] == below;
  }

  /** `__flushMountFrame(); last` at the end of a return's text. */
  lemma FlushThen<S, V>(w: World<S, V>, program: seq<Compiled>, last: Stmt, s: Stk<S, V>, fuel: nat)
    ensures var f := FlushFrame(w, s);
      StkStmts(w, program, [Flush, last], s, fuel) == if f.outcome.Normal?
        then StkStmts(w, program, [last], f.st, fuel) else f
  {
    assert [Flush, last][1..] == [last];
  }

  lemma BareReturnMatches<S, V>(w: World<S, V>, program: seq<Component>, r: Ref<S>, s: Stk<S, V>, below: seq<seq<nat>>,
                                fuel: nat)
    requires Sim(r, s, below)
    ensures SettledAs(w, RefRun(Returned(w.undefined), r),
                      StkStmts(w, CompileAll(program), [Flush, Return(None)], s, fuel), below)
  {
    FlushSettles(w, r, s, below);
    FlushThen(w, CompileAll(program), Return(None), s, fuel);
    StkOne(w, CompileAll(program), Return(None), FlushFrame(w, s).st, fuel);
  }

  lemma ResultReturnMatches<S, V>(w: World<S, V>, program: seq<Component>, i: nat, value: V, r: Ref<S>, s: Stk<S, V>,
                                  below: seq<seq<nat>>, fuel: nat)
    requires Sim(r, s, below) && i in s.results && s.results[i] == value
    ensures SettledAs(w, RefRun(Returned(value), r),
                      StkStmts(w, CompileAll(program), [Flush, ReturnResult(i)], s, fuel), below)
  {
    FlushSettles(w, r, s, below);
    FlushThen(w, CompileAll(program), ReturnResult(i), s, fuel);
    StkOne(w, CompileAll(program), ReturnResult(i), FlushFrame(w, s).st, fuel);
  }

  lemma ConstThen<S, V>(w: World<S, V>, program: seq<Compiled>, i: nat, e: Expression, rest: seq<Stmt>, s: Stk<S, V>,
                        fuel: nat)
    ensures var a := StkExpr(w, program, e, s, fuel);
      StkStmts(w, program, [Const(i, e)] + rest, s, fuel)
      == if a.outcome.Normal?
        then StkStmts(w, program, rest, a.st.(results := a.st.results[i := a.outcome.value]), fuel) else a
  {
    assert ([Const(i, e)] + rest)[1..] == rest;
  }

  /** The text of one return settles and pops the frame, whatever the argument and the callbacks do. */
  lemma ReturnMatches<S, V>(w: World<S, V>, program: seq<Component>, argument: Option<Expression>, info: ReturnInfo,
                            i: nat,
                            r: Ref<S>, s: Stk<S, V>, below: seq<seq<nat>>, fuel: nat)
    requires Sim(r, s, below) && !IsComma(argument)
    requires argument.Some? ==>
      MatchesExpr(w, RefExpr(w, program, argument.value, r, fuel),
                  StkExpr(w, CompileAll(program), argument.value, s, fuel), below)
    ensures Matches(w, RefStmt(w, program, Return(argument), r, fuel),
                    StkStmts(w, CompileAll(program), ReturnText(argument, info, i), s, fuel), below)
  {
    var text := ReturnText(argument, ReturnInfo(info.hasExpression, false), i);
    var compiled := CompileAll(program);
    if argument.None? {
      BareReturnMatches(w, program, r, s, below, fuel);
    } else {
      var a := RefExpr(w, program, argument.value, r, fuel);
      var b := StkExpr(w, compiled, argument.value, s, fuel);
      ConstThen(w, compiled, i, argument.value, [Flush, ReturnResult(i)], s, fuel);
      assert text == [Const(i, argument.value)] + [Flush, ReturnResult(i)];
      if a.outcome.Normal? {
        ResultReturnMatches(w, program, i, a.outcome.value, a.st, b.st.(results := b.st.results[i := a.outcome.value]),
                            below, fuel);
      }
    }
    StkOne(w, compiled, Block(text), s, fuel);
  }

  lemma {:induction false} ExprMatches<S, V>(w: World<S, V>, program: seq<Component>, e: Expression,
                                             r: Ref<S>, s: Stk<S, V>, below: seq<seq<nat>>, fuel: nat)
    requires AllRegular(program) && Sim(r, s, below)
    ensures MatchesExpr(w, RefExpr(w, program, e, r, fuel), StkExpr(w, CompileAll(program), e, s, fuel), below)
    decreases fuel, 0, e
  {
    match e {
      case Step(_) =>
      case OnMount(callback) =>
        MountMatches(w, callback, r, s, below);
      case Call(component) =>
        if fuel > 0 && component < |program| {
          CallMatches(w, program, program[component], r, s, below, fuel - 1);
        }
      case Then(first, second) =>
        ExprMatches(w, program, first, r, s, below, fuel);
        var a := RefExpr(w, program, first, r, fuel);
        if a.outcome.Normal? {
          ExprMatches(w, program, second, a.st, StkExpr(w, CompileAll(program), first, s, fuel).st, below, fuel);
        }
      case Choose(test, yes, no) =>
        ExprMatches(w, program, test, r, s, below, fuel);
        var t := RefExpr(w, program, test, r, fuel);
        if t.outcome.Normal? {
          var u := StkExpr(w, CompileAll(program), test, s, fuel).st;
          ExprMatches(w, program, if w.truthy(t.outcome.value) then yes else no, t.st, u, below, fuel);
        }
      case Comma(first, rest) =>
        ExprMatches(w, program, first, r, s, below, fuel);
        var a := RefExpr(w, program, first, r, fuel);
        if a.outcome.Normal? {
          ExprMatches(w, program, rest, a.st, StkExpr(w, CompileAll(program), first, s, fuel).st, below, fuel);
        }
      case Assign(value, _) =>
        ExprMatches(w, program, value, r, s, below, fuel);
    }
  }

  /** What a framed call does once its body is known to match. */
  lemma FrameCloses<S, V>(w: World<S, V>, body: RefRun<S, V>, run: StkRun<S, V>, r: Ref<S>, s: Stk<S, V>,
                          below: seq<seq<nat>>)
    requires Sim(r, s, below) && Matches(w, body, run, s.frames)
    requires body.outcome.Returned? || body.outcome.Threw? || body.outcome.Exhausted?
    ensures var end := if run.outcome.Threw? then Discard(run.st, |s.frames| + 1) else run.st;
      && (body.outcome.Exhausted? ==> run.outcome.Exhausted?)
      && (body.outcome.Threw? ==> run.outcome == body.outcome && Sim(body.st.(pending := r.pending), end, below))
      && (body.outcome.Returned? ==>
          var settled := Settle(w, body.st.store, body.st.queue, body.st.pending);
          && Sim(Ref(settled.store, settled.queue, r.pending), end, below)
          && run.outcome == if settled.error.Some? then Threw(settled.error.value) else Returned(body.outcome.value))
  {
    if body.outcome.Threw? {
      assert run.st.frames[..|run.st.frames| - 1] == s.frames;
    }
  }

  lemma ArrowIsReturn(e: Expression)
    requires !e.Comma?
    ensures RewriteAll([Return(Some(e))], [ReturnInfo(true, false)], 0)
      == Spliced([Const(0, e), Flush, ReturnResult(0)], false)
    ensures ReturnsOf([Return(Some(e))], false) == [ReturnInfo(true, false)]
  {
    RewriteOne(Return(Some(e)), [ReturnInfo(true, false)]);
    ReturnsOfOne(Return(Some(e)), false);
  }

  lemma {:induction false} NothingRewritten(stmts: seq<Stmt>, infos: seq<ReturnInfo>, i: nat)
    requires CountOf(stmts) == 0 && AreSource(stmts)
    ensures RewriteAll(stmts, infos, i) == Spliced(stmts, false)
    decreases stmts
  {
    if stmts != [] {
      NothingRewrittenOne(stmts[0], infos, i);
      NothingRewritten(stmts[1..], infos, i);
    }
  }

  lemma {:induction false} NothingRewrittenOne(stmt: Stmt, infos: seq<ReturnInfo>, i: nat)
    requires Count(stmt) == 0 && IsSource(stmt)
    ensures Rewrite(stmt, infos, i) == Spliced([stmt], false)
    decreases stmt
  {
    match stmt {
      case If(_, yes, no) =>
        NothingRewrittenOne(yes, infos, i);
        if no.Some? {
          NothingRewrittenOne(no.value, infos, i);
        }
      case While(_, body) =>
        NothingRewrittenOne(body, infos, i);
      case Block(stmts) =>
        NothingRewritten(stmts, infos, i);
      case Try(body, handler, finalizer) =>
        NothingRewrittenOne(body, infos, i);
        NothingRewrittenIn(handler, infos, i);
        NothingRewrittenIn(finalizer, infos, i);
      case _ =>
    }
  }

  lemma {:induction false} NothingRewrittenIn(stmt: Option<Stmt>, infos: seq<ReturnInfo>, i: nat)
    requires CountOpt(stmt) == 0 && (stmt.Some? ==> IsSource(stmt.value))
    ensures stmt.Some? ==> Rewrite(stmt.value, infos, i) == Spliced([stmt.value], false)
    decreases stmt
  {
    if stmt.Some? {
      NothingRewrittenOne(stmt.value, infos, i);
    }
  }

  /** The compiled form of a regular component, as the rewriting of its body. */
  lemma CompiledBody(c: Component) returns (infos: seq<ReturnInfo>)
    requires IsRegular(c)
    ensures IsClean(RewriteAll(Body(c), infos, 0))
    ensures Compile(c) == var stmts := RewriteAll(Body(c), infos, 0).stmts;
                          if CountOf(Body(c)) == 0 then Unframed(stmts) else Framed(stmts)
  {
    infos := ReturnsOf(Body(c), false);
    assert infos[0..] == infos;
    CleanListIffTextSafe(Body(c), false, infos, 0);
    CountOfIsFixed(Body(c), false);
    if c.ArrowBody? {
      ArrowIsReturn(c.e);
    } else if infos == [] {
      NothingRewritten(c.stmts, infos, 0);
    }
  }

  lemma {:induction false} CallMatches<S, V>(w: World<S, V>, program: seq<Component>, c: Component,
                                             r: Ref<S>, s: Stk<S, V>, below: seq<seq<nat>>, fuel: nat)
    requires AllRegular(program) && IsRegular(c) && Sim(r, s, below)
    ensures MatchesExpr(w, RefCall(w, program, c, r, fuel), StkCall(w, CompileAll(program), Compile(c), s, fuel), below)
    decreases fuel, 3
  {
    var infos := CompiledBody(c);
    if CountOf(Body(c)) == 0 {
      StmtsMatch(w, program, Body(c), infos, 0, r, s.(results := map[]), below, fuel);
      NothingReturnsIn(w, program, Body(c), r, fuel);
    } else {
      var r0, s0 := r.(pending := []), s.(frames := s.frames + [[]], results := map[]);
      StmtsMatch(w, program, Body(c), infos, 0, r0, s0, s.frames, fuel);
      var body := RefStmts(w, program, Body(c), r0, fuel);
      var run := StkStmts(w, CompileAll(program), RewriteAll(Body(c), infos, 0).stmts, s0, fuel);
      if !(body.outcome.Normal? || body.outcome.Fell?) {
        FrameCloses(w, body, run, r, s, below);
      }
    }
  }

  lemma {:induction false} StmtsMatch<S, V>(w: World<S, V>, program: seq<Component>, stmts: seq<Stmt>,
                                            infos: seq<ReturnInfo>, i: nat,
                                            r: Ref<S>, s: Stk<S, V>, below: seq<seq<nat>>, fuel: nat)
    requires AllRegular(program) && Sim(r, s, below)
    requires AreSource(stmts) && AllDisciplined(stmts) && IsClean(RewriteAll(stmts, infos, i))
    ensures Matches(w, RefStmts(w, program, stmts, r, fuel),
                    StkStmts(w, CompileAll(program), RewriteAll(stmts, infos, i).stmts, s, fuel), below)
    decreases fuel, 1, stmts
  {
    if stmts != [] {
      var compiled := CompileAll(program);
      var first := Rewrite(stmts[0], infos, i);
      var rest := RewriteAll(stmts[1..], infos, i + Count(stmts[0]));
      StmtMatches(w, program, stmts[0], infos, i, r, s, below, fuel);
      StkAppend(w, compiled, first.stmts, rest.stmts, s, fuel);
      var a := RefStmt(w, program, stmts[0], r, fuel);
      if a.outcome.Normal? {
        StmtsMatch(w, program, stmts[1..], infos, i + Count(stmts[0]),
                   a.st, StkStmts(w, compiled, first.stmts, s, fuel).st, below, fuel);
      }
    }
  }

  /** A statement that has to be one statement. */
  lemma {:induction false} SingleMatches<S, V>(w: World<S, V>, program: seq<Component>, stmt: Stmt,
                                               infos: seq<ReturnInfo>, i: nat,
                                               r: Ref<S>, s: Stk<S, V>, below: seq<seq<nat>>, fuel: nat)
    requires AllRegular(program) && Sim(r, s, below)
    requires IsSource(stmt) && Disciplined(stmt) && IsOne(Rewrite(stmt, infos, i))
    ensures Matches(w, RefStmt(w, program, stmt, r, fuel),
                    StkStmt(w, CompileAll(program), Rewrite(stmt, infos, i).stmts[0], s, fuel), below)
    decreases fuel, 1, stmt, 3
  {
    StmtMatches(w, program, stmt, infos, i, r, s, below, fuel);
    var stmts := Rewrite(stmt, infos, i).stmts;
    assert stmts == [stmts[0]];
    StkOne(w, CompileAll(program), stmts[0], s, fuel);
  }

  lemma {:induction false} StmtMatches<S, V>(w: World<S, V>, program: seq<Component>, stmt: Stmt,
                                             infos: seq<ReturnInfo>, i: nat,
                                             r: Ref<S>, s: Stk<S, V>, below: seq<seq<nat>>, fuel: nat)
    requires AllRegular(program) && Sim(r, s, below)
    requires IsSource(stmt) && Disciplined(stmt) && IsClean(Rewrite(stmt, infos, i))
    ensures Matches(w, RefStmt(w, program, stmt, r, fuel),
                    StkStmts(w, CompileAll(program), Rewrite(stmt, infos, i).stmts, s, fuel), below)
    decreases fuel, 1, stmt, 2
  {
    var compiled := CompileAll(program);
    var text := Rewrite(stmt, infos, i).stmts;
    if stmt.Return? {
      if stmt.argument.Some? {
        ExprMatches(w, program, stmt.argument.value, r, s, below, fuel);
      }
      ReturnMatches(w, program, stmt.argument, infos[i], i, r, s, below, fuel);
    } else {
      assert text == [text[0]];
      StkOne(w, compiled, text[0], s, fuel);
      match stmt {
        case If(_, _, _) => IfMatches(w, program, stmt, infos, i, r, s, below, fuel);
        case While(_, _) => WhileMatches(w, program, stmt, infos, i, r, s, below, fuel);
        case Block(stmts) => StmtsMatch(w, program, stmts, infos, i, r, s, below, fuel);
        case Try(_, _, _) => TryMatches(w, program, stmt, infos, i, r, s, below, fuel);
        case Do(e) => ExprMatches(w, program, e, r, s, below, fuel);
        case Throw(e) => ExprMatches(w, program, e, r, s, below, fuel);
        case Nested(_) =>
      }
    }
  }

  lemma {:induction false} IfMatches<S, V>(w: World<S, V>, program: seq<Component>, stmt: Stmt, infos: seq<ReturnInfo>,
                                           i: nat,
                                           r: Ref<S>, s: Stk<S, V>, below: seq<seq<nat>>, fuel: nat)
    requires AllRegular(program) && Sim(r, s, below) && stmt.If?
    requires IsSource(stmt) && Disciplined(stmt) && IsClean(Rewrite(stmt, infos, i))
    ensures Matches(w, RefStmt(w, program, stmt, r, fuel),
                    StkStmt(w, CompileAll(program), Rewrite(stmt, infos, i).stmts[0], s, fuel), below)
    decreases fuel, 1, stmt, 1
  {
    ExprMatches(w, program, stmt.test, r, s, below, fuel);
    var t := RefExpr(w, program, stmt.test, r, fuel);
    if t.outcome.Normal? {
      var u := StkExpr(w, CompileAll(program), stmt.test, s, fuel).st;
      if w.truthy(t.outcome.value) {
        SingleMatches(w, program, stmt.yes, infos, i, t.st, u, below, fuel);
      } else if stmt.no.Some? {
        SingleMatches(w, program, stmt.no.value, infos, i + Count(stmt.yes), t.st, u, below, fuel);
      }
    }
  }

  lemma {:induction false} WhileMatches<S, V>(w: World<S, V>, program: seq<Component>, stmt: Stmt,
                                              infos: seq<ReturnInfo>, i: nat,
                                              r: Ref<S>, s: Stk<S, V>, below: seq<seq<nat>>, fuel: nat)
    requires AllRegular(program) && Sim(r, s, below) && stmt.While?
    requires IsSource(stmt) && Disciplined(stmt) && IsClean(Rewrite(stmt, infos, i))
    ensures Matches(w, RefStmt(w, program, stmt, r, fuel),
                    StkStmt(w, CompileAll(program), Rewrite(stmt, infos, i).stmts[0], s, fuel), below)
    decreases fuel, 1, stmt, 1
  {
    ExprMatches(w, program, stmt.test, r, s, below, fuel);
    var t := RefExpr(w, program, stmt.test, r, fuel);
    if t.outcome.Normal? && w.truthy(t.outcome.value) {
      var u := StkExpr(w, CompileAll(program), stmt.test, s, fuel).st;
      SingleMatches(w, program, stmt.body, infos, i, t.st, u, below, fuel);
      var b := RefStmt(w, program, stmt.body, t.st, fuel);
      if b.outcome.Normal? && fuel > 0 {
        var body := Rewrite(stmt.body, infos, i).stmts[0];
        SingleMatches(w, program, stmt, infos, i, b.st, StkStmt(w, CompileAll(program), body, u, fuel).st, below,
                      fuel - 1);
      }
    }
  }

  /** An idle statement holds no return and does nothing. */
  lemma {:induction false} IdleDoesNothing<S, V>(w: World<S, V>, program: seq<Component>, stmt: Stmt, r: Ref<S>,
                                                 s: Stk<S, V>, fuel: nat)
    requires IsIdle(stmt)
    ensures Count(stmt) == 0
    ensures RefStmt(w, program, stmt, r, fuel) == RefRun(Normal(w.undefined), r)
    ensures StkStmt(w, CompileAll(program), stmt, s, fuel) == StkRun(Normal(w.undefined), s)
    decreases stmt
  {
    if stmt.Block? {
      AllIdleDoNothing(w, program, stmt.stmts, r, s, fuel);
    }
  }

  lemma {:induction false} AllIdleDoNothing<S, V>(w: World<S, V>, program: seq<Component>, stmts: seq<Stmt>, r: Ref<S>,
                                                  s: Stk<S, V>,
                                                  fuel: nat)
    requires AllIdle(stmts)
    ensures CountOf(stmts) == 0
    ensures RefStmts(w, program, stmts, r, fuel) == RefRun(Normal(w.undefined), r)
    ensures StkStmts(w, CompileAll(program), stmts, s, fuel) == StkRun(Normal(w.undefined), s)
    decreases stmts
  {
    if stmts != [] {
      IdleDoesNothing(w, program, stmts[0], r, s, fuel);
      AllIdleDoNothing(w, program, stmts[1..], r, s, fuel);
    }
  }

  function RefFinally<S, V(==)>(w: World<S, V>, program: seq<Component>, finalizer: Option<Stmt>, h: RefRun<S, V>,
                           fuel: nat): RefRun<S, V> {
    if finalizer.None? || h.outcome.Fell? || h.outcome.Exhausted? then h
    else
      var f := RefStmt(w, program, finalizer.value, h.st, fuel);
      if f.outcome.Normal? then RefRun(h.outcome, f.st) else f
  }

  function StkFinally<S, V(==)>(w: World<S, V>, program: seq<Compiled>, finalizer: Option<Stmt>, h: StkRun<S, V>,
                           fuel: nat): StkRun<S, V> {
    if finalizer.None? || h.outcome.Fell? || h.outcome.Exhausted? then h
    else
      var f := StkStmt(w, program, finalizer.value, h.st, fuel);
      if f.outcome.Normal? then StkRun(h.outcome, f.st) else f
  }

  lemma {:induction false} FinallyMatches<S, V>(w: World<S, V>, program: seq<Component>, finalizer: Stmt,
                                                infos: seq<ReturnInfo>, k: nat,
                                                h: RefRun<S, V>, d: StkRun<S, V>, below: seq<seq<nat>>, fuel: nat)
    requires AllRegular(program) && Matches(w, h, d, below)
    requires IsSource(finalizer) && Disciplined(finalizer) && IsOne(Rewrite(finalizer, infos, k))
    requires h.outcome.Returned? ==> IsIdle(finalizer)
    ensures Matches(w, RefFinally(w, program, Some(finalizer), h, fuel),
                    StkFinally(w, CompileAll(program), Some(Rewrite(finalizer, infos, k).stmts[0]), d, fuel), below)
    decreases fuel, 1, finalizer, 4
  {
    if h.outcome.Returned? {
      IdleDoesNothing(w, program, finalizer, h.st, d.st, fuel);
      NothingRewrittenOne(finalizer, infos, k);
    } else if !h.outcome.Fell? && !h.outcome.Exhausted? {
      SingleMatches(w, program, finalizer, infos, k, h.st, d.st, below, fuel);
    }
  }

  lemma {:induction false} HandlerMatches<S, V>(w: World<S, V>, program: seq<Component>, handler: Stmt,
                                                infos: seq<ReturnInfo>, j: nat, b: RefRun<S, V>, c: StkRun<S, V>,
                                                below: seq<seq<nat>>, fuel: nat)
    returns (h: RefRun<S, V>, d: StkRun<S, V>)
    requires AllRegular(program) && b.outcome.Threw? && Matches(w, b, c, below)
    requires IsSource(handler) && Disciplined(handler) && IsOne(Rewrite(handler, infos, j))
    ensures h == RefStmt(w, program, handler, b.st.(store := w.caught(b.outcome.error, b.st.store)), fuel)
    ensures d == StkStmt(w, CompileAll(program), Rewrite(handler, infos, j).stmts[0],
                         c.st.(store := w.caught(c.outcome.error, c.st.store)), fuel)
    ensures Matches(w, h, d, below) && (Count(handler) == 0 ==> !h.outcome.Returned?)
    decreases fuel, 1, handler, 4
  {
    var r := b.st.(store := w.caught(b.outcome.error, b.st.store));
    var s := c.st.(store := w.caught(c.outcome.error, c.st.store));
    SingleMatches(w, program, handler, infos, j, r, s, below, fuel);
    if Count(handler) == 0 {
      NothingReturns(w, program, handler, r, fuel);
    }
    h := RefStmt(w, program, handler, r, fuel);
    d := StkStmt(w, CompileAll(program), Rewrite(handler, infos, j).stmts[0], s, fuel);
  }

  lemma {:induction false} TryMatches<S, V>(w: World<S, V>, program: seq<Component>, stmt: Stmt, infos: seq<ReturnInfo>,
                                            i: nat,
                                            r: Ref<S>, s: Stk<S, V>, below: seq<seq<nat>>, fuel: nat)
    requires AllRegular(program) && Sim(r, s, below) && stmt.Try?
    requires IsSource(stmt) && Disciplined(stmt) && IsClean(Rewrite(stmt, infos, i))
    ensures Matches(w, RefStmt(w, program, stmt, r, fuel),
                    StkStmt(w, CompileAll(program), Rewrite(stmt, infos, i).stmts[0], s, fuel), below)
    decreases fuel, 1, stmt, 1
  {
    var h, d := CaughtMatches(w, program, stmt, infos, i, r, s, below, fuel);
    if stmt.finalizer.Some? {
      var k := i + Count(stmt.body) + CountOpt(stmt.handler);
      FinallyMatches(w, program, stmt.finalizer.value, infos, k, h, d, below, fuel);
    }
  }

  /** The block of a `try`, and its handler if the block throws. */
  lemma {:induction false} CaughtMatches<S, V>(w: World<S, V>, program: seq<Component>, stmt: Stmt,
                                               infos: seq<ReturnInfo>, i: nat, r: Ref<S>, s: Stk<S, V>,
                                               below: seq<seq<nat>>, fuel: nat)
    returns (h: RefRun<S, V>, d: StkRun<S, V>)
    requires AllRegular(program) && Sim(r, s, below) && stmt.Try?
    requires IsSource(stmt) && Disciplined(stmt) && IsClean(Rewrite(stmt, infos, i))
    ensures RefStmt(w, program, stmt, r, fuel) == RefFinally(w, program, stmt.finalizer, h, fuel)
    ensures !h.outcome.Fell? ==>
      StkStmt(w, CompileAll(program), Rewrite(stmt, infos, i).stmts[0], s, fuel)
      == StkFinally(w, CompileAll(program), Rewrite(stmt, infos, i).stmts[0].finalizer, d, fuel)
    ensures Matches(w, h, d, below)
    ensures h.outcome.Returned? && stmt.finalizer.Some? ==> IsIdle(stmt.finalizer.value)
    decreases fuel, 1, stmt, 0
  {
    SingleMatches(w, program, stmt.body, infos, i, r, s, below, fuel);
    if Count(stmt.body) == 0 {
      NothingReturns(w, program, stmt.body, r, fuel);
    }
    h, d := RefStmt(w, program, stmt.body, r, fuel),
            StkStmt(w, CompileAll(program), Rewrite(stmt.body, infos, i).stmts[0], s, fuel);
    if h.outcome.Threw? && stmt.handler.Some? {
      if IsIdle(stmt.body) {
        IdleDoesNothing(w, program, stmt.body, r, s, fuel);
      }
      h, d := HandlerMatches(w, program, stmt.handler.value, infos, i + Count(stmt.body), h, d, below, fuel);
    }
  }

  // ---- the discipline ----

  /**
   Every call of a framed component, in any state of the stack and at any depth
   of nested calls: a body that returns or throws leaves the stack as it found
   it, with the result or exception, store and queue of the reference; a body
   that runs off its end leaves its own frame behind.
   */
  lemma FrameDiscipline<S, V>(w: World<S, V>, program: seq<Component>, c: Component, s: Stk<S, V>, fuel: nat)
    requires AllRegular(program) && IsRegular(c) && CountOf(Body(c)) > 0
    ensures var body := RefStmts(w, program, Body(c), Ref(s.store, s.queue, []), fuel);
      var call := RefCall(w, program, c, Ref(s.store, s.queue, []), fuel);
      var run := StkCall(w, CompileAll(program), Compile(c), s, fuel);
      && (body.outcome.Exhausted? <==> call.outcome.Exhausted?)
      && (call.outcome.Exhausted? ==> run.outcome.Exhausted?)
      && (body.outcome.Returned? || body.outcome.Threw? ==>
          run == StkRun(call.outcome, Stk(call.st.store, call.st.queue, s.frames, s.results)))
      && (body.outcome.Normal? ==>
          run == StkRun(Normal(w.undefined),
                        Stk(body.st.store, body.st.queue, s.frames + [body.st.pending], s.results)))
  {
    var infos := CompiledBody(c);
    var r0 := Ref(s.store, s.queue, []);
    var s0 := s.(frames := s.frames + [[]], results := map[]);
    StmtsMatch(w, program, Body(c), infos, 0, r0, s0, s.frames, fuel);
    var body := RefStmts(w, program, Body(c), r0, fuel);
    var run := StkStmts(w, CompileAll(program), RewriteAll(Body(c), infos, 0).stmts, s0, fuel);
    if body.outcome.Threw? {
      assert run.st.frames[..|run.st.frames| - 1] == s.frames;
    }
  }

  /**
   Outside the discipline: a `finally` that returns after its `try` block has
   returned flushes twice, and the second flush settles the caller's frame.
   */
  lemma FinallyReturnTakesParentFrame<S, V>(w: World<S, V>, program: seq<Component>, s: Stk<S, V>, parent: seq<nat>,
                                            below: seq<seq<nat>>, fuel: nat)
    requires s.frames == below + [parent] && forall id, store :: !w.step(id, store).threw
    ensures var c := FunctionBody([Try(Block([Return(Some(Step(0)))]), None, Some(Block([Return(Some(Step(1)))])))]);
      !AllDisciplined(c.stmts) && StkCall(w, CompileAll(program), Compile(c), s, fuel).st.frames == below
  {
    var first, second := Return(Some(Step(0))), Return(Some(Step(1)));
    var c := FunctionBody([Try(Block([first]), None, Some(Block([second])))]);
    var compiled := CompileAll(program);
    var a, b := [Const(0, Step(0)), Flush, ReturnResult(0)], [Const(1, Step(1)), Flush, ReturnResult(1)];
    CompiledTryFinally(first, second, a, b);
    var s0 := s.(frames := s.frames + [[]], results := map[]);
    EmptyFrameSettles(w, w.step(0, s.store).store, s.queue);
    ReturnPops(w, program, 0, [], s0, s.frames, fuel);
    var s1 := StkStmts(w, compiled, a, s0, fuel).st;
    ReturnPops(w, program, 1, parent, s1, below, fuel);
    var run := StkStmts(w, compiled, b, s1, fuel);
    var t := Try(Block(a), None, Some(Block(b)));
    assert StkStmt(w, compiled, t, s0, fuel) == run;
    StkOne(w, compiled, t, s0, fuel);
  }

  /**
   A returned comma expression that ends in an assignment: the compiled body
   returns the first value and does not assign, where the source assigns and
   returns the last.
   */
  lemma CommaReturnsFirst<S, V>(w: World<S, V>, program: seq<Component>, s: Stk<S, V>, fuel: nat)
    requires forall id, store :: !w.step(id, store).threw
    ensures var c := FunctionBody([Return(Some(Expression.Comma(Step(0), Assign(Step(1), 2))))]);
      var first := w.step(0, s.store);
      var second := w.step(1, first.store);
      var third := w.step(2, second.store);
      var run := StkCall(w, CompileAll(program), Compile(c), s, fuel);
      var call := RefCall(w, program, c, Ref(s.store, s.queue, []), fuel);
      && run == StkRun(Normal(first.value), s.(store := second.store))
      && call.outcome == Normal(third.value) && call.st.store == third.store
  {
    var comma := Expression.Comma(Step(0), Assign(Step(1), 2));
    var stmts := [Return(Some(comma))];
    CommaReturnBreaks(Step(0), Assign(Step(1), 2));
    var text := [Const(0, Step(0)), Hide(Step(1)), Flush, ReturnResult(0)];
    assert [Const(0, Step(0))] + Hidden(Assign(Step(1), 2)) + [Flush, ReturnResult(0)] == text;
    var s0 := s.(frames := s.frames + [[]], results := map[]);
    var first := w.step(0, s.store);
    var second := w.step(1, first.store);
    HiddenRuns(w, program, text, s0, s.frames, fuel);
    CommaRuns(w, program, Ref(s.store, s.queue, []), fuel);
    EmptyFrameSettles(w, second.store, s.queue);
    EmptyFrameSettles(w, w.step(2, second.store).store, s.queue);
  }

  /** The compiled text of such a return. */
  lemma HiddenRuns<S, V>(w: World<S, V>, program: seq<Component>, text: seq<Stmt>, s0: Stk<S, V>, below: seq<seq<nat>>,
                         fuel: nat)
    requires text == [Const(0, Step(0)), Hide(Step(1)), Flush, ReturnResult(0)]
    requires s0.frames == below + [[]] && forall id, store :: !w.step(id, store).threw
    ensures var first := w.step(0, s0.store);
      var run := StkStmts(w, CompileAll(program), text, s0, fuel);
      && run.outcome == Returned(first.value) && run.st.store == w.step(1, first.store).store
      && run.st.queue == s0.queue && run.st.frames == below
  {
    var compiled := CompileAll(program);
    var first := w.step(0, s0.store);
    var second := w.step(1, first.store);
    var s1 := s0.(store := first.store, results := s0.results[0 := first.value]);
    var s2 := s1.(store := second.store);
    ConstThen(w, compiled, 0, Step(0), [Hide(Step(1)), Flush, ReturnResult(0)], s0, fuel);
    assert text == [Const(0, Step(0))] + [Hide(Step(1)), Flush, ReturnResult(0)];
    assert [Hide(Step(1)), Flush, ReturnResult(0)][1..] == [Flush, ReturnResult(0)];
    assert StkExpr(w, compiled, Step(0), s0, fuel) == StkRun(Normal(first.value), s0.(store := first.store));
    assert StkStmt(w, compiled, Hide(Step(1)), s1, fuel) == StkRun(Normal(second.value), s2);
    assert StkStmts(w, compiled, text, s0, fuel) == StkStmts(w, compiled, [Flush, ReturnResult(0)], s2, fuel);
    ResultReturnMatches(w, program, 0, first.value, Ref(s2.store, s2.queue, []), s2, below, fuel);
    EmptyFrameSettles(w, s2.store, s2.queue);
  }

  lemma StepReturns<S, V>(w: World<S, V>, id: nat, store: S)
    requires forall id, store :: !w.step(id, store).threw
    ensures !w.step(id, store).threw
  {
  }

  /** The source of it. */
  lemma CommaRuns<S, V>(w: World<S, V>, program: seq<Component>, r: Ref<S>, fuel: nat)
    requires forall id, store :: !w.step(id, store).threw
    ensures var comma := Expression.Comma(Step(0), Assign(Step(1), 2));
      var third := w.step(2, w.step(1, w.step(0, r.store).store).store);
      RefStmts(w, program, [Return(Some(comma))], r, fuel) == RefRun(Returned(third.value), r.(store := third.store))
    ensures CountOf([Return(Some(Expression.Comma(Step(0), Assign(Step(1), 2))))]) == 1
  {
    var comma := Expression.Comma(Step(0), Assign(Step(1), 2));
    var first := w.step(0, r.store);
    var second := w.step(1, first.store);
    var third := w.step(2, second.store);
    StepReturns(w, 1, first.store);
    StepReturns(w, 2, second.store);
    var r1, r2 := r.(store := first.store), r.(store := second.store);
    assert RefExpr(w, program, Step(1), r1, fuel) == RefRun(Normal(second.value), r2);
    assert RefExpr(w, program, Assign(Step(1), 2), r1, fuel) == RefRun(Finished(third), r2.(store := third.store));
    assert RefExpr(w, program, Assign(Step(1), 2), r1, fuel)
        == RefRun(Normal(third.value), r.(store := third.store));
    assert RefExpr(w, program, Step(0), r, fuel) == RefRun(Normal(first.value), r.(store := first.store));
    assert RefExpr(w, program, comma, r, fuel) == RefRun(Normal(third.value), r.(store := third.store));
    ReturnOne(w, program, comma, r, fuel);
  }

  lemma EmptyFrameSettles<S, V>(w: World<S, V>, store: S, queue: Option<seq<nat>>)
    ensures Settle(w, store, queue, []) == Settled(store, queue, None)
  {
    if queue.Some? {
      assert queue.value + [] == queue.value;
    }
  }

  lemma ReturnOne<S, V>(w: World<S, V>, program: seq<Component>, e: Expression, r: Ref<S>, fuel: nat)
    ensures var a := RefExpr(w, program, e, r, fuel);
      a.outcome.Normal? ==>
        RefStmts(w, program, [Return(Some(e))], r, fuel) == RefRun(Returned(a.outcome.value), a.st)
    ensures CountOf([Return(Some(e))]) == 1
  {
    ReturnsOfOne(Return(Some(e)), false);
  }

  /** The text of a return pops one frame and leaves the body. */
  lemma ReturnPops<S, V>(w: World<S, V>, program: seq<Component>, i: nat, frame: seq<nat>, s: Stk<S, V>,
                         below: seq<seq<nat>>, fuel: nat)
    requires s.frames == below + [frame] && forall id, store :: !w.step(id, store).threw
    ensures var run := StkStmts(w, CompileAll(program), [Const(i, Step(i)), Flush, ReturnResult(i)], s, fuel);
      run.st.frames == below && (run.outcome.Returned? || run.outcome.Threw?)
    ensures Settle(w, w.step(i, s.store).store, s.queue, frame).error.None? ==>
      StkStmts(w, CompileAll(program), [Const(i, Step(i)), Flush, ReturnResult(i)], s, fuel).outcome.Returned?
  {
    ReturnMatches(w, program, Some(Step(i)), ReturnInfo(true, false), i, Ref(s.store, s.queue, frame), s, below, fuel);
  }

  lemma CompiledTryFinally(first: Stmt, second: Stmt, a: seq<Stmt>, b: seq<Stmt>)
    requires first == Return(Some(Step(0))) && a == [Const(0, Step(0)), Flush, ReturnResult(0)]
    requires second == Return(Some(Step(1))) && b == [Const(1, Step(1)), Flush, ReturnResult(1)]
    ensures var c := FunctionBody([Try(Block([first]), None, Some(Block([second])))]);
      !AllDisciplined(c.stmts) && Compile(c) == Framed([Try(Block(a), None, Some(Block(b)))])
  {
    var t := Try(Block([first]), None, Some(Block([second])));
    var info := ReturnInfo(true, false);
    ReturnsOfOne(first, false);
    ReturnsOfOne(second, false);
    ReturnsOfOne(t, false);
    CountIsFixed(Block([first]), false);
    assert !AllIdle([second]);
    assert ReturnsOf([t], false) == [info, info];
    RewriteOneAt(first, [info, info], 0);
    RewriteOneAt(second, [info, info], 1);
    RewriteOneAt(t, [info, info], 0);
  }
}
