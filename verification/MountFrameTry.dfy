/**
 Returns in `try` statements
 (native/vertz-compiler-core/src/mount_frame_transformer.rs,
 packages/ui/src/component/lifecycle.ts): a return's text pops its frame before
 the callbacks run, so what runs after it in the same body works on the
 caller's frame. When that shows, exactly, for one `try` statement.
 */
module MountFrameTry {
  import opened JsxSyntax
  import opened MountFrames
  import opened MountFrameRun

  // ---- one `try` statement ----

  datatype End = FallsThrough | ReturnsNothing | ReturnsStep(id: nat)

  /** The statements of a block: steps, and how it ends. */
  datatype Part = Part(steps: seq<nat>, end: End)

  function StmtsOf(steps: seq<nat>, end: End): seq<Stmt> {
    if steps != [] then [Do(Step(steps[0]))] + StmtsOf(steps[1..], end)
    else
      match end
      case FallsThrough => []
      case ReturnsNothing => [Return(None)]
      case ReturnsStep(id) => [Return(Some(Step(id)))]
  }

  function BlockOf(p: Part): Stmt {
    Block(StmtsOf(p.steps, p.end))
  }

  function OptBlockOf(p: Option<Part>): Option<Stmt> {
    if p.None? then None else Some(BlockOf(p.value))
  }

  function TryOf(body: Part, handler: Option<Part>, finalizer: Option<Part>): Stmt {
    Try(BlockOf(body), OptBlockOf(handler), OptBlockOf(finalizer))
  }

  predicate IsEmpty(p: Part) {
    p.steps == [] && p.end.FallsThrough?
  }

  ghost predicate HasFacts(stmts: seq<Stmt>, count: nat) {
    AreSource(stmts) && AllDisciplined(stmts) && TextSafeAll(stmts, false) && CountOf(stmts) == count
  }

  lemma EndFacts(end: End)
    ensures HasFacts(StmtsOf([], end), if end.FallsThrough? then 0 else 1)
    ensures AllIdle(StmtsOf([], end)) <==> end.FallsThrough?
  {
    match end {
      case FallsThrough =>
      case ReturnsNothing => OneReturn(None);
      case ReturnsStep(id) => OneReturn(Some(Step(id)));
    }
  }

  lemma OneReturn(argument: Option<Expression>)
    requires !IsComma(argument)
    ensures HasFacts([Return(argument)], 1) && !AllIdle([Return(argument)])
  {
    var stmts := [Return(argument)];
    assert stmts[1..] == [];
    ReturnsOfOne(stmts[0], false);
    assert AreSource(stmts[1..]) && AllDisciplined(stmts[1..]) && TextSafeAll(stmts[1..], false);
  }

  lemma {:induction false} StmtsFacts(steps: seq<nat>, end: End)
    ensures HasFacts(StmtsOf(steps, end), if end.FallsThrough? then 0 else 1)
    ensures AllIdle(StmtsOf(steps, end)) <==> steps == [] && end.FallsThrough?
  {
    if steps == [] {
      EndFacts(end);
    } else {
      var rest := StmtsOf(steps[1..], end);
      StmtsFacts(steps[1..], end);
      assert StmtsOf(steps, end)[1..] == rest;
      ListSteps(StmtsOf(steps, end), [], 0);
    }
  }

  lemma BlockFacts(p: Part)
    ensures var b := BlockOf(p);
      && IsSource(b) && Disciplined(b) && TextSafe(b, false, false) && (IsIdle(b) <==> IsEmpty(p))
      && Count(b) == (if p.end.FallsThrough? then 0 else 1)
  {
    StmtsFacts(p.steps, p.end);
  }

  lemma TryFacts(body: Part, handler: Option<Part>, finalizer: Option<Part>)
    ensures var t, infos := TryOf(body, handler, finalizer), Returns(TryOf(body, handler, finalizer), false);
      && IsSource(t) && IsClean(Rewrite(t, infos, 0))
      && (Disciplined(t) <==> TryIsDisciplined(t.body, t.handler, t.finalizer))
  {
    var t := TryOf(body, handler, finalizer);
    BlockFacts(body);
    if handler.Some? { BlockFacts(handler.value); }
    if finalizer.Some? { BlockFacts(finalizer.value); }
    var infos := Returns(t, false);
    assert infos[0..0 + |infos|] == infos;
    CleanIffTextSafe(t, false, infos, 0);
  }

  /** The two runs of the statement agree in every world, whatever the frames below. */
  ghost predicate RunsAlike(stmt: Stmt) {
    var text := Rewrite(stmt, Returns(stmt, false), 0);
    && text.Spliced?
    && forall w: World<seq<int>, int>, program: seq<Component>, r: Ref<seq<int>>, s: Stk<seq<int>, int>, below,
        fuel: nat ::
         AllRegular(program) && Sim(r, s, below) ==>
           Matches(w, RefStmt(w, program, stmt, r, fuel), StkStmts(w, CompileAll(program), text.stmts, s, fuel), below)
  }

  // ---- a world that shows the order of events ----

  /** Steps write 0 and callbacks 1; a step fails in an empty store, callback 1 always. */
  function Logger(): World<seq<int>, int> {
    World((_, store) => if store == [] then Effect(store, true, 1) else Effect(store + [0], false, 0),
          (callback, store) => Effect(store + [1], callback == 1, 1),
          (_, _) => [2],
          _ => true,
          0)
  }

  predicate EndsInStep(store: seq<int>) {
    store != [] && store[|store| - 1] == 0
  }

  lemma LoggerSteps(id: nat, r: Ref<seq<int>>, fuel: nat)
    ensures RefExpr(Logger(), [], Step(id), r, fuel)
         == if r.store == [] then RefRun(Threw(1), r) else RefRun(Normal(0), r.(store := r.store + [0]))
  {
  }

  lemma LoggerEnds(end: End, r: Ref<seq<int>>, fuel: nat)
    requires r.store != []
    ensures var a := RefStmts(Logger(), [], StmtsOf([], end), r, fuel);
      && a.outcome == (if end.FallsThrough? then Normal(0) else Returned(0))
      && a.st == if end.ReturnsStep? then r.(store := r.store + [0]) else r
  {
    var stmts := StmtsOf([], end);
    if end.ReturnsStep? {
      LoggerSteps(end.id, r, fuel);
      assert stmts == [Return(Some(Step(end.id)))] && stmts[1..] == [];
    } else if end.ReturnsNothing? {
      assert stmts == [Return(None)] && stmts[1..] == [];
    }
  }

  /** The reference on a block, from a store that is not empty. */
  lemma {:induction false} LoggerRuns(steps: seq<nat>, end: End, r: Ref<seq<int>>, fuel: nat)
    requires r.store != []
    ensures var a := RefStmts(Logger(), [], StmtsOf(steps, end), r, fuel);
      && a.outcome == (if end.FallsThrough? then Normal(0) else Returned(0))
      && a.st.queue == r.queue && a.st.pending == r.pending && a.st.store != []
      && (steps != [] || EndsInStep(r.store) ==> EndsInStep(a.st.store))
    decreases steps
  {
    if steps == [] {
      LoggerEnds(end, r, fuel);
    } else {
      var stmts := StmtsOf(steps, end);
      LoggerSteps(steps[0], r, fuel);
      assert stmts[0] == Do(Step(steps[0])) && stmts[1..] == StmtsOf(steps[1..], end);
      LoggerRuns(steps[1..], end, r.(store := r.store + [0]), fuel);
    }
  }

  lemma LoggerBlock(p: Part, r: Ref<seq<int>>, fuel: nat)
    requires r.store != []
    ensures var a := RefStmt(Logger(), [], BlockOf(p), r, fuel);
      && a.outcome == (if p.end.FallsThrough? then Normal(0) else Returned(0))
      && a.st.queue == r.queue && a.st.pending == r.pending && a.st.store != []
      && (p.steps != [] ==> EndsInStep(a.st.store))
  {
    LoggerRuns(p.steps, p.end, r, fuel);
  }

  /** In an empty store the first step fails. */
  lemma LoggerFails(p: Part, r: Ref<seq<int>>, fuel: nat)
    requires r.store == [] && p.steps != []
    ensures RefStmt(Logger(), [], BlockOf(p), r, fuel) == RefRun(Threw(1), r)
  {
    LoggerSteps(p.steps[0], r, fuel);
    var stmts := StmtsOf(p.steps, p.end);
    assert RefStmt(Logger(), [], stmts[0], r, fuel) == RefRun(Threw(1), r);
    assert RefStmts(Logger(), [], stmts, r, fuel) == RefRun(Threw(1), r);
  }

  /** Settling writes a 1 for the one callback there is. */
  lemma LoggerSettles(store: seq<int>, frame: seq<nat>)
    requires frame == [] || frame == [0] || frame == [1]
    ensures var end := Settle(Logger(), store, None, frame);
      && end.queue == None && end.store == (if frame == [] then store else store + [1])
      && end.error == if frame == [1] then Some(1) else None
  {
    var w := Logger();
    if frame != [] {
      assert frame[1..] == [];
      var e := w.callback(frame[0], store);
      assert RunCallbacks(w, frame[1..], e.store, if e.threw then e.value else 0)
          == Effect(e.store, e.threw, if e.threw then e.value else 0);
    }
  }

  // ---- two blocks that both run ----

  /** The compiled block does what `Matches` says. */
  lemma BlockMatches(p: Part, infos: seq<ReturnInfo>, i: nat, r: Ref<seq<int>>, s: Stk<seq<int>, int>,
                     below: seq<seq<nat>>, fuel: nat)
    requires Sim(r, s, below) && IsOne(Rewrite(BlockOf(p), infos, i))
    ensures Matches(Logger(), RefStmt(Logger(), [], BlockOf(p), r, fuel),
                    StkStmt(Logger(), [], Rewrite(BlockOf(p), infos, i).stmts[0], s, fuel), below)
  {
    BlockFacts(p);
    assert CompileAll([]) == [];
    SingleMatches(Logger(), [], BlockOf(p), infos, i, r, s, below, fuel);
  }

  /**
   A block that returns, then a `finally` that is not empty: either the callback
   ran too early, or the caller's frame is gone.
   */
  lemma FinallyDiffers(first: Part, last: Part, infos: seq<ReturnInfo>, i: nat, k: nat, r: Ref<seq<int>>,
                       s: Stk<seq<int>, int>, fuel: nat)
    requires !first.end.FallsThrough? && !IsEmpty(last) && r.store != [] && r.queue == None && Sim(r, s, [[]])
    requires r.pending == if last.end.FallsThrough? then [0] else []
    requires IsOne(Rewrite(BlockOf(first), infos, i)) && IsOne(Rewrite(BlockOf(last), infos, k))
    ensures var h := RefStmt(Logger(), [], BlockOf(first), r, fuel);
      var d := StkStmt(Logger(), [], Rewrite(BlockOf(first), infos, i).stmts[0], s, fuel);
      !Matches(Logger(), RefFinally(Logger(), [], Some(BlockOf(last)), h, fuel),
               StkFinally(Logger(), [], Some(Rewrite(BlockOf(last), infos, k).stmts[0]), d, fuel), [[]])
  {
    var w := Logger();
    var h := RefStmt(w, [], BlockOf(first), r, fuel);
    var d := StkStmt(w, [], Rewrite(BlockOf(first), infos, i).stmts[0], s, fuel);
    LoggerBlock(first, r, fuel);
    LoggerSettles(h.st.store, r.pending);
    BlockMatches(first, infos, i, r, s, [[]], fuel);
    assert d.outcome == Returned(0) && d.st.frames == [] + [[]] && d.st.store != [];
    var r1 := Ref(d.st.store, None, []);
    LoggerBlock(last, h.st, fuel);
    LoggerBlock(last, r1, fuel);
    BlockMatches(last, infos, k, r1, d.st, [], fuel);
    var f := RefStmt(w, [], BlockOf(last), h.st, fuel);
    LoggerSettles(f.st.store, r.pending);
    LoggerSettles(RefStmt(w, [], BlockOf(last), r1, fuel).st.store, []);
  }

  /** A block that returns under a handler: the callback's exception is caught. */
  lemma HandlerDiffers(body: Part, handler: Part, infos: seq<ReturnInfo>, i: nat, j: nat, r: Ref<seq<int>>,
                       s: Stk<seq<int>, int>, fuel: nat) returns (d: StkRun<seq<int>, int>)
    requires !body.end.FallsThrough? && r == Ref([2], None, [1]) && Sim(r, s, [[], []])
    requires IsOne(Rewrite(BlockOf(body), infos, i)) && IsOne(Rewrite(BlockOf(handler), infos, j))
    ensures var c := StkStmt(Logger(), [], Rewrite(BlockOf(body), infos, i).stmts[0], s, fuel);
      && c.outcome == Threw(1)
      && d == StkStmt(Logger(), [], Rewrite(BlockOf(handler), infos, j).stmts[0], c.st.(store := [2]), fuel)
      && (d.outcome.Normal? || d.outcome.Returned?) && d.st.store != [] && d.st.queue == None
      && (d.st.frames == [[], []] || d.st.frames == [[]])
  {
    var w := Logger();
    var b := RefStmt(w, [], BlockOf(body), r, fuel);
    var c := StkStmt(w, [], Rewrite(BlockOf(body), infos, i).stmts[0], s, fuel);
    LoggerBlock(body, r, fuel);
    LoggerSettles(b.st.store, [1]);
    BlockMatches(body, infos, i, r, s, [[], []], fuel);
    var s1 := c.st.(store := [2]);
    var r1 := Ref([2], None, []);
    assert s1.frames == [[]] + [[]];
    LoggerBlock(handler, r1, fuel);
    BlockMatches(handler, infos, j, r1, s1, [[]], fuel);
    LoggerSettles(RefStmt(w, [], BlockOf(handler), r1, fuel).st.store, []);
    d := StkStmt(w, [], Rewrite(BlockOf(handler), infos, j).stmts[0], s1, fuel);
  }

  // ---- the exact condition ----

  lemma TryParts(body: Part, handler: Option<Part>, finalizer: Option<Part>)
    ensures var t := TryOf(body, handler, finalizer);
      var infos, j := Returns(t, false), Count(t.body);
      && IsOne(Rewrite(t.body, infos, 0))
      && (handler.Some? ==> IsOne(Rewrite(t.handler.value, infos, j)))
      && (finalizer.Some? ==> IsOne(Rewrite(t.finalizer.value, infos, j + CountOpt(t.handler))))
      && Rewrite(t, infos, 0) == Spliced([TextOf(t, infos)], false)
  {
    TryFacts(body, handler, finalizer);
  }

  /** The text of a `try` statement whose blocks are overwritten. */
  function TextOf(t: Stmt, infos: seq<ReturnInfo>): Stmt
    requires t.Try? && IsOne(Rewrite(t.body, infos, 0))
    requires t.handler.Some? ==> IsOne(Rewrite(t.handler.value, infos, Count(t.body)))
    requires t.finalizer.Some? ==> IsOne(Rewrite(t.finalizer.value, infos, Count(t.body) + CountOpt(t.handler)))
  {
    var j := Count(t.body);
    Try(Rewrite(t.body, infos, 0).stmts[0],
        if t.handler.None? then None else Some(Rewrite(t.handler.value, infos, j).stmts[0]),
        if t.finalizer.None? then None else Some(Rewrite(t.finalizer.value, infos, j + CountOpt(t.handler)).stmts[0]))
  }

  ghost predicate AlikeHere(t: Stmt, text: Stmt, r: Ref<seq<int>>, s: Stk<seq<int>, int>, below: seq<seq<nat>>) {
    Matches(Logger(), RefStmt(Logger(), [], t, r, 0), StkStmt(Logger(), [], text, s, 0), below)
  }

  lemma AlikeInLogger(t: Stmt, text: Stmt, r: Ref<seq<int>>, s: Stk<seq<int>, int>, below: seq<seq<nat>>)
    requires RunsAlike(t) && Rewrite(t, Returns(t, false), 0).stmts == [text] && Sim(r, s, below)
    ensures AlikeHere(t, text, r, s, below)
  {
    assert AllRegular([]) && CompileAll([]) == [];
    assert Matches(Logger(), RefStmt(Logger(), [], t, r, 0), StkStmts(Logger(), CompileAll([]), [text], s, 0), below);
    StkOne(Logger(), [], text, s, 0);
  }

  /** A `try` statement as its parts run. */
  lemma TryRuns(t: Stmt, text: Stmt, r: Ref<seq<int>>, s: Stk<seq<int>, int>)
    requires t.Try? && text.Try?
    ensures var h := RefStmt(Logger(), [], t.body, r, 0);
      (h.outcome.Threw? && t.handler.Some?)
        || RefStmt(Logger(), [], t, r, 0) == RefFinally(Logger(), [], t.finalizer, h, 0)
    ensures var d := StkStmt(Logger(), [], text.body, s, 0);
      (d.outcome.Threw? && text.handler.Some?)
      || StkStmt(Logger(), [], text, s, 0) == StkFinally(Logger(), [], text.finalizer, d, 0)
  {
  }

  lemma HandlerRuns(t: Stmt, text: Stmt, r: Ref<seq<int>>, s: Stk<seq<int>, int>)
    requires t.Try? && text.Try?
    ensures var b := RefStmt(Logger(), [], t.body, r, 0);
      b.outcome.Threw? && t.handler.Some? ==>
        var h := RefStmt(Logger(), [], t.handler.value, b.st.(store := [2]), 0);
        RefStmt(Logger(), [], t, r, 0) == RefFinally(Logger(), [], t.finalizer, h, 0)
    ensures var c := StkStmt(Logger(), [], text.body, s, 0);
      c.outcome.Threw? && text.handler.Some? ==>
        var d := StkStmt(Logger(), [], text.handler.value, c.st.(store := [2]), 0);
        StkStmt(Logger(), [], text, s, 0) == StkFinally(Logger(), [], text.finalizer, d, 0)
  {
  }

  lemma FinallyDoesNotThrow(last: Part, infos: seq<ReturnInfo>, k: nat, s: Stk<seq<int>, int>)
    requires IsOne(Rewrite(BlockOf(last), infos, k))
    requires s.store != [] && s.queue == None && (s.frames == [[], []] || s.frames == [[]])
    ensures var f := StkStmt(Logger(), [], Rewrite(BlockOf(last), infos, k).stmts[0], s, 0);
      f.outcome.Normal? || f.outcome.Returned?
  {
    var below: seq<seq<nat>> := if s.frames == [[]] then [] else [[]];
    var r := Ref(s.store, None, []);
    assert s.frames == below + [[]];
    LoggerBlock(last, r, 0);
    BlockMatches(last, infos, k, r, s, below, 0);
    LoggerSettles(RefStmt(Logger(), [], BlockOf(last), r, 0).st.store, []);
  }

  /** In the source the return stands, and the callback fails once the body has returned. */
  lemma ReturnStands(body: Part, handler: Part, finalizer: Option<Part>, text: Stmt, r: Ref<seq<int>>,
                     s: Stk<seq<int>, int>)
    requires !body.end.FallsThrough? && r == Ref([2], None, [1]) && text.Try?
    ensures var a := RefStmt(Logger(), [], TryOf(body, Some(handler), finalizer), r, 0);
      a.outcome.Returned? && Settle(Logger(), a.st.store, a.st.queue, a.st.pending).error == Some(1)
  {
    var t := TryOf(body, Some(handler), finalizer);
    var h := RefStmt(Logger(), [], t.body, r, 0);
    LoggerBlock(body, r, 0);
    TryRuns(t, text, r, s);
    if finalizer.Some? {
      LoggerBlock(finalizer.value, h.st, 0);
    }
    LoggerSettles(RefFinally(Logger(), [], t.finalizer, h, 0).st.store, [1]);
  }

  /** In the compiled body the handler runs instead. */
  lemma HandlerTakesOver(body: Part, handler: Part, finalizer: Option<Part>, text: Stmt, infos: seq<ReturnInfo>,
                         j: nat, k: nat, r: Ref<seq<int>>, s: Stk<seq<int>, int>)
    requires !body.end.FallsThrough? && r == Ref([2], None, [1]) && Sim(r, s, [[], []]) && text.Try?
    requires IsOne(Rewrite(BlockOf(body), infos, 0)) && text.body == Rewrite(BlockOf(body), infos, 0).stmts[0]
    requires IsOne(Rewrite(BlockOf(handler), infos, j))
    requires text.handler == Some(Rewrite(BlockOf(handler), infos, j).stmts[0])
    requires finalizer.Some? ==> IsOne(Rewrite(BlockOf(finalizer.value), infos, k))
    requires text.finalizer == if finalizer.None? then None
                               else Some(Rewrite(BlockOf(finalizer.value), infos, k).stmts[0])
    ensures !StkStmt(Logger(), [], text, s, 0).outcome.Threw?
  {
    var d := HandlerDiffers(body, handler, infos, 0, j, r, s, 0);
    HandlerRuns(TryOf(body, Some(handler), finalizer), text, r, s);
    if finalizer.Some? {
      FinallyDoesNotThrow(finalizer.value, infos, k, d.st);
    }
  }

  /** A return under a handler shows. */
  lemma HandlerShows(body: Part, handler: Part, finalizer: Option<Part>)
    requires !body.end.FallsThrough?
    ensures !RunsAlike(TryOf(body, Some(handler), finalizer))
  {
    var r := Ref([2], None, [1]);
    var s := Stk([2], None, [[], [], [1]], map[]);
    assert s.frames == [[], []] + [[1]];
    var text, infos, j, k := HandlerText(body, handler, finalizer);
    HandlerTakesOver(body, handler, finalizer, text, infos, j, k, r, s);
    ReturnStands(body, handler, finalizer, text, r, s);
    OutcomesDiffer(TryOf(body, Some(handler), finalizer), text, r, s);
  }

  lemma HandlerText(body: Part, handler: Part, finalizer: Option<Part>)
    returns (text: Stmt, infos: seq<ReturnInfo>, j: nat, k: nat)
    ensures text.Try?
    ensures IsOne(Rewrite(BlockOf(body), infos, 0)) && text.body == Rewrite(BlockOf(body), infos, 0).stmts[0]
    ensures IsOne(Rewrite(BlockOf(handler), infos, j))
    ensures text.handler == Some(Rewrite(BlockOf(handler), infos, j).stmts[0])
    ensures finalizer.Some? ==> IsOne(Rewrite(BlockOf(finalizer.value), infos, k))
    ensures text.finalizer == if finalizer.None? then None
                              else Some(Rewrite(BlockOf(finalizer.value), infos, k).stmts[0])
    ensures var t := TryOf(body, Some(handler), finalizer); Rewrite(t, Returns(t, false), 0) == Spliced([text], false)
  {
    var t := TryOf(body, Some(handler), finalizer);
    TryParts(body, Some(handler), finalizer);
    infos, j := Returns(t, false), Count(t.body);
    k := j + CountOpt(t.handler);
    text := TextOf(t, infos);
  }

  lemma OutcomesDiffer(t: Stmt, text: Stmt, r: Ref<seq<int>>, s: Stk<seq<int>, int>)
    requires Sim(r, s, [[], []]) && Rewrite(t, Returns(t, false), 0) == Spliced([text], false)
    requires var a := RefStmt(Logger(), [], t, r, 0);
      a.outcome.Returned? && Settle(Logger(), a.st.store, a.st.queue, a.st.pending).error == Some(1)
    requires !StkStmt(Logger(), [], text, s, 0).outcome.Threw?
    ensures !RunsAlike(t)
  {
    if RunsAlike(t) {
      AlikeInLogger(t, text, r, s, [[], []]);
    }
  }

  /** A return before a `finally` that is not empty shows. */
  lemma FinallyShows(body: Part, last: Part)
    requires !body.end.FallsThrough? && !IsEmpty(last)
    ensures !RunsAlike(TryOf(body, None, Some(last)))
  {
    var t := TryOf(body, None, Some(last));
    var infos, k := Returns(t, false), Count(t.body);
    TryParts(body, None, Some(last));
    var pending: seq<nat> := if last.end.FallsThrough? then [0] else [];
    var r := Ref([2], None, pending);
    var s := Stk([2], None, [[], pending], map[]);
    assert s.frames == [[]] + [pending];
    FinallyDiffers(body, last, infos, 0, k, r, s, 0);
    TryRuns(t, TextOf(t, infos), r, s);
    if RunsAlike(t) {
      AlikeInLogger(t, TextOf(t, infos), r, s, [[]]);
    }
  }

  /** So does one in a handler that can be reached. */
  lemma HandlerThenFinallyShows(body: Part, handler: Part, last: Part)
    requires body.end.FallsThrough? && body.steps != [] && !handler.end.FallsThrough? && !IsEmpty(last)
    ensures !RunsAlike(TryOf(body, Some(handler), Some(last)))
  {
    var t := TryOf(body, Some(handler), Some(last));
    var infos, j := Returns(t, false), Count(t.body);
    var k := j + CountOpt(t.handler);
    TryParts(body, Some(handler), Some(last));
    var pending: seq<nat> := if last.end.FallsThrough? then [0] else [];
    var r := Ref([], None, pending);
    var s := Stk([], None, [[], pending], map[]);
    assert s.frames == [[]] + [pending];
    LoggerFails(body, r, 0);
    BlockMatches(body, infos, 0, r, s, [[]], 0);
    var c := StkStmt(Logger(), [], Rewrite(t.body, infos, 0).stmts[0], s, 0);
    FinallyDiffers(handler, last, infos, j, k, r.(store := [2]), c.st.(store := [2]), 0);
    HandlerRuns(t, TextOf(t, infos), r, s);
    if RunsAlike(t) {
      AlikeInLogger(t, TextOf(t, infos), r, s, [[]]);
    }
  }

  lemma DisciplinedRunsAlike(body: Part, handler: Option<Part>, finalizer: Option<Part>)
    requires Disciplined(TryOf(body, handler, finalizer))
    ensures RunsAlike(TryOf(body, handler, finalizer))
  {
    var t := TryOf(body, handler, finalizer);
    var infos := Returns(t, false);
    TryFacts(body, handler, finalizer);
    forall w: World<seq<int>, int>, program: seq<Component>, r: Ref<seq<int>>, s: Stk<seq<int>, int>, below, fuel: nat |
      AllRegular(program) && Sim(r, s, below)
      ensures Matches(w, RefStmt(w, program, t, r, fuel),
                      StkStmts(w, CompileAll(program), Rewrite(t, infos, 0).stmts, s, fuel), below)
    {
      StmtMatches(w, program, t, infos, 0, r, s, below, fuel);
    }
  }

  /** Nothing returns under a handler, nor ahead of a `finally` in which something happens. */
  predicate NothingReturnsEarly(body: Part, handler: Option<Part>, finalizer: Option<Part>) {
    && (handler.Some? ==> body.end.FallsThrough?)
    && (finalizer.Some? && !IsEmpty(finalizer.value) ==>
          body.end.FallsThrough? && (handler.Some? && body.steps != [] ==> handler.value.end.FallsThrough?))
  }

  /** The compiled `try` statement runs as the source says in every world exactly when nothing returns too early. */
  lemma TryRunsAlikeExactlyWhen(body: Part, handler: Option<Part>, finalizer: Option<Part>)
    ensures var t := TryOf(body, handler, finalizer);
      && (RunsAlike(t) <==> NothingReturnsEarly(body, handler, finalizer))
      && (RunsAlike(t) <==> Disciplined(t))
  {
    TryFacts(body, handler, finalizer);
    BlockFacts(body);
    if handler.Some? { BlockFacts(handler.value); }
    if finalizer.Some? { BlockFacts(finalizer.value); }
    if Disciplined(TryOf(body, handler, finalizer)) {
      DisciplinedRunsAlike(body, handler, finalizer);
    } else if handler.Some? && !body.end.FallsThrough? {
      HandlerShows(body, handler.value, finalizer);
    } else if !body.end.FallsThrough? {
      FinallyShows(body, finalizer.value);
    } else {
      HandlerThenFinallyShows(body, handler.value, finalizer.value);
    }
  }

  // ---- a whole component ----

  /**
   `try { return ... } catch { return ... }` around a failing mount callback:
   the first flush pops the component's frame and throws, so the return in the
   handler settles the caller's frame.
   */
  lemma CatchReturnTakesParentFrame<S, V>(w: World<S, V>, program: seq<Component>, s: Stk<S, V>, parent: seq<nat>,
                                          below: seq<seq<nat>>, fuel: nat)
    requires s.frames == below + [parent] && s.queue == None && forall id, store :: !w.step(id, store).threw
    requires forall store :: w.callback(0, store).threw && w.callback(0, store).value != w.undefined
    ensures var first, second := Block([Return(Some(Step(0)))]), Block([Return(Some(Step(1)))]);
      var c := FunctionBody([Do(OnMount(0)), Try(first, Some(second), None)]);
      !AllDisciplined(c.stmts) && StkCall(w, CompileAll(program), Compile(c), s, fuel).st.frames == below
  {
    var first, second := Return(Some(Step(0))), Return(Some(Step(1)));
    var mount, t := Do(OnMount(0)), Try(Block([first]), Some(Block([second])), None);
    var compiled := CompileAll(program);
    var a, b := [Const(0, Step(0)), Flush, ReturnResult(0)], [Const(1, Step(1)), Flush, ReturnResult(1)];
    CompiledTryCatch(mount, first, second, a, b);
    var s0 := s.(frames := s.frames + [[]], results := map[]);
    var s1 := Mount(w, 0, s0).st;
    MountMatches(w, 0, Ref(s.store, None, []), s0, s.frames);
    assert [] + [0] == [0] && StkStmt(w, compiled, mount, s0, fuel) == Mount(w, 0, s0);
    HandlerTakesFrame(w, program, a, b, s1, parent, below, fuel);
    var text := Try(Block(a), Some(Block(b)), None);
    var run := StkStmt(w, compiled, text, s1, fuel);
    assert [mount, text][1..] == [text];
    StkOne(w, compiled, text, s1, fuel);
    assert StkStmts(w, compiled, [mount, text], s0, fuel) == run;
  }

  lemma HandlerTakesFrame<S, V>(w: World<S, V>, program: seq<Component>, a: seq<Stmt>, b: seq<Stmt>, s: Stk<S, V>,
                                parent: seq<nat>, below: seq<seq<nat>>, fuel: nat)
    requires a == [Const(0, Step(0)), Flush, ReturnResult(0)] && b == [Const(1, Step(1)), Flush, ReturnResult(1)]
    requires s.frames == below + [parent] + [[0]] && s.queue == None
    requires forall id, store :: !w.step(id, store).threw
    requires forall store :: w.callback(0, store).threw && w.callback(0, store).value != w.undefined
    ensures var run := StkStmt(w, CompileAll(program), Try(Block(a), Some(Block(b)), None), s, fuel);
      run.st.frames == below && !run.outcome.Normal?
  {
    var compiled := CompileAll(program);
    ReturnThrows(w, program, a, s, below + [parent], fuel);
    var thrown := StkStmts(w, compiled, a, s, fuel);
    var s2 := thrown.st.(store := w.caught(thrown.outcome.error, thrown.st.store));
    ReturnMatches(w, program, Some(Step(1)), ReturnInfo(true, false), 1, Ref(s2.store, s2.queue, parent), s2, below,
                  fuel);
    var run := StkStmts(w, compiled, b, s2, fuel);
    assert run.st.frames == below && !run.outcome.Normal?;
  }

  /** A return whose only callback fails pops its frame and throws. */
  lemma ReturnThrows<S, V>(w: World<S, V>, program: seq<Component>, a: seq<Stmt>, s: Stk<S, V>, below: seq<seq<nat>>,
                           fuel: nat)
    requires a == [Const(0, Step(0)), Flush, ReturnResult(0)] && s.frames == below + [[0]] && s.queue == None
    requires forall id, store :: !w.step(id, store).threw
    requires forall store :: w.callback(0, store).threw && w.callback(0, store).value != w.undefined
    ensures var run := StkStmts(w, CompileAll(program), a, s, fuel); run.outcome.Threw? && run.st.frames == below
  {
    var r := Ref(s.store, None, [0]);
    ReturnMatches(w, program, Some(Step(0)), ReturnInfo(true, false), 0, r, s, below, fuel);
    ThrowsFirst(w, RefStmt(w, program, Return(Some(Step(0))), r, fuel).st.store);
  }

  lemma ThrowsFirst<S, V>(w: World<S, V>, store: S)
    requires forall store :: w.callback(0, store).threw && w.callback(0, store).value != w.undefined
    ensures Settle(w, store, None, [0]).error.Some?
  {
    assert [0][1..] == [];
    var e := w.callback(0, store);
    assert RunCallbacks(w, [0][1..], e.store, e.value) == Effect(e.store, true, e.value);
  }

  lemma CompiledTryCatch(mount: Stmt, first: Stmt, second: Stmt, a: seq<Stmt>, b: seq<Stmt>)
    requires mount == Do(OnMount(0))
    requires first == Return(Some(Step(0))) && a == [Const(0, Step(0)), Flush, ReturnResult(0)]
    requires second == Return(Some(Step(1))) && b == [Const(1, Step(1)), Flush, ReturnResult(1)]
    ensures var c := FunctionBody([mount, Try(Block([first]), Some(Block([second])), None)]);
      !AllDisciplined(c.stmts) && Compile(c) == Framed([mount, Try(Block(a), Some(Block(b)), None)])
  {
    var t := Try(Block([first]), Some(Block([second])), None);
    var info := ReturnInfo(true, false);
    ReturnsOfOne(first, false);
    ReturnsOfOne(second, false);
    ReturnsOfOne(t, false);
    assert [mount, t][1..] == [t];
    CountIsFixed(Block([first]), false);
    assert !Disciplined(t) && !AllDisciplined([t]);
    assert Returns(t, false) == [info, info] && ReturnsOf([mount, t], false) == [] + [info, info];
    assert [] + [info, info] == [info, info];
    RewriteOneAt(first, [info, info], 0);
    RewriteOneAt(second, [info, info], 1);
    RewriteOneAt(t, [info, info], 0);
    assert Rewrite(t, [info, info], 0) == Spliced([Try(Block(a), Some(Block(b)), None)], false);
    assert RewriteAll([mount, t], [info, info], 0)
        == Follow(Rewrite(mount, [info, info], 0), RewriteAll([t], [info, info], 0));
  }
}
