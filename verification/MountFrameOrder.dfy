/**
 The order in which mount callbacks run
 (packages/ui/src/component/lifecycle.ts): all of a frame, in the order they
 were registered, once each and after the returned expression, whichever of them
 fail; the first error is thrown when all have run.
 */
module MountFrameOrder {
  import opened JsxSyntax
  import opened MountFrames
  import opened MountFrameRun

  /** The store is the list of everything that has run; `fails` says which callbacks throw. */
  ghost predicate Records<V>(w: World<seq<nat>, V>, fails: nat -> bool, error: nat -> V, value: nat -> V) {
    && (forall id, log ::
          w.callback(id, log) == Effect(log + [id], fails(id), if fails(id) then error(id) else value(id)))
    && (forall id, log :: w.step(id, log) == Effect(log + [id], false, value(id)))
    && (forall id :: error(id) != w.undefined)
  }

  /** The first callback of a frame that fails. */
  function FirstFailing(fails: nat -> bool, frame: seq<nat>): Option<nat> {
    if frame == [] then None else if fails(frame[0]) then Some(frame[0]) else FirstFailing(fails, frame[1..])
  }

  lemma {:induction false} FirstFailingIs(fails: nat -> bool, frame: seq<nat>, k: nat)
    requires k < |frame| && fails(frame[k]) && forall i :: 0 <= i < k ==> !fails(frame[i])
    ensures FirstFailing(fails, frame) == Some(frame[k])
  {
    if k > 0 {
      FirstFailingIs(fails, frame[1..], k - 1);
    }
  }

  lemma {:induction false} AllRun<V>(w: World<seq<nat>, V>, fails: nat -> bool, error: nat -> V, value: nat -> V,
                                     frame: seq<nat>, log: seq<nat>, first: V)
    requires Records(w, fails, error, value)
    ensures var e := RunCallbacks(w, frame, log, first);
      var found := if first != w.undefined then first
                   else if FirstFailing(fails, frame).Some? then error(FirstFailing(fails, frame).value)
                   else w.undefined;
      e == Effect(log + frame, found != w.undefined, found)
  {
    if frame == [] {
      assert log + frame == log;
    } else {
      var e := w.callback(frame[0], log);
      AllRun(w, fails, error, value, frame[1..], e.store, if e.threw && first == w.undefined then e.value else first);
      assert (log + [frame[0]]) + frame[1..] == log + frame;
    }
  }

  /** Settling a frame runs all of it in order; what is thrown is the error of the first that failed. */
  lemma FrameRunsInOrder<V>(w: World<seq<nat>, V>, fails: nat -> bool, error: nat -> V, value: nat -> V,
                            frame: seq<nat>, log: seq<nat>)
    requires Records(w, fails, error, value)
    ensures var first := FirstFailing(fails, frame);
      Settle(w, log, None, frame)
      == Settled(log + frame, None, if first.Some? then Some(error(first.value)) else None)
  {
    AllRun(w, fails, error, value, frame, log, w.undefined);
  }

  /** While hydrating nothing runs: the frame is queued behind what is queued already. */
  lemma FrameIsQueued<S, V>(w: World<S, V>, store: S, queue: seq<nat>, frame: seq<nat>)
    ensures Settle(w, store, Some(queue), frame) == Settled(store, Some(queue + frame), None)
  {
  }

  // ---- a whole component ----

  function Mounts(ids: seq<nat>): seq<Stmt> {
    if ids == [] then [] else [Do(OnMount(ids[0]))] + Mounts(ids[1..])
  }

  lemma {:induction false} MountsThenReturn<S, V>(w: World<S, V>, program: seq<Component>, ids: seq<nat>, step: nat,
                                                  st: Ref<S>, fuel: nat)
    requires !w.step(step, st.store).threw
    ensures var e := w.step(step, st.store);
      RefStmts(w, program, Mounts(ids) + [Return(Some(Step(step)))], st, fuel)
      == RefRun(Returned(e.value), Ref(e.store, st.queue, st.pending + ids))
    decreases ids
  {
    var all := Mounts(ids) + [Return(Some(Step(step)))];
    if ids == [] {
      assert all == [Return(Some(Step(step)))] && all[1..] == [] && st.pending + ids == st.pending;
      ReturnsStep(w, program, step, st, fuel);
    } else {
      assert all[0] == Do(OnMount(ids[0])) && all[1..] == Mounts(ids[1..]) + [Return(Some(Step(step)))];
      var next := st.(pending := st.pending + [ids[0]]);
      assert RefStmt(w, program, all[0], st, fuel) == RefRun(Normal(w.undefined), next);
      MountsThenReturn(w, program, ids[1..], step, next, fuel);
      assert (st.pending + [ids[0]]) + ids[1..] == st.pending + ids;
    }
  }

  lemma ReturnsStep<S, V>(w: World<S, V>, program: seq<Component>, step: nat, st: Ref<S>, fuel: nat)
    requires !w.step(step, st.store).threw
    ensures var e := w.step(step, st.store);
      RefStmt(w, program, Return(Some(Step(step))), st, fuel) == RefRun(Returned(e.value), st.(store := e.store))
  {
    assert RefExpr(w, program, Step(step), st, fuel).outcome == Normal(w.step(step, st.store).value);
  }

  lemma {:induction false} MountsAreRegular(ids: seq<nat>, step: nat)
    ensures var stmts := Mounts(ids) + [Return(Some(Step(step)))];
      AreSource(stmts) && AllDisciplined(stmts) && TextSafeAll(stmts, false) && CountOf(stmts) == 1
  {
    var all := Mounts(ids) + [Return(Some(Step(step)))];
    if ids == [] {
      assert all == [Return(Some(Step(step)))] && all[1..] == [];
      assert TextSafe(all[0], false, false) && Disciplined(all[0]) && IsSource(all[0]) && Count(all[0]) == 1;
    } else {
      MountsAreRegular(ids[1..], step);
      assert all[0] == Do(OnMount(ids[0])) && all[1..] == Mounts(ids[1..]) + [Return(Some(Step(step)))];
    }
  }

  /**
   A compiled component that registers callbacks and returns an expression runs
   the expression first, then every callback in the order of registration, and
   leaves its caller's frame alone.
   */
  lemma MountsRunAfterReturn<V>(w: World<seq<nat>, V>, fails: nat -> bool, error: nat -> V, value: nat -> V,
                                program: seq<Component>, ids: seq<nat>, step: nat, s: Stk<seq<nat>, V>,
                                parent: seq<nat>, below: seq<seq<nat>>, fuel: nat)
    requires Records(w, fails, error, value) && AllRegular(program)
    requires s.queue == None && s.frames == below + [parent]
    ensures var c := FunctionBody(Mounts(ids) + [Return(Some(Step(step)))]);
      var run := StkCall(w, CompileAll(program), Compile(c), s, fuel);
      var first := FirstFailing(fails, ids);
      && run.st.store == s.store + [step] + ids && run.st.frames == s.frames
      && run.outcome == if first.Some? then Threw(error(first.value)) else Normal(value(step))
  {
    var c := FunctionBody(Mounts(ids) + [Return(Some(Step(step)))]);
    var r := Ref(s.store, None, parent);
    MountsAreRegular(ids, step);
    MountsThenReturn(w, program, ids, step, r.(pending := []), fuel);
    assert [] + ids == ids;
    FrameRunsInOrder(w, fails, error, value, ids, s.store + [step]);
    CallMatches(w, program, c, r, s, below, fuel);
  }
}
