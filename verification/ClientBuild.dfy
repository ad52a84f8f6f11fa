/**
 The client program of a tree builds the tree: elements, children and
 fragments by mutual induction over the source.
 */
module ClientBuild {
  import opened JsxSyntax
  import opened JsxWhitespace
  import opened ClientCompiler
  import opened ClientDom
  import opened ClientRun

  // ---- the three parts of an element's program ----

  /** The element exists, with its attributes and no children yet. */
  ghost predicate Opened(a: Machine, b: Machine, node: Node) {
    && b.heap == a.heap + [node] && b.cursor == a.cursor && Stage(a, b, |a.heap|, 0, 1)
  }

  /** Its children have been built. */
  ghost predicate Filled(a: Machine, b: Machine, id: nat, doms: seq<Dom>) {
    && id < |a.heap| && Preserves(a, b, Some(id)) && Stage(a, b, id, 2, 2)
    && b.heap[id] == WithKids(a.heap[id], Kids(b.heap[id]))
    && ShowsAll(b.heap, Kids(b.heap[id]), doms, |a.heap|, |b.heap|)
  }

  /** Only late statements have run. */
  ghost predicate Finished(a: Machine, b: Machine, id: nat) {
    b.heap == a.heap && b.cursor == a.cursor && Stage(a, b, id, 3, 4)
  }

  lemma ElementAssembles(m: Machine, m1: Machine, m2: Machine, m3: Machine, tag: string,
                         attrs: seq<(string, string)>, doms: seq<Dom>)
    requires Opened(m, m1, ElementNode(tag, attrs, [])) && Filled(m1, m2, |m.heap|, doms) && Finished(m2, m3, |m.heap|)
    ensures BuildsTree(m, |m.heap|, m3, DomElement(tag, attrs, doms))
  {
    var id := |m.heap|;
    StagesInTurn(m, m1, m2, id, 0, 1, 2, 2);
    StagesInTurn(m, m2, m3, id, 0, 2, 3, 4);
    StagesLogged(m, m3, id);
    assert m1.heap[id] == ElementNode(tag, attrs, []);
    assert m3.heap[id] == ElementNode(tag, attrs, Kids(m3.heap[id]));
    var kids := m3.heap[id].children;
    assert ShowsAll(m3.heap, kids, doms, id + 1, |m3.heap|);
    forall k | 0 <= k < |m.heap| ensures m3.heap[k] == m.heap[k] {
      assert m1.heap[k] == m.heap[k];
    }
  }

  lemma Opens(m: Machine, env: Env, v: nat, tag: string, actions: seq<Action>, attrs: seq<(string, string)>)
    requires PerformAll(ElementNode(tag, [], []), actions) == Some(ElementNode(tag, attrs, []))
    requires AllRank(actions, 1, 1)
    ensures var r := RunStmts([CreateElement(v, JsonQuote(tag))] + Acts(v, actions), env, m);
      r.Ran? && r.env == env[v := |m.heap|] && Opened(m, r.m, ElementNode(tag, attrs, []))
  {
    QuotedReadsBack(tag);
    var id := |m.heap|;
    var create := CreateElement(v, JsonQuote(tag));
    var m0 := Machine(m.heap + [ElementNode(tag, [], [])], m.cursor, m.log + [Made(id)]);
    var env1 := env[v := id];
    RunOne(create, env, m);
    RunAppend([create], Acts(v, actions), env, m);
    ActsRun(v, actions, env1, m0);
    var m1 := RunStmts(Acts(v, actions), env1, m0).m;
    OneEventStage(m, m0, id, Made(id));
    ActsStage(m0, m1, id, actions, 1, 1);
    StagesInTurn(m, m0, m1, id, 0, 0, 1, 1);
    assert m1.heap == m.heap + [ElementNode(tag, attrs, [])];
  }

  lemma Finishes(m: Machine, env: Env, v: nat, idl: seq<Action>, ref: Option<Action>)
    requires v in env && env[v] < |m.heap| && m.heap[env[v]].ElementNode?
    requires AllRank(idl, 3, 3) && (ref.Some? ==> ref.value.Ref?)
    ensures var r := RunStmts(Acts(v, idl + Optional(ref)), env, m);
      r.Ran? && r.env == env && Finished(m, r.m, env[v])
  {
    var actions := idl + Optional(ref);
    forall a | a in actions ensures 3 <= ActionRank(a) <= 4 && !a.SetAttribute? {
    }
    LatePerforms(m.heap[env[v]], actions);
    ActsRun(v, actions, env, m);
    var r := RunStmts(Acts(v, actions), env, m);
    assert r.m.heap == m.heap;
    ActsStage(m, r.m, env[v], actions, 3, 4);
  }

  lemma ForestFills(a: Machine, b: Machine, id: nat, doms: seq<Dom>)
    requires BuildsForest(a, b, id, doms) && Kids(a.heap[id]) == []
    ensures Filled(a, b, id, doms)
  {
    ChildrenStage(a, b, id);
    assert Kids(b.heap[id])[0..] == Kids(b.heap[id]);
  }

  /** Children between `__enterChildren` and `__exitChildren`. */
  lemma Fills(m: Machine, env: Env, v: nat, inner: seq<Stmt>, doms: seq<Dom>)
    requires v in env && env[v] < |m.heap| && Kids(m.heap[env[v]]) == []
    requires var m1 := m.(cursor := m.cursor + [env[v]], log := m.log + [Entered(env[v])]);
      var r := RunStmts(inner, env, m1); r.Ran? && r.env == env && BuildsForest(m1, r.m, env[v], doms)
    ensures var r := RunStmts([EnterChildren(v)] + inner + [ExitChildren], env, m);
      r.Ran? && r.env == env && Filled(m, r.m, env[v], doms)
  {
    var id := env[v];
    var m1 := m.(cursor := m.cursor + [id], log := m.log + [Entered(id)]);
    var m2 := RunStmts(inner, env, m1).m;
    var m3 := m2.(cursor := m.cursor, log := m2.log + [Exited]);
    RunAppend([EnterChildren(v)] + inner, [ExitChildren], env, m);
    RunAppend([EnterChildren(v)], inner, env, m);
    RunOne(EnterChildren(v), env, m);
    RunOne(ExitChildren, env, m2);
    assert m2.cursor[..|m2.cursor| - 1] == m.cursor;
    ForestFills(m1, m2, id, doms);
    OneEventStage(m, m1, id, Entered(id));
    OneEventStage(m2, m3, id, Exited);
    StagesInTurn(m, m1, m2, id, 2, 2, 2, 2);
    StagesInTurn(m, m2, m3, id, 2, 2, 2, 2);
  }

  lemma NothingFilled(m: Machine, id: nat)
    requires id < |m.heap| && Kids(m.heap[id]) == []
    ensures Filled(m, m, id, [])
  {
    assert m.heap[id] == WithKids(m.heap[id], []);
  }

  /** Three program parts one after another. */
  lemma ThreeParts(x: seq<Stmt>, y: seq<Stmt>, z: seq<Stmt>, env: Env, m: Machine, env1: Env, m1: Machine, m2: Machine,
                   m3: Machine)
    requires RunStmts(x, env, m) == Ran(env1, m1) && RunStmts(y, env1, m1) == Ran(env1, m2)
    requires RunStmts(z, env1, m2) == Ran(env1, m3)
    ensures RunStmts(x + y + z, env, m) == Ran(env1, m3)
  {
    RunAppend(x + y, z, env, m);
    RunAppend(x, y, env, m);
  }

  // ---- the attributes of an element ----

  function Sorted(e: Element, live: Slice -> bool): AttrStmts {
    SortAttrs(AttrStmts([], None, [], None), e.attrs, e.tag, live)
  }

  lemma SortedAttrs(e: Element, live: Slice -> bool)
    ensures var s := Sorted(e, live);
      && WellSorted(s)
      && AllRank(s.now + Optional(s.html), 1, 1)
      && PerformAll(ElementNode(e.tag, [], []), s.now + Optional(s.html))
         == Some(ElementNode(e.tag, FixedAttrs([], e.attrs, e.tag), []))
  {
    var s := Sorted(e, live);
    var none := AttrStmts([], None, [], None);
    SortedByRank(none, e.attrs, e.tag, live);
    var node := ElementNode(e.tag, [], []);
    SortedPerforms(node, none, e.attrs, e.tag, live);
    PerformAppend(node, s.now, Optional(s.html));
    LatePerforms(node.(attrs := FixedAttrs([], e.attrs, e.tag)), Optional(s.html));
  }

  // ---- the whole tree ----

  /**
   Running the program of any element tree builds exactly that tree as a new
   node: old nodes and the cursor stack are as before, and for every new node
   creation, attributes, children, dependent properties and ref come in that order.
   */
  lemma {:induction false} ElementBuilds(e: Element, live: Slice -> bool, counter: nat, env: Env, m: Machine)
    requires IsDomTree(e)
    ensures var r := RunValue(TransformElement(e, live, counter).value, env, m);
      r.Valued? && BuildsTree(m, r.id, r.m, Tree(e))
    decreases e, 3
  {
    var v, id := counter, |m.heap|;
    var s := Sorted(e, live);
    var now, late := s.now + Optional(s.html), s.idl + Optional(s.ref);
    SortedAttrs(e, live);
    var attrs := FixedAttrs([], e.attrs, e.tag);
    var x := [CreateElement(v, JsonQuote(e.tag))] + Acts(v, now);
    Opens(m, env, v, e.tag, now, attrs);
    var env1, m1 := env[v := id], RunStmts(x, env, m).m;
    var y := KidsOf(e.children, v, live, counter + 1);
    KidsBuild(e.children, v, live, counter + 1, env1, m1);
    var m2 := RunStmts(y, env1, m1).m;
    Finishes(m2, env1, v, s.idl, s.ref);
    var m3 := RunStmts(Acts(v, late), env1, m2).m;
    ThreeParts(x, y, Acts(v, late), env, m, env1, m1, m2, m3);
    ElementAssembles(m, m1, m2, m3, e.tag, attrs, Forest(e.children));
  }

  /** The part of an element's program that builds its children. */
  function KidsOf(children: seq<Child>, v: nat, live: Slice -> bool, counter: nat): seq<Stmt> {
    if Extracted(children) == [] then []
    else [EnterChildren(v)] + TransformChildren(children, v, live, counter).stmts + [ExitChildren]
  }

  lemma {:induction false} KidsBuild(children: seq<Child>, v: nat, live: Slice -> bool, counter: nat, env: Env,
                                     m: Machine)
    requires AreDomChildren(children) && v in env && env[v] < |m.heap|
    requires m.heap[env[v]].ElementNode? && Kids(m.heap[env[v]]) == []
    ensures var r := RunStmts(KidsOf(children, v, live, counter), env, m);
      r.Ran? && r.env == env && Filled(m, r.m, env[v], Forest(children))
    decreases children, 3
  {
    if Extracted(children) == [] {
      NothingBuilt(children);
      NothingFilled(m, env[v]);
    } else {
      var entered := m.(cursor := m.cursor + [env[v]], log := m.log + [Entered(env[v])]);
      ChildrenBuild(children, v, live, counter, env, entered);
      Fills(m, env, v, TransformChildren(children, v, live, counter).stmts, Forest(children));
    }
  }

  lemma {:induction false} NothingBuilt(children: seq<Child>)
    requires AreDomChildren(children) && Extracted(children) == []
    ensures Forest(children) == []
  {
    if children != [] {
      NothingBuilt(children[1..]);
    }
  }

  lemma {:induction false} FragmentBuilds(children: seq<Child>, live: Slice -> bool, counter: nat, env: Env, m: Machine)
    requires AreDomChildren(children)
    ensures var r := RunValue(TransformFragment(children, live, counter).value, env, m);
      r.Valued? && BuildsFragment(m, r.id, r.m, Forest(children))
    decreases children, 3
  {
    var id := |m.heap|;
    var create := CreateFragment(counter);
    var inner := TransformChildren(children, counter, live, counter + 1).stmts;
    var env1 := env[counter := id];
    var m1 := m.(heap := m.heap + [FragmentNode([])], log := m.log + [Made(id)]);
    RunOne(create, env, m);
    RunAppend([create], inner, env, m);
    ChildrenBuild(children, counter, live, counter + 1, env1, m1);
    var m2 := RunStmts(inner, env1, m1).m;
    ForestFills(m1, m2, id, Forest(children));
    OneEventStage(m, m1, id, Made(id));
    StagesInTurn(m, m1, m2, id, 0, 0, 2, 2);
    StageWiden(m, m2, id);
    StagesLogged(m, m2, id);
  }

  lemma StageWiden(a: Machine, b: Machine, id: nat)
    requires Stage(a, b, id, 0, 2)
    ensures Stage(a, b, id, 0, 4)
  {
  }

  lemma {:induction false} ChildrenBuild(children: seq<Child>, parent: nat, live: Slice -> bool, counter: nat, env: Env,
                                         m: Machine)
    requires AreDomChildren(children)
    requires parent in env && env[parent] < |m.heap| && !m.heap[env[parent]].TextNode?
    ensures var r := RunStmts(TransformChildren(children, parent, live, counter).stmts, env, m);
      r.Ran? && r.env == env && BuildsForest(m, r.m, env[parent], Forest(children))
    decreases children, 2
  {
    var p := env[parent];
    if children == [] {
      ForestOfNothing(m, p);
    } else {
      var first := TransformChild(children[0], parent, live, counter);
      ChildBuilds(children[0], parent, live, counter, env, m);
      var m1 := RunStmts(first.stmts, env, m).m;
      var rest := TransformChildren(children[1..], parent, live, first.counter);
      ChildrenBuild(children[1..], parent, live, first.counter, env, m1);
      var m2 := RunStmts(rest.stmts, env, m1).m;
      RunAppend(first.stmts, rest.stmts, env, m);
      ForestsInTurn(m, m1, m2, p, ChildTrees(children[0]), Forest(children[1..]));
    }
  }

  lemma TextBuilds(text: string, env: Env, m: Machine)
    ensures var r := RunValue(StaticText(JsonQuote(text)), env, m);
      r.Valued? && BuildsTree(m, r.id, r.m, DomText(text))
  {
    QuotedReadsBack(text);
    var r := RunValue(StaticText(JsonQuote(text)), env, m);
    assert r.m.log[|m.log|..] == [Made(|m.heap|)];
  }

  lemma {:induction false} ChildBuilds(child: Child, parent: nat, live: Slice -> bool, counter: nat, env: Env,
                                       m: Machine)
    requires IsDomChild(child)
    requires parent in env && env[parent] < |m.heap| && !m.heap[env[parent]].TextNode?
    ensures var r := RunStmts(TransformChild(child, parent, live, counter).stmts, env, m);
      r.Ran? && r.env == env && BuildsForest(m, r.m, env[parent], ChildTrees(child))
    decreases child, 4
  {
    match child {
      case Text(raw) =>
        var text := ClientClean(raw);
        if text == "" {
          ForestOfNothing(m, env[parent]);
        } else {
          TextBuilds(text, env, m);
          AppendRuns(parent, StaticText(JsonQuote(text)), env, m, [DomText(text)]);
        }
      case ElementChild(e) =>
        ElementBuilds(e, live, counter, env, m);
        AppendRuns(parent, TransformElement(e, live, counter).value, env, m, [Tree(e)]);
      case FragmentChild(inner) =>
        FragmentBuilds(inner, live, counter, env, m);
        AppendRuns(parent, TransformFragment(inner, live, counter).value, env, m, Forest(inner));
      case Hole(_) =>
        ForestOfNothing(m, env[parent]);
      case SpreadChild =>
        ForestOfNothing(m, env[parent]);
    }
  }

  // ---- generated names ----

  function DeclaredIn(stmts: seq<Stmt>): seq<nat>
    decreases stmts
  {
    if stmts == [] then [] else Declares(stmts[0]) + DeclaredIn(stmts[1..])
  }

  function Declares(stmt: Stmt): seq<nat>
    decreases stmt
  {
    match stmt
    case CreateElement(v, _) => [v]
    case CreateFragment(v) => [v]
    case Append(_, value) => DeclaredBy(value)
    case _ => []
  }

  function DeclaredBy(value: Value): seq<nat>
    decreases value
  {
    match value
    case StaticText(_) => []
    case Iife(body, _) => DeclaredIn(body)
  }

  function Range(lo: nat, hi: nat): seq<nat> {
    if lo < hi then seq(hi - lo, i requires 0 <= i => lo + i) else []
  }

  lemma {:induction false} DeclaredAppend(a: seq<Stmt>, b: seq<Stmt>)
    ensures DeclaredIn(a + b) == DeclaredIn(a) + DeclaredIn(b)
  {
    if a == [] {
      assert a + b == b;
    } else {
      assert (a + b)[1..] == a[1..] + b;
      DeclaredAppend(a[1..], b);
    }
  }

  lemma {:induction false} ActsDeclareNothing(v: nat, actions: seq<Action>)
    ensures DeclaredIn(Acts(v, actions)) == []
  {
    if actions != [] {
      assert Acts(v, actions)[1..] == Acts(v, actions[1..]);
      ActsDeclareNothing(v, actions[1..]);
    }
  }

  lemma DeclaredOne(stmt: Stmt)
    ensures DeclaredIn([stmt]) == Declares(stmt)
  {
    assert [stmt][1..] == [];
  }

  lemma FourDeclare(a: seq<Stmt>, b: seq<Stmt>, c: seq<Stmt>, d: seq<Stmt>)
    ensures DeclaredIn(a + b + c + d) == DeclaredIn(a) + DeclaredIn(b) + DeclaredIn(c) + DeclaredIn(d)
  {
    DeclaredAppend(a + b + c, d);
    DeclaredAppend(a + b, c);
    DeclaredAppend(a, b);
  }

  lemma NamesAround(v: nat, tagQ: string, now: seq<Action>, empty: bool, inner: EmittedStmts, late: seq<Action>)
    requires v < inner.counter && DeclaredIn(inner.stmts) == Range(v + 1, inner.counter)
    requires empty ==> inner == EmittedStmts([], v + 1)
    ensures DeclaredIn([CreateElement(v, tagQ)] + Acts(v, now)
                       + (if empty then [] else [EnterChildren(v)] + inner.stmts + [ExitChildren])
                       + Acts(v, late))
         == Range(v, inner.counter)
  {
    var kids := if empty then [] else [EnterChildren(v)] + inner.stmts + [ExitChildren];
    FourDeclare([CreateElement(v, tagQ)], Acts(v, now), kids, Acts(v, late));
    DeclaredOne(CreateElement(v, tagQ));
    ActsDeclareNothing(v, now);
    ActsDeclareNothing(v, late);
    if !empty {
      KidsDeclare(v, inner.stmts);
    }
    assert [v] + Range(v + 1, inner.counter) == Range(v, inner.counter);
  }

  lemma KidsDeclare(v: nat, inner: seq<Stmt>)
    ensures DeclaredIn([EnterChildren(v)] + inner + [ExitChildren]) == DeclaredIn(inner)
  {
    DeclaredAppend([EnterChildren(v)] + inner, [ExitChildren]);
    DeclaredAppend([EnterChildren(v)], inner);
    DeclaredOne(EnterChildren(v));
    DeclaredOne(ExitChildren);
  }

  /** Every variable number from the first to the next free one is declared exactly once, in order. */
  lemma {:induction false} ElementNamesOnce(e: Element, live: Slice -> bool, counter: nat)
    ensures var r := TransformElement(e, live, counter);
      counter < r.counter && DeclaredBy(r.value) == Range(counter, r.counter)
    decreases e, 3
  {
    var s := Sorted(e, live);
    var now, late := s.now + Optional(s.html), s.idl + Optional(s.ref);
    var inner := TransformChildren(e.children, counter, live, counter + 1);
    if Extracted(e.children) == [] {
      NothingExtracted(e.children, counter, live, counter + 1);
    }
    ChildrenNamesOnce(e.children, counter, live, counter + 1);
    NamesAround(counter, JsonQuote(e.tag), now, Extracted(e.children) == [], inner, late);
  }

  lemma {:induction false} ChildrenNamesOnce(children: seq<Child>, parent: nat, live: Slice -> bool, counter: nat)
    ensures var r := TransformChildren(children, parent, live, counter);
      counter <= r.counter && DeclaredIn(r.stmts) == Range(counter, r.counter)
    decreases children, 2
  {
    if children != [] {
      ChildNamesOnce(children[0], parent, live, counter);
      var first := TransformChild(children[0], parent, live, counter);
      ChildrenNamesOnce(children[1..], parent, live, first.counter);
      DeclaredAppend(first.stmts, TransformChildren(children[1..], parent, live, first.counter).stmts);
    }
  }

  lemma FragmentDeclares(v: nat, code: EmittedStmts)
    requires v < code.counter && DeclaredIn(code.stmts) == Range(v + 1, code.counter)
    ensures DeclaredIn([CreateFragment(v)] + code.stmts) == Range(v, code.counter)
  {
    DeclaredAppend([CreateFragment(v)], code.stmts);
    DeclaredOne(CreateFragment(v));
    assert [v] + Range(v + 1, code.counter) == Range(v, code.counter);
  }

  lemma {:induction false} ChildNamesOnce(child: Child, parent: nat, live: Slice -> bool, counter: nat)
    ensures var r := TransformChild(child, parent, live, counter);
      counter <= r.counter && DeclaredIn(r.stmts) == Range(counter, r.counter)
    decreases child, 4
  {
    var r := TransformChild(child, parent, live, counter);
    if |r.stmts| == 1 {
      DeclaredOne(r.stmts[0]);
    }
    match child {
      case ElementChild(e) =>
        ElementNamesOnce(e, live, counter);
      case FragmentChild(inner) =>
        ChildrenNamesOnce(inner, counter, live, counter + 1);
        FragmentDeclares(counter, TransformChildren(inner, counter, live, counter + 1));
      case _ =>
    }
  }
}
