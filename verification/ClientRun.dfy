/**
 Running the client program of any tree of DOM elements, fragments and text
 builds exactly that tree, in order, and puts everything else back.
 */
module ClientRun {
  import opened JsxSyntax
  import opened Replacing
  import opened ClientCompiler
  import opened ClientDom

  // ---- string literals ----

  function JsonChar(c: char): string {
    match c
    case '\\' => "\\\\"
    case '"' => "\\\""
    case '\n' => "\\n"
    case '\r' => "\\r"
    case '\t' => "\\t"
    case _ => [c]
  }

  lemma JsonBodyAppend(a: string, b: string)
    ensures JsonBody(a + b) == JsonBody(a) + JsonBody(b)
  {
    ReplaceAppend(a, b, '\\', "\\\\");
    var a1, b1 := Replace(a, '\\', "\\\\"), Replace(b, '\\', "\\\\");
    ReplaceAppend(a1, b1, '"', "\\\"");
    var a2, b2 := Replace(a1, '"', "\\\""), Replace(b1, '"', "\\\"");
    ReplaceAppend(a2, b2, '\n', "\\n");
    var a3, b3 := Replace(a2, '\n', "\\n"), Replace(b2, '\n', "\\n");
    ReplaceAppend(a3, b3, '\r', "\\r");
    ReplaceAppend(Replace(a3, '\r', "\\r"), Replace(b3, '\r', "\\r"), '\t', "\\t");
  }

  /** What the five replacements make of one character. */
  lemma JsonOne(c: char)
    ensures JsonBody([c]) == JsonChar(c)
  {
    ReplaceOne(c, '\\', "\\\\");
    ReplaceOne(c, '"', "\\\"");
    ReplaceOne(c, '\n', "\\n");
    ReplaceOne(c, '\r', "\\r");
    ReplaceOne(c, '\t', "\\t");
    if c == '\\' {
      ReplaceTwo('\\', '\\', '"', "\\\"");
      ReplaceTwo('\\', '\\', '\n', "\\n");
      ReplaceTwo('\\', '\\', '\r', "\\r");
      ReplaceTwo('\\', '\\', '\t', "\\t");
    } else if c == '"' {
      ReplaceTwo('\\', '"', '\n', "\\n");
      ReplaceTwo('\\', '"', '\r', "\\r");
      ReplaceTwo('\\', '"', '\t', "\\t");
    } else if c == '\n' {
      ReplaceTwo('\\', 'n', '\r', "\\r");
      ReplaceTwo('\\', 'n', '\t', "\\t");
    } else if c == '\r' {
      ReplaceTwo('\\', 'r', '\t', "\\t");
    }
  }

  lemma UnquoteChar(c: char, rest: string)
    ensures UnquoteBody(JsonChar(c) + rest) == Prefix(c, UnquoteBody(rest))
  {
    var s := JsonChar(c) + rest;
    if |JsonChar(c)| == 1 {
      assert s[1..] == rest;
    } else {
      assert s[2..] == rest;
    }
  }

  lemma {:induction false} UnquoteJsonBody(s: string)
    ensures UnquoteBody(JsonBody(s)) == Some(s)
  {
    if s != "" {
      JsonBodyAppend([s[0]], s[1..]);
      assert s == [s[0]] + s[1..];
      JsonOne(s[0]);
      UnquoteJsonBody(s[1..]);
      UnquoteChar(s[0], JsonBody(s[1..]));
    }
  }

  /** Quoting round trip: a quoted literal denotes the string it was made from, whatever that holds. */
  lemma QuotedReadsBack(s: string)
    ensures Unquote(JsonQuote(s)) == Some(s)
  {
    UnquoteJsonBody(s);
    var q := JsonQuote(s);
    assert q == "\"" + JsonBody(s) + "\"";
    assert q[1..|q| - 1] == JsonBody(s);
  }

  // ---- the log ----

  /** The node an event is about. */
  function Subject(event: Event): Option<nat> {
    match event
    case Made(id) => Some(id)
    case Did(id, _) => Some(id)
    case Entered(id) => Some(id)
    case Exited => None
    case Attached(id, _) => Some(id)
  }

  function ActionRank(action: Action): nat {
    match action
    case AssignProperty(_, _) => 3
    case AssignTrue(_) => 3
    case GuardedProperty(_, _) => 3
    case ReactiveProperty(_, _) => 3
    case Ref(_) => 4
    case _ => 1
  }

  /** Creation, attributes, children, properties that depend on children, ref. */
  function Rank(event: Event): nat {
    match event
    case Made(_) => 0
    case Did(_, action) => ActionRank(action)
    case Entered(_) => 2
    case Exited => 2
    case Attached(_, _) => 2
  }

  /** For every node: its events come in the order of their ranks. */
  ghost predicate RunsInOrder(log: seq<Event>) {
    forall i, j ::
      (0 <= i < j < |log| && Subject(log[i]).Some? && Subject(log[j]) == Subject(log[i]) ==>
        Rank(log[i]) <= Rank(log[j]))
  }

  /** Every event is about a node of `[lo, hi)`, or attaches something to `parent`. */
  ghost predicate Concerns(log: seq<Event>, lo: nat, hi: nat, parent: Option<nat>) {
    forall i :: 0 <= i < |log| ==>
      (Subject(log[i]).None? || lo <= Subject(log[i]).value < hi || (log[i].Attached? && Subject(log[i]) == parent))
  }

  ghost predicate Logged(a: Machine, b: Machine, parent: Option<nat>) {
    && |a.log| <= |b.log| && b.log[..|a.log|] == a.log
    && RunsInOrder(b.log[|a.log|..])
    && Concerns(b.log[|a.log|..], |a.heap|, |b.heap|, parent)
  }

  lemma LogSplit(a: seq<Event>, b: seq<Event>, c: seq<Event>)
    requires |a| <= |b| <= |c| && b[..|a|] == a && c[..|b|] == b
    ensures c[..|a|] == a && c[|a|..] == b[|a|..] + c[|b|..]
  {
    assert c[..|a|] == c[..|b|][..|a|];
    assert c[|a|..] == c[|a|..|b|] + c[|b|..];
    assert c[|a|..|b|] == c[..|b|][|a|..];
  }

  lemma OrderedJoin(a: seq<Event>, b: seq<Event>)
    requires RunsInOrder(a) && RunsInOrder(b)
    requires forall i, j ::
      (0 <= i < |a| && 0 <= j < |b| && Subject(a[i]).Some? && Subject(a[i]) == Subject(b[j]) ==>
        Rank(a[i]) <= Rank(b[j]))
    ensures RunsInOrder(a + b)
  {
    var c := a + b;
    forall i, j | 0 <= i < j < |c| && Subject(c[i]).Some? && Subject(c[j]) == Subject(c[i])
      ensures Rank(c[i]) <= Rank(c[j])
    {
      if i < |a| && |a| <= j {
        assert c[i] == a[i] && c[j] == b[j - |a|];
      } else if j < |a| {
        assert c[i] == a[i] && c[j] == a[j];
      } else {
        assert c[i] == b[i - |a|] && c[j] == b[j - |a|];
      }
    }
  }

  lemma ConcernsJoin(a: seq<Event>, b: seq<Event>, lo: nat, mid: nat, hi: nat, parent: Option<nat>)
    requires Concerns(a, lo, mid, parent) && Concerns(b, mid, hi, parent) && lo <= mid <= hi
    ensures Concerns(a + b, lo, hi, parent)
  {
    forall i | 0 <= i < |a + b|
      ensures Subject((a + b)[i]).None? || lo <= Subject((a + b)[i]).value < hi
           || ((a + b)[i].Attached? && Subject((a + b)[i]) == parent)
    {
      if i < |a| {
        assert (a + b)[i] == a[i];
      } else {
        assert (a + b)[i] == b[i - |a|];
      }
    }
  }

  /** Consecutive pieces of work on disjoint new nodes, attaching to a common older parent. */
  lemma LoggedInTurn(a: Machine, b: Machine, c: Machine, parent: Option<nat>)
    requires Logged(a, b, parent) && Logged(b, c, parent)
    requires |a.heap| <= |b.heap| <= |c.heap| && (parent.Some? ==> parent.value < |a.heap|)
    ensures Logged(a, c, parent)
  {
    LogSplit(a.log, b.log, c.log);
    var x, y := b.log[|a.log|..], c.log[|b.log|..];
    forall i, j | 0 <= i < |x| && 0 <= j < |y| && Subject(x[i]).Some? && Subject(x[i]) == Subject(y[j])
      ensures Rank(x[i]) <= Rank(y[j])
    {
    }
    OrderedJoin(x, y);
    ConcernsJoin(x, y, |a.heap|, |b.heap|, |c.heap|, parent);
  }

  // ---- what running a piece of the program does ----

  function Kids(node: Node): seq<nat> {
    match node
    case ElementNode(_, _, children) => children
    case FragmentNode(children) => children
    case TextNode(_) => []
  }

  function WithKids(node: Node, kids: seq<nat>): Node {
    match node
    case ElementNode(_, _, _) => node.(children := kids)
    case FragmentNode(_) => node.(children := kids)
    case TextNode(_) => node
  }

  /** Everything that was there before is as it was, except the children of `parent`. */
  ghost predicate Preserves(a: Machine, b: Machine, parent: Option<nat>) {
    && |a.heap| <= |b.heap| && b.cursor == a.cursor
    && forall k :: 0 <= k < |a.heap| && parent != Some(k) ==> b.heap[k] == a.heap[k]
  }

  /** A new node `id` has been built that shows `dom`. */
  ghost predicate BuildsTree(a: Machine, id: nat, b: Machine, dom: Dom) {
    && Preserves(a, b, None) && Logged(a, b, None)
    && id == |a.heap| && Shows(b.heap, id, dom, id, |b.heap|)
  }

  /** A new fragment node has been built whose children show `doms`. */
  ghost predicate BuildsFragment(a: Machine, id: nat, b: Machine, doms: seq<Dom>) {
    && Preserves(a, b, None) && Logged(a, b, None)
    && id == |a.heap| < |b.heap| && b.heap[id].FragmentNode?
    && ShowsAll(b.heap, b.heap[id].children, doms, id + 1, |b.heap|)
  }

  /** New nodes that show `doms` have been added, in order, to the children of `parent`. */
  ghost predicate BuildsForest(a: Machine, b: Machine, parent: nat, doms: seq<Dom>) {
    && Preserves(a, b, Some(parent)) && Logged(a, b, Some(parent))
    && parent < |a.heap| && !a.heap[parent].TextNode?
    && var old_, new_ := Kids(a.heap[parent]), Kids(b.heap[parent]);
       && b.heap[parent] == WithKids(a.heap[parent], new_)
       && |old_| <= |new_| && new_[..|old_|] == old_
       && ShowsAll(b.heap, new_[|old_|..], doms, |a.heap|, |b.heap|)
  }

  lemma ForestOfNothing(m: Machine, parent: nat)
    requires parent < |m.heap| && !m.heap[parent].TextNode?
    ensures BuildsForest(m, m, parent, [])
  {
  }

  lemma ShowsAllJoin(heap: seq<Node>, xs: seq<nat>, ys: seq<nat>, a: seq<Dom>, b: seq<Dom>, lo: nat, hi: nat)
    requires ShowsAll(heap, xs, a, lo, hi) && ShowsAll(heap, ys, b, lo, hi)
    ensures ShowsAll(heap, xs + ys, a + b, lo, hi)
  {
    forall i | 0 <= i < |a + b| ensures Shows(heap, (xs + ys)[i], (a + b)[i], lo, hi) {
      if i < |a| {
        assert (xs + ys)[i] == xs[i] && (a + b)[i] == a[i];
      } else {
        assert (xs + ys)[i] == ys[i - |a|] && (a + b)[i] == b[i - |a|];
      }
    }
  }

  lemma KidsSplit(x: seq<nat>, y: seq<nat>, z: seq<nat>)
    requires |x| <= |y| <= |z| && y[..|x|] == x && z[..|y|] == y
    ensures z[..|x|] == x && z[|x|..] == y[|x|..] + z[|y|..]
  {
    assert z[..|x|] == z[..|y|][..|x|];
    assert z[|x|..] == z[|x|..|y|] + z[|y|..];
    assert z[|x|..|y|] == z[..|y|][|x|..];
  }

  lemma ForestsInTurn(a: Machine, b: Machine, c: Machine, parent: nat, xs: seq<Dom>, ys: seq<Dom>)
    requires BuildsForest(a, b, parent, xs) && BuildsForest(b, c, parent, ys)
    ensures BuildsForest(a, c, parent, xs + ys)
  {
    LoggedInTurn(a, b, c, Some(parent));
    var x, y, z := Kids(a.heap[parent]), Kids(b.heap[parent]), Kids(c.heap[parent]);
    KidsSplit(x, y, z);
    ShowsAllFrame(b.heap, c.heap, y[|x|..], xs, |a.heap|, |b.heap|, |a.heap|, |c.heap|);
    ShowsAllWiden(c.heap, z[|y|..], ys, |b.heap|, |c.heap|, |a.heap|);
    ShowsAllJoin(c.heap, y[|x|..], z[|y|..], xs, ys, |a.heap|, |c.heap|);
  }

  lemma ShowsAllWiden(heap: seq<Node>, ids: seq<nat>, doms: seq<Dom>, lo: nat, hi: nat, lo2: nat)
    requires ShowsAll(heap, ids, doms, lo, hi) && lo2 <= lo && hi <= |heap|
    ensures ShowsAll(heap, ids, doms, lo2, hi)
  {
    ShowsAllFrame(heap, heap, ids, doms, lo, hi, lo2, hi);
  }

  function Attach(m: Machine, parent: nat, child: nat, node: Node): Machine
    requires parent < |m.heap|
  {
    m.(heap := m.heap[parent := node], log := m.log + [Attached(parent, child)])
  }

  lemma AttachLogged(a: Machine, b: Machine, parent: nat, child: nat, node: Node)
    requires Preserves(a, b, None) && Logged(a, b, None) && parent < |a.heap|
    ensures Logged(a, Attach(b, parent, child, node), Some(parent))
  {
    var c := Attach(b, parent, child, node);
    LogSplit(a.log, b.log, c.log);
    assert c.log[|b.log|..] == [Attached(parent, child)];
    var x, y := b.log[|a.log|..], [Attached(parent, child)];
    OrderedJoin(x, y);
    assert Concerns(x, |a.heap|, |b.heap|, Some(parent));
    assert Concerns(y, |b.heap|, |b.heap|, Some(parent));
    ConcernsJoin(x, y, |a.heap|, |b.heap|, |b.heap|, Some(parent));
  }

  /** Attaching new nodes that lie beyond `parent`. */
  lemma AttachBuilds(a: Machine, b: Machine, parent: nat, child: nat, added: seq<nat>, doms: seq<Dom>)
    requires Preserves(a, b, None) && Logged(a, b, None) && parent < |a.heap| && !a.heap[parent].TextNode?
    requires ShowsAll(b.heap, added, doms, |a.heap|, |b.heap|)
    ensures BuildsForest(a, Attach(b, parent, child, WithKids(b.heap[parent], Kids(b.heap[parent]) + added)), parent,
                         doms)
  {
    var node := WithKids(b.heap[parent], Kids(b.heap[parent]) + added);
    var c := Attach(b, parent, child, node);
    AttachLogged(a, b, parent, child, node);
    ShowsAllFrame(b.heap, c.heap, added, doms, |a.heap|, |b.heap|, |a.heap|, |c.heap|);
    assert Kids(c.heap[parent])[|Kids(a.heap[parent])|..] == added;
  }

  /** Running `__append(parent, value)` once the value has been built. */
  lemma AppendRuns(parent: nat, value: Value, env: Env, m: Machine, doms: seq<Dom>)
    requires parent in env && env[parent] < |m.heap| && !m.heap[env[parent]].TextNode?
    requires RunValue(value, env, m).Valued?
    requires var r := RunValue(value, env, m);
      BuildsFragment(m, r.id, r.m, doms) || (|doms| == 1 && BuildsTree(m, r.id, r.m, doms[0]))
    ensures var r := RunStmts([Append(parent, value)], env, m);
      r.Ran? && r.env == env && BuildsForest(m, r.m, env[parent], doms)
  {
    var r := RunValue(value, env, m);
    var p := env[parent];
    assert r.m.heap[p] == m.heap[p];
    var added := if r.m.heap[r.id].FragmentNode? then r.m.heap[r.id].children else [r.id];
    if BuildsFragment(m, r.id, r.m, doms) {
      ShowsAllWiden(r.m.heap, added, doms, r.id + 1, |r.m.heap|, |m.heap|);
    } else {
      assert added == [r.id];
    }
    AttachBuilds(m, r.m, p, r.id, added, doms);
    RunOne(Append(parent, value), env, m);
  }

  lemma RunOne(stmt: Stmt, env: Env, m: Machine)
    ensures RunStmts([stmt], env, m) == RunStmt(stmt, env, m)
  {
    assert [stmt][1..] == [];
  }

  // ---- attribute statements ----

  function PerformAll(node: Node, actions: seq<Action>): Option<Node>
    decreases |actions|
  {
    if actions == [] then Some(node)
    else
      var next := Perform(node, actions[0]);
      if next.None? then None else PerformAll(next.value, actions[1..])
  }

  function Dids(id: nat, actions: seq<Action>): seq<Event> {
    seq(|actions|, i requires 0 <= i < |actions| => Did(id, actions[i]))
  }

  lemma {:induction false} PerformAppend(node: Node, a: seq<Action>, b: seq<Action>)
    ensures PerformAll(node, a + b) == var n := PerformAll(node, a); if n.None? then None else PerformAll(n.value, b)
    decreases |a|
  {
    if a == [] {
      assert a + b == b;
    } else {
      assert (a + b)[1..] == a[1..] + b;
      var next := Perform(node, a[0]);
      if next.Some? {
        PerformAppend(next.value, a[1..], b);
      }
    }
  }

  lemma PerformOne(node: Node, action: Action)
    ensures PerformAll(node, [action]) == Perform(node, action)
  {
    assert [action][1..] == [];
  }

  lemma {:induction false} ActsRun(v: nat, actions: seq<Action>, env: Env, m: Machine)
    requires v in env && env[v] < |m.heap| && PerformAll(m.heap[env[v]], actions).Some?
    ensures RunStmts(Acts(v, actions), env, m)
         == Ran(env, Machine(m.heap[env[v] := PerformAll(m.heap[env[v]], actions).value], m.cursor,
                             m.log + Dids(env[v], actions)))
  {
    var id := env[v];
    if actions == [] {
      assert m.heap[id := m.heap[id]] == m.heap;
      assert m.log + Dids(id, []) == m.log;
    } else {
      var m1 := ActFirst(v, actions, env, m);
      ActsRun(v, actions[1..], env, m1);
      LogJoins(m.log, Did(id, actions[0]), Dids(id, actions[1..]));
      HeapTwice(m.heap, id, m1.heap[id], PerformAll(m.heap[id], actions).value);
    }
  }

  lemma ActFirst(v: nat, actions: seq<Action>, env: Env, m: Machine) returns (m1: Machine)
    requires v in env && env[v] < |m.heap| && actions != [] && PerformAll(m.heap[env[v]], actions).Some?
    ensures var next := Perform(m.heap[env[v]], actions[0]);
      next.Some? && m1 == Machine(m.heap[env[v] := next.value], m.cursor, m.log + [Did(env[v], actions[0])])
    ensures RunStmts(Acts(v, actions), env, m) == RunStmts(Acts(v, actions[1..]), env, m1)
    ensures PerformAll(m.heap[env[v]], actions) == PerformAll(m1.heap[env[v]], actions[1..])
    ensures Dids(env[v], actions) == [Did(env[v], actions[0])] + Dids(env[v], actions[1..])
  {
    var next := Perform(m.heap[env[v]], actions[0]).value;
    m1 := Machine(m.heap[env[v] := next], m.cursor, m.log + [Did(env[v], actions[0])]);
    assert Acts(v, actions)[1..] == Acts(v, actions[1..]);
  }

  lemma LogJoins(log: seq<Event>, e: Event, more: seq<Event>)
    ensures (log + [e]) + more == log + ([e] + more)
  {
  }

  lemma HeapTwice(heap: seq<Node>, id: nat, next: Node, last: Node)
    requires id < |heap|
    ensures heap[id := next][id := last] == heap[id := last]
  {
  }

  ghost predicate AllRank(actions: seq<Action>, lo: nat, hi: nat) {
    forall a :: a in actions ==> lo <= ActionRank(a) <= hi
  }

  ghost predicate WellSorted(sorted: AttrStmts) {
    && AllRank(sorted.now, 1, 1) && AllRank(sorted.idl, 3, 3)
    && (sorted.html.Some? ==> sorted.html.value.HtmlText? || sorted.html.value.HtmlValue?)
    && (sorted.ref.Some? ==> sorted.ref.value.Ref?)
  }

  lemma RenamedAttr(name: string, tag: string)
    ensures var attrName := AttributeName(name, tag);
      && (attrName == "ref" <==> name == "ref")
      && IsHandlerName(attrName) == IsHandlerName(name)
      && IsIdlProperty(tag, attrName) == IsIdlProperty(tag, if name == "className" then "class" else name)
  {
    if name == "className" {
      assert "className"[0] == 'c' && "class"[0] == 'c' && "ref"[0] == 'r';
    } else if name == "debounce" {
      assert "debounce"[0] == 'd' && "data-vertz-debounce"[0] == 'd' && "ref"[0] == 'r';
    }
  }

  lemma RankOfExpression(name: string, slice: Slice, tag: string, live: Slice -> bool)
    ensures var attrName := if name == "className" then "class" else name;
      ActionRank(ProcessExpression(name, slice, tag, live))
      == if name == "ref" then 4 else if !IsHandlerName(name) && IsIdlProperty(tag, attrName) then 3 else 1
  {
    RenamedAttr(name, tag);
    assert name == "onChange" ==> IsHandlerName(name);
    assert "style" != "value" && "style" != "checked" && "style" != "defaultValue" && "style" != "defaultChecked";
  }

  lemma RankOfAttr(attr: Attr, tag: string, live: Slice -> bool)
    requires ProcessAttr(attr, tag, live).Some?
    ensures ActionRank(ProcessAttr(attr, tag, live).value)
         == if IsRefAttr(attr) then 4 else if IsIdlAttr(attr, tag) then 3 else 1
  {
    if attr.Attr? {
      RenamedAttr(attr.name, tag);
      if Expression(attr.value).Some? {
        RankOfExpression(attr.name, Expression(attr.value).value, tag, live);
      }
    }
  }

  lemma SortStep(acc: AttrStmts, attr: Attr, tag: string, live: Slice -> bool)
    requires WellSorted(acc)
    ensures WellSorted(SortAttr(acc, attr, tag, live))
  {
    var action := ProcessAttr(attr, tag, live);
    if action.Some? {
      RankOfAttr(attr, tag, live);
    }
  }

  /** The statements that must wait for the children are exactly those that assign properties, and the ref. */
  lemma {:induction false} SortedByRank(acc: AttrStmts, attrs: seq<Attr>, tag: string, live: Slice -> bool)
    requires WellSorted(acc)
    ensures WellSorted(SortAttrs(acc, attrs, tag, live))
    decreases |attrs|
  {
    if attrs != [] {
      SortStep(acc, attrs[0], tag, live);
      SortedByRank(SortAttr(acc, attrs[0], tag, live), attrs[1..], tag, live);
    }
  }

  lemma AttrPerforms(node: Node, attr: Attr, tag: string, live: Slice -> bool)
    requires node.ElementNode? && !IsInnerHtmlAttr(attr) && !IsRefAttr(attr) && IsExtracted(attr)
    requires var action := ProcessAttr(attr, tag, live); action.Some? && !IsIdlAttr(attr, tag)
    ensures var own := FixedAttr(attr, tag);
      Perform(node, ProcessAttr(attr, tag, live).value)
      == Some(if own.None? then node else node.(attrs := SetAttr(node.attrs, own.value.0, own.value.1)))
  {
    if attr.Attr? && (attr.value.Quoted? || attr.value.NoValue?) {
      var name := if attr.value.Quoted? then AttributeName(attr.name, tag)
                  else if attr.name == "className" then "class" else attr.name;
      QuotedReadsBack(name);
      QuotedReadsBack(if attr.value.Quoted? then attr.value.text else "");
    }
  }

  /** Running the immediate attribute statements sets exactly the fixed attributes, in order. */
  lemma {:induction false} SortedPerforms(node: Node, acc: AttrStmts, attrs: seq<Attr>, tag: string,
                                          live: Slice -> bool)
    requires node.ElementNode?
    requires PerformAll(node, acc.now).Some? && PerformAll(node, acc.now).value.ElementNode?
    ensures PerformAll(node, SortAttrs(acc, attrs, tag, live).now)
         == var before := PerformAll(node, acc.now).value;
            Some(before.(attrs := FixedAttrs(before.attrs, attrs, tag)))
    decreases |attrs|
  {
    if attrs != [] {
      var attr := attrs[0];
      var next := SortAttr(acc, attr, tag, live);
      var action := ProcessAttr(attr, tag, live);
      if IsExtracted(attr) && !IsInnerHtmlAttr(attr) && !IsRefAttr(attr) && action.Some? && !IsIdlAttr(attr, tag) {
        AttrPerforms(PerformAll(node, acc.now).value, attr, tag, live);
        PerformAppend(node, acc.now, [action.value]);
        PerformOne(PerformAll(node, acc.now).value, action.value);
      }
      SortedPerforms(node, next, attrs[1..], tag, live);
    }
  }

  /** Only `setAttribute` changes the node. */
  lemma {:induction false} LatePerforms(node: Node, actions: seq<Action>)
    requires node.ElementNode? && forall a :: a in actions ==> !a.SetAttribute?
    ensures PerformAll(node, actions) == Some(node)
  {
    if actions != [] {
      LatePerforms(node, actions[1..]);
    }
  }

  // ---- stages of an element ----

  /** The events of `id` have ranks in `[first, last]`; all others concern nodes made meanwhile. */
  ghost predicate Stage(a: Machine, b: Machine, id: nat, first: nat, last: nat) {
    && |a.heap| <= |b.heap| && |a.log| <= |b.log| && b.log[..|a.log|] == a.log
    && RunsInOrder(b.log[|a.log|..])
    && StageConcerns(b.log[|a.log|..], |a.heap|, |b.heap|, id, first, last)
  }

  ghost predicate StageConcerns(log: seq<Event>, lo: nat, hi: nat, id: nat, first: nat, last: nat) {
    forall i :: 0 <= i < |log| ==>
      (Subject(log[i]).None?
       || (Subject(log[i]) == Some(id) && first <= Rank(log[i]) <= last)
       || (lo <= Subject(log[i]).value < hi && Subject(log[i]) != Some(id)))
  }

  lemma StageConcernsJoin(a: seq<Event>, b: seq<Event>, lo: nat, mid: nat, hi: nat, id: nat,
                          first: nat, last: nat, next: nat, end: nat)
    requires StageConcerns(a, lo, mid, id, first, last) && StageConcerns(b, mid, hi, id, next, end)
    requires lo <= mid <= hi && first <= last <= next <= end
    ensures StageConcerns(a + b, lo, hi, id, first, end)
  {
    var c := a + b;
    forall i | 0 <= i < |c|
      ensures Subject(c[i]).None? || (Subject(c[i]) == Some(id) && first <= Rank(c[i]) <= end)
           || (lo <= Subject(c[i]).value < hi && Subject(c[i]) != Some(id))
    {
      if i < |a| {
        assert c[i] == a[i];
      } else {
        assert c[i] == b[i - |a|];
      }
    }
  }

  lemma StagesInTurn(a: Machine, b: Machine, c: Machine, id: nat, first: nat, last: nat, next: nat, end: nat)
    requires Stage(a, b, id, first, last) && Stage(b, c, id, next, end)
    requires first <= last <= next <= end
    ensures Stage(a, c, id, first, end)
  {
    LogSplit(a.log, b.log, c.log);
    var x, y := b.log[|a.log|..], c.log[|b.log|..];
    OrderedJoin(x, y);
    StageConcernsJoin(x, y, |a.heap|, |b.heap|, |c.heap|, id, first, last, next, end);
  }

  lemma ActsStage(a: Machine, b: Machine, id: nat, actions: seq<Action>, first: nat, last: nat)
    requires b.log == a.log + Dids(id, actions) && |b.heap| == |a.heap|
    requires AllRank(actions, first, last)
    requires forall i, j :: 0 <= i < j < |actions| ==> ActionRank(actions[i]) <= ActionRank(actions[j])
    ensures Stage(a, b, id, first, last)
  {
    assert b.log[|a.log|..] == Dids(id, actions);
  }

  lemma OneEventStage(a: Machine, b: Machine, id: nat, event: Event)
    requires b.log == a.log + [event] && |b.heap| >= |a.heap| && (Subject(event).Some? ==> Subject(event).value == id)
    ensures Stage(a, b, id, Rank(event), Rank(event))
  {
    assert b.log[|a.log|..] == [event];
  }

  lemma ChildrenStage(a: Machine, b: Machine, id: nat)
    requires Logged(a, b, Some(id)) && id < |a.heap| <= |b.heap|
    ensures Stage(a, b, id, 2, 2)
  {
  }

  lemma StagesLogged(a: Machine, b: Machine, id: nat)
    requires Stage(a, b, id, 0, 4) && |a.heap| <= id < |b.heap|
    ensures Logged(a, b, None)
  {
  }
}
