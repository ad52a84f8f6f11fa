/**
 The order in which a flattened style tree lists its declarations
 (native/vertz-compiler-core/src/css_transform.rs). The cascade decides by
 order between declarations of one place: the same at-rules and the same
 resolved selector.
 */
module StyleOrder {
  import Replacing
  import opened StyleTree

  // ---- declarations in order ----

  function ListedIn(at: seq<string>, selector: string, declarations: seq<Node>): seq<Placed> {
    if declarations == [] then []
    else
      (if declarations[0].Declaration? then [Placed(at, selector, declarations[0].key, declarations[0].value)] else [])
      + ListedIn(at, selector, declarations[1..])
  }

  /** The declarations of the output, from the first rule to the last. */
  function Listed(at: seq<string>, rules: seq<Rule>): seq<Placed>
    decreases rules
  {
    if rules == [] then [] else ListedBy(at, rules[0]) + Listed(at, rules[1..])
  }

  function ListedBy(at: seq<string>, rule: Rule): seq<Placed>
    decreases rule
  {
    match rule
    case Plain(selector, declarations) => ListedIn(at, selector, declarations)
    case AtRule(name, rules) => Listed(at + [name], rules)
  }

  /** The declarations of the tree as they are written. */
  function Written(at: seq<string>, selector: string, nodes: seq<Node>): seq<Placed>
    decreases nodes
  {
    if nodes == [] then [] else WrittenBy(at, selector, nodes[0]) + Written(at, selector, nodes[1..])
  }

  function WrittenBy(at: seq<string>, selector: string, node: Node): seq<Placed>
    decreases node
  {
    match node
    case Declaration(key, value) => [Placed(at, selector, key, value)]
    case Nested(own, children) => Written(AtOf(at, own), SelectorOf(selector, own), children)
  }

  function AtOf(at: seq<string>, own: string): seq<string> {
    if IsAt(own) then at + [own] else at
  }

  function SelectorOf(selector: string, own: string): string {
    if IsAt(own) then selector else Replacing.Replace(own, '&', selector)
  }

  predicate IsHere(p: Placed, at: seq<string>, selector: string) {
    p.at == at && p.selector == selector
  }

  /** Those of one place. */
  function Here(ps: seq<Placed>, at: seq<string>, selector: string): seq<Placed> {
    if ps == [] then []
    else (if IsHere(ps[0], at, selector) then [ps[0]] else []) + Here(ps[1..], at, selector)
  }

  /** In every place the output lists the declarations in the order they were written in. */
  ghost predicate SameOrder(out: seq<Placed>, written: seq<Placed>) {
    forall at, selector :: Here(out, at, selector) == Here(written, at, selector)
  }

  // ---- when the order is kept ----

  /** Something nested puts a declaration in the place of the level it stands in. */
  predicate ComesBack(at: seq<string>, selector: string, node: Node) {
    node.Nested? && Here(WrittenBy(at, selector, node), at, selector) != []
  }

  /** At no level does a declaration follow something nested that comes back to the level's own place. */
  predicate InLevels(at: seq<string>, selector: string, nodes: seq<Node>)
    decreases nodes
  {
    nodes == []
    || (&& (ComesBack(at, selector, nodes[0]) ==> Declarations(nodes[1..]) == [])
        && (nodes[0].Nested? ==>
              InLevels(AtOf(at, nodes[0].selector), SelectorOf(selector, nodes[0].selector), nodes[0].children))
        && InLevels(at, selector, nodes[1..]))
  }

  // ---- lists ----

  lemma HereFirst(p: Placed, rest: seq<Placed>, at: seq<string>, selector: string)
    ensures Here([p] + rest, at, selector)
         == if IsHere(p, at, selector) then [p] + Here(rest, at, selector) else Here(rest, at, selector)
  {
    assert ([p] + rest)[1..] == rest;
  }

  lemma {:induction false} HereAppend(a: seq<Placed>, b: seq<Placed>, at: seq<string>, selector: string)
    ensures Here(a + b, at, selector) == Here(a, at, selector) + Here(b, at, selector)
  {
    if a == [] {
      assert a + b == b;
    } else {
      var first, rest := a[0], a[1..];
      HereAppend(rest, b, at, selector);
      FirstOfBoth(a, b);
      HereFirst(first, rest + b, at, selector);
      HereFirst(first, rest, at, selector);
      Grouped([first], Here(rest, at, selector), Here(b, at, selector));
    }
  }

  lemma FirstOfBoth(a: seq<Placed>, b: seq<Placed>)
    requires a != []
    ensures a + b == [a[0]] + (a[1..] + b) && a == [a[0]] + a[1..]
  {
  }

  lemma Grouped(a: seq<Placed>, b: seq<Placed>, c: seq<Placed>)
    ensures a + (b + c) == (a + b) + c
  {
  }

  /** Declarations in front of what is nested, or behind it, where one of the two is missing. */
  lemma Regrouped(own: seq<Placed>, first: seq<Placed>, more: seq<Placed>)
    ensures own == [] || first == [] ==> own + (first + more) == first + (own + more)
    ensures (first + own) + ([] + more) == first + (own + more)
  {
    Grouped(first, own, more);
    assert [] + more == more;
    if own == [] {
      assert [] + (first + more) == first + more;
    } else if first == [] {
      assert [] + (own + more) == own + more;
    }
  }

  lemma {:induction false} ListedAppend(at: seq<string>, a: seq<Rule>, b: seq<Rule>)
    ensures Listed(at, a + b) == Listed(at, a) + Listed(at, b)
  {
    if a == [] {
      assert a + b == b;
    } else {
      assert (a + b)[1..] == a[1..] + b;
      ListedAppend(at, a[1..], b);
    }
  }

  lemma ListedOne(at: seq<string>, rule: Rule)
    ensures Listed(at, [rule]) == ListedBy(at, rule)
  {
    assert [rule][1..] == [];
    assert ListedBy(at, rule) + [] == ListedBy(at, rule);
  }

  /** What a level lists: its own declarations, then what is nested. */
  lemma LevelLists(at: seq<string>, selector: string, nodes: seq<Node>)
    ensures Listed(at, Build(selector, nodes))
         == ListedIn(at, selector, Declarations(nodes)) + Listed(at, NestedRules(selector, nodes))
  {
    var own := if Declarations(nodes) == [] then [] else [Plain(selector, Declarations(nodes))];
    ListedAppend(at, own, NestedRules(selector, nodes));
    if own != [] {
      ListedOne(at, own[0]);
    }
  }

  lemma NodeLists(at: seq<string>, selector: string, node: Node)
    requires node.Nested?
    ensures Listed(at, RulesOf(selector, node))
         == Listed(AtOf(at, node.selector), Build(SelectorOf(selector, node.selector), node.children))
  {
    if IsAt(node.selector) {
      var inner := Build(selector, node.children);
      if inner != [] {
        ListedOne(at, AtRule(node.selector, inner));
      }
    }
  }

  lemma {:induction false} OwnAreHere(at: seq<string>, selector: string, nodes: seq<Node>, at2: seq<string>,
                                      selector2: string)
    ensures Here(ListedIn(at, selector, Declarations(nodes)), at2, selector2)
         == if at2 == at && selector2 == selector then ListedIn(at, selector, Declarations(nodes)) else []
  {
    if nodes != [] {
      OwnAreHere(at, selector, nodes[1..], at2, selector2);
      if nodes[0].Declaration? {
        HeadStands(at, selector, nodes, at2, selector2);
        HereFirst(Placed(at, selector, nodes[0].key, nodes[0].value),
                  ListedIn(at, selector, Declarations(nodes[1..])), at2, selector2);
      } else {
        assert Declarations(nodes) == Declarations(nodes[1..]);
      }
    }
  }

  // ---- kept ----

  /** What one place gets from a level's own declarations. */
  function Own(at: seq<string>, selector: string, nodes: seq<Node>, at2: seq<string>,
                 selector2: string): seq<Placed> {
    if at2 == at && selector2 == selector then ListedIn(at, selector, Declarations(nodes)) else []
  }

  /** What one place gets from what is nested. */
  function Inner(at: seq<string>, selector: string, nodes: seq<Node>, at2: seq<string>,
                 selector2: string): seq<Placed> {
    Here(Listed(at, NestedRules(selector, nodes)), at2, selector2)
  }

  lemma {:induction false} LevelsKeepOrder(at: seq<string>, selector: string, nodes: seq<Node>, at2: seq<string>,
                                           selector2: string)
    requires InLevels(at, selector, nodes)
    ensures Here(Listed(at, Build(selector, nodes)), at2, selector2)
         == Here(Written(at, selector, nodes), at2, selector2)
    decreases nodes, 1
  {
    LevelLists(at, selector, nodes);
    HereAppend(ListedIn(at, selector, Declarations(nodes)), Listed(at, NestedRules(selector, nodes)), at2, selector2);
    OwnAreHere(at, selector, nodes, at2, selector2);
    NodesKeepOrder(at, selector, nodes, at2, selector2);
  }

  lemma {:induction false} NodesKeepOrder(at: seq<string>, selector: string, nodes: seq<Node>, at2: seq<string>,
                                          selector2: string)
    requires InLevels(at, selector, nodes)
    ensures Own(at, selector, nodes, at2, selector2) + Inner(at, selector, nodes, at2, selector2)
         == Here(Written(at, selector, nodes), at2, selector2)
    decreases nodes, 0
  {
    if nodes != [] {
      var head, tail := nodes[0], nodes[1..];
      NodesKeepOrder(at, selector, tail, at2, selector2);
      InnerStep(at, selector, nodes, at2, selector2);
      HereAppend(WrittenBy(at, selector, head), Written(at, selector, tail), at2, selector2);
      if head.Nested? {
        NodeLists(at, selector, head);
        LevelsKeepOrder(AtOf(at, head.selector), SelectorOf(selector, head.selector), head.children, at2, selector2);
        NestedFirst(at, selector, nodes, at2, selector2);
      } else {
        DeclarationFirst(at, selector, nodes, at2, selector2);
      }
      Regrouped(Own(at, selector, tail, at2, selector2), Here(WrittenBy(at, selector, head), at2, selector2),
                Inner(at, selector, tail, at2, selector2));
    }
  }

  lemma InnerStep(at: seq<string>, selector: string, nodes: seq<Node>, at2: seq<string>, selector2: string)
    requires nodes != []
    ensures Inner(at, selector, nodes, at2, selector2)
         == Here(Listed(at, RulesOf(selector, nodes[0])), at2, selector2)
            + Inner(at, selector, nodes[1..], at2, selector2)
  {
    ListedAppend(at, RulesOf(selector, nodes[0]), NestedRules(selector, nodes[1..]));
    HereAppend(Listed(at, RulesOf(selector, nodes[0])), Listed(at, NestedRules(selector, nodes[1..])), at2, selector2);
  }

  lemma DeclarationFirst(at: seq<string>, selector: string, nodes: seq<Node>, at2: seq<string>, selector2: string)
    requires nodes != [] && nodes[0].Declaration?
    ensures var first := Here(WrittenBy(at, selector, nodes[0]), at2, selector2);
      && Own(at, selector, nodes, at2, selector2) == first + Own(at, selector, nodes[1..], at2, selector2)
      && Here(Listed(at, RulesOf(selector, nodes[0])), at2, selector2) == []
  {
    HeadStands(at, selector, nodes, at2, selector2);
  }

  lemma NestedFirst(at: seq<string>, selector: string, nodes: seq<Node>, at2: seq<string>, selector2: string)
    requires InLevels(at, selector, nodes) && nodes != [] && nodes[0].Nested?
    ensures var own := Own(at, selector, nodes, at2, selector2);
      var first := Here(WrittenBy(at, selector, nodes[0]), at2, selector2);
      own == Own(at, selector, nodes[1..], at2, selector2) && (own == [] || first == [])
  {
    assert Declarations(nodes) == Declarations(nodes[1..]);
  }

  lemma HeadStands(at: seq<string>, selector: string, nodes: seq<Node>, at2: seq<string>, selector2: string)
    requires nodes != [] && nodes[0].Declaration?
    ensures var p := Placed(at, selector, nodes[0].key, nodes[0].value);
      && ListedIn(at, selector, Declarations(nodes)) == [p] + ListedIn(at, selector, Declarations(nodes[1..]))
      && Here(WrittenBy(at, selector, nodes[0]), at2, selector2)
         == (if at2 == at && selector2 == selector then [p] else [])
      && Listed(at, RulesOf(selector, nodes[0])) == []
  {
    assert Declarations(nodes)[1..] == Declarations(nodes[1..]);
    assert WrittenBy(at, selector, nodes[0])[1..] == [];
  }

  // ---- not kept ----

  ghost predicate Before(ps: seq<Placed>, x: Placed, y: Placed) {
    exists i, j :: 0 <= i < j < |ps| && ps[i] == x && ps[j] == y
  }

  predicate Distinct(ps: seq<Placed>) {
    forall i, j :: 0 <= i < j < |ps| ==> ps[i] != ps[j]
  }

  lemma BeforeIn(a: seq<Placed>, b: seq<Placed>, x: Placed, y: Placed)
    ensures Before(a, x, y) || Before(b, x, y) ==> Before(a + b, x, y)
  {
    if Before(a, x, y) {
      var i, j :| 0 <= i < j < |a| && a[i] == x && a[j] == y;
      assert (a + b)[i] == x && (a + b)[j] == y;
    } else if Before(b, x, y) {
      var i, j :| 0 <= i < j < |b| && b[i] == x && b[j] == y;
      assert (a + b)[|a| + i] == x && (a + b)[|a| + j] == y;
    }
  }

  lemma BeforeAcross(a: seq<Placed>, b: seq<Placed>, x: Placed, y: Placed)
    requires x in a && y in b
    ensures Before(a + b, x, y)
  {
    var i :| 0 <= i < |a| && a[i] == x;
    var j :| 0 <= j < |b| && b[j] == y;
    assert (a + b)[i] == x && (a + b)[|a| + j] == y;
  }

  lemma {:induction false} HereHolds(ps: seq<Placed>, at: seq<string>, selector: string, x: Placed)
    ensures x in Here(ps, at, selector) <==> x in ps && IsHere(x, at, selector)
  {
    if ps != [] {
      HereHolds(ps[1..], at, selector, x);
      assert ps == [ps[0]] + ps[1..];
    }
  }

  lemma {:induction false} BeforeHere(ps: seq<Placed>, x: Placed, y: Placed)
    requires Before(ps, x, y) && IsHere(y, x.at, x.selector)
    ensures Before(Here(ps, x.at, x.selector), x, y)
  {
    var i, j :| 0 <= i < j < |ps| && ps[i] == x && ps[j] == y;
    var front, back := ps[..j], ps[j..];
    assert ps == front + back;
    HereAppend(front, back, x.at, x.selector);
    assert x == front[i] && y == back[0];
    HereHolds(front, x.at, x.selector, x);
    HereHolds(back, x.at, x.selector, y);
    BeforeAcross(Here(front, x.at, x.selector), Here(back, x.at, x.selector), x, y);
  }

  lemma {:induction false} HereDistinct(ps: seq<Placed>, at: seq<string>, selector: string)
    requires Distinct(ps)
    ensures Distinct(Here(ps, at, selector))
  {
    if ps != [] {
      assert Distinct(ps[1..]) by {
        forall i, j | 0 <= i < j < |ps[1..]| ensures ps[1..][i] != ps[1..][j] {
          assert ps[1..][i] == ps[i + 1] && ps[1..][j] == ps[j + 1];
        }
      }
      HereDistinct(ps[1..], at, selector);
      HereHolds(ps[1..], at, selector, ps[0]);
      assert ps[0] !in ps[1..];
    }
  }

  lemma NotBothWays(ps: seq<Placed>, x: Placed, y: Placed)
    requires Distinct(ps) && Before(ps, x, y)
    ensures !Before(ps, y, x)
  {
    var i, j :| 0 <= i < j < |ps| && ps[i] == x && ps[j] == y;
    forall k, l | 0 <= k < l < |ps| ensures !(ps[k] == y && ps[l] == x) {
      if ps[k] == y {
        assert k == j;
      }
    }
  }

  /** Two declarations of one place that swap their order cannot go unnoticed. */
  lemma SwapShows(out: seq<Placed>, written: seq<Placed>, x: Placed, y: Placed)
    requires Distinct(written) && IsHere(y, x.at, x.selector) && Before(written, x, y) && Before(out, y, x)
    ensures !SameOrder(out, written)
  {
    HereDistinct(written, x.at, x.selector);
    BeforeHere(written, x, y);
    BeforeHere(out, y, x);
    NotBothWays(Here(written, x.at, x.selector), x, y);
    assert Here(out, x.at, x.selector) != Here(written, x.at, x.selector);
  }

  lemma {:induction false} WrittenHolds(at: seq<string>, selector: string, nodes: seq<Node>, p: Placed)
    requires p in ListedIn(at, selector, Declarations(nodes))
    ensures p in Written(at, selector, nodes) && IsHere(p, at, selector)
  {
    if nodes[0].Declaration? {
      HeadStands(at, selector, nodes, at, selector);
      if p !in WrittenBy(at, selector, nodes[0]) {
        WrittenHolds(at, selector, nodes[1..], p);
      }
    } else {
      assert Declarations(nodes) == Declarations(nodes[1..]);
      WrittenHolds(at, selector, nodes[1..], p);
    }
  }

  /** What is written is listed. */
  lemma {:induction false} AllListed(at: seq<string>, selector: string, nodes: seq<Node>, p: Placed)
    requires p in Written(at, selector, nodes)
    ensures p in Listed(at, Build(selector, nodes))
    decreases nodes, 1
  {
    LevelLists(at, selector, nodes);
    NodesListed(at, selector, nodes, p);
  }

  lemma {:induction false} NodesListed(at: seq<string>, selector: string, nodes: seq<Node>, p: Placed)
    requires p in Written(at, selector, nodes)
    ensures p in ListedIn(at, selector, Declarations(nodes)) || p in Listed(at, NestedRules(selector, nodes))
    decreases nodes, 0
  {
    var head, tail := nodes[0], nodes[1..];
    ListedAppend(at, RulesOf(selector, head), NestedRules(selector, tail));
    if p in WrittenBy(at, selector, head) {
      if head.Nested? {
        NodeLists(at, selector, head);
        AllListed(AtOf(at, head.selector), SelectorOf(selector, head.selector), head.children, p);
      } else {
        HeadStands(at, selector, nodes, at, selector);
      }
    } else {
      NodesListed(at, selector, tail, p);
      if head.Declaration? {
        HeadStands(at, selector, nodes, at, selector);
      } else {
        assert Declarations(nodes) == Declarations(tail);
      }
    }
  }

  /** Where a level is not kept, two declarations of one place change their order. */
  lemma {:induction false} SomeSwap(at: seq<string>, selector: string, nodes: seq<Node>) returns (x: Placed, y: Placed)
    requires !InLevels(at, selector, nodes)
    ensures IsHere(y, x.at, x.selector) && Before(Written(at, selector, nodes), x, y)
    ensures Before(Listed(at, Build(selector, nodes)), y, x)
    decreases nodes, 1
  {
    var inNested: bool;
    x, y, inNested := SwapBelow(at, selector, nodes);
    LevelLists(at, selector, nodes);
    var own, nested := ListedIn(at, selector, Declarations(nodes)), Listed(at, NestedRules(selector, nodes));
    if inNested {
      BeforeIn(own, nested, y, x);
    } else {
      BeforeAcross(own, nested, y, x);
    }
  }

  lemma {:induction false} SwapBelow(at: seq<string>, selector: string, nodes: seq<Node>)
    returns (x: Placed, y: Placed, inNested: bool)
    requires !InLevels(at, selector, nodes)
    ensures IsHere(y, x.at, x.selector) && Before(Written(at, selector, nodes), x, y)
    ensures if inNested then Before(Listed(at, NestedRules(selector, nodes)), y, x)
            else y in ListedIn(at, selector, Declarations(nodes)) && x in Listed(at, NestedRules(selector, nodes))
    decreases nodes, 0
  {
    var head, tail := nodes[0], nodes[1..];
    if ComesBack(at, selector, head) && Declarations(tail) != [] {
      x, y := SwapHere(at, selector, nodes);
      inNested := false;
    } else if head.Nested?
           && !InLevels(AtOf(at, head.selector), SelectorOf(selector, head.selector), head.children) {
      x, y := SomeSwap(AtOf(at, head.selector), SelectorOf(selector, head.selector), head.children);
      NodeLists(at, selector, head);
      SwapInHead(at, selector, nodes, x, y);
      inNested := true;
    } else {
      x, y, inNested := SwapBelow(at, selector, tail);
      SwapInTail(at, selector, nodes, x, y, inNested);
    }
  }

  /** A declaration follows something nested that comes back. */
  lemma SwapHere(at: seq<string>, selector: string, nodes: seq<Node>) returns (x: Placed, y: Placed)
    requires nodes != [] && ComesBack(at, selector, nodes[0]) && Declarations(nodes[1..]) != []
    ensures IsHere(y, x.at, x.selector) && Before(Written(at, selector, nodes), x, y)
    ensures y in ListedIn(at, selector, Declarations(nodes)) && x in Listed(at, NestedRules(selector, nodes))
  {
    var head, tail := nodes[0], nodes[1..];
    var first := WrittenBy(at, selector, head);
    x := Here(first, at, selector)[0];
    HereHolds(first, at, selector, x);
    y := FirstOwn(at, selector, tail);
    WrittenHolds(at, selector, tail, y);
    BeforeAcross(first, Written(at, selector, tail), x, y);
    NodeLists(at, selector, head);
    AllListed(AtOf(at, head.selector), SelectorOf(selector, head.selector), head.children, x);
    ListedAppend(at, RulesOf(selector, head), NestedRules(selector, tail));
    assert Declarations(nodes) == Declarations(tail);
  }

  lemma SwapInHead(at: seq<string>, selector: string, nodes: seq<Node>, x: Placed, y: Placed)
    requires nodes != [] && Before(WrittenBy(at, selector, nodes[0]), x, y)
    requires Before(Listed(at, RulesOf(selector, nodes[0])), y, x)
    ensures Before(Written(at, selector, nodes), x, y) && Before(Listed(at, NestedRules(selector, nodes)), y, x)
  {
    var first, rest := WrittenBy(at, selector, nodes[0]), Written(at, selector, nodes[1..]);
    var listed, more := Listed(at, RulesOf(selector, nodes[0])), Listed(at, NestedRules(selector, nodes[1..]));
    ListedAppend(at, RulesOf(selector, nodes[0]), NestedRules(selector, nodes[1..]));
    BeforeIn(first, rest, x, y);
    BeforeIn(listed, more, y, x);
  }

  lemma SwapInTail(at: seq<string>, selector: string, nodes: seq<Node>, x: Placed, y: Placed, inNested: bool)
    requires nodes != [] && Before(Written(at, selector, nodes[1..]), x, y)
    requires if inNested then Before(Listed(at, NestedRules(selector, nodes[1..])), y, x)
             else y in ListedIn(at, selector, Declarations(nodes[1..]))
                  && x in Listed(at, NestedRules(selector, nodes[1..]))
    ensures Before(Written(at, selector, nodes), x, y)
    ensures if inNested then Before(Listed(at, NestedRules(selector, nodes)), y, x)
            else y in ListedIn(at, selector, Declarations(nodes)) && x in Listed(at, NestedRules(selector, nodes))
  {
    var first, rest := WrittenBy(at, selector, nodes[0]), Written(at, selector, nodes[1..]);
    var listed, more := Listed(at, RulesOf(selector, nodes[0])), Listed(at, NestedRules(selector, nodes[1..]));
    ListedAppend(at, RulesOf(selector, nodes[0]), NestedRules(selector, nodes[1..]));
    BeforeIn(first, rest, x, y);
    if inNested {
      BeforeIn(listed, more, y, x);
    } else if nodes[0].Declaration? {
      HeadStands(at, selector, nodes, at, selector);
    } else {
      assert Declarations(nodes) == Declarations(nodes[1..]);
    }
  }

  lemma {:induction false} FirstOwn(at: seq<string>, selector: string, nodes: seq<Node>) returns (y: Placed)
    requires Declarations(nodes) != []
    ensures y in ListedIn(at, selector, Declarations(nodes))
  {
    if nodes[0].Declaration? {
      HeadStands(at, selector, nodes, at, selector);
      y := Placed(at, selector, nodes[0].key, nodes[0].value);
    } else {
      assert Declarations(nodes) == Declarations(nodes[1..]);
      y := FirstOwn(at, selector, nodes[1..]);
    }
  }

  // ---- the exact condition ----

  /**
   In every place the flattened rules list the declarations in the order they
   were written in, exactly when no declaration follows, at its level, something
   nested that puts a declaration in the same place. Equal declarations could
   hide a swap, so for the other half no two are equal.
   */
  lemma OrderKeptExactlyWhen(at: seq<string>, selector: string, nodes: seq<Node>)
    ensures InLevels(at, selector, nodes) ==>
      SameOrder(Listed(at, Build(selector, nodes)), Written(at, selector, nodes))
    ensures Distinct(Written(at, selector, nodes)) ==>
      (SameOrder(Listed(at, Build(selector, nodes)), Written(at, selector, nodes)) <==> InLevels(at, selector, nodes))
  {
    var out, written := Listed(at, Build(selector, nodes)), Written(at, selector, nodes);
    if InLevels(at, selector, nodes) {
      forall at2, selector2 ensures Here(out, at2, selector2) == Here(written, at2, selector2) {
        LevelsKeepOrder(at, selector, nodes, at2, selector2);
      }
    } else if Distinct(written) {
      var x, y := SomeSwap(at, selector, nodes);
      SwapShows(out, written, x, y);
    }
  }

  /** `{ '&': { color: red }, color: blue }` lists blue first, so red wins where blue was written last. */
  lemma ComingBackSwaps(selector: string, red: Scalar, blue: Scalar)
    ensures var nodes := [Nested("&", [Declaration("color", red)]), Declaration("color", blue)];
      && Written([], selector, nodes) == [Placed([], selector, "color", red), Placed([], selector, "color", blue)]
      && Listed([], Build(selector, nodes)) == [Placed([], selector, "color", blue), Placed([], selector, "color", red)]
  {
    Ampersand(selector);
    var inner, last := [Declaration("color", red)], [Declaration("color", blue)];
    var nodes := [Nested("&", inner)] + last;
    assert [Nested("&", inner), Declaration("color", blue)] == nodes;
    OneDeclaration(selector, "color", red);
    OneDeclaration(selector, "color", blue);
    NestedThenOne(selector, "&", inner, last);
    var p, q := Placed([], selector, "color", red), Placed([], selector, "color", blue);
    assert [p] + [q] == [p, q] && [q] + [p] == [q, p];
  }

  lemma Ampersand(selector: string)
    ensures SelectorOf(selector, "&") == selector && AtOf([], "&") == []
  {
    assert "&"[1..] == "";
    assert Replacing.Replace("&", '&', selector) == selector + "" == selector;
  }

  /** One nested block before one declaration. */
  lemma NestedThenOne(selector: string, own: string, inner: seq<Node>, last: seq<Node>)
    requires SelectorOf(selector, own) == selector && AtOf([], own) == []
    requires Declarations(inner) == inner && NestedRules(selector, inner) == []
    requires Declarations(last) == last && NestedRules(selector, last) == []
    ensures var nodes := [Nested(own, inner)] + last;
      && Written([], selector, nodes) == Written([], selector, inner) + Written([], selector, last)
      && Listed([], Build(selector, nodes)) == ListedIn([], selector, last) + ListedIn([], selector, inner)
  {
    var nodes := [Nested(own, inner)] + last;
    assert nodes[1..] == last && Declarations(nodes) == last;
    LevelLists([], selector, nodes);
    LevelLists([], selector, inner);
    NodeLists([], selector, nodes[0]);
    ListedAppend([], RulesOf(selector, nodes[0]), NestedRules(selector, last));
    assert ListedIn([], selector, inner) + [] == ListedIn([], selector, inner);
    assert Listed([], Build(selector, inner)) + [] == Listed([], Build(selector, inner));
  }

  lemma OneDeclaration(selector: string, key: string, value: Scalar)
    ensures var nodes := [Declaration(key, value)];
      && Declarations(nodes) == nodes && NestedRules(selector, nodes) == []
      && Written([], selector, nodes) == [Placed([], selector, key, value)]
      && ListedIn([], selector, nodes) == [Placed([], selector, key, value)]
  {
    var nodes, p := [Declaration(key, value)], Placed([], selector, key, value);
    assert nodes[1..] == [];
    assert Written([], selector, nodes) == [p] + Written([], selector, []);
    assert ListedIn([], selector, nodes) == [p] + ListedIn([], selector, []);
  }
}
