/**
 Static `css()` calls: which style objects are extracted, and how a nested
 style tree becomes flat rules
 (native/vertz-compiler-core/src/css_transform.rs).
 */
module StyleTree {
  import opened Replacing

  // ---- the object literal in the source ----

  datatype Scalar = Text(text: string) | Number(id: nat)

  datatype Key = NamedKey(name: string) | OtherKey

  datatype Value =
    | Static(scalar: Scalar)
    | Object(props: seq<Prop>)
    | Dynamic

  datatype Prop = Property(key: Key, value: Value) | Spread

  predicate IsSelector(key: string) {
    key != "" && (key[0] == '&' || key[0] == '@')
  }

  /** `is_static_style_block`. */
  predicate IsStaticBlock(props: seq<Prop>) {
    props != [] && AllStatic(props)
  }

  predicate AllStatic(props: seq<Prop>) {
    props == [] || (IsStaticProp(props[0]) && AllStatic(props[1..]))
  }

  predicate IsStaticProp(prop: Prop) {
    && prop.Property? && prop.key.NamedKey?
    && if IsSelector(prop.key.name) then prop.value.Object? && prop.value.props != [] && AllStatic(prop.value.props)
       else prop.value.Static?
  }

  // ---- the extracted tree ----

  datatype Node = Declaration(key: string, value: Scalar) | Nested(selector: string, children: seq<Node>)

  function Extract(props: seq<Prop>): seq<Node> {
    if props == [] then [] else ExtractProp(props[0]) + Extract(props[1..])
  }

  function ExtractProp(prop: Prop): seq<Node> {
    if !prop.Property? || !prop.key.NamedKey? then []
    else if IsSelector(prop.key.name) then
      if prop.value.Object? then [Nested(prop.key.name, Extract(prop.value.props))] else []
    else if prop.value.Static? then [Declaration(prop.key.name, prop.value.scalar)] else []
  }

  /** Every property of the object at every depth, with the keys above it. */
  datatype Entry = Entry(path: seq<string>, key: Key, value: Value)

  function Scalars(props: seq<Prop>, path: seq<string>): seq<Entry> {
    if props == [] then [] else ScalarsOf(props[0], path) + Scalars(props[1..], path)
  }

  function ScalarsOf(prop: Prop, path: seq<string>): seq<Entry> {
    if prop.Spread? then [Entry(path, OtherKey, Dynamic)]
    else if prop.value.Object? && prop.key.NamedKey? then Scalars(prop.value.props, path + [prop.key.name])
    else [Entry(path, prop.key, prop.value)]
  }

  function Declared(nodes: seq<Node>, path: seq<string>): seq<Entry> {
    if nodes == [] then [] else DeclaredBy(nodes[0], path) + Declared(nodes[1..], path)
  }

  function DeclaredBy(node: Node, path: seq<string>): seq<Entry> {
    match node
    case Declaration(key, value) => [Entry(path, NamedKey(key), Static(value))]
    case Nested(selector, children) => Declared(children, path + [selector])
  }

  lemma {:induction false} DeclaredAppend(a: seq<Node>, b: seq<Node>, path: seq<string>)
    ensures Declared(a + b, path) == Declared(a, path) + Declared(b, path)
  {
    if a == [] {
      assert a + b == b;
    } else {
      assert (a + b)[1..] == a[1..] + b;
      DeclaredAppend(a[1..], b, path);
    }
  }

  /** A block judged static loses no property at any depth when extracted. */
  lemma {:induction false} ExtractLosesNothing(props: seq<Prop>, path: seq<string>)
    requires AllStatic(props)
    ensures Declared(Extract(props), path) == Scalars(props, path)
  {
    if props != [] {
      PropLosesNothing(props[0], path);
      ExtractLosesNothing(props[1..], path);
      DeclaredAppend(ExtractProp(props[0]), Extract(props[1..]), path);
    }
  }

  lemma {:induction false} PropLosesNothing(prop: Prop, path: seq<string>)
    requires IsStaticProp(prop)
    ensures Declared(ExtractProp(prop), path) == ScalarsOf(prop, path)
  {
    var nodes := ExtractProp(prop);
    assert nodes[1..] == [];
    if IsSelector(prop.key.name) {
      ExtractLosesNothing(prop.value.props, path + [prop.key.name]);
    }
    assert Declared(nodes, path) == DeclaredBy(nodes[0], path);
  }

  // ---- flattening ----

  /** A rule of the output: declarations under a selector, or rules under an at-rule. */
  datatype Rule = Plain(selector: string, declarations: seq<Node>) | AtRule(name: string, rules: seq<Rule>)

  predicate IsAt(selector: string) {
    selector != "" && selector[0] == '@'
  }

  function Declarations(nodes: seq<Node>): seq<Node> {
    if nodes == [] then []
    else (if nodes[0].Declaration? then [nodes[0]] else []) + Declarations(nodes[1..])
  }

  function NestedRules(selector: string, nodes: seq<Node>): seq<Rule>
    decreases nodes, 0
  {
    if nodes == [] then [] else RulesOf(selector, nodes[0]) + NestedRules(selector, nodes[1..])
  }

  function RulesOf(selector: string, node: Node): seq<Rule>
    decreases node, 2
  {
    match node
    case Declaration(_, _) => []
    case Nested(own, children) =>
      if IsAt(own) then
        var inner := Build(selector, children);
        if inner == [] then [] else [AtRule(own, inner)]
      else Build(Replace(own, '&', selector), children)
  }

  /** `build_style_block_rules`: a level's declarations in one rule, then the nested rules. */
  function Build(selector: string, nodes: seq<Node>): seq<Rule>
    decreases nodes, 1
  {
    (if Declarations(nodes) == [] then [] else [Plain(selector, Declarations(nodes))]) + NestedRules(selector, nodes)
  }

  lemma OneNode(selector: string, nodes: seq<Node>, i: nat, declarations: seq<Node>, nested: seq<Rule>)
    requires i < |nodes|
    ensures declarations + Declarations(nodes[i..])
         == (declarations + if nodes[i].Declaration? then [nodes[i]] else []) + Declarations(nodes[i + 1..])
    ensures nested + NestedRules(selector, nodes[i..])
         == (nested + RulesOf(selector, nodes[i])) + NestedRules(selector, nodes[i + 1..])
    ensures declarations + [] == declarations && nested + [] == nested
  {
    assert nodes[i..][0] == nodes[i] && nodes[i..][1..] == nodes[i + 1..];
  }

  /** The loop that fills both lists in one pass. */
  method BuildStyleBlockRules(selector: string, nodes: seq<Node>) returns (rules: seq<Rule>)
    ensures rules == Build(selector, nodes)
    decreases nodes
  {
    var declarations: seq<Node> := [];
    var nested: seq<Rule> := [];
    assert nodes[0..] == nodes;
    for i := 0 to |nodes|
      invariant declarations + Declarations(nodes[i..]) == Declarations(nodes)
      invariant nested + NestedRules(selector, nodes[i..]) == NestedRules(selector, nodes)
    {
      var node := nodes[i];
      OneNode(selector, nodes, i, declarations, nested);
      match node {
        case Declaration(_, _) =>
          declarations := declarations + [node];
        case Nested(own, children) =>
          if IsAt(own) {
            var inner := BuildStyleBlockRules(selector, children);
            if inner != [] {
              nested := nested + [AtRule(own, inner)];
            } else {
              assert nested + [] == nested;
            }
          } else {
            var inner := BuildStyleBlockRules(Replace(own, '&', selector), children);
            nested := nested + inner;
          }
      }
    }
    assert declarations + [] == declarations && nested + [] == nested;
    rules := (if declarations == [] then [] else [Plain(selector, declarations)]) + nested;
  }

  // ---- what the tree means ----

  /** A declaration under its stack of at-rules and its resolved selector. */
  datatype Placed = Placed(at: seq<string>, selector: string, key: string, value: Scalar)

  function Meaning(at: seq<string>, selector: string, nodes: seq<Node>): multiset<Placed>
    decreases nodes
  {
    if nodes == [] then multiset{} else MeaningOf(at, selector, nodes[0]) + Meaning(at, selector, nodes[1..])
  }

  function MeaningOf(at: seq<string>, selector: string, node: Node): multiset<Placed>
    decreases node
  {
    match node
    case Declaration(key, value) => multiset{Placed(at, selector, key, value)}
    case Nested(own, children) =>
      if IsAt(own) then Meaning(at + [own], selector, children)
      else Meaning(at, Replace(own, '&', selector), children)
  }

  function Output(at: seq<string>, rules: seq<Rule>): multiset<Placed>
    decreases rules
  {
    if rules == [] then multiset{} else OutputOf(at, rules[0]) + Output(at, rules[1..])
  }

  function OutputOf(at: seq<string>, rule: Rule): multiset<Placed>
    decreases rule
  {
    match rule
    case Plain(selector, declarations) => Meaning(at, selector, declarations)
    case AtRule(name, rules) => Output(at + [name], rules)
  }

  lemma {:induction false} OutputAppend(at: seq<string>, a: seq<Rule>, b: seq<Rule>)
    ensures Output(at, a + b) == Output(at, a) + Output(at, b)
  {
    if a == [] {
      assert a + b == b;
    } else {
      assert (a + b)[1..] == a[1..] + b;
      OutputAppend(at, a[1..], b);
    }
  }

  lemma OutputOne(at: seq<string>, rule: Rule)
    ensures Output(at, [rule]) == OutputOf(at, rule)
  {
    assert [rule][1..] == [];
  }

  /** Flattening conserves declarations: each comes out exactly once, under its own at-rules and selector. */
  lemma {:induction false} BuildConserves(at: seq<string>, selector: string, nodes: seq<Node>)
    ensures Output(at, Build(selector, nodes)) == Meaning(at, selector, nodes)
    decreases nodes, 1
  {
    var own := if Declarations(nodes) == [] then [] else [Plain(selector, Declarations(nodes))];
    OutputAppend(at, own, NestedRules(selector, nodes));
    if own != [] {
      OutputOne(at, own[0]);
    }
    assert Output(at, own) == Meaning(at, selector, Declarations(nodes));
    NestedConserve(at, selector, nodes);
  }

  lemma {:induction false} NestedConserve(at: seq<string>, selector: string, nodes: seq<Node>)
    ensures Meaning(at, selector, Declarations(nodes)) + Output(at, NestedRules(selector, nodes))
      == Meaning(at, selector, nodes)
    decreases nodes, 0
  {
    if nodes != [] {
      var head, tail := nodes[0], nodes[1..];
      NestedConserve(at, selector, tail);
      OutputAppend(at, RulesOf(selector, head), NestedRules(selector, tail));
      if head.Nested? {
        NodeConserves(at, selector, head);
      }
      OwnMeaning(at, selector, nodes);
    }
  }

  lemma OwnMeaning(at: seq<string>, selector: string, nodes: seq<Node>)
    requires nodes != []
    ensures Meaning(at, selector, Declarations(nodes))
      == (if nodes[0].Declaration? then MeaningOf(at, selector, nodes[0]) else multiset{})
       + Meaning(at, selector, Declarations(nodes[1..]))
  {
    if nodes[0].Declaration? {
      assert Declarations(nodes)[1..] == Declarations(nodes[1..]);
    } else {
      assert Declarations(nodes) == Declarations(nodes[1..]);
    }
  }

  lemma {:induction false} NodeConserves(at: seq<string>, selector: string, node: Node)
    requires node.Nested?
    ensures Output(at, RulesOf(selector, node)) == MeaningOf(at, selector, node)
    decreases node, 2
  {
    if IsAt(node.selector) {
      var inner := Build(selector, node.children);
      BuildConserves(at + [node.selector], selector, node.children);
      if inner != [] {
        OutputOne(at, AtRule(node.selector, inner));
      }
    } else {
      BuildConserves(at, Replace(node.selector, '&', selector), node.children);
    }
  }

  // ---- selectors ----

  predicate NoAmpersand(rules: seq<Rule>) {
    rules == [] || (NoAmpersandIn(rules[0]) && NoAmpersand(rules[1..]))
  }

  predicate NoAmpersandIn(rule: Rule) {
    match rule
    case Plain(selector, _) => '&' !in selector
    case AtRule(_, rules) => NoAmpersand(rules)
  }

  lemma {:induction false} NoAmpersandAppend(a: seq<Rule>, b: seq<Rule>)
    requires NoAmpersand(a) && NoAmpersand(b)
    ensures NoAmpersand(a + b)
  {
    if a == [] {
      assert a + b == b;
    } else {
      assert (a + b)[1..] == a[1..] + b;
      NoAmpersandAppend(a[1..], b);
    }
  }

  lemma {:induction false} AmpersandGone(s: string, selector: string)
    requires '&' !in selector
    ensures '&' !in Replace(s, '&', selector)
  {
    if s != "" {
      AmpersandGone(s[1..], selector);
    }
  }

  lemma UnderAtRule(name: string, rules: seq<Rule>)
    requires NoAmpersand(rules)
    ensures NoAmpersand([AtRule(name, rules)]) && NoAmpersand([])
  {
    assert [AtRule(name, rules)][1..] == [];
  }

  /** No `&` is left in any selector. */
  lemma {:induction false} SelectorsResolve(selector: string, nodes: seq<Node>)
    requires '&' !in selector
    ensures NoAmpersand(Build(selector, nodes))
    decreases nodes, 1
  {
    NestedResolve(selector, nodes);
    var own := if Declarations(nodes) == [] then [] else [Plain(selector, Declarations(nodes))];
    if own != [] {
      assert own[1..] == [];
      assert NoAmpersandIn(own[0]);
    }
    NoAmpersandAppend(own, NestedRules(selector, nodes));
  }

  lemma {:induction false} NestedResolve(selector: string, nodes: seq<Node>)
    requires '&' !in selector
    ensures NoAmpersand(NestedRules(selector, nodes))
    decreases nodes, 0
  {
    if nodes != [] {
      NestedResolve(selector, nodes[1..]);
      var head := nodes[0];
      if head.Nested? {
        if IsAt(head.selector) {
          SelectorsResolve(selector, head.children);
          UnderAtRule(head.selector, Build(selector, head.children));
        } else {
          AmpersandGone(head.selector, selector);
          SelectorsResolve(Replace(head.selector, '&', selector), head.children);
        }
      }
      NoAmpersandAppend(RulesOf(selector, head), NestedRules(selector, nodes[1..]));
    }
  }

  // ---- static blocks ----

  predicate AllNonEmpty(nodes: seq<Node>) {
    nodes == [] || ((nodes[0].Nested? ==> nodes[0].children != [] && AllNonEmpty(nodes[0].children))
      && AllNonEmpty(nodes[1..]))
  }

  lemma {:induction false} StaticNonEmpty(props: seq<Prop>)
    requires AllStatic(props)
    ensures AllNonEmpty(Extract(props)) && (props != [] ==> Extract(props) != [])
  {
    if props != [] {
      StaticNonEmpty(props[1..]);
      if props[0].value.Object? {
        assert props[0].value < props[0];
        StaticNonEmpty(props[0].value.props);
      }
      var head := ExtractProp(props[0]);
      assert head == [head[0]];
      assert Extract(props)[0] == head[0] && Extract(props)[1..] == Extract(props[1..]);
    }
  }

  lemma {:induction false} NonEmptyBuilds(selector: string, nodes: seq<Node>)
    requires AllNonEmpty(nodes) && nodes != []
    ensures Build(selector, nodes) != []
    decreases nodes
  {
    var head := nodes[0];
    if head.Nested? {
      NonEmptyBuilds(if IsAt(head.selector) then selector else Replace(head.selector, '&', selector), head.children);
      assert RulesOf(selector, head) != [];
      assert NestedRules(selector, nodes) != [];
    } else {
      assert Declarations(nodes) != [];
    }
  }

  /**
   A block judged static: every property at every depth is extracted, every
   declaration comes out exactly once in its place, no `&` is left, and there
   is at least one rule.
   */
  lemma StaticBlockFlattens(props: seq<Prop>, selector: string)
    requires IsStaticBlock(props) && '&' !in selector
    ensures var rules := Build(selector, Extract(props));
      && Declared(Extract(props), []) == Scalars(props, [])
      && Output([], rules) == Meaning([], selector, Extract(props))
      && NoAmpersand(rules) && rules != []
  {
    ExtractLosesNothing(props, []);
    BuildConserves([], selector, Extract(props));
    SelectorsResolve(selector, Extract(props));
    StaticNonEmpty(props);
    NonEmptyBuilds(selector, Extract(props));
  }

  // ---- class names ----

  const Two31 := 0x8000_0000
  const Two32 := 0x1_0000_0000

  /** Two's complement, 32 bits. */
  function Wrap(x: int): (r: int)
    ensures -Two31 <= r < Two31 && (r - x) % Two32 == 0
  {
    var m := x % Two32;
    if m < Two31 then m else m - Two32
  }

  /** The bytes as the coefficients of a polynomial in 33, after 5381. */
  function Polynomial(bytes: seq<bv8>): int {
    if bytes == [] then 5381 else 33 * Polynomial(bytes[..|bytes| - 1]) + bytes[|bytes| - 1] as int
  }

  predicate Same(a: int, b: int) {
    (a - b) % Two32 == 0
  }

  lemma SameRemainder(a: int, b: int)
    requires Same(a, b)
    ensures a % Two32 == b % Two32
  {
  }

  lemma Congruent(a: int, b: int, k: int)
    requires Same(a, b)
    ensures Same(33 * a + k, 33 * b + k)
  {
    var q := (a - b) / Two32;
    assert a - b == q * Two32;
    assert 33 * a + k - (33 * b + k) == (33 * q) * Two32;
  }

  lemma Chained(a: int, b: int, c: int)
    requires Same(a, b) && Same(b, c)
    ensures Same(a, c)
  {
  }

  lemma Moved(a: int, b: int, k: int)
    requires Same(a, b)
    ensures Same(a + k, b + k)
  {
    assert a + k - (b + k) == a - b;
  }

  lemma HashStep(h: int, p: int, b: int)
    requires Same(h, p)
    ensures Same(Wrap(Wrap(Wrap(h * 32) + h) + b), 33 * p + b)
  {
    var shifted := Wrap(h * 32);
    var doubled := Wrap(shifted + h);
    Moved(shifted, h * 32, h);
    Chained(doubled, shifted + h, h * 32 + h);
    Moved(doubled, h * 32 + h, b);
    Chained(Wrap(doubled + b), doubled + b, h * 32 + h + b);
    Congruent(h, p, b);
    Chained(Wrap(doubled + b), 33 * h + b, 33 * p + b);
  }

  /** `djb2_hash`: signed shifting and adding with wrap-around is the polynomial modulo 2^32. */
  method Djb2Hash(bytes: seq<bv8>) returns (hash: int)
    ensures hash == Polynomial(bytes) % Two32
  {
    var h: int := 5381;
    for i := 0 to |bytes|
      invariant Same(h, Polynomial(bytes[..i]))
    {
      assert bytes[..i + 1][..i] == bytes[..i];
      HashStep(h, Polynomial(bytes[..i]), bytes[i] as int);
      h := Wrap(Wrap(Wrap(h * 32) + h) + bytes[i] as int);
    }
    assert bytes[..|bytes|] == bytes;
    SameRemainder(h, Polynomial(bytes));
    hash := h % Two32;
  }
}
