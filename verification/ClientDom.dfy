/**
 Running the client program: a heap of DOM nodes as the server-side DOM shim
 keeps them (packages/ui-server/src/dom-shim/ssr-element.ts), the hydration
 cursor stack, and a log of everything done, in order.
 */
module ClientDom {
  import opened JsxSyntax
  import opened JsxWhitespace
  import opened ClientCompiler

  datatype Node =
    | ElementNode(tag: string, attrs: seq<(string, string)>, children: seq<nat>)
    | TextNode(text: string)
    | FragmentNode(children: seq<nat>)

  datatype Event =
    | Made(id: nat)
    | Did(id: nat, action: Action)
    | Entered(id: nat)
    | Exited
    | Attached(id: nat, child: nat)

  datatype Machine = Machine(heap: seq<Node>, cursor: seq<nat>, log: seq<Event>)

  type Env = map<nat, nat>

  // ---- string literals ----

  /** The value of a double-quoted literal. */
  function Unquote(q: string): Option<string> {
    if 2 <= |q| && q[0] == '"' && q[|q| - 1] == '"' then UnquoteBody(q[1..|q| - 1]) else None
  }

  function UnquoteBody(s: string): Option<string> {
    if s == "" then Some("")
    else if s[0] == '"' || s[0] == '\n' || s[0] == '\r' then None
    else if s[0] != '\\' then Prefix(s[0], UnquoteBody(s[1..]))
    else if |s| < 2 then None
    else match s[1]
      case '\\' => Prefix('\\', UnquoteBody(s[2..]))
      case '"' => Prefix('"', UnquoteBody(s[2..]))
      case 'n' => Prefix('\n', UnquoteBody(s[2..]))
      case 'r' => Prefix('\r', UnquoteBody(s[2..]))
      case 't' => Prefix('\t', UnquoteBody(s[2..]))
      case _ => None
  }

  function Prefix(c: char, r: Option<string>): Option<string> {
    if r.None? then None else Some([c] + r.value)
  }

  // ---- execution ----

  /** `setAttribute`: replaces in place, or adds at the end. */
  function SetAttr(attrs: seq<(string, string)>, name: string, value: string): seq<(string, string)> {
    if attrs == [] then [(name, value)]
    else if attrs[0].0 == name then [(name, value)] + attrs[1..]
    else [attrs[0]] + SetAttr(attrs[1..], name, value)
  }

  /** The shim maps `className` once more. */
  function DomName(name: string): string {
    if name == "className" then "class" else name
  }

  function Perform(node: Node, action: Action): Option<Node> {
    if !node.ElementNode? then None
    else match action
      case SetAttribute(nameQ, valueQ) =>
        var name, value := Unquote(nameQ), Unquote(valueQ);
        if name.None? || value.None? then None
        else Some(node.(attrs := SetAttr(node.attrs, DomName(name.value), value.value)))
      case _ => Some(node)
  }

  function AddChild(parent: Node, child: nat, heap: seq<Node>): Option<Node>
    requires child < |heap|
  {
    var added := if heap[child].FragmentNode? then heap[child].children else [child];
    match parent
    case ElementNode(_, _, children) => Some(parent.(children := children + added))
    case FragmentNode(children) => Some(parent.(children := children + added))
    case TextNode(_) => None
  }

  datatype Ran = Stuck | Ran(env: Env, m: Machine)

  datatype Valued = Failed | Valued(id: nat, m: Machine)

  function RunStmt(stmt: Stmt, env: Env, m: Machine): Ran
    decreases stmt
  {
    match stmt
    case CreateElement(v, tagQ) =>
      var tag := Unquote(tagQ);
      if tag.None? then Stuck
      else Ran(env[v := |m.heap|],
               m.(heap := m.heap + [ElementNode(tag.value, [], [])], log := m.log + [Made(|m.heap|)]))
    case CreateFragment(v) =>
      Ran(env[v := |m.heap|], m.(heap := m.heap + [FragmentNode([])], log := m.log + [Made(|m.heap|)]))
    case Act(v, action) =>
      if v !in env || env[v] >= |m.heap| then Stuck
      else
        var node := Perform(m.heap[env[v]], action);
        if node.None? then Stuck
        else Ran(env, m.(heap := m.heap[env[v] := node.value], log := m.log + [Did(env[v], action)]))
    case EnterChildren(v) =>
      if v !in env then Stuck else Ran(env, m.(cursor := m.cursor + [env[v]], log := m.log + [Entered(env[v])]))
    case ExitChildren =>
      if m.cursor == [] then Stuck else Ran(env, m.(cursor := m.cursor[..|m.cursor| - 1], log := m.log + [Exited]))
    case Append(parent, value) =>
      var r := RunValue(value, env, m);
      if r.Failed? || parent !in env || env[parent] >= |r.m.heap| || r.id >= |r.m.heap| then Stuck
      else
        var node := AddChild(r.m.heap[env[parent]], r.id, r.m.heap);
        if node.None? then Stuck
        else Ran(env, r.m.(heap := r.m.heap[env[parent] := node.value], log := r.m.log + [Attached(env[parent], r.id)]))
  }

  function RunStmts(stmts: seq<Stmt>, env: Env, m: Machine): Ran
    decreases stmts
  {
    if stmts == [] then Ran(env, m)
    else
      var first := RunStmt(stmts[0], env, m);
      if first.Stuck? then Stuck else RunStmts(stmts[1..], first.env, first.m)
  }

  function RunValue(value: Value, env: Env, m: Machine): Valued
    decreases value
  {
    match value
    case StaticText(q) =>
      var text := Unquote(q);
      if text.None? then Failed
      else Valued(|m.heap|, m.(heap := m.heap + [TextNode(text.value)], log := m.log + [Made(|m.heap|)]))
    case Iife(body, result) =>
      var r := RunStmts(body, env, m);
      if r.Stuck? || result !in r.env then Failed else Valued(r.env[result], r.m)
  }

  lemma {:induction false} RunAppend(a: seq<Stmt>, b: seq<Stmt>, env: Env, m: Machine)
    ensures RunStmts(a + b, env, m)
         == var r := RunStmts(a, env, m); if r.Stuck? then Stuck else RunStmts(b, r.env, r.m)
  {
    if a == [] {
      assert a + b == b;
    } else {
      assert (a + b)[1..] == a[1..] + b;
      var first := RunStmt(a[0], env, m);
      if first.Ran? {
        RunAppend(a[1..], b, first.env, first.m);
      }
    }
  }

  // ---- the tree a heap shows ----

  datatype Dom = DomElement(tag: string, attrs: seq<(string, string)>, children: seq<Dom>) | DomText(text: string)

  /** The node `id` is the root of `dom`, and all of it lies in `[lo, hi)`, children after their parent. */
  ghost predicate Shows(heap: seq<Node>, id: nat, dom: Dom, lo: nat, hi: nat)
    decreases dom
  {
    && lo <= id < hi <= |heap|
    && match dom
       case DomText(text) => heap[id] == TextNode(text)
       case DomElement(tag, attrs, children) =>
         && heap[id].ElementNode? && heap[id].tag == tag && heap[id].attrs == attrs
         && |heap[id].children| == |children|
         && forall i :: 0 <= i < |children| ==> Shows(heap, heap[id].children[i], children[i], id + 1, hi)
  }

  ghost predicate ShowsAll(heap: seq<Node>, ids: seq<nat>, doms: seq<Dom>, lo: nat, hi: nat) {
    |ids| == |doms| && forall i :: 0 <= i < |doms| ==> Shows(heap, ids[i], doms[i], lo, hi)
  }

  /** A heap shows one tree at a node. */
  lemma {:induction false} ShowsOneTree(heap: seq<Node>, id: nat, a: Dom, b: Dom, lo: nat, hi: nat)
    requires Shows(heap, id, a, lo, hi) && Shows(heap, id, b, lo, hi)
    ensures a == b
    decreases a
  {
    if a.DomElement? && b.DomElement? {
      forall i | 0 <= i < |a.children| ensures a.children[i] == b.children[i] {
        ShowsOneTree(heap, heap[id].children[i], a.children[i], b.children[i], id + 1, hi);
      }
      assert a.children == b.children;
    }
  }

  /** Nothing outside the range of a tree matters to it. */
  lemma {:induction false} ShowsFrame(h1: seq<Node>, h2: seq<Node>, id: nat, dom: Dom, lo: nat, hi: nat, lo2: nat,
                                      hi2: nat)
    requires Shows(h1, id, dom, lo, hi) && lo2 <= lo && hi <= hi2 <= |h2|
    requires forall k :: lo <= k < hi ==> h2[k] == h1[k]
    ensures Shows(h2, id, dom, lo2, hi2)
    decreases dom
  {
    if dom.DomElement? {
      forall i | 0 <= i < |dom.children| ensures Shows(h2, h2[id].children[i], dom.children[i], id + 1, hi2) {
        ShowsFrame(h1, h2, h1[id].children[i], dom.children[i], id + 1, hi, id + 1, hi2);
      }
    }
  }

  lemma ShowsAllFrame(h1: seq<Node>, h2: seq<Node>, ids: seq<nat>, doms: seq<Dom>, lo: nat, hi: nat, lo2: nat, hi2: nat)
    requires ShowsAll(h1, ids, doms, lo, hi) && lo2 <= lo && hi <= hi2 <= |h2| && hi <= |h1|
    requires forall k :: lo <= k < hi ==> h2[k] == h1[k]
    ensures ShowsAll(h2, ids, doms, lo2, hi2)
  {
    forall i | 0 <= i < |doms| ensures Shows(h2, ids[i], doms[i], lo2, hi2) {
      ShowsFrame(h1, h2, ids[i], doms[i], lo, hi, lo2, hi2);
    }
  }

  // ---- the tree a source element stands for ----

  /** The DOM attribute an attribute sets to a fixed value. */
  function FixedAttr(attr: Attr, tag: string): Option<(string, string)> {
    if !attr.Attr? || attr.name == "key" || attr.name == "innerHTML" then None
    else match attr.value
      case Quoted(text) =>
        var name := AttributeName(attr.name, tag);
        if IsIdlProperty(tag, name) then None else Some((name, text))
      case NoValue =>
        var name := if attr.name == "className" then "class" else attr.name;
        if IsIdlProperty(tag, name) then None else Some((name, ""))
      case _ => None
  }

  /** Fixed attributes in source order; a repeated name keeps its place and takes the later value. */
  function FixedAttrs(acc: seq<(string, string)>, attrs: seq<Attr>, tag: string): seq<(string, string)>
    decreases |attrs|
  {
    if attrs == [] then acc
    else
      var own := FixedAttr(attrs[0], tag);
      FixedAttrs(if own.None? then acc else SetAttr(acc, own.value.0, own.value.1), attrs[1..], tag)
  }

  function Tree(e: Element): Dom
    decreases e, 3
  {
    DomElement(e.tag, FixedAttrs([], e.attrs, e.tag), Forest(e.children))
  }

  /** Fragments dissolve into their parent; blank text disappears. */
  function Forest(children: seq<Child>): seq<Dom>
    decreases children, 2
  {
    if children == [] then [] else ChildTrees(children[0]) + Forest(children[1..])
  }

  function ChildTrees(child: Child): seq<Dom>
    decreases child, 4
  {
    match child
    case Text(raw) => if ClientClean(raw) == "" then [] else [DomText(ClientClean(raw))]
    case ElementChild(e) => [Tree(e)]
    case FragmentChild(children) => Forest(children)
    case Hole(_) => []
    case SpreadChild => []
  }
}
