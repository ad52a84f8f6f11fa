/**
 The two walkers that decide which JSX nodes are transformed where
 (native/vertz-compiler-core/src/jsx_transformer.rs): the top-level collector
 over a component, and the collector of nodes picked inline for one prop value.
 */
module JsxWalkers {
  import EditGluing

  datatype Kind = Jsx | Function | MapCall | Other

  datatype Span = Span(start: nat, end: nat)
  {
    predicate Contains(other: Span) {
      start <= other.start && other.end <= end
    }
  }

  /** A node of the syntax tree of a component body, with its children in source order. */
  datatype Node = Node(kind: Kind, span: Span, children: seq<Node>)

  // ---- the top-level collector ----

  /** Nodes collected below `n`; `inJsx` and `inList` are the collector's state on entry. */
  function Top(n: Node, inJsx: bool, inList: nat): seq<Span> {
    match n.kind
    case Jsx => (if inJsx then [] else [n.span]) + TopAll(n.children, true, inList)
    case Function => TopAll(n.children, inJsx && inList != 0, inList)
    case MapCall => TopAll(n.children, inJsx, if inJsx then inList + 1 else inList)
    case Other => TopAll(n.children, inJsx, inList)
  }

  function TopAll(ns: seq<Node>, inJsx: bool, inList: nat): seq<Span> {
    if ns == [] then [] else Top(ns[0], inJsx, inList) + TopAll(ns[1..], inJsx, inList)
  }

  class JsxCollector {
    var nodes: seq<Span>
    var inJsx: bool
    var inListCallback: nat

    constructor ()
      ensures nodes == [] && !inJsx && inListCallback == 0
    {
      nodes, inJsx, inListCallback := [], false, 0;
    }

    method Visit(n: Node)
      modifies this
      ensures nodes == old(nodes) + Top(n, old(inJsx), old(inListCallback))
      ensures inJsx == old(inJsx) && inListCallback == old(inListCallback)
      decreases n, 0
    {
      match n.kind {
        case Jsx =>
          if !inJsx {
            nodes := nodes + [n.span];
            var was := inJsx;
            inJsx := true;
            VisitAll(n.children);
            inJsx := was;
          } else {
            VisitAll(n.children);
          }
        case Function =>
          var was := inJsx;
          if inJsx && inListCallback == 0 {
            inJsx := false;
          }
          VisitAll(n.children);
          inJsx := was;
        case MapCall =>
          if inJsx {
            inListCallback := inListCallback + 1;
            VisitAll(n.children);
            inListCallback := inListCallback - 1;
          } else {
            VisitAll(n.children);
          }
        case Other =>
          VisitAll(n.children);
      }
    }

    method VisitAll(ns: seq<Node>)
      modifies this
      ensures nodes == old(nodes) + TopAll(ns, old(inJsx), old(inListCallback))
      ensures inJsx == old(inJsx) && inListCallback == old(inListCallback)
      decreases ns, 1
    {
      if ns != [] {
        Visit(ns[0]);
        VisitAll(ns[1..]);
      }
    }
  }

  // ---- the collector inside a prop value ----

  function Picked(n: Node, target: Span, depth: nat, inList: nat): seq<Span> {
    match n.kind
    case Jsx =>
      if depth == 0 && target.Contains(n.span) then [n.span] else PickedAll(n.children, target, depth, inList)
    case Function =>
      PickedAll(n.children, target, if inList == 0 && target.Contains(n.span) then depth + 1 else depth, inList)
    case MapCall => PickedAll(n.children, target, depth, inList + 1)
    case Other => PickedAll(n.children, target, depth, inList)
  }

  function PickedAll(ns: seq<Node>, target: Span, depth: nat, inList: nat): seq<Span> {
    if ns == [] then [] else Picked(ns[0], target, depth, inList) + PickedAll(ns[1..], target, depth, inList)
  }

  class JsxInSpanCollector {
    const target: Span
    var results: seq<Span>
    var functionDepth: nat
    var inListCallback: nat

    constructor (target: Span)
      ensures this.target == target && results == [] && functionDepth == 0 && inListCallback == 0
    {
      this.target := target;
      results, functionDepth, inListCallback := [], 0, 0;
    }

    method Visit(n: Node)
      modifies this
      ensures results == old(results) + Picked(n, target, old(functionDepth), old(inListCallback))
      ensures functionDepth == old(functionDepth) && inListCallback == old(inListCallback)
      decreases n, 0
    {
      match n.kind {
        case Jsx =>
          if functionDepth == 0 && target.Contains(n.span) {
            results := results + [n.span];
            return;
          }
          VisitAll(n.children);
        case Function =>
          var nested := inListCallback == 0 && target.Contains(n.span);
          if nested {
            functionDepth := functionDepth + 1;
          }
          VisitAll(n.children);
          if nested {
            functionDepth := functionDepth - 1;
          }
        case MapCall =>
          inListCallback := inListCallback + 1;
          VisitAll(n.children);
          inListCallback := inListCallback - 1;
        case Other =>
          VisitAll(n.children);
      }
    }

    method VisitAll(ns: seq<Node>)
      modifies this
      ensures results == old(results) + PickedAll(ns, target, old(functionDepth), old(inListCallback))
      ensures functionDepth == old(functionDepth) && inListCallback == old(inListCallback)
      decreases ns, 1
    {
      if ns != [] {
        Visit(ns[0]);
        VisitAll(ns[1..]);
      }
    }
  }

  // ---- well-formed trees ----

  /** Children lie in their parent, in order, without overlap; below JSX strictly inside its tags. */
  ghost predicate WellFormed(n: Node) {
    && n.span.start < n.span.end
    && AllWellFormed(n.children, if n.kind.Jsx? then n.span.start + 1 else n.span.start,
                     if n.kind.Jsx? then n.span.end - 1 else n.span.end)
  }

  ghost predicate AllWellFormed(ns: seq<Node>, lo: nat, hi: nat) {
    if ns == [] then lo <= hi + 1
    else
      && lo <= ns[0].span.start && WellFormed(ns[0]) && ns[0].span.end <= hi
      && AllWellFormed(ns[1..], ns[0].span.end, hi)
  }

  lemma {:induction false} ChildBounds(ns: seq<Node>, lo: nat, hi: nat, k: nat)
    requires AllWellFormed(ns, lo, hi) && k < |ns|
    ensures lo <= ns[k].span.start < ns[k].span.end <= hi && WellFormed(ns[k])
  {
    if k > 0 {
      ChildBounds(ns[1..], ns[0].span.end, hi, k - 1);
    }
  }

  /** Everything picked or collected lies in the node's own span. */
  lemma {:induction false} TopInside(n: Node, inJsx: bool, inList: nat, s: Span)
    requires WellFormed(n) && s in Top(n, inJsx, inList)
    ensures n.span.Contains(s) && s.start < s.end
    ensures n.kind.Jsx? && s in TopAll(n.children, true, inList) ==> n.span.start < s.start && s.end < n.span.end
    decreases n, 0
  {
    var jsx := n.kind.Jsx?;
    var lo, hi := if jsx then n.span.start + 1 else n.span.start, if jsx then n.span.end - 1 else n.span.end;
    match n.kind {
      case Jsx =>
        if s in TopAll(n.children, true, inList) {
          TopAllInside(n.children, lo, hi, true, inList, s);
        }
      case Function => TopAllInside(n.children, lo, hi, inJsx && inList != 0, inList, s);
      case MapCall => TopAllInside(n.children, lo, hi, inJsx, if inJsx then inList + 1 else inList, s);
      case Other => TopAllInside(n.children, lo, hi, inJsx, inList, s);
    }
  }

  lemma {:induction false} TopAllInside(ns: seq<Node>, lo: nat, hi: nat, inJsx: bool, inList: nat, s: Span)
    requires AllWellFormed(ns, lo, hi) && s in TopAll(ns, inJsx, inList)
    ensures lo <= s.start < s.end <= hi
    decreases ns, 1
  {
    if s in Top(ns[0], inJsx, inList) {
      TopInside(ns[0], inJsx, inList, s);
    } else {
      TopAllInside(ns[1..], ns[0].span.end, hi, inJsx, inList, s);
    }
  }

  lemma {:induction false} PickedInside(n: Node, target: Span, depth: nat, inList: nat, s: Span)
    requires WellFormed(n) && s in Picked(n, target, depth, inList)
    ensures n.span.Contains(s) && target.Contains(s) && s.start < s.end
    decreases n, 0
  {
    if !(n.kind.Jsx? && depth == 0 && target.Contains(n.span)) {
      var jsx := n.kind.Jsx?;
      var lo, hi := if jsx then n.span.start + 1 else n.span.start, if jsx then n.span.end - 1 else n.span.end;
      match n.kind {
        case Jsx => PickedAllInside(n.children, lo, hi, target, depth, inList, s);
        case Function =>
          PickedAllInside(n.children, lo, hi, target,
                          if inList == 0 && target.Contains(n.span) then depth + 1 else depth, inList, s);
        case MapCall => PickedAllInside(n.children, lo, hi, target, depth, inList + 1, s);
        case Other => PickedAllInside(n.children, lo, hi, target, depth, inList, s);
      }
    }
  }

  lemma {:induction false} PickedAllInside(ns: seq<Node>, lo: nat, hi: nat, target: Span, depth: nat, inList: nat,
                                           s: Span)
    requires AllWellFormed(ns, lo, hi) && s in PickedAll(ns, target, depth, inList)
    ensures lo <= s.start < s.end <= hi && target.Contains(s)
    decreases ns, 1
  {
    if s in Picked(ns[0], target, depth, inList) {
      PickedInside(ns[0], target, depth, inList, s);
    } else {
      PickedAllInside(ns[1..], ns[0].span.end, hi, target, depth, inList, s);
    }
  }

  // ---- from the component down to the prop value ----

  /** `p` is reached from `n` by the child indices of `path`. */
  ghost predicate Reaches(n: Node, path: seq<nat>, p: Node)
    decreases |path|
  {
    if path == [] then n == p else path[0] < |n.children| && Reaches(n.children[path[0]], path[1..], p)
  }

  /** The states of both walkers just before they visit the node at the end of a path. */
  datatype State = State(inJsx: bool, topList: nat, spanList: nat)

  function Enter(n: Node, st: State): State {
    match n.kind
    case Jsx => st.(inJsx := true)
    case Function => st.(inJsx := st.inJsx && st.topList != 0)
    case MapCall => st.(topList := if st.inJsx then st.topList + 1 else st.topList, spanList := st.spanList + 1)
    case Other => st
  }

  ghost function StateAt(n: Node, path: seq<nat>, st: State): State
    decreases |path|
  {
    if path == [] || path[0] >= |n.children| then st else StateAt(n.children[path[0]], path[1..], Enter(n, st))
  }

  /** The parent of the end of the path is JSX: the value of an attribute. */
  ghost predicate InAttribute(n: Node, path: seq<nat>)
    decreases |path|
  {
    && path != [] && path[0] < |n.children|
    && if |path| == 1 then n.kind.Jsx? else InAttribute(n.children[path[0]], path[1..])
  }

  /** Every `.map` around the end of the path was met while inside JSX. */
  ghost predicate MapsMetInJsx(n: Node, path: seq<nat>, st: State)
    decreases |path|
  {
    path == [] || path[0] >= |n.children|
    || ((n.kind.MapCall? ==> st.inJsx) && MapsMetInJsx(n.children[path[0]], path[1..], Enter(n, st)))
  }

  lemma {:induction false} ListsAgree(n: Node, path: seq<nat>, st: State)
    requires MapsMetInJsx(n, path, st) && st.topList == st.spanList
    ensures var end := StateAt(n, path, st); end.topList == end.spanList
    decreases |path|
  {
    if path != [] && path[0] < |n.children| {
      ListsAgree(n.children[path[0]], path[1..], Enter(n, st));
    }
  }

  lemma {:induction false} AttributeInJsx(n: Node, path: seq<nat>, st: State)
    requires InAttribute(n, path)
    ensures StateAt(n, path, st).inJsx
    decreases |path|
  {
    if |path| == 1 {
      assert path[1..] == [];
    } else {
      AttributeInJsx(n.children[path[0]], path[1..], Enter(n, st));
    }
  }

  lemma {:induction false} TargetInside(n: Node, path: seq<nat>, p: Node)
    requires WellFormed(n) && Reaches(n, path, p)
    ensures n.span.Contains(p.span) && WellFormed(p)
    ensures n.kind.Jsx? && path != [] ==> n.span.start < p.span.start && p.span.end < n.span.end
    decreases |path|
  {
    if path != [] {
      ChildrenBound(n, path[0]);
      TargetInside(n.children[path[0]], path[1..], p);
    }
  }

  lemma ChildrenBound(n: Node, k: nat)
    requires WellFormed(n) && k < |n.children|
    ensures n.span.Contains(n.children[k].span) && WellFormed(n.children[k])
    ensures n.kind.Jsx? ==> n.span.start < n.children[k].span.start && n.children[k].span.end < n.span.end
  {
    ChildBounds(n.children, if n.kind.Jsx? then n.span.start + 1 else n.span.start,
                if n.kind.Jsx? then n.span.end - 1 else n.span.end, k);
  }

  lemma {:induction false} StrictlyInside(n: Node, path: seq<nat>, p: Node)
    requires WellFormed(n) && Reaches(n, path, p) && InAttribute(n, path)
    ensures n.span.Contains(p.span) && n.span != p.span
    decreases |path|
  {
    ChildrenBound(n, path[0]);
    if |path| == 1 {
      assert path[1..] == [];
    } else {
      StrictlyInside(n.children[path[0]], path[1..], p);
    }
  }

  /** In a list only the child that contains the target picks anything inside it. */
  lemma {:induction false} PickedByChild(ns: seq<Node>, lo: nat, hi: nat, target: Span, depth: nat, inList: nat, k: nat,
                                         s: Span)
    requires AllWellFormed(ns, lo, hi) && k < |ns| && ns[k].span.Contains(target)
    ensures s in PickedAll(ns, target, depth, inList) <==> s in Picked(ns[k], target, depth, inList)
    decreases |ns|
  {
    if k == 0 {
      if s in PickedAll(ns[1..], target, depth, inList) {
        PickedAllInside(ns[1..], ns[0].span.end, hi, target, depth, inList, s);
      }
    } else {
      PickedByChild(ns[1..], ns[0].span.end, hi, target, depth, inList, k - 1, s);
      ChildBounds(ns[1..], ns[0].span.end, hi, k - 1);
      if s in Picked(ns[0], target, depth, inList) {
        PickedInside(ns[0], target, depth, inList, s);
      }
    }
  }

  /** The same for the top-level collector, for spans inside the target. */
  lemma {:induction false} CollectedByChild(ns: seq<Node>, lo: nat, hi: nat, target: Span, inJsx: bool, inList: nat,
                                            k: nat, s: Span)
    requires AllWellFormed(ns, lo, hi) && k < |ns| && ns[k].span.Contains(target) && target.Contains(s)
    ensures s in TopAll(ns, inJsx, inList) <==> s in Top(ns[k], inJsx, inList)
    decreases |ns|
  {
    if k == 0 {
      if s in TopAll(ns[1..], inJsx, inList) {
        TopAllInside(ns[1..], ns[0].span.end, hi, inJsx, inList, s);
      }
    } else {
      CollectedByChild(ns[1..], ns[0].span.end, hi, target, inJsx, inList, k - 1, s);
      ChildBounds(ns[1..], ns[0].span.end, hi, k - 1);
      if s in Top(ns[0], inJsx, inList) {
        TopInside(ns[0], inJsx, inList, s);
      }
    }
  }

  /** What a run over the whole component picks inside the value is what a run over the value picks. */
  lemma {:induction false} PickedBelow(n: Node, path: seq<nat>, p: Node, st: State, s: Span)
    requires WellFormed(n) && Reaches(n, path, p) && (path == [] || InAttribute(n, path))
    ensures s in Picked(n, p.span, 0, st.spanList) <==> s in Picked(p, p.span, 0, StateAt(n, path, st).spanList)
    decreases |path|
  {
    if path != [] {
      var child := n.children[path[0]];
      ChildrenBound(n, path[0]);
      StrictlyInside(n, path, p);
      TargetInside(child, path[1..], p);
      if |path| == 1 { assert path[1..] == []; }
      PickedByChild(n.children, if n.kind.Jsx? then n.span.start + 1 else n.span.start,
                    if n.kind.Jsx? then n.span.end - 1 else n.span.end, p.span, 0, Enter(n, st).spanList, path[0], s);
      PickedBelow(child, path[1..], p, Enter(n, st), s);
    }
  }

  lemma {:induction false} CollectedBelow(n: Node, path: seq<nat>, p: Node, st: State, s: Span)
    requires WellFormed(n) && Reaches(n, path, p) && (path == [] || InAttribute(n, path)) && p.span.Contains(s)
    ensures var end := StateAt(n, path, st); s in Top(n, st.inJsx, st.topList) <==> s in Top(p, end.inJsx, end.topList)
    decreases |path|
  {
    if path != [] {
      var child := n.children[path[0]];
      ChildrenBound(n, path[0]);
      StrictlyInside(n, path, p);
      TargetInside(child, path[1..], p);
      if |path| == 1 { assert path[1..] == []; }
      var next := Enter(n, st);
      CollectedByChild(n.children, if n.kind.Jsx? then n.span.start + 1 else n.span.start,
                       if n.kind.Jsx? then n.span.end - 1 else n.span.end,
                       p.span, next.inJsx, next.topList, path[0], s);
      CollectedBelow(child, path[1..], p, next, s);
    }
  }

  // ---- inside the prop value ----

  /** JSX nodes with no JSX node around them. */
  function Outermost(n: Node): seq<Span> {
    if n.kind.Jsx? then [n.span] else OutermostAll(n.children)
  }

  function OutermostAll(ns: seq<Node>): seq<Span> {
    if ns == [] then [] else Outermost(ns[0]) + OutermostAll(ns[1..])
  }

  /** Those reached without crossing a function, other than below a `.map`. */
  function Direct(n: Node, mapped: bool): seq<Span> {
    match n.kind
    case Jsx => [n.span]
    case Function => if mapped then DirectAll(n.children, mapped) else []
    case MapCall => DirectAll(n.children, true)
    case Other => DirectAll(n.children, mapped)
  }

  function DirectAll(ns: seq<Node>, mapped: bool): seq<Span> {
    if ns == [] then [] else Direct(ns[0], mapped) + DirectAll(ns[1..], mapped)
  }

  /** Those behind such a function. */
  function Behind(n: Node, mapped: bool): seq<Span> {
    match n.kind
    case Jsx => []
    case Function => if mapped then BehindAll(n.children, mapped) else OutermostAll(n.children)
    case MapCall => BehindAll(n.children, true)
    case Other => BehindAll(n.children, mapped)
  }

  function BehindAll(ns: seq<Node>, mapped: bool): seq<Span> {
    if ns == [] then [] else Behind(ns[0], mapped) + BehindAll(ns[1..], mapped)
  }

  lemma {:induction false} OutermostInside(n: Node, s: Span)
    requires WellFormed(n) && s in Outermost(n)
    ensures n.span.Contains(s) && s.start < s.end
    decreases n, 0
  {
    if !n.kind.Jsx? {
      OutermostAllInside(n.children, n.span.start, n.span.end, s);
    }
  }

  lemma {:induction false} OutermostAllInside(ns: seq<Node>, lo: nat, hi: nat, s: Span)
    requires AllWellFormed(ns, lo, hi) && s in OutermostAll(ns)
    ensures lo <= s.start < s.end <= hi
    decreases ns, 1
  {
    if s in Outermost(ns[0]) {
      OutermostInside(ns[0], s);
    } else {
      OutermostAllInside(ns[1..], ns[0].span.end, hi, s);
    }
  }

  /** Every outermost node is either direct or behind a function, never both. */
  lemma {:induction false} DirectOrBehind(n: Node, mapped: bool, s: Span)
    requires WellFormed(n)
    ensures s in Outermost(n) <==> s in Direct(n, mapped) || s in Behind(n, mapped)
    ensures !(s in Direct(n, mapped) && s in Behind(n, mapped))
    ensures mapped ==> s !in Behind(n, mapped)
    decreases n, 0
  {
    if !n.kind.Jsx? {
      AllDirectOrBehind(n.children, n.span.start, n.span.end, mapped || n.kind.MapCall?, s);
    }
  }

  lemma {:induction false} AllDirectOrBehind(ns: seq<Node>, lo: nat, hi: nat, mapped: bool, s: Span)
    requires AllWellFormed(ns, lo, hi)
    ensures s in OutermostAll(ns) <==> s in DirectAll(ns, mapped) || s in BehindAll(ns, mapped)
    ensures !(s in DirectAll(ns, mapped) && s in BehindAll(ns, mapped))
    ensures mapped ==> s !in BehindAll(ns, mapped)
    decreases ns, 1
  {
    if ns != [] {
      DirectOrBehind(ns[0], mapped, s);
      AllDirectOrBehind(ns[1..], ns[0].span.end, hi, mapped, s);
      if s in Outermost(ns[0]) && s in OutermostAll(ns[1..]) {
        OutermostInside(ns[0], s);
        OutermostAllInside(ns[1..], ns[0].span.end, hi, s);
      }
    }
  }

  /** Behind a counted function nothing is picked. */
  lemma {:induction false} NothingPicked(n: Node, target: Span, depth: nat, inList: nat)
    requires depth > 0
    ensures Picked(n, target, depth, inList) == []
    decreases n, 0
  {
    match n.kind {
      case Jsx => NonePicked(n.children, target, depth, inList);
      case Function =>
        NonePicked(n.children, target, if inList == 0 && target.Contains(n.span) then depth + 1 else depth, inList);
      case MapCall => NonePicked(n.children, target, depth, inList + 1);
      case Other => NonePicked(n.children, target, depth, inList);
    }
  }

  lemma {:induction false} NonePicked(ns: seq<Node>, target: Span, depth: nat, inList: nat)
    requires depth > 0
    ensures PickedAll(ns, target, depth, inList) == []
    decreases ns, 1
  {
    if ns != [] {
      NothingPicked(ns[0], target, depth, inList);
      NonePicked(ns[1..], target, depth, inList);
    }
  }

  /** Inside the value the inline collector picks exactly the direct nodes. */
  lemma {:induction false} PickedAreDirect(n: Node, target: Span, inList: nat)
    requires WellFormed(n) && target.Contains(n.span)
    ensures Picked(n, target, 0, inList) == Direct(n, inList != 0)
    decreases n, 0
  {
    if !n.kind.Jsx? {
      if n.kind.Function? && inList == 0 {
        NonePicked(n.children, target, 1, inList);
      } else {
        AllPickedAreDirect(n.children, n.span.start, n.span.end, target,
                           if n.kind.MapCall? then inList + 1 else inList);
      }
    }
  }

  lemma {:induction false} AllPickedAreDirect(ns: seq<Node>, lo: nat, hi: nat, target: Span, inList: nat)
    requires AllWellFormed(ns, lo, hi) && target.start <= lo && hi <= target.end
    ensures PickedAll(ns, target, 0, inList) == DirectAll(ns, inList != 0)
    decreases ns, 1
  {
    if ns != [] {
      PickedAreDirect(ns[0], target, inList);
      AllPickedAreDirect(ns[1..], ns[0].span.end, hi, target, inList);
    }
  }

  /** Of the outermost nodes of the value the top-level collector has exactly those behind a function. */
  lemma {:induction false} CollectedAreBehind(n: Node, inJsx: bool, inList: nat, s: Span)
    requires WellFormed(n) && s in Outermost(n)
    ensures s in Top(n, inJsx, inList) <==> !inJsx || s in Behind(n, inList != 0)
    decreases n, 0
  {
    if n.kind.Jsx? {
      if s in TopAll(n.children, true, inList) {
        TopAllInside(n.children, n.span.start + 1, n.span.end - 1, true, inList, s);
      }
    } else {
      var st := Enter(n, State(inJsx, inList, 0));
      AllCollectedAreBehind(n.children, n.span.start, n.span.end, st.inJsx, st.topList, s);
    }
  }

  lemma {:induction false} AllCollectedAreBehind(ns: seq<Node>, lo: nat, hi: nat, inJsx: bool, inList: nat, s: Span)
    requires AllWellFormed(ns, lo, hi) && s in OutermostAll(ns)
    ensures s in TopAll(ns, inJsx, inList) <==> !inJsx || s in BehindAll(ns, inList != 0)
    decreases ns, 1
  {
    var head, tail := ns[0], ns[1..];
    if s in Outermost(head) {
      CollectedAreBehind(head, inJsx, inList, s);
      OutermostInside(head, s);
      if s in TopAll(tail, inJsx, inList) {
        TopAllInside(tail, head.span.end, hi, inJsx, inList, s);
      }
      AllDirectOrBehind(tail, head.span.end, hi, inList != 0, s);
      if s in OutermostAll(tail) {
        OutermostAllInside(tail, head.span.end, hi, s);
      }
    } else {
      AllCollectedAreBehind(tail, head.span.end, hi, inJsx, inList, s);
      OutermostAllInside(tail, head.span.end, hi, s);
      if s in Top(head, inJsx, inList) {
        TopInside(head, inJsx, inList, s);
      }
      DirectOrBehind(head, inList != 0, s);
    }
  }

  // ---- exactly once ----

  function AllJsx(n: Node): seq<Span> {
    (if n.kind.Jsx? then [n.span] else []) + AllJsxIn(n.children)
  }

  function AllJsxIn(ns: seq<Node>): seq<Span> {
    if ns == [] then [] else AllJsx(ns[0]) + AllJsxIn(ns[1..])
  }

  /** Every JSX node lies in one outermost node. */
  lemma {:induction false} InOneOutermost(n: Node, s: Span) returns (o: Span)
    requires WellFormed(n) && s in AllJsx(n)
    ensures o in Outermost(n) && o.Contains(s) && s.start < s.end && n.span.Contains(s)
    ensures forall q :: q in Outermost(n) && q.Contains(s) ==> q == o
    decreases n, 0
  {
    if n.kind.Jsx? {
      o := n.span;
      if s in AllJsxIn(n.children) {
        var _ := AllInOneOutermost(n.children, n.span.start + 1, n.span.end - 1, s);
      }
    } else {
      o := AllInOneOutermost(n.children, n.span.start, n.span.end, s);
    }
  }

  lemma {:induction false} AllInOneOutermost(ns: seq<Node>, lo: nat, hi: nat, s: Span) returns (o: Span)
    requires AllWellFormed(ns, lo, hi) && s in AllJsxIn(ns)
    ensures o in OutermostAll(ns) && o.Contains(s) && lo <= s.start < s.end <= hi
    ensures forall q :: q in OutermostAll(ns) && q.Contains(s) ==> q == o
    decreases ns, 1
  {
    if s in AllJsx(ns[0]) {
      o := InOneOutermost(ns[0], s);
      forall q | q in OutermostAll(ns[1..]) ensures !q.Contains(s) {
        OutermostAllInside(ns[1..], ns[0].span.end, hi, q);
      }
    } else {
      o := AllInOneOutermost(ns[1..], ns[0].span.end, hi, s);
      forall q | q in Outermost(ns[0]) ensures !q.Contains(s) {
        OutermostInside(ns[0], q);
      }
    }
  }

  ghost predicate IsPropValue(body: Node, path: seq<nat>, value: Node) {
    WellFormed(body) && Reaches(body, path, value) && InAttribute(body, path)
  }

  /** Nodes picked inline for the value, and nodes collected for the component. */
  function Inline(body: Node, value: Node): seq<Span> {
    Picked(body, value.span, 0, 0)
  }

  function Collected(body: Node): seq<Span> {
    Top(body, false, 0)
  }

  lemma ValueStates(body: Node, path: seq<nat>, value: Node, s: Span)
    requires IsPropValue(body, path, value)
    ensures var end := StateAt(body, path, State(false, 0, 0));
      && WellFormed(value)
      && (s in Inline(body, value) <==> s in Direct(value, end.spanList != 0))
      && (s in Outermost(value) ==> (s in Collected(body) <==> s in Behind(value, end.topList != 0)))
  {
    var st := State(false, 0, 0);
    var end := StateAt(body, path, st);
    TargetInside(body, path, value);
    AttributeInJsx(body, path, st);
    PickedBelow(body, path, value, st, s);
    PickedAreDirect(value, value.span, end.spanList);
    if s in Outermost(value) {
      OutermostInside(value, s);
      CollectedBelow(body, path, value, st, s);
      CollectedAreBehind(value, true, end.topList, s);
    }
  }

  /**
   When every `.map` around a prop value was met inside JSX: each JSX node of
   the value lies in exactly one outermost node, that node is transformed by
   exactly one of the two walkers, and only such nodes are picked inline.
   */
  lemma TransformedExactlyOnce(body: Node, path: seq<nat>, value: Node, s: Span) returns (o: Span)
    requires IsPropValue(body, path, value) && MapsMetInJsx(body, path, State(false, 0, 0))
    requires s in AllJsx(value)
    ensures o in Outermost(value) && o.Contains(s)
    ensures forall q :: q in Outermost(value) && q.Contains(s) ==> q == o
    ensures (o in Inline(body, value)) != (o in Collected(body))
    ensures s in Inline(body, value) ==> s == o
  {
    var st := State(false, 0, 0);
    TargetInside(body, path, value);
    ListsAgree(body, path, st);
    o := InOneOutermost(value, s);
    var mapped := StateAt(body, path, st).spanList != 0;
    ValueStates(body, path, value, o);
    DirectOrBehind(value, mapped, o);
    if s in Inline(body, value) {
      ValueStates(body, path, value, s);
      DirectOrBehind(value, mapped, s);
    }
  }

  /** Some node is transformed by both walkers. */
  ghost predicate Doubled(body: Node, value: Node) {
    exists s :: s in Inline(body, value) && s in Collected(body)
  }

  lemma {:induction false} TopLists(n: Node, path: seq<nat>, st: State)
    requires st.topList <= st.spanList
    ensures var end := StateAt(n, path, st); end.topList <= end.spanList
    decreases |path|
  {
    if path != [] && path[0] < |n.children| {
      TopLists(n.children[path[0]], path[1..], Enter(n, st));
    }
  }

  /**
   Without that condition: a node is transformed twice exactly when the value
   stands below a `.map`, below none met inside JSX, and holds JSX behind a function.
   */
  lemma DoubledExactlyWhen(body: Node, path: seq<nat>, value: Node)
    requires IsPropValue(body, path, value)
    ensures var end := StateAt(body, path, State(false, 0, 0));
      Doubled(body, value) <==> end.spanList != 0 && end.topList == 0 && Behind(value, false) != []
  {
    var st := State(false, 0, 0);
    var end := StateAt(body, path, st);
    TopLists(body, path, st);
    TargetInside(body, path, value);
    if s :| s in Inline(body, value) && s in Collected(body) {
      ValueStates(body, path, value, s);
      DirectOrBehind(value, end.spanList != 0, s);
      DirectOrBehind(value, end.topList != 0, s);
    }
    if end.spanList != 0 && end.topList == 0 && Behind(value, false) != [] {
      var s := Behind(value, false)[0];
      DirectOrBehind(value, false, s);
      DirectOrBehind(value, true, s);
      ValueStates(body, path, value, s);
    }
  }

  // ---- picked nodes are in order ----

  ghost predicate InOrder(spans: seq<Span>, a: nat, b: nat) {
    if spans == [] then a <= b
    else a <= spans[0].start < spans[0].end && InOrder(spans[1..], spans[0].end, b)
  }

  lemma {:induction false} OrderAppend(x: seq<Span>, y: seq<Span>, a: nat, m: nat, b: nat)
    requires InOrder(x, a, m) && InOrder(y, m, b)
    ensures InOrder(x + y, a, b)
    decreases |x|
  {
    if x == [] {
      assert x + y == y;
      if y != [] {
        assert a <= y[0].start;
      }
    } else {
      assert (x + y)[1..] == x[1..] + y;
      OrderAppend(x[1..], y, x[0].end, m, b);
    }
  }

  lemma {:induction false} DirectInOrder(n: Node, mapped: bool)
    requires WellFormed(n)
    ensures InOrder(Direct(n, mapped), n.span.start, n.span.end)
    decreases n, 0
  {
    if n.kind.Jsx? {
      assert Direct(n, mapped)[1..] == [];
    } else {
      AllDirectInOrder(n.children, n.span.start, n.span.end, mapped || n.kind.MapCall?);
    }
  }

  lemma {:induction false} AllDirectInOrder(ns: seq<Node>, lo: nat, hi: nat, mapped: bool)
    requires AllWellFormed(ns, lo, hi) && lo <= hi
    ensures InOrder(DirectAll(ns, mapped), lo, hi)
    decreases ns, 1
  {
    if ns != [] {
      DirectInOrder(ns[0], mapped);
      AllDirectInOrder(ns[1..], ns[0].span.end, hi, mapped);
      Widen(Direct(ns[0], mapped), ns[0].span.start, lo, ns[0].span.end);
      OrderAppend(Direct(ns[0], mapped), DirectAll(ns[1..], mapped), lo, ns[0].span.end, hi);
    }
  }

  lemma Widen(spans: seq<Span>, a: nat, lo: nat, b: nat)
    requires InOrder(spans, a, b) && lo <= a
    ensures InOrder(spans, lo, b)
  {
  }

  function Place(spans: seq<Span>, texts: seq<string>): seq<EditGluing.Placed>
    requires |texts| == |spans|
  {
    if spans == [] then []
    else [EditGluing.Placed(spans[0].start, spans[0].end, texts[0])] + Place(spans[1..], texts[1..])
  }

  /** The nodes picked for a value are ready to be glued: in source order, apart, inside the value. */
  lemma {:induction false} PlacedInOrder(spans: seq<Span>, texts: seq<string>, a: nat, b: nat)
    requires InOrder(spans, a, b) && |texts| == |spans|
    ensures EditGluing.InOrder(Place(spans, texts), a, b)
    decreases |spans|
  {
    if spans != [] {
      PlacedInOrder(spans[1..], texts[1..], spans[0].end, b);
    }
  }

  lemma InlineReadyToGlue(value: Node, inList: nat, texts: seq<string>)
    requires WellFormed(value) && |texts| == |Picked(value, value.span, 0, inList)|
    ensures EditGluing.InOrder(Place(Picked(value, value.span, 0, inList), texts), value.span.start, value.span.end)
  {
    PickedAreDirect(value, value.span, inList);
    DirectInOrder(value, inList != 0);
    PlacedInOrder(Direct(value, inList != 0), texts, value.span.start, value.span.end);
  }
}
