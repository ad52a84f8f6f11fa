/**
 Renamings that bring out all a callback tracker could confuse, or none of it,
 and with them the exact condition under which no renaming changes what is
 recorded for a query variable.
 */
module FieldWitness {
  import opened JsxSyntax
  import opened FieldTracking
  import opened FieldRenaming
  import opened FieldConfusion

  // ---- new names ----

  function Larger(a: nat, b: nat): nat {
    if a < b then b else a
  }

  function LongestOf(names: seq<string>): nat {
    if names == [] then 0 else Larger(|names[0]|, LongestOf(names[1..]))
  }

  function LongestParam(p: Param): nat {
    match p
    case Simple(name) => |name|
    case Pattern(names) => LongestOf(names)
  }

  function LongestParams(ps: seq<Param>): nat {
    if ps == [] then 0 else Larger(LongestParam(ps[0]), LongestParams(ps[1..]))
  }

  function LongestKind(kind: Kind): nat {
    match kind
    case FunctionDecl(name, _) => |name|
    case FunctionExpr(own) => if own.Some? then |own.value| else 0
    case _ => 0
  }

  /** The length of the longest name in a piece of program. */
  function Longest(n: Node): nat
    decreases n, 0
  {
    match n
    case Name(name) => |name|
    case Member(obj, _) => Longest(obj)
    case Index(obj, index, _) => Larger(Longest(obj), Longest(index))
    case Call(callee, args) => Larger(Longest(callee), LongestAll(args))
    case Chain(inner) => Longest(inner)
    case Spread(argument) => Longest(argument)
    case Parts(_, parts) => LongestAll(parts)
    case Declare(param, _, inits) => Larger(LongestParam(param), LongestAll(inits))
    case Scope(kind, params, heads, body) =>
      Larger(Larger(LongestKind(kind), LongestParams(params)), Larger(LongestAll(heads), LongestAll(body)))
    case Other => 0
  }

  function LongestAll(ns: seq<Node>): nat
    decreases ns, 1
  {
    if ns == [] then 0 else Larger(Longest(ns[0]), LongestAll(ns[1..]))
  }

  lemma {:induction false} LongInNames(names: seq<string>, y: string)
    requires |y| > LongestOf(names)
    ensures y !in names
  {
    if names != [] {
      LongInNames(names[1..], y);
    }
  }

  lemma LongInParam(p: Param, y: string)
    requires |y| > LongestParam(p)
    ensures !ParamBinds(p, y)
  {
    if p.Pattern? {
      LongInNames(p.names, y);
    }
  }

  lemma {:induction false} LongInParams(ps: seq<Param>, y: string)
    requires |y| > LongestParams(ps)
    ensures !ParamsBind(ps, y)
  {
    if ps != [] {
      LongInParam(ps[0], y);
      LongInParams(ps[1..], y);
      forall i | 0 <= i < |ps| ensures !ParamBinds(ps[i], y) {
        if i > 0 {
          assert ps[i] == ps[1..][i - 1];
        }
      }
    }
  }

  lemma {:induction false} LongIsFresh(n: Node, y: string)
    requires |y| > Longest(n)
    ensures IsFresh(n, y)
    decreases n, 0
  {
    match n {
      case Member(obj, _) => LongIsFresh(obj, y);
      case Index(obj, index, _) =>
        LongIsFresh(obj, y);
        LongIsFresh(index, y);
      case Call(callee, args) =>
        LongIsFresh(callee, y);
        LongIsFreshAll(args, y);
      case Chain(inner) => LongIsFresh(inner, y);
      case Spread(argument) => LongIsFresh(argument, y);
      case Parts(_, parts) => LongIsFreshAll(parts, y);
      case Declare(param, _, inits) =>
        LongInParam(param, y);
        LongIsFreshAll(inits, y);
      case Scope(_, params, heads, body) =>
        LongInParams(params, y);
        LongIsFreshAll(heads, y);
        LongIsFreshAll(body, y);
      case _ =>
    }
  }

  lemma {:induction false} LongIsFreshAll(ns: seq<Node>, y: string)
    requires |y| > LongestAll(ns)
    ensures AllFresh(ns, y)
    decreases ns, 1
  {
    if ns != [] {
      LongIsFresh(ns[0], y);
      LongIsFreshAll(ns[1..], y);
    }
  }

  /** A name longer than any in `n` and than `size`. */
  function LongName(n: Node, size: nat): string {
    seq(Longest(n) + size + 1, i requires 0 <= i => 'z')
  }

  ghost predicate Fits(taken: set<string>, x: string, size: nat) {
    |x| <= size && forall t :: t in taken ==> |t| <= size
  }

  lemma {:induction false} SizeFor(taken: set<string>, x: string) returns (size: nat)
    ensures Fits(taken, x, size)
    decreases |taken|
  {
    if taken == {} {
      size := |x|;
    } else {
      var t :| t in taken;
      var less := SizeFor(taken - {t}, x);
      size := Larger(less, |t|);
    }
  }

  // ---- renaming inside a callback ----

  /** The scopes to rename: those that hide, or those that confuse. */
  predicate IsPicked(k: Node, hiding: bool, x: string, decl: nat)
    requires k.Scope?
  {
    IsRenamable(k, x, decl) && (if hiding then Hides(k, x) else Confuses(k, x, decl))
  }

  function RenameIf(k: Node, hiding: bool, x: string, decl: nat, size: nat): Node
    requires k.Scope?
  {
    if IsPicked(k, hiding, x, decl) then RenameScope(k, x, LongName(k, size)) else k
  }

  /** Every hiding, or every confusing scope that the callback tracker can come to, renamed from the inside out. */
  function Inside(n: Node, hiding: bool, x: string, decl: nat, size: nat): Node
    decreases n, 0
  {
    match n
    case Call(callee, args) => Call(Inside(callee, hiding, x, decl, size), InsideAll(args, hiding, x, decl, size))
    case Spread(argument) => Spread(Inside(argument, hiding, x, decl, size))
    case Parts(visible, parts) => Parts(visible, InsideAll(parts, hiding, x, decl, size))
    case Declare(param, span, inits) => Declare(param, span, InsideAll(inits, hiding, x, decl, size))
    case Scope(kind, params, heads, body) =>
      if IsFunction(n) then n
      else
        RenameIf(Scope(kind, params, InsideAll(heads, hiding, x, decl, size), InsideAll(body, hiding, x, decl, size)),
                 hiding, x, decl, size)
    case _ => n
  }

  function InsideAll(ns: seq<Node>, hiding: bool, x: string, decl: nat, size: nat): seq<Node>
    decreases ns, 1
  {
    if ns == [] then [] else [Inside(ns[0], hiding, x, decl, size)] + InsideAll(ns[1..], hiding, x, decl, size)
  }

  lemma {:induction false} SelfRenamed(n: Node, x: string, decl: nat, taken: set<string>)
    ensures Like(n, n, x, decl, taken) && Renamed(n, n, x, decl, taken)
    decreases n, 0
  {
    match n {
      case Member(obj, _) => SelfRenamed(obj, x, decl, taken);
      case Index(obj, index, _) =>
        SelfRenamed(obj, x, decl, taken);
        SelfRenamed(index, x, decl, taken);
      case Call(callee, args) =>
        SelfRenamed(callee, x, decl, taken);
        AllSelfRenamed(args, x, decl, taken);
      case Chain(inner) => SelfRenamed(inner, x, decl, taken);
      case Spread(argument) => SelfRenamed(argument, x, decl, taken);
      case Parts(_, parts) => AllSelfRenamed(parts, x, decl, taken);
      case Declare(_, _, inits) => AllSelfRenamed(inits, x, decl, taken);
      case Scope(_, _, heads, body) =>
        AllSelfRenamed(heads, x, decl, taken);
        AllSelfRenamed(body, x, decl, taken);
      case _ =>
    }
  }

  lemma {:induction false} AllSelfRenamed(ns: seq<Node>, x: string, decl: nat, taken: set<string>)
    ensures AllRenamed(ns, ns, x, decl, taken)
    decreases ns, 1
  {
    if ns != [] {
      SelfRenamed(ns[0], x, decl, taken);
      AllSelfRenamed(ns[1..], x, decl, taken);
    }
  }

  lemma RenameIfRenames(n: Node, k: Node, hiding: bool, x: string, decl: nat, size: nat, taken: set<string>)
    requires n.Scope? && Like(n, k, x, decl, taken) && Fits(taken, x, size)
    ensures Renamed(n, RenameIf(k, hiding, x, decl, size), x, decl, taken)
  {
    SameEntry(n, k, x, decl, taken);
    LongIsFresh(k, LongName(k, size));
    assert RenameIf(k, hiding, x, decl, size) == k
        || IsRenaming(k, RenameIf(k, hiding, x, decl, size), LongName(k, size), x, decl, taken);
  }

  lemma {:induction false} InsideRenames(n: Node, hiding: bool, x: string, decl: nat, size: nat, taken: set<string>)
    requires Fits(taken, x, size)
    ensures Renamed(n, Inside(n, hiding, x, decl, size), x, decl, taken)
    decreases n, 0
  {
    SelfRenamed(n, x, decl, taken);
    match n {
      case Call(callee, args) =>
        InsideRenames(callee, hiding, x, decl, size, taken);
        InsideAllRenames(args, hiding, x, decl, size, taken);
      case Spread(argument) => InsideRenames(argument, hiding, x, decl, size, taken);
      case Parts(_, parts) => InsideAllRenames(parts, hiding, x, decl, size, taken);
      case Declare(_, _, inits) => InsideAllRenames(inits, hiding, x, decl, size, taken);
      case Scope(kind, params, heads, body) =>
        if !IsFunction(n) {
          InsideAllRenames(heads, hiding, x, decl, size, taken);
          InsideAllRenames(body, hiding, x, decl, size, taken);
          RenameIfRenames(n, Inner(n, hiding, x, decl, size), hiding, x, decl, size, taken);
        }
      case _ =>
    }
  }

  /** A scope with everything inside it renamed, before the scope itself. */
  function Inner(n: Node, hiding: bool, x: string, decl: nat, size: nat): Node
    requires n.Scope?
  {
    Scope(n.kind, n.params, InsideAll(n.heads, hiding, x, decl, size), InsideAll(n.body, hiding, x, decl, size))
  }

  lemma {:induction false} InsideAllRenames(ns: seq<Node>, hiding: bool, x: string, decl: nat, size: nat,
                                            taken: set<string>)
    requires Fits(taken, x, size)
    ensures AllRenamed(ns, InsideAll(ns, hiding, x, decl, size), x, decl, taken)
    decreases ns, 1
  {
    if ns != [] {
      InsideRenames(ns[0], hiding, x, decl, size, taken);
      InsideAllRenames(ns[1..], hiding, x, decl, size, taken);
      assert InsideAll(ns, hiding, x, decl, size)[1..] == InsideAll(ns[1..], hiding, x, decl, size);
    }
  }

  // ---- substituting twice ----

  lemma {:induction false} TwiceIsOnce(n: Node, x: string, y: string, z: string)
    requires x != y
    ensures Substitute(Substitute(n, x, y), x, z) == Substitute(n, x, y)
    decreases n, 0
  {
    match n {
      case Member(obj, _) => TwiceIsOnce(obj, x, y, z);
      case Index(obj, index, _) =>
        TwiceIsOnce(obj, x, y, z);
        TwiceIsOnce(index, x, y, z);
      case Call(callee, args) =>
        TwiceIsOnce(callee, x, y, z);
        AllTwiceIsOnce(args, x, y, z);
      case Chain(inner) => TwiceIsOnce(inner, x, y, z);
      case Spread(argument) => TwiceIsOnce(argument, x, y, z);
      case Parts(_, parts) => AllTwiceIsOnce(parts, x, y, z);
      case Declare(_, _, inits) => AllTwiceIsOnce(inits, x, y, z);
      case Scope(_, _, heads, body) =>
        BindingStays(n, x, y, x, None);
        AllTwiceIsOnce(heads, x, y, z);
        AllTwiceIsOnce(body, x, y, z);
      case _ =>
    }
  }

  lemma {:induction false} AllTwiceIsOnce(ns: seq<Node>, x: string, y: string, z: string)
    requires x != y
    ensures SubstituteAll(SubstituteAll(ns, x, y), x, z) == SubstituteAll(ns, x, y)
    decreases ns, 1
  {
    if ns != [] {
      TwiceIsOnce(ns[0], x, y, z);
      AllTwiceIsOnce(ns[1..], x, y, z);
      assert SubstituteAll(ns, x, y)[1..] == SubstituteAll(ns[1..], x, y);
    }
  }

  lemma StmtTwice(n: Node, x: string, y: string, z: string)
    requires x != y
    ensures Substitute(RenameStmt(n, x, y), x, z) == RenameStmt(n, x, y)
  {
    match n {
      case Declare(_, _, inits) => AllTwiceIsOnce(inits, x, y, z);
      case Scope(FunctionDecl(name, span), params, heads, body) =>
        TwiceIsOnce(n, x, y, z);
        if name == x && !ParamsBind(params, x) && !BodyShadows(body, x, None) {
          AllTwiceIsOnce(heads, x, y, z);
          AllTwiceIsOnce(body, x, y, z);
          ShadowsStay(body, x, y, x, None);
        }
      case _ => TwiceIsOnce(n, x, y, z);
    }
  }

  lemma {:induction false} StmtsTwice(ns: seq<Node>, x: string, y: string, z: string)
    requires x != y
    ensures SubstituteAll(RenameStmts(ns, x, y), x, z) == RenameStmts(ns, x, y)
  {
    if ns != [] {
      StmtTwice(ns[0], x, y, z);
      StmtsTwice(ns[1..], x, y, z);
      assert RenameStmts(ns, x, y)[1..] == RenameStmts(ns[1..], x, y);
    }
  }

  /** Nothing is left to substitute in a renamed scope. */
  lemma ScopeTwice(n: Node, x: string, y: string, z: string)
    requires n.Scope? && x != y && (n.kind.FunctionDecl? ==> n.kind.name != x)
    ensures Substitute(RenameScope(n, x, y), x, z) == RenameScope(n, x, y)
  {
    NoLongerBinds(n, x, y, None);
    AllTwiceIsOnce(n.heads, x, y, z);
    StmtsTwice(n.body, x, y, z);
  }

  // ---- what the tracker reads after such a renaming ----

  function Shown(hiding: bool): Mode {
    if hiding then Most else Clear
  }

  /** What is still read of `x` where `x` is somebody else's. */
  function Leftover(n: Node, hiding: bool, x: string, decl: nat): Access {
    if hiding then Reads(n, x, decl, Confused) else Nothing
  }

  function LeftoverAll(ns: seq<Node>, hiding: bool, x: string, decl: nat): Access {
    if hiding then ReadsAll(ns, x, decl, Confused) else Nothing
  }

  function LeftoverIn(n: Node, hiding: bool, x: string, decl: nat): Access
    requires n.Scope?
  {
    if hiding then ReadsIn(n, x, decl, Confused) else Nothing
  }

  lemma InnerIsLike(n: Node, hiding: bool, x: string, decl: nat, size: nat)
    requires n.Scope? && |x| <= size
    ensures var k := Inner(n, hiding, x, decl, size);
      && Like(n, k, x, decl, {})
      && IsFunction(k) == IsFunction(n) && IsTry(k) == IsTry(n) && Hides(k, x) == Hides(n, x)
      && IsRenamable(k, x, decl) == IsRenamable(n, x, decl) && Confuses(k, x, decl) == Confuses(n, x, decl)
  {
    InsideAllRenames(n.heads, hiding, x, decl, size, {});
    InsideAllRenames(n.body, hiding, x, decl, size, {});
    SameEntry(n, Inner(n, hiding, x, decl, size), x, decl, {});
  }

  /** The tracker in a renamed scope whose inside has been renamed. */
  lemma {:induction false} RenamedInnerReads(n: Node, hiding: bool, x: string, decl: nat, size: nat, y: string)
    requires n.Scope? && IsRenamable(n, x, decl) && !IsFunction(n) && |x| <= size && y != x
    ensures ItemAccess(RenameScope(Inner(n, hiding, x, decl, size), x, y), x) == LeftoverIn(n, hiding, x, decl)
    decreases n, 0
  {
    var k := Inner(n, hiding, x, decl, size);
    var m := RenameScope(k, x, y);
    InnerIsLike(n, hiding, x, decl, size);
    NoLongerBinds(k, x, y, None);
    InsideAllSubstituted(n.heads, hiding, x, decl, size, y);
    InsideRenamed(n.body, hiding, x, decl, size, y);
    ScopeItems(m, x);
    assert !Hides(m, x) && IsTry(m) == IsTry(n);
  }

  lemma {:induction false} InsideSubstituted(n: Node, hiding: bool, x: string, decl: nat, size: nat, y: string)
    requires Lacks(n, decl) && |x| <= size && y != x
    ensures ItemAccess(Substitute(Inside(n, hiding, x, decl, size), x, y), x) == Leftover(n, hiding, x, decl)
    decreases n, 2
  {
    match n {
      case Member(_, _) => LeafSubstituted(n, x, y);
      case Index(_, _, _) => LeafSubstituted(n, x, y);
      case Call(callee, args) =>
        InsideSubstituted(callee, hiding, x, decl, size, y);
        InsideAllSubstituted(args, hiding, x, decl, size, y);
      case Spread(argument) => InsideSubstituted(argument, hiding, x, decl, size, y);
      case Parts(_, parts) => InsideAllSubstituted(parts, hiding, x, decl, size, y);
      case Declare(_, _, inits) => InsideAllSubstituted(inits, hiding, x, decl, size, y);
      case Scope(_, _, _, _) =>
        if IsFunction(n) {
          FunctionReadsNothing(n, x, y);
        } else {
          ScopeSubstituted(n, hiding, x, decl, size, y);
        }
      case _ =>
    }
  }

  lemma LeafSubstituted(n: Node, x: string, y: string)
    requires (n.Member? || n.Index?) && x != y
    ensures ItemAccess(Substitute(n, x, y), x) == Nothing
  {
    ChainSubstituted(n, x, y);
  }

  lemma FunctionReadsNothing(n: Node, x: string, y: string)
    requires n.Scope? && IsFunction(n)
    ensures ItemAccess(Substitute(n, x, y), x) == Nothing
  {
  }

  lemma {:induction false} ScopeSubstituted(n: Node, hiding: bool, x: string, decl: nat, size: nat, y: string)
    requires n.Scope? && !IsFunction(n) && Lacks(n, decl) && |x| <= size && y != x
    ensures ItemAccess(Substitute(Inside(n, hiding, x, decl, size), x, y), x) == Leftover(n, hiding, x, decl)
    decreases n, 1
  {
    var k := Inner(n, hiding, x, decl, size);
    var m := Inside(n, hiding, x, decl, size);
    InnerIsLike(n, hiding, x, decl, size);
    SameBinding(n, x, decl);
    LikeLacks(n, k, x, decl, {});
    SameBinding(k, x, decl);
    if IsPicked(k, hiding, x, decl) {
      ScopeTwice(k, x, LongName(k, size), y);
      RenamedInnerReads(n, hiding, x, decl, size, LongName(k, size));
    } else if Binds(k, x, None) {
      BoundUnpicked(n, k, hiding, x, decl);
      ScopeItems(k, x);
      InsideAllReads(n.heads, hiding, x, decl, size);
      InsideAllReads(n.body, hiding, x, decl, size);
      assert m == k && Substitute(k, x, y) == k;
      assert hiding ==> PlainIn(k, x) == ReadsIn(n, x, decl, Most);
    } else {
      BindingStays(k, x, y, x, None);
      InsideAllSubstituted(n.heads, hiding, x, decl, size, y);
      InsideAllSubstituted(n.body, hiding, x, decl, size, y);
      assert !Hides(n, x) && !Confuses(n, x, decl) && !Hides(k, x);
      UnboundSubstituted(k, x, y);
      assert m == k;
      assert Reads(n, x, decl, Confused) == ReadsIn(n, x, decl, Confused);
      assert ItemAccess(Substitute(m, x, y), x)
          == Join(if IsTry(n) then Nothing else LeftoverAll(n.heads, hiding, x, decl),
                  LeftoverAll(n.body, hiding, x, decl));
      assert hiding ==> ItemAccess(Substitute(m, x, y), x) == ReadsIn(n, x, decl, Confused);
      assert !hiding ==> ItemAccess(Substitute(m, x, y), x) == Nothing;
    }
  }

  /** A scope that binds `x` and is not picked is one of the other sort. */
  lemma BoundUnpicked(n: Node, k: Node, hiding: bool, x: string, decl: nat)
    requires n.Scope? && k.Scope? && !IsFunction(k) && Binds(k, x, None) && Binds(k, x, Some(decl)) && Lacks(k, decl)
    requires Hides(k, x) == Hides(n, x) && Confuses(k, x, decl) == Confuses(n, x, decl)
      && IsFunction(n) == IsFunction(k)
    requires !IsPicked(k, hiding, x, decl)
    ensures hiding != Hides(n, x) && hiding == Confuses(n, x, decl)
    ensures hiding ==> Reads(n, x, decl, Confused) == ReadsIn(n, x, decl, Most)
  {
  }

  lemma UnboundSubstituted(k: Node, x: string, y: string)
    requires k.Scope? && !IsFunction(k) && !Binds(k, x, None)
    ensures ItemAccess(Substitute(k, x, y), x)
         == Join(if IsTry(k) then Nothing else ItemAccessAll(SubstituteAll(k.heads, x, y), x),
                 ItemAccessAll(SubstituteAll(k.body, x, y), x))
  {
    var m := Substitute(k, x, y);
    BindingStays(k, x, y, x, None);
    ScopeItems(m, x);
    assert !Hides(m, x);
  }

  lemma {:induction false} InsideAllSubstituted(ns: seq<Node>, hiding: bool, x: string, decl: nat, size: nat, y: string)
    requires AllLack(ns, decl) && |x| <= size && y != x
    ensures ItemAccessAll(SubstituteAll(InsideAll(ns, hiding, x, decl, size), x, y), x)
      == LeftoverAll(ns, hiding, x, decl)
    decreases ns, 4
  {
    if ns != [] {
      InsideSubstituted(ns[0], hiding, x, decl, size, y);
      InsideAllSubstituted(ns[1..], hiding, x, decl, size, y);
      var all := InsideAll(ns, hiding, x, decl, size);
      assert all[1..] == InsideAll(ns[1..], hiding, x, decl, size);
      assert SubstituteAll(all, x, y)[1..] == SubstituteAll(all[1..], x, y);
    }
  }

  lemma {:induction false} InsideRenamed(ns: seq<Node>, hiding: bool, x: string, decl: nat, size: nat, y: string)
    requires AllLack(ns, decl) && |x| <= size && y != x
    ensures ItemAccessAll(RenameStmts(InsideAll(ns, hiding, x, decl, size), x, y), x)
      == LeftoverAll(ns, hiding, x, decl)
    decreases ns, 4
  {
    if ns != [] {
      InsideRenamed(ns[1..], hiding, x, decl, size, y);
      var all := InsideAll(ns, hiding, x, decl, size);
      assert all[1..] == InsideAll(ns[1..], hiding, x, decl, size);
      assert RenameStmts(all, x, y)[1..] == RenameStmts(all[1..], x, y);
      InsideStmtRenamed(ns[0], hiding, x, decl, size, y);
    }
  }

  lemma {:induction false} InsideStmtRenamed(n: Node, hiding: bool, x: string, decl: nat, size: nat, y: string)
    requires Lacks(n, decl) && |x| <= size && y != x
    ensures ItemAccess(RenameStmt(Inside(n, hiding, x, decl, size), x, y), x) == Leftover(n, hiding, x, decl)
    decreases n, 3
  {
    match n {
      case Declare(_, _, inits) => InsideAllSubstituted(inits, hiding, x, decl, size, y);
      case Scope(FunctionDecl(_, _), _, _, _) =>
      case Scope(_, _, _, _) =>
        assert !Inside(n, hiding, x, decl, size).kind.FunctionDecl?;
        InsideSubstituted(n, hiding, x, decl, size, y);
      case _ => InsideSubstituted(n, hiding, x, decl, size, y);
    }
  }

  /** After the renaming the tracker reads what the mode says. */
  lemma {:induction false} InsideReads(n: Node, hiding: bool, x: string, decl: nat, size: nat)
    requires |x| <= size
    ensures ItemAccess(Inside(n, hiding, x, decl, size), x) == Reads(n, x, decl, Shown(hiding))
    decreases n, 2
  {
    match n {
      case Call(callee, args) =>
        InsideReads(callee, hiding, x, decl, size);
        InsideAllReads(args, hiding, x, decl, size);
      case Spread(argument) =>
        InsideReads(argument, hiding, x, decl, size);
        assert Inside(argument, hiding, x, decl, size) == Name(x) <==> argument == Name(x);
      case Parts(_, parts) => InsideAllReads(parts, hiding, x, decl, size);
      case Declare(_, _, inits) => InsideAllReads(inits, hiding, x, decl, size);
      case Scope(_, _, _, _) => ScopeInsideReads(n, hiding, x, decl, size);
      case _ =>
    }
  }

  lemma {:induction false} ScopeInsideReads(n: Node, hiding: bool, x: string, decl: nat, size: nat)
    requires n.Scope? && |x| <= size
    ensures ItemAccess(Inside(n, hiding, x, decl, size), x) == Reads(n, x, decl, Shown(hiding))
    decreases n, 1
  {
    ScopeItems(n, x);
    if !IsFunction(n) {
      var k := Inner(n, hiding, x, decl, size);
      var m := Inside(n, hiding, x, decl, size);
      InnerIsLike(n, hiding, x, decl, size);
      if IsPicked(k, hiding, x, decl) {
        RenamedInnerReads(n, hiding, x, decl, size, LongName(k, size));
      } else {
        ScopeItems(k, x);
        InsideAllReads(n.heads, hiding, x, decl, size);
        InsideAllReads(n.body, hiding, x, decl, size);
      }
    }
  }

  lemma {:induction false} InsideAllReads(ns: seq<Node>, hiding: bool, x: string, decl: nat, size: nat)
    requires |x| <= size
    ensures ItemAccessAll(InsideAll(ns, hiding, x, decl, size), x) == ReadsAll(ns, x, decl, Shown(hiding))
    decreases ns, 4
  {
    if ns != [] {
      InsideReads(ns[0], hiding, x, decl, size);
      InsideAllReads(ns[1..], hiding, x, decl, size);
      assert InsideAll(ns, hiding, x, decl, size)[1..] == InsideAll(ns[1..], hiding, x, decl, size);
    }
  }

  // ---- renaming throughout a program ----

  /** Does the call run a callback over the query's items, with a parameter of the query's own name? */
  predicate IsNamesake(callee: Node, args: seq<Node>, x: string) {
    ItemCallback(callee, args, x).Some? && ItemCallback(callee, args, x).value.1 == x
  }

  function WithinBody(args: seq<Node>, hiding: bool, x: string, decl: nat, size: nat): seq<Node>
    requires args != [] && args[0].Scope?
  {
    var a := args[0];
    [Scope(a.kind, a.params, a.heads, InsideAll(a.body, hiding, x, decl, size))] + args[1..]
  }

  /** The renaming above, in every such callback the tracker of `x` comes to. */
  function Everywhere(n: Node, hiding: bool, x: string, decl: nat, size: nat): Node
    decreases n, 0
  {
    match n
    case Call(callee, args) =>
      if IsNamesake(callee, args, x) then Call(callee, WithinBody(args, hiding, x, decl, size))
      else if ItemCallback(callee, args, x).Some? then n
      else Call(Everywhere(callee, hiding, x, decl, size), EverywhereAll(args, hiding, x, decl, size))
    case Chain(Call(callee, args)) =>
      if IsNamesake(callee, args, x) then Chain(Call(callee, WithinBody(args, hiding, x, decl, size)))
      else if ItemCallback(callee, args, x).Some? then n
      else Chain(Call(Everywhere(callee, hiding, x, decl, size), EverywhereAll(args, hiding, x, decl, size)))
    case Chain(Member(obj, prop)) => Chain(Member(Everywhere(obj, hiding, x, decl, size), prop))
    case Parts(visible, parts) => if visible then Parts(visible, EverywhereAll(parts, hiding, x, decl, size)) else n
    case Declare(param, span, inits) => Declare(param, span, EverywhereAll(inits, hiding, x, decl, size))
    case Scope(kind, params, heads, body) =>
      if Binds(n, x, Some(decl)) then n
      else
        Scope(kind, params, EverywhereAll(heads, hiding, x, decl, size),
              if ItemLoop(n, x).Some? then body else EverywhereAll(body, hiding, x, decl, size))
    case _ => n
  }

  function EverywhereAll(ns: seq<Node>, hiding: bool, x: string, decl: nat, size: nat): seq<Node>
    decreases ns, 1
  {
    if ns == [] then [] else [Everywhere(ns[0], hiding, x, decl, size)] + EverywhereAll(ns[1..], hiding, x, decl, size)
  }

  lemma BodyRenames(args: seq<Node>, hiding: bool, x: string, decl: nat, size: nat, taken: set<string>)
    requires args != [] && args[0].Scope? && Fits(taken, x, size)
    ensures AllRenamed(args, WithinBody(args, hiding, x, decl, size), x, decl, taken)
  {
    var more := WithinBody(args, hiding, x, decl, size);
    AllSelfRenamed(args[0].heads, x, decl, taken);
    InsideAllRenames(args[0].body, hiding, x, decl, size, taken);
    AllSelfRenamed(args[1..], x, decl, taken);
    assert Like(args[0], more[0], x, decl, taken) && more[1..] == args[1..];
  }

  lemma {:induction false} EverywhereRenames(n: Node, hiding: bool, x: string, decl: nat, size: nat, taken: set<string>)
    requires Fits(taken, x, size)
    ensures Renamed(n, Everywhere(n, hiding, x, decl, size), x, decl, taken)
    decreases n, 1
  {
    SelfRenamed(n, x, decl, taken);
    match n {
      case Call(callee, args) => CallRenames(callee, args, hiding, x, decl, size, taken);
      case Chain(Call(callee, args)) => CallRenames(callee, args, hiding, x, decl, size, taken);
      case Chain(Member(obj, prop)) =>
        EverywhereRenames(obj, hiding, x, decl, size, taken);
        assert Like(Member(obj, prop), Member(Everywhere(obj, hiding, x, decl, size), prop), x, decl, taken);
      case Parts(_, parts) => EverywhereAllRenames(parts, hiding, x, decl, size, taken);
      case Declare(_, _, inits) => EverywhereAllRenames(inits, hiding, x, decl, size, taken);
      case Scope(_, _, heads, body) =>
        EverywhereAllRenames(heads, hiding, x, decl, size, taken);
        EverywhereAllRenames(body, hiding, x, decl, size, taken);
        AllSelfRenamed(body, x, decl, taken);
      case _ =>
    }
  }

  lemma {:induction false} CallRenames(callee: Node, args: seq<Node>, hiding: bool, x: string, decl: nat, size: nat,
                                       taken: set<string>)
    requires Fits(taken, x, size)
    ensures Renamed(Call(callee, args), Everywhere(Call(callee, args), hiding, x, decl, size), x, decl, taken)
    ensures Renamed(Chain(Call(callee, args)), Everywhere(Chain(Call(callee, args)), hiding, x, decl, size), x, decl,
                    taken)
    decreases Call(callee, args), 0
  {
    SelfRenamed(callee, x, decl, taken);
    AllSelfRenamed(args, x, decl, taken);
    if IsNamesake(callee, args, x) {
      BodyRenames(args, hiding, x, decl, size, taken);
    } else if ItemCallback(callee, args, x).None? {
      EverywhereRenames(callee, hiding, x, decl, size, taken);
      EverywhereAllRenames(args, hiding, x, decl, size, taken);
    }
    var n, m := Call(callee, args), Everywhere(Call(callee, args), hiding, x, decl, size);
    assert Like(n, m, x, decl, taken);
    assert Everywhere(Chain(n), hiding, x, decl, size) == Chain(m);
    assert Like(Chain(n), Chain(m), x, decl, taken);
  }

  lemma {:induction false} EverywhereAllRenames(ns: seq<Node>, hiding: bool, x: string, decl: nat, size: nat,
                                                taken: set<string>)
    requires Fits(taken, x, size)
    ensures AllRenamed(ns, EverywhereAll(ns, hiding, x, decl, size), x, decl, taken)
    decreases ns, 2
  {
    if ns != [] {
      EverywhereRenames(ns[0], hiding, x, decl, size, taken);
      EverywhereAllRenames(ns[1..], hiding, x, decl, size, taken);
      assert EverywhereAll(ns, hiding, x, decl, size)[1..] == EverywhereAll(ns[1..], hiding, x, decl, size);
    }
  }

  lemma SameItemCall(callee: Node, args: seq<Node>, callee2: Node, args2: seq<Node>, x: string, decl: nat)
    requires Renamed(callee, callee2, x, decl, {}) && AllRenamed(args, args2, x, decl, {})
    ensures ItemCallback(callee, args, x).None? ==> ItemCallback(callee2, args2, x).None?
  {
    OnlyInside(callee, callee2, x, decl, {});
    if callee.Member? && args != [] && ItemIndex(callee.prop).Some? {
      ChainKept(callee.obj, callee2.obj, x, decl, {});
      SameParam(args[0], args2[0], x, decl, ItemIndex(callee.prop).value);
    }
  }

  lemma SameParam(n: Node, m: Node, x: string, decl: nat, index: nat)
    requires Renamed(n, m, x, decl, {})
    ensures CallbackParam(m, index).Some? <==> CallbackParam(n, index).Some?
  {
    OnlyInside(n, m, x, decl, {});
    if !Like(n, m, x, decl, {}) {
      var k, y :| Like(n, k, x, decl, {}) && IsRenaming(k, m, y, x, decl, {});
    }
  }

  lemma NamesakeReads(callee: Node, args: seq<Node>, hiding: bool, x: string, decl: nat, size: nat)
    requires IsNamesake(callee, args, x) && |x| <= size
    ensures var more := WithinBody(args, hiding, x, decl, size);
      && ItemCallback(callee, more, x) == ItemCallback(callee, args, x)
      && ItemAccessAll(more[0].body, x) == ReadsAll(args[0].body, x, decl, Shown(hiding))
  {
    InsideAllReads(args[0].body, hiding, x, decl, size);
  }

  /** The record of the renamed program is the one its mode says. */
  lemma {:induction false} EverywhereTracks(n: Node, hiding: bool, x: string, decl: nat, size: nat)
    requires |x| <= size
    ensures Track(Everywhere(n, hiding, x, decl, size), x, decl) == TrackWith(n, x, decl, By(Shown(hiding)))
    decreases n, 1
  {
    match n {
      case Call(callee, args) => CallTracks(callee, args, hiding, x, decl, size);
      case Chain(Call(callee, args)) => CallTracks(callee, args, hiding, x, decl, size);
      case Chain(Member(obj, _)) =>
        EverywhereTracks(obj, hiding, x, decl, size);
        EverywhereRenames(n, hiding, x, decl, size, {});
        ChainKept(n, Everywhere(n, hiding, x, decl, size), x, decl, {});
      case Parts(_, parts) => EverywhereAllTracks(parts, hiding, x, decl, size);
      case Declare(_, _, inits) => EverywhereAllTracks(inits, hiding, x, decl, size);
      case Scope(_, _, _, _) => ScopeTracks(n, hiding, x, decl, size);
      case _ =>
    }
  }

  ghost predicate Agree(n: Node, m: Node, x: string, decl: nat, items: Items) {
    Track(m, x, decl) == TrackWith(n, x, decl, items)
  }

  ghost predicate AgreeAll(ns: seq<Node>, ms: seq<Node>, x: string, decl: nat, items: Items) {
    TrackAll(ms, x, decl) == TrackAllWith(ns, x, decl, items)
  }

  /** A call that runs no callback over the items. */
  lemma PlainCallAgrees(callee: Node, args: seq<Node>, callee2: Node, args2: seq<Node>, x: string, decl: nat,
                        items: Items)
    requires ItemCallback(callee, args, x).None? && ItemCallback(callee2, args2, x).None?
    requires SomeEscapes(args2, x) == SomeEscapes(args, x)
    requires Agree(callee, callee2, x, decl, items) && AgreeAll(args, args2, x, decl, items)
    ensures Agree(Call(callee, args), Call(callee2, args2), x, decl, items)
    ensures Agree(Chain(Call(callee, args)), Chain(Call(callee2, args2)), x, decl, items)
  {
  }

  lemma ItemCallAgrees(callee: Node, args: seq<Node>, args2: seq<Node>, x: string, decl: nat, items: Items)
    requires ItemCallback(callee, args, x).Some? && ItemCallback(callee, args2, x) == ItemCallback(callee, args, x)
    requires ItemAccessAll(args2[0].body, ItemCallback(callee, args, x).value.1)
          == ItemsOf(args[0].body, ItemCallback(callee, args, x).value.1, x, decl, items)
    ensures Agree(Call(callee, args), Call(callee, args2), x, decl, items)
    ensures Agree(Chain(Call(callee, args)), Chain(Call(callee, args2)), x, decl, items)
  {
  }

  lemma {:induction false} CallTracks(callee: Node, args: seq<Node>, hiding: bool, x: string, decl: nat, size: nat)
    requires |x| <= size
    ensures var n, items := Call(callee, args), By(Shown(hiding));
      && Agree(n, Everywhere(n, hiding, x, decl, size), x, decl, items)
      && Agree(Chain(n), Everywhere(Chain(n), hiding, x, decl, size), x, decl, items)
    decreases Call(callee, args), 0, 1
  {
    var items := By(Shown(hiding));
    if IsNamesake(callee, args, x) {
      NamesakeReads(callee, args, hiding, x, decl, size);
      ItemCallAgrees(callee, args, WithinBody(args, hiding, x, decl, size), x, decl, items);
    } else if ItemCallback(callee, args, x).Some? {
      ItemCallAgrees(callee, args, args, x, decl, items);
    } else {
      PlainCallTracks(callee, args, hiding, x, decl, size);
    }
  }

  lemma {:induction false} PlainCallTracks(callee: Node, args: seq<Node>, hiding: bool, x: string, decl: nat, size: nat)
    requires |x| <= size && ItemCallback(callee, args, x).None?
    ensures var n, items := Call(callee, args), By(Shown(hiding));
      && Agree(n, Everywhere(n, hiding, x, decl, size), x, decl, items)
      && Agree(Chain(n), Everywhere(Chain(n), hiding, x, decl, size), x, decl, items)
    decreases Call(callee, args), 0, 0
  {
    var items := By(Shown(hiding));
    var callee2, args2 := Everywhere(callee, hiding, x, decl, size), EverywhereAll(args, hiding, x, decl, size);
    EverywhereTracks(callee, hiding, x, decl, size);
    EverywhereAllTracks(args, hiding, x, decl, size);
    EverywhereRenames(callee, hiding, x, decl, size, {});
    EverywhereAllRenames(args, hiding, x, decl, size, {});
    SameItemCall(callee, args, callee2, args2, x, decl);
    EscapesKept(args, args2, x, decl, {});
    PlainCallAgrees(callee, args, callee2, args2, x, decl, items);
  }

  lemma ScopeAgrees(n: Node, m: Node, x: string, decl: nat, items: Items)
    requires n.Scope? && m.Scope? && (Binds(m, x, Some(decl)) <==> Binds(n, x, Some(decl)))
    requires !Binds(n, x, Some(decl)) ==>
      && ItemLoop(m, x) == ItemLoop(n, x) && AgreeAll(n.heads, m.heads, x, decl, items)
      && if ItemLoop(n, x).Some? then m.body == n.body else AgreeAll(n.body, m.body, x, decl, items)
    ensures Agree(n, m, x, decl, items)
  {
    ScopeRecords(m, x, decl, Tracked);
    ScopeRecords(n, x, decl, items);
  }

  lemma {:induction false} ScopeTracks(n: Node, hiding: bool, x: string, decl: nat, size: nat)
    requires n.Scope? && |x| <= size
    ensures Agree(n, Everywhere(n, hiding, x, decl, size), x, decl, By(Shown(hiding)))
    decreases n, 0
  {
    var m := Everywhere(n, hiding, x, decl, size);
    if !Binds(n, x, Some(decl)) {
      EverywhereAllTracks(n.heads, hiding, x, decl, size);
      EverywhereAllTracks(n.body, hiding, x, decl, size);
      EverywhereAllRenames(n.heads, hiding, x, decl, size, {});
      EverywhereAllRenames(n.body, hiding, x, decl, size, {});
      AllSelfRenamed(n.body, x, decl, {});
      ShadowsKept(n.body, m.body, x, decl, {}, x, Some(decl));
      SameLoop(n, m, x, decl);
    }
    ScopeAgrees(n, m, x, decl, By(Shown(hiding)));
  }

  lemma SameLoop(n: Node, m: Node, x: string, decl: nat)
    requires n.Scope? && m.Scope? && m.kind == n.kind && m.params == n.params
      && AllRenamed(n.heads, m.heads, x, decl, {})
    ensures ItemLoop(m, x) == ItemLoop(n, x)
  {
    if n.heads != [] {
      ChainKept(n.heads[0], m.heads[0], x, decl, {});
    }
  }

  lemma {:induction false} EverywhereAllTracks(ns: seq<Node>, hiding: bool, x: string, decl: nat, size: nat)
    requires |x| <= size
    ensures TrackAll(EverywhereAll(ns, hiding, x, decl, size), x, decl) == TrackAllWith(ns, x, decl, By(Shown(hiding)))
    decreases ns, 2
  {
    if ns != [] {
      EverywhereTracks(ns[0], hiding, x, decl, size);
      EverywhereAllTracks(ns[1..], hiding, x, decl, size);
      assert EverywhereAll(ns, hiding, x, decl, size)[1..] == EverywhereAll(ns[1..], hiding, x, decl, size);
    }
  }

  // ---- what is read in confusing blocks ----

  /** `most` is `clear` and what is confused on top. */
  ghost predicate Adds(clear: Access, confused: Access, most: Access) {
    && |most.fields| == |clear.fields| + |confused.fields|
    && |most.nested| == |clear.nested| + |confused.nested|
    && most.isOpaque == (clear.isOpaque || confused.isOpaque)
  }

  /** Paths are recorded with their field. */
  predicate IsSound(a: Access) {
    a.fields == [] ==> a.nested == []
  }

  lemma {:induction false} ReadsAdd(n: Node, x: string, decl: nat)
    ensures Adds(Reads(n, x, decl, Clear), Reads(n, x, decl, Confused), Reads(n, x, decl, Most))
    ensures forall mode :: IsSound(Reads(n, x, decl, mode))
    decreases n, 1
  {
    match n {
      case Call(callee, args) =>
        ReadsAdd(callee, x, decl);
        AllReadsAdd(args, x, decl);
      case Spread(argument) => ReadsAdd(argument, x, decl);
      case Parts(_, parts) => AllReadsAdd(parts, x, decl);
      case Declare(_, _, inits) => AllReadsAdd(inits, x, decl);
      case Scope(_, _, _, _) => ScopeReadsAdd(n, x, decl);
      case _ =>
    }
  }

  lemma {:induction false} ScopeReadsAdd(n: Node, x: string, decl: nat)
    requires n.Scope?
    ensures Adds(ReadsIn(n, x, decl, Clear), ReadsIn(n, x, decl, Confused), ReadsIn(n, x, decl, Most))
    ensures forall mode :: IsSound(ReadsIn(n, x, decl, mode))
    decreases n, 0
  {
    AllReadsAdd(n.heads, x, decl);
    AllReadsAdd(n.body, x, decl);
  }

  lemma {:induction false} AllReadsAdd(ns: seq<Node>, x: string, decl: nat)
    ensures Adds(ReadsAll(ns, x, decl, Clear), ReadsAll(ns, x, decl, Confused), ReadsAll(ns, x, decl, Most))
    ensures forall mode :: IsSound(ReadsAll(ns, x, decl, mode))
    decreases ns, 2
  {
    if ns != [] {
      ReadsAdd(ns[0], x, decl);
      AllReadsAdd(ns[1..], x, decl);
    }
  }

  /** All that is read of the query's name in confusing blocks of callbacks that the tracker comes to. */
  function ConfusedReads(n: Node, x: string, decl: nat): Access
    decreases n, 0
  {
    match n
    case Call(callee, args) =>
      if ItemCallback(callee, args, x).Some? then ConfusedItems(callee, args, x, decl)
      else Join(ConfusedReads(callee, x, decl), ConfusedReadsAll(args, x, decl))
    case Chain(Call(callee, args)) =>
      if ItemCallback(callee, args, x).Some? then ConfusedItems(callee, args, x, decl)
      else Join(ConfusedReads(callee, x, decl), ConfusedReadsAll(args, x, decl))
    case Chain(Member(obj, _)) => ConfusedReads(obj, x, decl)
    case Parts(visible, parts) => if visible then ConfusedReadsAll(parts, x, decl) else Nothing
    case Declare(_, _, inits) => ConfusedReadsAll(inits, x, decl)
    case Scope(_, _, heads, body) =>
      if Binds(n, x, Some(decl)) then Nothing
      else
        Join(ConfusedReadsAll(heads, x, decl),
             if ItemLoop(n, x).Some? then Nothing else ConfusedReadsAll(body, x, decl))
    case _ => Nothing
  }

  function ConfusedItems(callee: Node, args: seq<Node>, x: string, decl: nat): Access {
    if IsNamesake(callee, args, x) then ReadsAll(args[0].body, x, decl, Confused) else Nothing
  }

  function ConfusedReadsAll(ns: seq<Node>, x: string, decl: nat): Access
    decreases ns, 1
  {
    if ns == [] then Nothing else Join(ConfusedReads(ns[0], x, decl), ConfusedReadsAll(ns[1..], x, decl))
  }

  // ---- counting what the confusion adds to the record ----

  /**
   `most` records at least the confused fields more than `clear`; it is `clear`
   if there are none, but for being opaque.
   */
  ghost predicate Grows(clear: Access, confused: Access, most: Access) {
    && Within(clear, most)
    && |most.fields| + |most.nested| >= |clear.fields| + |clear.nested| + |confused.fields|
    && (confused.fields == [] ==> most.fields == clear.fields && most.nested == clear.nested)
    && most.isOpaque == (clear.isOpaque || confused.isOpaque)
  }

  lemma GrowsJoin(a: Access, b: Access, c: Access, d: Access, e: Access, f: Access)
    requires Grows(a, b, c) && Grows(d, e, f)
    ensures Grows(Join(a, d), Join(b, e), Join(c, f))
  {
    WithinJoin(a, c, d, f);
  }

  lemma GrowsNot(a: Access)
    ensures Grows(a, Nothing, a)
  {
  }

  /** Items of a relation count as its paths, so each confused field still shows. */
  lemma ItemsGrow(chain: seq<string>, clear: Access, confused: Access, most: Access, keepPaths: bool)
    requires chain != [] && Adds(clear, confused, most) && IsSound(confused) && Within(clear, most)
    ensures Grows(OfItems(chain, clear, keepPaths), confused, OfItems(chain, most, keepPaths))
  {
    ItemsWithin(chain, clear, most, keepPaths);
    var parent := ExtractField(chain);
    if parent.Some? && parent.value.path == [] {
      var field := parent.value.field;
      BelowLength(field, clear.fields);
      BelowLength(field, most.fields);
      DeeperLength(field, clear.nested);
      DeeperLength(field, most.nested);
    }
  }

  ghost predicate GrowsAt(n: Node, x: string, decl: nat) {
    Grows(TrackWith(n, x, decl, By(Clear)), ConfusedReads(n, x, decl), TrackWith(n, x, decl, By(Most)))
  }

  ghost predicate GrowsAll(ns: seq<Node>, x: string, decl: nat) {
    Grows(TrackAllWith(ns, x, decl, By(Clear)), ConfusedReadsAll(ns, x, decl), TrackAllWith(ns, x, decl, By(Most)))
  }

  lemma CallbackGrows(callee: Node, args: seq<Node>, x: string, decl: nat, keepPaths: bool)
    requires ItemCallback(callee, args, x).Some?
    ensures var item := ItemCallback(callee, args, x).value;
      Grows(OfItems(item.0, ItemsOf(args[0].body, item.1, x, decl, By(Clear)), keepPaths),
            ConfusedItems(callee, args, x, decl),
            OfItems(item.0, ItemsOf(args[0].body, item.1, x, decl, By(Most)), keepPaths))
  {
    var item := ItemCallback(callee, args, x).value;
    var body := args[0].body;
    if item.1 == x {
      AllReadsAdd(body, x, decl);
      AllItemsBetween(body, x, decl);
      WithinTwice(ReadsAll(body, x, decl, Clear), ItemAccessAll(body, x), ReadsAll(body, x, decl, Most));
      ItemsGrow(item.0, ReadsAll(body, x, decl, Clear), ReadsAll(body, x, decl, Confused),
                ReadsAll(body, x, decl, Most),
                keepPaths);
    } else {
      GrowsNot(OfItems(item.0, ItemAccessAll(body, item.1), keepPaths));
    }
  }

  lemma ItemCallGrows(callee: Node, args: seq<Node>, x: string, decl: nat)
    requires ItemCallback(callee, args, x).Some?
    ensures GrowsAt(Call(callee, args), x, decl) && GrowsAt(Chain(Call(callee, args)), x, decl)
  {
    CallbackGrows(callee, args, x, decl, true);
    CallbackGrows(callee, args, x, decl, false);
  }

  lemma CallGrows(callee: Node, args: seq<Node>, x: string, decl: nat)
    requires GrowsAt(callee, x, decl) && GrowsAll(args, x, decl)
    ensures GrowsAt(Call(callee, args), x, decl) && GrowsAt(Chain(Call(callee, args)), x, decl)
  {
    if ItemCallback(callee, args, x).Some? {
      ItemCallGrows(callee, args, x, decl);
    } else {
      PlainCallGrows(callee, args, x, decl);
    }
  }

  lemma PlainCallGrows(callee: Node, args: seq<Node>, x: string, decl: nat)
    requires GrowsAt(callee, x, decl) && GrowsAll(args, x, decl) && ItemCallback(callee, args, x).None?
    ensures GrowsAt(Call(callee, args), x, decl) && GrowsAt(Chain(Call(callee, args)), x, decl)
  {
    var confused := Join(ConfusedReads(callee, x, decl), ConfusedReadsAll(args, x, decl));
    GrowsJoin(TrackWith(callee, x, decl, By(Clear)), ConfusedReads(callee, x, decl),
              TrackWith(callee, x, decl, By(Most)),
              TrackAllWith(args, x, decl, By(Clear)), ConfusedReadsAll(args, x, decl),
              TrackAllWith(args, x, decl, By(Most)));
    assert ConfusedReads(Call(callee, args), x, decl) == confused;
    assert ConfusedReads(Chain(Call(callee, args)), x, decl) == confused;
  }

  lemma InScopeGrows(n: Node, x: string, a: Access, b: Access, c: Access, d: Access, e: Access, f: Access)
    requires n.Scope? && Grows(a, b, c) && Grows(d, e, f)
    ensures Grows(InScope(n, x, a, d), Join(b, if ItemLoop(n, x).Some? then Nothing else e), InScope(n, x, c, f))
  {
    var item := ItemLoop(n, x);
    if item.Some? {
      var own := OfItems(item.value.0, ItemAccessAll(n.body, item.value.1), true);
      GrowsNot(own);
      GrowsJoin(own, Nothing, own, a, b, c);
      JoinNothing(b);
    } else {
      GrowsJoin(a, b, c, d, e, f);
    }
  }

  lemma ScopeGrows(n: Node, x: string, decl: nat)
    requires n.Scope? && GrowsAll(n.heads, x, decl) && GrowsAll(n.body, x, decl)
    ensures GrowsAt(n, x, decl)
  {
    ScopeRecords(n, x, decl, By(Clear));
    ScopeRecords(n, x, decl, By(Most));
    InScopeGrows(n, x,
      TrackAllWith(n.heads, x, decl, By(Clear)), ConfusedReadsAll(n.heads, x, decl),
          TrackAllWith(n.heads, x, decl, By(Most)),
      TrackAllWith(n.body, x, decl, By(Clear)), ConfusedReadsAll(n.body, x, decl),
          TrackAllWith(n.body, x, decl, By(Most)));
  }

  lemma {:induction false} TrackGrows(n: Node, x: string, decl: nat)
    ensures GrowsAt(n, x, decl)
    decreases n, 0
  {
    match n {
      case Call(callee, args) =>
        TrackGrows(callee, x, decl);
        AllTrackGrow(args, x, decl);
        CallGrows(callee, args, x, decl);
      case Chain(Call(callee, args)) =>
        TrackGrows(callee, x, decl);
        AllTrackGrow(args, x, decl);
        CallGrows(callee, args, x, decl);
      case Chain(Member(obj, _)) => TrackGrows(obj, x, decl);
      case Parts(_, parts) => AllTrackGrow(parts, x, decl);
      case Declare(_, _, inits) => AllTrackGrow(inits, x, decl);
      case Scope(_, _, heads, body) =>
        AllTrackGrow(heads, x, decl);
        AllTrackGrow(body, x, decl);
        ScopeGrows(n, x, decl);
      case _ =>
    }
  }

  lemma {:induction false} AllTrackGrow(ns: seq<Node>, x: string, decl: nat)
    ensures GrowsAll(ns, x, decl)
    decreases ns, 1
  {
    if ns != [] {
      TrackGrows(ns[0], x, decl);
      AllTrackGrow(ns[1..], x, decl);
      GrowsJoin(TrackWith(ns[0], x, decl, By(Clear)), ConfusedReads(ns[0], x, decl),
                TrackWith(ns[0], x, decl, By(Most)),
                TrackAllWith(ns[1..], x, decl, By(Clear)), ConfusedReadsAll(ns[1..], x, decl),
                TrackAllWith(ns[1..], x, decl, By(Most)));
    }
  }

  // ---- the exact condition ----

  /** No renaming of shadowing bindings changes what is recorded for `x`. */
  ghost predicate RecordIsKept(ns: seq<Node>, x: string, decl: nat, taken: set<string>) {
    forall ms :: AllRenamed(ns, ms, x, decl, taken) ==> TrackAll(ms, x, decl) == TrackAll(ns, x, decl)
  }

  /**
   Nothing is read of the query's name in a confusing block: one of a `try`
   statement that binds the name anew, inside a callback over the items whose
   parameter has that name too. Being opaque again would change nothing.
   */
  ghost predicate IsUnconfused(ns: seq<Node>, x: string, decl: nat) {
    var confused := ConfusedReadsAll(ns, x, decl);
    confused.fields == [] && (confused.isOpaque ==> TrackAllWith(ns, x, decl, By(Clear)).isOpaque)
  }

  lemma UnconfusedWhenSame(ns: seq<Node>, x: string, decl: nat)
    ensures IsUnconfused(ns, x, decl) <==> TrackAllWith(ns, x, decl, By(Most)) == TrackAllWith(ns, x, decl, By(Clear))
  {
    AllTrackGrow(ns, x, decl);
  }

  /** The record survives every renaming exactly when nothing is read in a confusing block. */
  lemma RecordKeptExactlyWhen(ns: seq<Node>, x: string, decl: nat, taken: set<string>)
    requires AllKnown(ns, taken)
    ensures RecordIsKept(ns, x, decl, taken) <==> IsUnconfused(ns, x, decl)
  {
    UnconfusedWhenSame(ns, x, decl);
    if IsUnconfused(ns, x, decl) {
      forall ms | AllRenamed(ns, ms, x, decl, taken) ensures TrackAll(ms, x, decl) == TrackAll(ns, x, decl) {
        KeptWhenClear(ns, ms, x, decl, taken);
      }
    }
    if RecordIsKept(ns, x, decl, taken) {
      var size := SizeFor(taken, x);
      EverywhereAllRenames(ns, true, x, decl, size, taken);
      EverywhereAllRenames(ns, false, x, decl, size, taken);
      EverywhereAllTracks(ns, true, x, decl, size);
      EverywhereAllTracks(ns, false, x, decl, size);
    }
  }

  // ---- one confusing block ----

  /** `try { let q = ...; q.secret }` */
  function TryWith(name: string): Node {
    Scope(TryBlock, [], [], [Declare(Simple(name), 1, []), Member(Name(name), "secret")])
  }

  /** `q.data.items.map(q => body)` */
  function MapOver(body: Node): Node {
    Call(Member(Member(Member(Name("q"), "data"), "items"), "map"),
         [Scope(FunctionExpr(None), [Simple("q")], [], [body])])
  }

  lemma ListItself()
    ensures ChainOf(Member(Member(Name("q"), "data"), "items")) == Some(["q", "data", "items"])
    ensures ExtractField(["q", "data", "items"]) == None
    ensures IsQueryList(Some(["q", "data", "items"]), "q")
  {
    var path := ["data", "items"];
    assert ["q"] + ["data"] == ["q", "data"] && ["q", "data"] + ["items"] == ["q", "data", "items"];
    assert ["q", "data", "items"][1..] == path && path[1..] == ["items"] && ["items"][1..] == [];
    assert path[0] == "data";
    assert ["q", "data", "items"][1] == "data";
  }

  /** Mapping over the items records what the callback's body reads of the parameter. */
  lemma MapRecords(body: Node)
    ensures Track(MapOver(body), "q", 0) == ItemAccess(body, "q")
  {
    ListItself();
    assert [body][1..] == [];
    JoinNothing(ItemAccess(body, "q"));
    var call := MapOver(body);
    assert ItemCallback(call.callee, call.args, "q") == Some((["q", "data", "items"], "q"));
    assert call.args[0].body == [body];
    assert ItemAccessAll([body], "q") == Join(ItemAccess(body, "q"), ItemAccessAll([body][1..], "q"));
  }

  lemma TryRecords(name: string)
    ensures ItemAccess(TryWith(name), "q") == if name == "q" then Access(["secret"], [], false) else Nothing
  {
    var body := TryWith(name).body;
    assert body[1..] == [Member(Name(name), "secret")] && body[1..][1..] == [];
    var read := body[1];
    assert [name] + ["secret"] == [name, "secret"];
    assert ChainOf(read) == Some([name, "secret"]);
    assert ItemAccess(body[0], "q") == Nothing;
    assert ItemAccessAll([read], "q") == Join(ItemAccess(read, "q"), Nothing);
    JoinNothing(ItemAccess(read, "q"));
    assert ItemAccessAll(body, "q") == Join(ItemAccess(body[0], "q"), ItemAccessAll(body[1..], "q"));
  }

  /**
   The one exception: the callback tracker does not notice a name declared in a
   `try` block, so a callback parameter called like the query is confused with it.
   */
  lemma TryBlockIsConfused()
    ensures TryWith("r") == RenameScope(TryWith("q"), "q", "r") && IsRenamable(TryWith("q"), "q", 0)
    ensures Track(MapOver(TryWith("q")), "q", 0).fields == ["secret"]
    ensures Track(MapOver(TryWith("r")), "q", 0) == Nothing
  {
    TryRenames();
    MapRecords(TryWith("q"));
    MapRecords(TryWith("r"));
    TryRecords("q");
    TryRecords("r");
  }

  lemma TryRenames()
    ensures TryWith("r") == RenameScope(TryWith("q"), "q", "r") && IsRenamable(TryWith("q"), "q", 0)
  {
    var a, b := TryWith("q"), TryWith("r");
    assert DeclaresAt(a.body[0], "q") == Some(1);
    assert a.body[1..] == [Member(Name("q"), "secret")] && a.body[1..][1..] == [];
    assert RenameStmts(a.body, "q", "r") == b.body;
  }
}
