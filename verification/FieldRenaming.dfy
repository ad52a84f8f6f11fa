/**
 Renaming the bindings that shadow a query variable: what a renaming is, and
 the chains, declarations and other callbacks' reads that it leaves alone.
 */
module FieldRenaming {
  import opened JsxSyntax
  import opened FieldTracking

  // ---- renaming ----

  function NewName(name: string, x: string, y: string): string {
    if name == x then y else name
  }

  function RenameParam(p: Param, x: string, y: string): Param {
    match p
    case Simple(name) => Simple(NewName(name, x, y))
    case Pattern(names) => Pattern(seq(|names|, i requires 0 <= i < |names| => NewName(names[i], x, y)))
  }

  function RenameParams(ps: seq<Param>, x: string, y: string): seq<Param> {
    seq(|ps|, i requires 0 <= i < |ps| => RenameParam(ps[i], x, y))
  }

  /** Every free `x` becomes `y`; scopes that bind `x` are left alone. */
  function Substitute(n: Node, x: string, y: string): Node
    decreases n, 0
  {
    match n
    case Name(name) => Name(NewName(name, x, y))
    case Member(obj, prop) => Member(Substitute(obj, x, y), prop)
    case Index(obj, index, numeric) => Index(Substitute(obj, x, y), Substitute(index, x, y), numeric)
    case Call(callee, args) => Call(Substitute(callee, x, y), SubstituteAll(args, x, y))
    case Chain(inner) => Chain(Substitute(inner, x, y))
    case Spread(argument) => Spread(Substitute(argument, x, y))
    case Parts(visible, parts) => Parts(visible, SubstituteAll(parts, x, y))
    case Declare(param, span, inits) => Declare(param, span, SubstituteAll(inits, x, y))
    case Scope(kind, params, heads, body) =>
      if Binds(n, x, None) then n else Scope(kind, params, SubstituteAll(heads, x, y), SubstituteAll(body, x, y))
    case Other => Node.Other
  }

  function SubstituteAll(ns: seq<Node>, x: string, y: string): seq<Node>
    decreases ns, 1
  {
    if ns == [] then [] else [Substitute(ns[0], x, y)] + SubstituteAll(ns[1..], x, y)
  }

  /** A statement of the scope that binds `x`: its own declaration of `x` is renamed too. */
  function RenameStmt(n: Node, x: string, y: string): Node {
    match n
    case Declare(param, span, inits) => Declare(RenameParam(param, x, y), span, SubstituteAll(inits, x, y))
    case Scope(FunctionDecl(name, span), params, heads, body) =>
      if name != x then Substitute(n, x, y)
      else if ParamsBind(params, x) || BodyShadows(body, x, None) then Scope(FunctionDecl(y, span), params, heads, body)
      else Scope(FunctionDecl(y, span), params, SubstituteAll(heads, x, y), SubstituteAll(body, x, y))
    case _ => Substitute(n, x, y)
  }

  function RenameStmts(ns: seq<Node>, x: string, y: string): seq<Node> {
    if ns == [] then [] else [RenameStmt(ns[0], x, y)] + RenameStmts(ns[1..], x, y)
  }

  /** The binding of `x` that the scope itself makes, and all that refers to it, renamed to `y`. */
  function RenameScope(n: Node, x: string, y: string): Node
    requires n.Scope?
  {
    var kind := match n.kind
      case FunctionExpr(own) => FunctionExpr(if own == Some(x) then Some(y) else own)
      case _ => n.kind;
    Scope(kind, RenameParams(n.params, x, y), SubstituteAll(n.heads, x, y), RenameStmts(n.body, x, y))
  }

  /** `name` occurs nowhere: neither bound nor used. */
  predicate IsFresh(n: Node, name: string)
    decreases n, 0
  {
    match n
    case Name(own) => own != name
    case Member(obj, _) => IsFresh(obj, name)
    case Index(obj, index, _) => IsFresh(obj, name) && IsFresh(index, name)
    case Call(callee, args) => IsFresh(callee, name) && AllFresh(args, name)
    case Chain(inner) => IsFresh(inner, name)
    case Spread(argument) => IsFresh(argument, name)
    case Parts(_, parts) => AllFresh(parts, name)
    case Declare(param, _, inits) => !ParamBinds(param, name) && AllFresh(inits, name)
    case Scope(kind, params, heads, body) =>
      && (kind.FunctionDecl? ==> kind.name != name) && (kind.FunctionExpr? ==> kind.own != Some(name))
      && !ParamsBind(params, name) && AllFresh(heads, name) && AllFresh(body, name)
    case Other => true
  }

  predicate AllFresh(ns: seq<Node>, name: string)
    decreases ns, 1
  {
    ns == [] || (IsFresh(ns[0], name) && AllFresh(ns[1..], name))
  }

  /** The query's own declaration is not inside. */
  predicate Lacks(n: Node, decl: nat)
    decreases n, 0
  {
    match n
    case Member(obj, _) => Lacks(obj, decl)
    case Index(obj, index, _) => Lacks(obj, decl) && Lacks(index, decl)
    case Call(callee, args) => Lacks(callee, decl) && AllLack(args, decl)
    case Chain(inner) => Lacks(inner, decl)
    case Spread(argument) => Lacks(argument, decl)
    case Parts(_, parts) => AllLack(parts, decl)
    case Declare(_, span, inits) => span != decl && AllLack(inits, decl)
    case Scope(kind, _, heads, body) =>
      (kind.FunctionDecl? ==> kind.span != decl) && AllLack(heads, decl) && AllLack(body, decl)
    case _ => true
  }

  predicate AllLack(ns: seq<Node>, decl: nat)
    decreases ns, 1
  {
    ns == [] || (Lacks(ns[0], decl) && AllLack(ns[1..], decl))
  }

  // ---- chains under substitution ----

  lemma ChainGrows(c: seq<string>, head: string, prop: string)
    requires c != []
    ensures ([head] + c[1..]) + [prop] == [head] + (c + [prop])[1..]
  {
    assert (c + [prop])[1..] == c[1..] + [prop];
  }

  lemma {:induction false} ChainSubstituted(n: Node, x: string, y: string)
    ensures var c, s := ChainOf(n), ChainOf(Substitute(n, x, y));
      if c.None? then s.None? else s == Some([NewName(c.value[0], x, y)] + c.value[1..])
    decreases n
  {
    match n {
      case Member(obj, prop) =>
        ChainSubstituted(obj, x, y);
        if ChainOf(obj).Some? { ChainGrows(ChainOf(obj).value, NewName(ChainOf(obj).value[0], x, y), prop); }
      case Index(obj, _, _) => ChainSubstituted(obj, x, y);
      case Chain(Member(obj, prop)) =>
        ChainSubstituted(obj, x, y);
        if ChainOf(obj).Some? { ChainGrows(ChainOf(obj).value, NewName(ChainOf(obj).value[0], x, y), prop); }
      case Chain(Index(obj, _, _)) => ChainSubstituted(obj, x, y);
      case Chain(Call(callee, _)) => ChainSubstituted(callee, x, y);
      case Name(name) =>
        assert [name][1..] == [];
        assert [NewName(name, x, y)] + [name][1..] == [NewName(name, x, y)];
      case _ =>
    }
  }

  lemma NewHead(c: seq<string>, head: string)
    requires c != []
    ensures var d := [head] + c[1..];
      |d| == |c| && (1 < |c| ==> d[1] == c[1]) && (2 <= |c| ==> d[2..] == c[2..])
  {
  }

  lemma {:induction false} AllAre(ns: seq<Node>, x: string, y: string)
    ensures |SubstituteAll(ns, x, y)| == |ns| && |RenameStmts(ns, x, y)| == |ns|
    ensures forall i :: 0 <= i < |ns| ==>
      SubstituteAll(ns, x, y)[i] == Substitute(ns[i], x, y) && RenameStmts(ns, x, y)[i] == RenameStmt(ns[i], x, y)
  {
    if ns != [] {
      AllAre(ns[1..], x, y);
    }
  }

  /** Substituting changes no declaration. */
  lemma DeclarationsStay(n: Node, x: string, y: string, p: string)
    ensures DeclaresAt(Substitute(n, x, y), p) == DeclaresAt(n, p)
  {
  }

  lemma ShadowsStay(body: seq<Node>, x: string, y: string, p: string, except: Option<nat>)
    ensures BodyShadows(SubstituteAll(body, x, y), p, except) <==> BodyShadows(body, p, except)
  {
    AllAre(body, x, y);
    forall i | 0 <= i < |body| ensures DeclaresAt(SubstituteAll(body, x, y)[i], p) == DeclaresAt(body[i], p) {
      DeclarationsStay(body[i], x, y, p);
    }
  }

  lemma BindingStays(n: Node, x: string, y: string, p: string, except: Option<nat>)
    requires n.Scope?
    ensures Substitute(n, x, y).Scope? && (Binds(Substitute(n, x, y), p, except) <==> Binds(n, p, except))
  {
    ShadowsStay(n.body, x, y, p, except);
  }

  /** Without the query's declaration inside, the exception makes no difference. */
  lemma {:induction false} LackAt(ns: seq<Node>, decl: nat, i: nat)
    requires AllLack(ns, decl) && i < |ns|
    ensures Lacks(ns[i], decl)
    decreases ns
  {
    if i > 0 {
      LackAt(ns[1..], decl, i - 1);
    }
  }

  lemma SameBinding(n: Node, x: string, decl: nat)
    requires n.Scope? && Lacks(n, decl)
    ensures Binds(n, x, Some(decl)) <==> Binds(n, x, None)
  {
    forall i | 0 <= i < |n.body| ensures DeclaresAt(n.body[i], x) != Some(decl) {
      LackAt(n.body, decl, i);
    }
  }

  // ---- the callback tracker and other names ----

  lemma CallbackFieldStays(n: Node, x: string, y: string, p: string)
    requires p != x && p != y
    ensures CallbackField(Substitute(n, x, y), p) == CallbackField(n, p)
  {
    ChainSubstituted(n, x, y);
    if ChainOf(n).Some? { NewHead(ChainOf(n).value, NewName(ChainOf(n).value[0], x, y)); }
  }

  lemma NameStays(n: Node, x: string, y: string, p: string)
    requires p != x && p != y
    ensures Substitute(n, x, y) == Name(p) <==> n == Name(p)
  {
  }

  /** Substituting `x` changes nothing for a callback parameter of another name. */
  lemma {:induction false} ItemsStay(n: Node, x: string, y: string, p: string)
    requires p != x && p != y
    ensures ItemAccess(Substitute(n, x, y), p) == ItemAccess(n, p)
    decreases n, 0
  {
    match n {
      case Member(_, _) => CallbackFieldStays(n, x, y, p);
      case Index(obj, _, _) =>
        CallbackFieldStays(n, x, y, p);
        NameStays(obj, x, y, p);
      case Call(callee, args) =>
        ItemsStay(callee, x, y, p);
        AllItemsStay(args, x, y, p);
      case Spread(argument) =>
        ItemsStay(argument, x, y, p);
        NameStays(argument, x, y, p);
      case Parts(_, parts) => AllItemsStay(parts, x, y, p);
      case Declare(_, _, inits) => AllItemsStay(inits, x, y, p);
      case Scope(_, _, heads, body) =>
        if !Binds(n, x, None) {
          BindingStays(n, x, y, p, None);
          AllItemsStay(heads, x, y, p);
          AllItemsStay(body, x, y, p);
        }
      case _ =>
    }
  }

  lemma {:induction false} AllItemsStay(ns: seq<Node>, x: string, y: string, p: string)
    requires p != x && p != y
    ensures ItemAccessAll(SubstituteAll(ns, x, y), p) == ItemAccessAll(ns, p)
    decreases ns, 1
  {
    if ns != [] {
      ItemsStay(ns[0], x, y, p);
      AllItemsStay(ns[1..], x, y, p);
      assert SubstituteAll(ns, x, y)[1..] == SubstituteAll(ns[1..], x, y);
    }
  }

  lemma ParamsStay(ps: seq<Param>, x: string, y: string, p: string)
    requires p != x && p != y
    ensures ParamsBind(RenameParams(ps, x, y), p) <==> ParamsBind(ps, p)
  {
    forall i | 0 <= i < |ps| ensures ParamBinds(RenameParams(ps, x, y)[i], p) <==> ParamBinds(ps[i], p) {
      ParamStays(ps[i], x, y, p);
    }
  }

  lemma ParamStays(q: Param, x: string, y: string, p: string)
    requires p != x && p != y
    ensures ParamBinds(RenameParam(q, x, y), p) <==> ParamBinds(q, p)
  {
    if q.Pattern? {
      var r := RenameParam(q, x, y).names;
      forall i | 0 <= i < |q.names| ensures r[i] == p <==> q.names[i] == p {
      }
      if p in q.names {
        var i :| 0 <= i < |q.names| && q.names[i] == p;
        assert r[i] == p;
      }
    }
  }

  lemma RenamedDeclaration(n: Node, x: string, y: string, p: string)
    requires p != x && p != y
    ensures DeclaresAt(RenameStmt(n, x, y), p) == DeclaresAt(n, p)
  {
    if n.Declare? {
      ParamStays(n.param, x, y, p);
    }
  }

  lemma RenamedShadows(body: seq<Node>, x: string, y: string, p: string, except: Option<nat>)
    requires p != x && p != y
    ensures BodyShadows(RenameStmts(body, x, y), p, except) <==> BodyShadows(body, p, except)
  {
    AllAre(body, x, y);
    forall i | 0 <= i < |body| ensures DeclaresAt(RenameStmts(body, x, y)[i], p) == DeclaresAt(body[i], p) {
      RenamedDeclaration(body[i], x, y, p);
    }
  }

  lemma {:induction false} RenamedItemsStay(ns: seq<Node>, x: string, y: string, p: string)
    requires p != x && p != y
    ensures ItemAccessAll(RenameStmts(ns, x, y), p) == ItemAccessAll(ns, p)
  {
    if ns != [] {
      RenamedItemsStay(ns[1..], x, y, p);
      assert RenameStmts(ns, x, y)[1..] == RenameStmts(ns[1..], x, y);
      match ns[0] {
        case Declare(_, _, inits) => AllItemsStay(inits, x, y, p);
        case Scope(FunctionDecl(_, _), _, _, _) =>
        case _ => ItemsStay(ns[0], x, y, p);
      }
    }
  }

  lemma RenamedScopeItemsStay(n: Node, x: string, y: string, p: string)
    requires n.Scope? && p != x && p != y
    ensures ItemAccess(RenameScope(n, x, y), p) == ItemAccess(n, p)
  {
    ParamsStay(n.params, x, y, p);
    RenamedShadows(n.body, x, y, p, None);
    AllItemsStay(n.heads, x, y, p);
    RenamedItemsStay(n.body, x, y, p);
  }

  // ---- renaming any of the shadowing scopes of a program ----

  /** A scope that shadows the query variable and may be renamed: not by its own name in the list around it. */
  predicate IsRenamable(n: Node, x: string, decl: nat) {
    n.Scope? && Binds(n, x, Some(decl)) && Lacks(n, decl) && (n.kind.FunctionDecl? ==> n.kind.name != x)
  }

  /** `m` is the scope `n` renamed to a name that is new to it and to the program. */
  predicate IsRenaming(n: Node, m: Node, y: string, x: string, decl: nat, taken: set<string>) {
    IsRenamable(n, x, decl) && y != x && y !in taken && IsFresh(n, y) && m == RenameScope(n, x, y)
  }

  /**
   `m` is `n` with some of the scopes that shadow `x` renamed, at any depth and
   one inside another, each to a name of its own.
   */
  ghost predicate Renamed(n: Node, m: Node, x: string, decl: nat, taken: set<string>)
    decreases n, 1
  {
    Like(n, m, x, decl, taken)
    || exists k, y :: Like(n, k, x, decl, taken) && IsRenamable(n, x, decl) && IsRenaming(k, m, y, x, decl, taken)
  }

  /** The same construct, with renamings further inside only. */
  ghost predicate Like(n: Node, m: Node, x: string, decl: nat, taken: set<string>)
    decreases n, 0
  {
    match n
    case Name(_) => m == n
    case Member(obj, prop) => m.Member? && m.prop == prop && Renamed(obj, m.obj, x, decl, taken)
    case Index(obj, index, numeric) =>
      m.Index? && m.numeric == numeric && Renamed(obj, m.obj, x, decl, taken) && Renamed(index, m.index, x, decl, taken)
    case Call(callee, args) =>
      m.Call? && Renamed(callee, m.callee, x, decl, taken) && AllRenamed(args, m.args, x, decl, taken)
    case Chain(inner) => m.Chain? && Renamed(inner, m.inner, x, decl, taken)
    case Spread(argument) => m.Spread? && Renamed(argument, m.argument, x, decl, taken)
    case Parts(visible, parts) => m.Parts? && m.visible == visible && AllRenamed(parts, m.parts, x, decl, taken)
    case Declare(param, span, inits) =>
      m.Declare? && m.param == param && m.span == span && AllRenamed(inits, m.inits, x, decl, taken)
    case Scope(kind, params, heads, body) =>
      m.Scope? && m.kind == kind && m.params == params
      && AllRenamed(heads, m.heads, x, decl, taken) && AllRenamed(body, m.body, x, decl, taken)
    case Other => m == n
  }

  ghost predicate AllRenamed(ns: seq<Node>, ms: seq<Node>, x: string, decl: nat, taken: set<string>)
    decreases ns, 2
  {
    if ns == [] then ms == []
    else ms != [] && Renamed(ns[0], ms[0], x, decl, taken) && AllRenamed(ns[1..], ms[1..], x, decl, taken)
  }

  /** The names of all parameters are among the taken ones. */
  predicate Known(n: Node, taken: set<string>)
    decreases n, 0
  {
    match n
    case Member(obj, _) => Known(obj, taken)
    case Index(obj, index, _) => Known(obj, taken) && Known(index, taken)
    case Call(callee, args) => Known(callee, taken) && AllKnown(args, taken)
    case Chain(inner) => Known(inner, taken)
    case Spread(argument) => Known(argument, taken)
    case Parts(_, parts) => AllKnown(parts, taken)
    case Declare(_, _, inits) => AllKnown(inits, taken)
    case Scope(_, params, heads, body) =>
      (forall p :: p in params && p.Simple? ==> p.name in taken) && AllKnown(heads, taken) && AllKnown(body, taken)
    case _ => true
  }

  predicate AllKnown(ns: seq<Node>, taken: set<string>)
    decreases ns, 1
  {
    ns == [] || (Known(ns[0], taken) && AllKnown(ns[1..], taken))
  }

  lemma {:induction false} RenamedAt(ns: seq<Node>, ms: seq<Node>, x: string, decl: nat, taken: set<string>)
    requires AllRenamed(ns, ms, x, decl, taken)
    ensures |ns| == |ms| && forall i :: 0 <= i < |ns| ==> Renamed(ns[i], ms[i], x, decl, taken)
    decreases ns
  {
    if ns != [] {
      RenamedAt(ns[1..], ms[1..], x, decl, taken);
      forall i | 0 <= i < |ns| ensures Renamed(ns[i], ms[i], x, decl, taken) {
        if i > 0 {
          assert ns[i] == ns[1..][i - 1] && ms[i] == ms[1..][i - 1];
        }
      }
    }
  }

  /** Only scopes are renamed. */
  lemma OnlyInside(n: Node, m: Node, x: string, decl: nat, taken: set<string>)
    requires Renamed(n, m, x, decl, taken)
    ensures if n.Scope? then m.Scope? else Like(n, m, x, decl, taken)
  {
    if !Like(n, m, x, decl, taken) {
      var k, y :| Like(n, k, x, decl, taken) && IsRenaming(k, m, y, x, decl, taken);
    }
  }

  lemma NameKept(n: Node, m: Node, x: string, decl: nat, taken: set<string>, p: string)
    requires Renamed(n, m, x, decl, taken)
    ensures n == Name(p) <==> m == Name(p)
  {
    OnlyInside(n, m, x, decl, taken);
  }

  lemma {:induction false} ChainKept(n: Node, m: Node, x: string, decl: nat, taken: set<string>)
    requires Renamed(n, m, x, decl, taken)
    ensures ChainOf(m) == ChainOf(n)
    decreases n
  {
    OnlyInside(n, m, x, decl, taken);
    if !n.Scope? {
      match n {
        case Member(obj, _) => ChainKept(obj, m.obj, x, decl, taken);
        case Index(obj, _, _) => ChainKept(obj, m.obj, x, decl, taken);
        case Chain(inner) => InnerChainKept(inner, m.inner, x, decl, taken);
        case _ =>
      }
    }
  }

  lemma {:induction false} InnerChainKept(n: Node, m: Node, x: string, decl: nat, taken: set<string>)
    requires Renamed(n, m, x, decl, taken)
    ensures ChainOf(Chain(m)) == ChainOf(Chain(n))
    decreases n
  {
    OnlyInside(n, m, x, decl, taken);
    if !n.Scope? {
      match n {
        case Member(obj, _) => ChainKept(obj, m.obj, x, decl, taken);
        case Index(obj, _, _) => ChainKept(obj, m.obj, x, decl, taken);
        case Call(callee, _) => ChainKept(callee, m.callee, x, decl, taken);
        case _ =>
      }
    }
  }

  lemma DeclarationsKept(n: Node, m: Node, x: string, decl: nat, taken: set<string>, p: string)
    requires Renamed(n, m, x, decl, taken)
    ensures DeclaresAt(m, p) == DeclaresAt(n, p)
  {
    if !Like(n, m, x, decl, taken) {
      var k, y :| Like(n, k, x, decl, taken) && IsRenaming(k, m, y, x, decl, taken);
      assert m.Scope? && m.kind.FunctionDecl? ==> m.kind == k.kind;
    }
  }

  lemma ShadowsKept(ns: seq<Node>, ms: seq<Node>, x: string, decl: nat, taken: set<string>, p: string,
                    except: Option<nat>)
    requires AllRenamed(ns, ms, x, decl, taken)
    ensures BodyShadows(ms, p, except) <==> BodyShadows(ns, p, except)
  {
    RenamedAt(ns, ms, x, decl, taken);
    forall i | 0 <= i < |ns| ensures DeclaresAt(ms[i], p) == DeclaresAt(ns[i], p) {
      DeclarationsKept(ns[i], ms[i], x, decl, taken, p);
    }
  }

  lemma EscapesKept(ns: seq<Node>, ms: seq<Node>, x: string, decl: nat, taken: set<string>)
    requires AllRenamed(ns, ms, x, decl, taken)
    ensures SomeEscapes(ms, x) <==> SomeEscapes(ns, x)
  {
    RenamedAt(ns, ms, x, decl, taken);
    forall i | 0 <= i < |ns| ensures Escapes(ms[i], x) <==> Escapes(ns[i], x) {
      ChainKept(ns[i], ms[i], x, decl, taken);
    }
  }

  /** Renaming moves no declaration. */
  lemma {:induction false} LacksKept(n: Node, m: Node, x: string, decl: nat, taken: set<string>)
    requires Renamed(n, m, x, decl, taken)
    ensures Lacks(m, decl) <==> Lacks(n, decl)
    decreases n, 1
  {
    if Like(n, m, x, decl, taken) {
      LikeLacks(n, m, x, decl, taken);
    } else {
      var k, y :| Like(n, k, x, decl, taken) && IsRenaming(k, m, y, x, decl, taken);
      LikeLacks(n, k, x, decl, taken);
      LacksRenamed(k, x, y, decl);
    }
  }

  lemma {:induction false} LikeLacks(n: Node, m: Node, x: string, decl: nat, taken: set<string>)
    requires Like(n, m, x, decl, taken)
    ensures Lacks(m, decl) <==> Lacks(n, decl)
    decreases n, 0
  {
    match n {
      case Member(obj, _) => LacksKept(obj, m.obj, x, decl, taken);
      case Index(obj, index, _) =>
        LacksKept(obj, m.obj, x, decl, taken);
        LacksKept(index, m.index, x, decl, taken);
      case Call(callee, args) =>
        LacksKept(callee, m.callee, x, decl, taken);
        AllLacksKept(args, m.args, x, decl, taken);
      case Chain(inner) => LacksKept(inner, m.inner, x, decl, taken);
      case Spread(argument) => LacksKept(argument, m.argument, x, decl, taken);
      case Parts(_, parts) => AllLacksKept(parts, m.parts, x, decl, taken);
      case Declare(_, _, inits) => AllLacksKept(inits, m.inits, x, decl, taken);
      case Scope(_, _, heads, body) =>
        AllLacksKept(heads, m.heads, x, decl, taken);
        AllLacksKept(body, m.body, x, decl, taken);
      case _ =>
    }
  }

  lemma {:induction false} AllLacksKept(ns: seq<Node>, ms: seq<Node>, x: string, decl: nat, taken: set<string>)
    requires AllRenamed(ns, ms, x, decl, taken)
    ensures AllLack(ms, decl) <==> AllLack(ns, decl)
    decreases ns, 2
  {
    if ns != [] {
      LacksKept(ns[0], ms[0], x, decl, taken);
      AllLacksKept(ns[1..], ms[1..], x, decl, taken);
    }
  }

  lemma {:induction false} LacksSubstituted(n: Node, x: string, y: string, decl: nat)
    ensures Lacks(Substitute(n, x, y), decl) <==> Lacks(n, decl)
    decreases n, 0
  {
    match n {
      case Member(obj, _) => LacksSubstituted(obj, x, y, decl);
      case Index(obj, index, _) =>
        LacksSubstituted(obj, x, y, decl);
        LacksSubstituted(index, x, y, decl);
      case Call(callee, args) =>
        LacksSubstituted(callee, x, y, decl);
        AllLackSubstituted(args, x, y, decl);
      case Chain(inner) => LacksSubstituted(inner, x, y, decl);
      case Spread(argument) => LacksSubstituted(argument, x, y, decl);
      case Parts(_, parts) => AllLackSubstituted(parts, x, y, decl);
      case Declare(_, _, inits) => AllLackSubstituted(inits, x, y, decl);
      case Scope(_, _, heads, body) =>
        AllLackSubstituted(heads, x, y, decl);
        AllLackSubstituted(body, x, y, decl);
      case _ =>
    }
  }

  lemma {:induction false} AllLackSubstituted(ns: seq<Node>, x: string, y: string, decl: nat)
    ensures AllLack(SubstituteAll(ns, x, y), decl) <==> AllLack(ns, decl)
    decreases ns, 1
  {
    if ns != [] {
      LacksSubstituted(ns[0], x, y, decl);
      AllLackSubstituted(ns[1..], x, y, decl);
      assert SubstituteAll(ns, x, y)[1..] == SubstituteAll(ns[1..], x, y);
    }
  }

  lemma {:induction false} AllLackRenamed(ns: seq<Node>, x: string, y: string, decl: nat)
    ensures AllLack(RenameStmts(ns, x, y), decl) <==> AllLack(ns, decl)
  {
    if ns != [] {
      AllLackRenamed(ns[1..], x, y, decl);
      assert RenameStmts(ns, x, y)[1..] == RenameStmts(ns[1..], x, y);
      match ns[0] {
        case Declare(_, _, inits) => AllLackSubstituted(inits, x, y, decl);
        case Scope(FunctionDecl(_, _), _, heads, body) =>
          AllLackSubstituted(heads, x, y, decl);
          AllLackSubstituted(body, x, y, decl);
        case _ => LacksSubstituted(ns[0], x, y, decl);
      }
    }
  }

  lemma LacksRenamed(n: Node, x: string, y: string, decl: nat)
    requires n.Scope?
    ensures Lacks(RenameScope(n, x, y), decl) <==> Lacks(n, decl)
  {
    AllLackSubstituted(n.heads, x, y, decl);
    AllLackRenamed(n.body, x, y, decl);
  }

  // ---- other names are not touched ----

  /** A renaming changes nothing for a callback parameter of another, known name. */
  lemma {:induction false} ItemsKept(n: Node, m: Node, x: string, decl: nat, taken: set<string>, p: string)
    requires Renamed(n, m, x, decl, taken) && p != x && p in taken
    ensures ItemAccess(m, p) == ItemAccess(n, p)
    decreases n, 1
  {
    if Like(n, m, x, decl, taken) {
      LikeItems(n, m, x, decl, taken, p);
    } else {
      var k, y :| Like(n, k, x, decl, taken) && IsRenaming(k, m, y, x, decl, taken);
      LikeItems(n, k, x, decl, taken, p);
      RenamedScopeItemsStay(k, x, y, p);
    }
  }

  lemma {:induction false} LikeItems(n: Node, m: Node, x: string, decl: nat, taken: set<string>, p: string)
    requires Like(n, m, x, decl, taken) && p != x && p in taken
    ensures ItemAccess(m, p) == ItemAccess(n, p)
    decreases n, 0
  {
    match n {
      case Member(_, _) => ChainKept(n, m, x, decl, taken);
      case Index(obj, _, _) =>
        ChainKept(n, m, x, decl, taken);
        NameKept(obj, m.obj, x, decl, taken, p);
      case Call(callee, args) =>
        ItemsKept(callee, m.callee, x, decl, taken, p);
        AllItemsKept(args, m.args, x, decl, taken, p);
      case Spread(argument) =>
        ItemsKept(argument, m.argument, x, decl, taken, p);
        NameKept(argument, m.argument, x, decl, taken, p);
      case Parts(_, parts) => AllItemsKept(parts, m.parts, x, decl, taken, p);
      case Declare(_, _, inits) => AllItemsKept(inits, m.inits, x, decl, taken, p);
      case Scope(_, _, heads, body) =>
        ShadowsKept(body, m.body, x, decl, taken, p, None);
        AllItemsKept(heads, m.heads, x, decl, taken, p);
        AllItemsKept(body, m.body, x, decl, taken, p);
      case _ =>
    }
  }

  lemma {:induction false} AllItemsKept(ns: seq<Node>, ms: seq<Node>, x: string, decl: nat, taken: set<string>,
                                        p: string)
    requires AllRenamed(ns, ms, x, decl, taken) && p != x && p in taken
    ensures ItemAccessAll(ms, p) == ItemAccessAll(ns, p)
    decreases ns, 2
  {
    if ns != [] {
      ItemsKept(ns[0], ms[0], x, decl, taken, p);
      AllItemsKept(ns[1..], ms[1..], x, decl, taken, p);
    }
  }
}
