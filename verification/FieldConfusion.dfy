/**
 The callback tracker does not check the blocks of `try` statements for
 declarations (native/vertz-compiler-core/src/field_selection.rs). When that
 shows: exactly when renaming shadowing bindings can change what is recorded
 for a query variable.
 */
module FieldConfusion {
  import opened JsxSyntax
  import opened FieldTracking
  import opened FieldRenaming

  // ---- scopes, as the callback tracker of `x` meets them ----

  predicate IsFunction(n: Node)
    requires n.Scope?
  {
    n.kind.FunctionDecl? || n.kind.FunctionExpr?
  }

  predicate IsTry(n: Node)
    requires n.Scope?
  {
    n.kind.TryBlock? || n.kind.Catch?
  }

  /** The tracker sees that the scope binds the name and stays out. */
  predicate Hides(n: Node, x: string)
    requires n.Scope?
  {
    match n.kind
    case Catch => ParamsBind(n.params, x)
    case BlockScope => Binds(n, x, None)
    case For => Binds(n, x, None)
    case ForOf => Binds(n, x, None)
    case _ => false
  }

  /** A block of a `try` statement that binds the name anew, unnoticed. */
  predicate Confuses(n: Node, x: string, decl: nat)
    requires n.Scope?
  {
    IsTry(n) && !Hides(n, x) && IsRenamable(n, x, decl)
  }

  /**
   What is read of a callback parameter that is called like the query, `x`:
   `Clear` leaves out what is read in confusing blocks; `Confused` is only what
   is read there, however deep; `Most` is all that could be taken for a read of
   the parameter once hiding scopes are renamed.
   */
  datatype Mode = Clear | Confused | Most

  function Reads(n: Node, x: string, decl: nat, mode: Mode): Access
    decreases n, 1
  {
    match n
    case Member(_, _) => if mode.Confused? then Nothing else CallbackField(n, x)
    case Index(obj, _, numeric) =>
      if mode.Confused? then Nothing else Join(CallbackField(n, x), Opaque(obj == Name(x) && !numeric))
    case Call(callee, args) => Join(Reads(callee, x, decl, mode), ReadsAll(args, x, decl, mode))
    case Spread(argument) => Join(Reads(argument, x, decl, mode), Opaque(!mode.Confused? && argument == Name(x)))
    case Parts(_, parts) => ReadsAll(parts, x, decl, mode)
    case Declare(_, _, inits) => ReadsAll(inits, x, decl, mode)
    case Scope(_, _, _, _) =>
      if IsFunction(n) then Nothing
      else if Hides(n, x) then
        if mode.Clear? || !IsRenamable(n, x, decl) then Nothing else ReadsIn(n, x, decl, Confused)
      else if Confuses(n, x, decl) then if mode.Clear? then Nothing else ReadsIn(n, x, decl, Most)
      else ReadsIn(n, x, decl, mode)
    case _ => Nothing
  }

  function ReadsIn(n: Node, x: string, decl: nat, mode: Mode): Access
    requires n.Scope?
    decreases n, 0
  {
    Join(if IsTry(n) then Nothing else ReadsAll(n.heads, x, decl, mode), ReadsAll(n.body, x, decl, mode))
  }

  function ReadsAll(ns: seq<Node>, x: string, decl: nat, mode: Mode): Access
    decreases ns, 2
  {
    if ns == [] then Nothing else Join(Reads(ns[0], x, decl, mode), ReadsAll(ns[1..], x, decl, mode))
  }

  // ---- comparing records ----

  /** `a` records no more than `b`, and nothing else if as much. */
  ghost predicate Within(a: Access, b: Access) {
    && |a.fields| <= |b.fields| && (|a.fields| == |b.fields| ==> a.fields == b.fields)
    && |a.nested| <= |b.nested| && (|a.nested| == |b.nested| ==> a.nested == b.nested)
    && (a.isOpaque ==> b.isOpaque)
  }

  lemma WithinJoin(a: Access, b: Access, c: Access, d: Access)
    requires Within(a, b) && Within(c, d)
    ensures Within(Join(a, c), Join(b, d))
  {
  }

  lemma WithinTwice(a: Access, b: Access, c: Access)
    requires Within(a, b) && Within(b, c)
    ensures Within(a, c)
  {
  }

  lemma WithinBoth(a: Access, b: Access)
    requires Within(a, b) && Within(b, a)
    ensures a == b
  {
  }

  // ---- substitution and reads ----

  /** What a substitution leaves to read of the old name. */
  function Remaining(confused: Access, mode: Mode): Access {
    if mode.Clear? then Nothing else confused
  }

  lemma LeafReadsSubstituted(n: Node, x: string, y: string, decl: nat, mode: Mode)
    requires (n.Member? || n.Index?) && x != y
    ensures Reads(Substitute(n, x, y), x, decl, mode) == Remaining(Reads(n, x, decl, Confused), mode)
  {
    ChainSubstituted(n, x, y);
  }

  lemma {:induction false} ReadsSubstituted(n: Node, x: string, y: string, decl: nat, mode: Mode)
    requires Lacks(n, decl) && x != y
    ensures Reads(Substitute(n, x, y), x, decl, mode) == Remaining(Reads(n, x, decl, Confused), mode)
    decreases n, 0
  {
    match n {
      case Member(_, _) => LeafReadsSubstituted(n, x, y, decl, mode);
      case Index(_, _, _) => LeafReadsSubstituted(n, x, y, decl, mode);
      case Call(callee, args) =>
        ReadsSubstituted(callee, x, y, decl, mode);
        AllReadsSubstituted(args, x, y, decl, mode);
      case Spread(argument) => ReadsSubstituted(argument, x, y, decl, mode);
      case Parts(_, parts) => AllReadsSubstituted(parts, x, y, decl, mode);
      case Declare(_, _, inits) => AllReadsSubstituted(inits, x, y, decl, mode);
      case Scope(_, _, heads, body) =>
        if !Binds(n, x, None) {
          AllReadsSubstituted(heads, x, y, decl, mode);
          AllReadsSubstituted(body, x, y, decl, mode);
        }
        ScopeReadsSubstituted(n, x, y, decl, mode);
      case _ =>
    }
  }

  lemma ScopeReadsSubstituted(n: Node, x: string, y: string, decl: nat, mode: Mode)
    requires n.Scope? && Lacks(n, decl) && x != y
    requires !Binds(n, x, None) ==>
      && ReadsAll(SubstituteAll(n.heads, x, y), x, decl, mode) == Remaining(ReadsAll(n.heads, x, decl, Confused), mode)
      && ReadsAll(SubstituteAll(n.body, x, y), x, decl, mode) == Remaining(ReadsAll(n.body, x, decl, Confused), mode)
    ensures Reads(Substitute(n, x, y), x, decl, mode) == Remaining(Reads(n, x, decl, Confused), mode)
  {
    SameBinding(n, x, decl);
    if !Binds(n, x, None) {
      var m := Substitute(n, x, y);
      BindingStays(n, x, y, x, None);
      LacksSubstituted(n, x, y, decl);
      SameBinding(m, x, decl);
      assert !Hides(m, x) && !Confuses(m, x, decl) && !Hides(n, x) && !Confuses(n, x, decl);
    }
  }

  lemma {:induction false} AllReadsSubstituted(ns: seq<Node>, x: string, y: string, decl: nat, mode: Mode)
    requires AllLack(ns, decl) && x != y
    ensures ReadsAll(SubstituteAll(ns, x, y), x, decl, mode) == Remaining(ReadsAll(ns, x, decl, Confused), mode)
    decreases ns, 1
  {
    if ns != [] {
      ReadsSubstituted(ns[0], x, y, decl, mode);
      AllReadsSubstituted(ns[1..], x, y, decl, mode);
      assert SubstituteAll(ns, x, y)[1..] == SubstituteAll(ns[1..], x, y);
    }
  }

  lemma {:induction false} ReadsRenamed(ns: seq<Node>, x: string, y: string, decl: nat, mode: Mode)
    requires AllLack(ns, decl) && x != y
    ensures ReadsAll(RenameStmts(ns, x, y), x, decl, mode) == Remaining(ReadsAll(ns, x, decl, Confused), mode)
  {
    if ns != [] {
      StmtReadsRenamed(ns[0], x, y, decl, mode);
      ReadsRenamed(ns[1..], x, y, decl, mode);
      assert RenameStmts(ns, x, y)[1..] == RenameStmts(ns[1..], x, y);
    }
  }

  lemma StmtReadsRenamed(n: Node, x: string, y: string, decl: nat, mode: Mode)
    requires Lacks(n, decl) && x != y
    ensures Reads(RenameStmt(n, x, y), x, decl, mode) == Remaining(Reads(n, x, decl, Confused), mode)
  {
    match n {
      case Declare(_, _, inits) => AllReadsSubstituted(inits, x, y, decl, mode);
      case Scope(FunctionDecl(_, _), _, _, _) =>
      case _ => ReadsSubstituted(n, x, y, decl, mode);
    }
  }

  lemma ParamsRenamed(ps: seq<Param>, x: string, y: string)
    requires x != y
    ensures !ParamsBind(RenameParams(ps, x, y), x)
  {
    forall i | 0 <= i < |ps| ensures !ParamBinds(RenameParams(ps, x, y)[i], x) {
      ParamRenamed(ps[i], x, y);
    }
  }

  lemma ParamRenamed(p: Param, x: string, y: string)
    requires x != y
    ensures !ParamBinds(RenameParam(p, x, y), x)
  {
  }

  lemma StmtRenamed(n: Node, x: string, y: string)
    requires x != y
    ensures DeclaresAt(RenameStmt(n, x, y), x).None?
  {
    if n.Declare? {
      ParamRenamed(n.param, x, y);
    }
  }

  /** A renamed scope does not bind the old name. */
  lemma NoLongerBinds(n: Node, x: string, y: string, except: Option<nat>)
    requires n.Scope? && x != y && (n.kind.FunctionDecl? ==> n.kind.name != x)
    ensures !Binds(RenameScope(n, x, y), x, except)
  {
    var body := RenameStmts(n.body, x, y);
    AllAre(n.body, x, y);
    ParamsRenamed(n.params, x, y);
    forall i | 0 <= i < |body| ensures DeclaresAt(body[i], x).None? {
      StmtRenamed(n.body[i], x, y);
    }
  }

  /** Of a renamed scope only what its confusing blocks read can still be taken for reads of `x`. */
  lemma RenamedScopeReads(n: Node, x: string, y: string, decl: nat, mode: Mode)
    requires IsRenamable(n, x, decl) && x != y
    ensures Reads(RenameScope(n, x, y), x, decl, mode)
         == if mode.Clear? || IsFunction(n) then Nothing else ReadsIn(n, x, decl, Confused)
  {
    var m := RenameScope(n, x, y);
    NoLongerBinds(n, x, y, None);
    NoLongerBinds(n, x, y, Some(decl));
    AllReadsSubstituted(n.heads, x, y, decl, mode);
    ReadsRenamed(n.body, x, y, decl, mode);
    assert m.heads == SubstituteAll(n.heads, x, y) && m.body == RenameStmts(n.body, x, y);
    if !IsFunction(n) {
      OpenScopeReads(m, x, decl, mode);
    }
  }

  /** A scope that does not bind the name is simply entered. */
  lemma OpenScopeReads(m: Node, x: string, decl: nat, mode: Mode)
    requires m.Scope? && !IsFunction(m) && !Binds(m, x, None) && !Binds(m, x, Some(decl))
    ensures Reads(m, x, decl, mode) == ReadsIn(m, x, decl, mode)
  {
    assert !Hides(m, x) && !Confuses(m, x, decl);
  }

  // ---- the callback tracker lies between ----

  lemma {:induction false} ConfusedIsLess(n: Node, x: string, decl: nat)
    ensures Within(Reads(n, x, decl, Confused), Reads(n, x, decl, Most))
    decreases n, 1
  {
    match n {
      case Call(callee, args) =>
        ConfusedIsLess(callee, x, decl);
        AllConfusedIsLess(args, x, decl);
      case Spread(argument) => ConfusedIsLess(argument, x, decl);
      case Parts(_, parts) => AllConfusedIsLess(parts, x, decl);
      case Declare(_, _, inits) => AllConfusedIsLess(inits, x, decl);
      case Scope(_, _, _, _) => ScopeConfusedIsLess(n, x, decl);
      case _ =>
    }
  }

  lemma {:induction false} ScopeConfusedIsLess(n: Node, x: string, decl: nat)
    requires n.Scope?
    ensures Within(ReadsIn(n, x, decl, Confused), ReadsIn(n, x, decl, Most))
    decreases n, 0
  {
    AllConfusedIsLess(n.heads, x, decl);
    AllConfusedIsLess(n.body, x, decl);
  }

  lemma {:induction false} AllConfusedIsLess(ns: seq<Node>, x: string, decl: nat)
    ensures Within(ReadsAll(ns, x, decl, Confused), ReadsAll(ns, x, decl, Most))
    decreases ns, 2
  {
    if ns != [] {
      ConfusedIsLess(ns[0], x, decl);
      AllConfusedIsLess(ns[1..], x, decl);
    }
  }

  ghost predicate Between(low: Access, a: Access, high: Access) {
    Within(low, a) && Within(a, high)
  }

  /** What the tracker itself reads inside a scope it enters. */
  function PlainIn(n: Node, x: string): Access
    requires n.Scope?
  {
    Join(if IsTry(n) then Nothing else ItemAccessAll(n.heads, x), ItemAccessAll(n.body, x))
  }

  lemma ScopeItems(n: Node, x: string)
    requires n.Scope?
    ensures ItemAccess(n, x) == if IsFunction(n) || Hides(n, x) then Nothing else PlainIn(n, x)
  {
    JoinNothing(ItemAccessAll(n.body, x));
  }

  lemma ScopeBetween(n: Node, x: string, decl: nat)
    requires n.Scope?
    requires ItemAllBetween(n.heads, x, decl) && ItemAllBetween(n.body, x, decl)
    ensures ItemBetween(n, x, decl)
  {
    ScopeItems(n, x);
    if !IsFunction(n) && !Hides(n, x) {
      assert Between(ReadsIn(n, x, decl, Clear), PlainIn(n, x), ReadsIn(n, x, decl, Most));
    }
  }

  ghost predicate ItemBetween(n: Node, x: string, decl: nat) {
    Between(Reads(n, x, decl, Clear), ItemAccess(n, x), Reads(n, x, decl, Most))
  }

  ghost predicate ItemAllBetween(ns: seq<Node>, x: string, decl: nat) {
    Between(ReadsAll(ns, x, decl, Clear), ItemAccessAll(ns, x), ReadsAll(ns, x, decl, Most))
  }

  lemma PartsBetween(n: Node, x: string, decl: nat)
    requires match n
             case Call(callee, args) => ItemBetween(callee, x, decl) && ItemAllBetween(args, x, decl)
             case Spread(argument) => ItemBetween(argument, x, decl)
             case Parts(_, parts) => ItemAllBetween(parts, x, decl)
             case Declare(_, _, inits) => ItemAllBetween(inits, x, decl)
             case Scope(_, _, _, _) => ItemBetween(n, x, decl)
             case _ => true
    ensures ItemBetween(n, x, decl)
  {
  }

  lemma {:induction false} ItemsBetween(n: Node, x: string, decl: nat)
    ensures ItemBetween(n, x, decl)
    decreases n, 0
  {
    match n {
      case Call(callee, args) =>
        ItemsBetween(callee, x, decl);
        AllItemsBetween(args, x, decl);
      case Spread(argument) => ItemsBetween(argument, x, decl);
      case Parts(_, parts) => AllItemsBetween(parts, x, decl);
      case Declare(_, _, inits) => AllItemsBetween(inits, x, decl);
      case Scope(_, _, heads, body) =>
        AllItemsBetween(heads, x, decl);
        AllItemsBetween(body, x, decl);
        ScopeBetween(n, x, decl);
      case _ =>
    }
    PartsBetween(n, x, decl);
  }

  lemma {:induction false} AllItemsBetween(ns: seq<Node>, x: string, decl: nat)
    ensures ItemAllBetween(ns, x, decl)
    decreases ns, 1
  {
    if ns != [] {
      ItemsBetween(ns[0], x, decl);
      AllItemsBetween(ns[1..], x, decl);
    }
  }

  // ---- renaming and reads ----

  /** Renaming leaves the clear reads alone and never adds to the most there can be. */
  ghost predicate Kept(before: Access, after: Access, mode: Mode) {
    if mode.Clear? then after == before else Within(after, before)
  }

  lemma {:induction false} ReadsKept(n: Node, m: Node, x: string, decl: nat, taken: set<string>, mode: Mode)
    requires Renamed(n, m, x, decl, taken)
    ensures Kept(Reads(n, x, decl, mode), Reads(m, x, decl, mode), mode)
    decreases n, 1
  {
    if Like(n, m, x, decl, taken) {
      LikeReads(n, m, x, decl, taken, mode);
    } else {
      var k, y :| Like(n, k, x, decl, taken) && IsRenamable(n, x, decl) && IsRenaming(k, m, y, x, decl, taken);
      RenamedScopeReads(k, x, y, decl, mode);
      if !mode.Clear? && !IsFunction(n) {
        LikeReadsIn(n, k, x, decl, taken, Confused);
        ScopeConfusedIsLess(n, x, decl);
      }
    }
  }

  lemma {:induction false} LikeReadsIn(n: Node, m: Node, x: string, decl: nat, taken: set<string>, mode: Mode)
    requires n.Scope? && Like(n, m, x, decl, taken)
    ensures Kept(ReadsIn(n, x, decl, mode), ReadsIn(m, x, decl, mode), mode)
    decreases n, 0, 0
  {
    AllReadsKept(n.heads, m.heads, x, decl, taken, mode);
    AllReadsKept(n.body, m.body, x, decl, taken, mode);
  }

  /** Scopes that are alike are entered alike. */
  lemma SameEntry(n: Node, m: Node, x: string, decl: nat, taken: set<string>)
    requires n.Scope? && Like(n, m, x, decl, taken)
    ensures IsFunction(m) == IsFunction(n) && IsTry(m) == IsTry(n) && Hides(m, x) == Hides(n, x)
    ensures IsRenamable(m, x, decl) == IsRenamable(n, x, decl) && Confuses(m, x, decl) == Confuses(n, x, decl)
  {
    ShadowsKept(n.body, m.body, x, decl, taken, x, None);
    ShadowsKept(n.body, m.body, x, decl, taken, x, Some(decl));
    LikeLacks(n, m, x, decl, taken);
  }

  lemma {:induction false} LikeReads(n: Node, m: Node, x: string, decl: nat, taken: set<string>, mode: Mode)
    requires Like(n, m, x, decl, taken)
    ensures Kept(Reads(n, x, decl, mode), Reads(m, x, decl, mode), mode)
    decreases n, 0, 1
  {
    match n {
      case Member(_, _) => ChainKept(n, m, x, decl, taken);
      case Index(obj, _, _) =>
        ChainKept(n, m, x, decl, taken);
        NameKept(obj, m.obj, x, decl, taken, x);
      case Call(callee, args) =>
        ReadsKept(callee, m.callee, x, decl, taken, mode);
        AllReadsKept(args, m.args, x, decl, taken, mode);
      case Spread(argument) =>
        ReadsKept(argument, m.argument, x, decl, taken, mode);
        NameKept(argument, m.argument, x, decl, taken, x);
      case Parts(_, parts) => AllReadsKept(parts, m.parts, x, decl, taken, mode);
      case Declare(_, _, inits) => AllReadsKept(inits, m.inits, x, decl, taken, mode);
      case Scope(_, _, _, _) =>
        SameEntry(n, m, x, decl, taken);
        LikeReadsIn(n, m, x, decl, taken,
                    if Hides(n, x) then Confused else if Confuses(n, x, decl) then Most else mode);
      case _ =>
    }
  }

  lemma {:induction false} AllReadsKept(ns: seq<Node>, ms: seq<Node>, x: string, decl: nat, taken: set<string>,
                                        mode: Mode)
    requires AllRenamed(ns, ms, x, decl, taken)
    ensures Kept(ReadsAll(ns, x, decl, mode), ReadsAll(ms, x, decl, mode), mode)
    decreases ns, 2
  {
    if ns != [] {
      ReadsKept(ns[0], ms[0], x, decl, taken, mode);
      AllReadsKept(ns[1..], ms[1..], x, decl, taken, mode);
    }
  }

  // ---- a renamed callback ----

  lemma {:induction false} FreshAt(ns: seq<Node>, p: string, i: nat)
    requires AllFresh(ns, p) && i < |ns|
    ensures DeclaresAt(ns[i], p).None?
    decreases ns
  {
    if i > 0 {
      FreshAt(ns[1..], p, i - 1);
    }
  }

  lemma FreshDeclares(ns: seq<Node>, p: string)
    requires AllFresh(ns, p)
    ensures !BodyShadows(ns, p, None)
  {
    forall i | 0 <= i < |ns| ensures DeclaresAt(ns[i], p).None? {
      FreshAt(ns, p, i);
    }
  }

  lemma {:induction false} FreshChain(n: Node, p: string)
    requires IsFresh(n, p)
    ensures ChainOf(n).Some? ==> ChainOf(n).value[0] != p
    decreases n
  {
    match n {
      case Member(obj, _) => FreshChain(obj, p);
      case Index(obj, _, _) => FreshChain(obj, p);
      case Chain(Member(obj, _)) => FreshChain(obj, p);
      case Chain(Index(obj, _, _)) => FreshChain(obj, p);
      case Chain(Call(callee, _)) => FreshChain(callee, p);
      case _ =>
    }
  }

  lemma {:induction false} FreshItems(n: Node, p: string)
    requires IsFresh(n, p)
    ensures ItemAccess(n, p) == Nothing
    decreases n, 0
  {
    match n {
      case Member(_, _) => FreshChain(n, p);
      case Index(_, _, _) => FreshChain(n, p);
      case Call(callee, args) =>
        FreshItems(callee, p);
        AllFreshItems(args, p);
      case Spread(argument) => FreshItems(argument, p);
      case Parts(_, parts) => AllFreshItems(parts, p);
      case Declare(_, _, inits) => AllFreshItems(inits, p);
      case Scope(_, _, heads, body) =>
        AllFreshItems(heads, p);
        AllFreshItems(body, p);
      case _ =>
    }
  }

  lemma {:induction false} AllFreshItems(ns: seq<Node>, p: string)
    requires AllFresh(ns, p)
    ensures ItemAccessAll(ns, p) == Nothing
    decreases ns, 1
  {
    if ns != [] {
      FreshItems(ns[0], p);
      AllFreshItems(ns[1..], p);
    }
  }

  lemma CallbackFieldMoves(n: Node, x: string, y: string)
    requires IsFresh(n, y)
    ensures CallbackField(Substitute(n, x, y), y) == CallbackField(n, x)
  {
    ChainSubstituted(n, x, y);
    if ChainOf(n).Some? { NewHead(ChainOf(n).value, NewName(ChainOf(n).value[0], x, y)); }
    FreshChain(n, y);
  }

  lemma NameMoves(n: Node, x: string, y: string)
    requires IsFresh(n, y)
    ensures Substitute(n, x, y) == Name(y) <==> n == Name(x)
  {
  }

  /** What was clearly read of `x` is read of `y` after the substitution. */
  lemma {:induction false} ItemsMove(n: Node, x: string, y: string, decl: nat)
    requires IsFresh(n, y) && Lacks(n, decl)
    ensures ItemAccess(Substitute(n, x, y), y) == Reads(n, x, decl, Clear)
    decreases n, 0
  {
    match n {
      case Member(_, _) => CallbackFieldMoves(n, x, y);
      case Index(obj, _, _) =>
        CallbackFieldMoves(n, x, y);
        NameMoves(obj, x, y);
      case Call(callee, args) =>
        ItemsMove(callee, x, y, decl);
        AllItemsMove(args, x, y, decl);
      case Spread(argument) =>
        ItemsMove(argument, x, y, decl);
        NameMoves(argument, x, y);
      case Parts(_, parts) => AllItemsMove(parts, x, y, decl);
      case Declare(_, _, inits) => AllItemsMove(inits, x, y, decl);
      case Scope(_, _, heads, body) =>
        SameBinding(n, x, decl);
        if Binds(n, x, None) {
          FreshItems(n, y);
        } else {
          FreshDeclares(body, y);
          BindingStays(n, x, y, y, None);
          ScopeItems(Substitute(n, x, y), y);
          AllItemsMove(heads, x, y, decl);
          AllItemsMove(body, x, y, decl);
        }
      case _ =>
    }
  }

  lemma {:induction false} AllItemsMove(ns: seq<Node>, x: string, y: string, decl: nat)
    requires AllFresh(ns, y) && AllLack(ns, decl)
    ensures ItemAccessAll(SubstituteAll(ns, x, y), y) == ReadsAll(ns, x, decl, Clear)
    decreases ns, 1
  {
    if ns != [] {
      ItemsMove(ns[0], x, y, decl);
      AllItemsMove(ns[1..], x, y, decl);
      assert SubstituteAll(ns, x, y)[1..] == SubstituteAll(ns[1..], x, y);
    }
  }

  lemma {:induction false} RenamedItemsMove(ns: seq<Node>, x: string, y: string, decl: nat)
    requires AllFresh(ns, y) && AllLack(ns, decl)
    ensures ItemAccessAll(RenameStmts(ns, x, y), y) == ReadsAll(ns, x, decl, Clear)
  {
    if ns != [] {
      RenamedItemsMove(ns[1..], x, y, decl);
      assert RenameStmts(ns, x, y)[1..] == RenameStmts(ns[1..], x, y);
      match ns[0] {
        case Declare(_, _, inits) => AllItemsMove(inits, x, y, decl);
        case Scope(FunctionDecl(_, _), _, _, _) =>
        case _ => ItemsMove(ns[0], x, y, decl);
      }
    }
  }

  // ---- the tracker of the query ----

  /** How callbacks over items are read: as the code does, or in one of the modes above. */
  datatype Items = Tracked | By(mode: Mode)

  function ItemsOf(body: seq<Node>, param: string, x: string, decl: nat, items: Items): Access {
    if items.By? && param == x then ReadsAll(body, x, decl, items.mode) else ItemAccessAll(body, param)
  }

  /** `Track`, with a choice of how callbacks are read. */
  function TrackWith(n: Node, x: string, decl: nat, items: Items): Access
    decreases n, 0
  {
    match n
    case Member(_, _) => OwnField(ChainOf(n), x)
    case Index(_, _, _) => OwnField(ChainOf(n), x)
    case Call(callee, args) =>
      var item := ItemCallback(callee, args, x);
      if item.Some? then OfItems(item.value.0, ItemsOf(args[0].body, item.value.1, x, decl, items), true)
      else Join(Opaque(SomeEscapes(args, x)),
                Join(TrackWith(callee, x, decl, items), TrackAllWith(args, x, decl, items)))
    case Chain(Call(callee, args)) =>
      var item := ItemCallback(callee, args, x);
      if item.Some? then OfItems(item.value.0, ItemsOf(args[0].body, item.value.1, x, decl, items), false)
      else Join(TrackWith(callee, x, decl, items), TrackAllWith(args, x, decl, items))
    case Chain(Member(obj, _)) => Join(OwnField(ChainOf(n), x), TrackWith(obj, x, decl, items))
    case Chain(_) => Nothing
    case Spread(argument) => Opaque(ChainOf(argument).Some? && ChainOf(argument).value[0] == x)
    case Parts(visible, parts) => if visible then TrackAllWith(parts, x, decl, items) else Nothing
    case Declare(_, _, inits) => TrackAllWith(inits, x, decl, items)
    case Scope(_, _, heads, body) =>
      if Binds(n, x, Some(decl)) then Nothing
      else
        var item := ItemLoop(n, x);
        if item.Some? then
          Join(OfItems(item.value.0, ItemAccessAll(body, item.value.1), true), TrackAllWith(heads, x, decl, items))
        else Join(TrackAllWith(heads, x, decl, items), TrackAllWith(body, x, decl, items))
    case Name(_) => Nothing
    case Other => Nothing
  }

  function TrackAllWith(ns: seq<Node>, x: string, decl: nat, items: Items): Access
    decreases ns, 1
  {
    if ns == [] then Nothing else Join(TrackWith(ns[0], x, decl, items), TrackAllWith(ns[1..], x, decl, items))
  }

  lemma {:induction false} AsTracked(n: Node, x: string, decl: nat)
    ensures TrackWith(n, x, decl, Tracked) == Track(n, x, decl)
    decreases n, 0
  {
    match n {
      case Call(callee, args) =>
        AsTracked(callee, x, decl);
        AllAsTracked(args, x, decl);
      case Chain(Call(callee, args)) =>
        AsTracked(callee, x, decl);
        AllAsTracked(args, x, decl);
      case Chain(Member(obj, _)) => AsTracked(obj, x, decl);
      case Parts(_, parts) => AllAsTracked(parts, x, decl);
      case Declare(_, _, inits) => AllAsTracked(inits, x, decl);
      case Scope(_, _, heads, body) =>
        AllAsTracked(heads, x, decl);
        AllAsTracked(body, x, decl);
      case _ =>
    }
  }

  lemma {:induction false} AllAsTracked(ns: seq<Node>, x: string, decl: nat)
    ensures TrackAllWith(ns, x, decl, Tracked) == TrackAll(ns, x, decl)
    decreases ns, 1
  {
    if ns != [] {
      AsTracked(ns[0], x, decl);
      AllAsTracked(ns[1..], x, decl);
    }
  }

  // ---- where no `x` is free nothing is recorded for it ----

  lemma EscapesNot(args: seq<Node>, x: string, y: string)
    requires x != y
    ensures !SomeEscapes(SubstituteAll(args, x, y), x)
  {
    AllAre(args, x, y);
    forall i | 0 <= i < |args| ensures !Escapes(SubstituteAll(args, x, y)[i], x) {
      ChainSubstituted(args[i], x, y);
    }
  }

  lemma LeafUntracked(n: Node, x: string, y: string, decl: nat, items: Items)
    requires (n.Member? || n.Index? || n.Spread?) && x != y
    ensures TrackWith(Substitute(n, x, y), x, decl, items) == Nothing
  {
    ChainSubstituted(if n.Spread? then n.argument else n, x, y);
  }

  lemma CallUntracked(callee: Node, args: seq<Node>, x: string, y: string, decl: nat, items: Items)
    requires x != y && TrackWith(Substitute(callee, x, y), x, decl, items) == Nothing
    requires TrackAllWith(SubstituteAll(args, x, y), x, decl, items) == Nothing
    ensures TrackWith(Substitute(Call(callee, args), x, y), x, decl, items) == Nothing
    ensures TrackWith(Substitute(Chain(Call(callee, args)), x, y), x, decl, items) == Nothing
  {
    NoItemsOf(callee, args, x, y);
  }

  lemma MemberUntracked(obj: Node, prop: string, x: string, y: string, decl: nat, items: Items)
    requires x != y && TrackWith(Substitute(obj, x, y), x, decl, items) == Nothing
    ensures TrackWith(Substitute(Chain(Member(obj, prop)), x, y), x, decl, items) == Nothing
  {
    ChainSubstituted(Chain(Member(obj, prop)), x, y);
  }

  lemma PartsUntracked(n: Node, parts: seq<Node>, x: string, y: string, decl: nat, items: Items)
    requires (n.Parts? && parts == n.parts) || (n.Declare? && parts == n.inits)
    requires TrackAllWith(SubstituteAll(parts, x, y), x, decl, items) == Nothing
    ensures TrackWith(Substitute(n, x, y), x, decl, items) == Nothing
  {
  }

  lemma {:induction false} SubstitutedUntracked(n: Node, x: string, y: string, decl: nat, items: Items)
    requires Lacks(n, decl) && x != y
    ensures TrackWith(Substitute(n, x, y), x, decl, items) == Nothing
    decreases n, 0
  {
    match n {
      case Member(_, _) => LeafUntracked(n, x, y, decl, items);
      case Index(_, _, _) => LeafUntracked(n, x, y, decl, items);
      case Spread(_) => LeafUntracked(n, x, y, decl, items);
      case Call(callee, args) =>
        SubstitutedUntracked(callee, x, y, decl, items);
        AllUntracked(args, x, y, decl, items);
        CallUntracked(callee, args, x, y, decl, items);
      case Chain(Call(callee, args)) =>
        SubstitutedUntracked(callee, x, y, decl, items);
        AllUntracked(args, x, y, decl, items);
        CallUntracked(callee, args, x, y, decl, items);
      case Chain(Member(obj, prop)) =>
        SubstitutedUntracked(obj, x, y, decl, items);
        MemberUntracked(obj, prop, x, y, decl, items);
      case Parts(_, parts) =>
        AllUntracked(parts, x, y, decl, items);
        PartsUntracked(n, parts, x, y, decl, items);
      case Declare(_, _, inits) =>
        AllUntracked(inits, x, y, decl, items);
        PartsUntracked(n, inits, x, y, decl, items);
      case Scope(_, _, heads, body) =>
        if !Binds(n, x, None) {
          AllUntracked(heads, x, y, decl, items);
          AllUntracked(body, x, y, decl, items);
        }
        ScopeUntracked(n, x, y, decl, items);
      case _ =>
    }
  }

  lemma ScopeUntracked(n: Node, x: string, y: string, decl: nat, items: Items)
    requires n.Scope? && Lacks(n, decl) && x != y
    requires !Binds(n, x, None) ==>
      && TrackAllWith(SubstituteAll(n.heads, x, y), x, decl, items) == Nothing
      && TrackAllWith(SubstituteAll(n.body, x, y), x, decl, items) == Nothing
    ensures TrackWith(Substitute(n, x, y), x, decl, items) == Nothing
  {
    SameBinding(n, x, decl);
    if !Binds(n, x, None) {
      NoLoopOver(n, x, y);
    }
  }

  lemma NoLoopOver(n: Node, x: string, y: string)
    requires n.Scope? && x != y
    ensures ItemLoop(Scope(n.kind, n.params, SubstituteAll(n.heads, x, y), n.body), x).None?
    ensures ItemLoop(Scope(n.kind, n.params, SubstituteAll(n.heads, x, y), SubstituteAll(n.body, x, y)), x).None?
  {
    if n.heads != [] {
      ChainSubstituted(n.heads[0], x, y);
    }
  }

  lemma NoItemsOf(callee: Node, args: seq<Node>, x: string, y: string)
    requires x != y
    ensures ItemCallback(Substitute(callee, x, y), SubstituteAll(args, x, y), x).None?
    ensures !SomeEscapes(SubstituteAll(args, x, y), x)
  {
    EscapesNot(args, x, y);
    if callee.Member? {
      ChainSubstituted(callee.obj, x, y);
    }
  }

  lemma {:induction false} AllUntracked(ns: seq<Node>, x: string, y: string, decl: nat, items: Items)
    requires AllLack(ns, decl) && x != y
    ensures TrackAllWith(SubstituteAll(ns, x, y), x, decl, items) == Nothing
    decreases ns, 1
  {
    if ns != [] {
      SubstitutedUntracked(ns[0], x, y, decl, items);
      AllUntracked(ns[1..], x, y, decl, items);
      assert SubstituteAll(ns, x, y)[1..] == SubstituteAll(ns[1..], x, y);
    }
  }

  lemma RenamedStmtUntracked(n: Node, x: string, y: string, decl: nat, items: Items)
    requires Lacks(n, decl) && x != y
    ensures TrackWith(RenameStmt(n, x, y), x, decl, items) == Nothing
  {
    match n {
      case Declare(_, _, inits) => AllUntracked(inits, x, y, decl, items);
      case Scope(FunctionDecl(name, span), params, heads, body) =>
        if name != x {
          SubstitutedUntracked(n, x, y, decl, items);
        } else {
          var m := RenameStmt(n, x, y);
          if ParamsBind(params, x) || BodyShadows(body, x, None) {
            SameBinding(m, x, decl);
          } else {
            AllUntracked(heads, x, y, decl, items);
            AllUntracked(body, x, y, decl, items);
          }
        }
      case _ => SubstitutedUntracked(n, x, y, decl, items);
    }
  }

  lemma {:induction false} RenamedStmtsUntracked(ns: seq<Node>, x: string, y: string, decl: nat, items: Items)
    requires AllLack(ns, decl) && x != y
    ensures TrackAllWith(RenameStmts(ns, x, y), x, decl, items) == Nothing
  {
    if ns != [] {
      RenamedStmtUntracked(ns[0], x, y, decl, items);
      RenamedStmtsUntracked(ns[1..], x, y, decl, items);
      assert RenameStmts(ns, x, y)[1..] == RenameStmts(ns[1..], x, y);
    }
  }

  /** A renamed scope has nothing for the query, as the shadowing one had nothing. */
  lemma RenamedScopeUntracked(n: Node, x: string, y: string, decl: nat, items: Items)
    requires n.Scope? && Lacks(n, decl) && x != y
    ensures TrackWith(RenameScope(n, x, y), x, decl, items) == Nothing
  {
    var m := RenameScope(n, x, y);
    AllUntracked(n.heads, x, y, decl, items);
    RenamedStmtsUntracked(n.body, x, y, decl, items);
    if n.heads != [] {
      ChainSubstituted(n.heads[0], x, y);
    }
    assert ItemLoop(m, x).None?;
  }

  // ---- renaming and the record ----

  lemma {:induction false} BelowLength(parent: string, fields: seq<string>)
    ensures |Below(parent, fields)| == |fields|
  {
    if fields != [] {
      BelowLength(parent, fields[1..]);
    }
  }

  lemma {:induction false} DeeperLength(parent: string, nested: seq<Nested>)
    ensures |Deeper(parent, nested)| == |nested|
  {
    if nested != [] {
      DeeperLength(parent, nested[1..]);
    }
  }

  lemma ItemsWithin(chain: seq<string>, a: Access, b: Access, keepPaths: bool)
    requires chain != [] && Within(a, b)
    ensures Within(OfItems(chain, a, keepPaths), OfItems(chain, b, keepPaths))
  {
    var parent := ExtractField(chain);
    if parent.Some? && parent.value.path == [] {
      var field := parent.value.field;
      BelowLength(field, a.fields);
      BelowLength(field, b.fields);
      DeeperLength(field, a.nested);
      DeeperLength(field, b.nested);
    }
  }

  lemma ItemsKeptOf(chain: seq<string>, a: Access, b: Access, keepPaths: bool, mode: Mode)
    requires chain != [] && Kept(a, b, mode)
    ensures Kept(OfItems(chain, a, keepPaths), OfItems(chain, b, keepPaths), mode)
  {
    if !mode.Clear? {
      ItemsWithin(chain, b, a, keepPaths);
    }
  }

  lemma ParamKnown(n: Node, index: nat, taken: set<string>)
    requires Known(n, taken) && CallbackParam(n, index).Some?
    ensures CallbackParam(n, index).value in taken
  {
    assert n.params[index] in n.params;
  }

  /** A callback that is itself renamed, or only inside. */
  lemma CallbackKept(n: Node, m: Node, x: string, decl: nat, taken: set<string>, mode: Mode, index: nat)
    requires Renamed(n, m, x, decl, taken) && Known(n, taken) && !mode.Confused?
    ensures CallbackParam(m, index).Some? <==> CallbackParam(n, index).Some?
    ensures CallbackParam(n, index).Some? ==>
      Kept(ItemsOf(n.body, CallbackParam(n, index).value, x, decl, By(mode)),
           ItemsOf(m.body, CallbackParam(m, index).value, x, decl, By(mode)), mode)
  {
    OnlyInside(n, m, x, decl, taken);
    if n.Scope? {
      if Like(n, m, x, decl, taken) {
        LikeCallbackKept(n, m, x, decl, taken, mode, index);
      } else {
        var k, y :| Like(n, k, x, decl, taken) && IsRenaming(k, m, y, x, decl, taken);
        RenamedCallbackKept(n, k, y, x, decl, taken, mode, index);
      }
    }
  }

  lemma LikeCallbackKept(n: Node, m: Node, x: string, decl: nat, taken: set<string>, mode: Mode, index: nat)
    requires n.Scope? && Like(n, m, x, decl, taken) && Known(n, taken)
    ensures CallbackParam(m, index) == CallbackParam(n, index)
    ensures CallbackParam(n, index).Some? ==>
      Kept(ItemsOf(n.body, CallbackParam(n, index).value, x, decl, By(mode)),
           ItemsOf(m.body, CallbackParam(n, index).value, x, decl, By(mode)), mode)
  {
    if CallbackParam(n, index).Some? {
      var p := CallbackParam(n, index).value;
      ParamKnown(n, index, taken);
      if p == x {
        AllReadsKept(n.body, m.body, x, decl, taken, mode);
      } else {
        AllItemsKept(n.body, m.body, x, decl, taken, p);
      }
    }
  }

  lemma RenamedCallbackKept(n: Node, k: Node, y: string, x: string, decl: nat, taken: set<string>, mode: Mode,
                            index: nat)
    requires n.Scope? && Like(n, k, x, decl, taken) && Known(n, taken) && !mode.Confused?
    requires IsRenaming(k, RenameScope(k, x, y), y, x, decl, taken)
    ensures var m := RenameScope(k, x, y);
      && (CallbackParam(m, index).Some? <==> CallbackParam(n, index).Some?)
      && (CallbackParam(n, index).Some? ==>
            Kept(ItemsOf(n.body, CallbackParam(n, index).value, x, decl, By(mode)),
                 ItemsOf(m.body, CallbackParam(m, index).value, x, decl, By(mode)), mode))
  {
    if CallbackParam(n, index).Some? {
      var p := CallbackParam(n, index).value;
      ParamKnown(n, index, taken);
      assert ParamBinds(k.params[index], p);
      if p == x {
        RenamedItemsMove(k.body, x, y, decl);
        AllReadsKept(n.body, k.body, x, decl, taken, Clear);
        AllItemsBetween(n.body, x, decl);
      } else {
        RenamedItemsStay(k.body, x, y, p);
        AllItemsKept(n.body, k.body, x, decl, taken, p);
      }
    }
  }

  /** A call over the query's items is one before and after. */
  lemma ItemCallKept(callee: Node, args: seq<Node>, callee2: Node, args2: seq<Node>, x: string, decl: nat,
                     taken: set<string>, mode: Mode)
    requires Renamed(callee, callee2, x, decl, taken) && AllRenamed(args, args2, x, decl, taken)
    requires AllKnown(args, taken) && !mode.Confused?
    ensures var a, b := ItemCallback(callee, args, x), ItemCallback(callee2, args2, x);
      (a.Some? <==> b.Some?)
      && (a.Some? ==>
            a.value.0 == b.value.0
            && Kept(ItemsOf(args[0].body, a.value.1, x, decl, By(mode)),
                    ItemsOf(args2[0].body, b.value.1, x, decl, By(mode)), mode))
  {
    OnlyInside(callee, callee2, x, decl, taken);
    if callee.Member? && args != [] && ItemIndex(callee.prop).Some? {
      ChainKept(callee.obj, callee2.obj, x, decl, taken);
      CallbackKept(args[0], args2[0], x, decl, taken, mode, ItemIndex(callee.prop).value);
    }
  }

  lemma {:induction false} TrackKept(n: Node, m: Node, x: string, decl: nat, taken: set<string>, mode: Mode)
    requires Renamed(n, m, x, decl, taken) && Known(n, taken) && !mode.Confused?
    ensures Kept(TrackWith(n, x, decl, By(mode)), TrackWith(m, x, decl, By(mode)), mode)
    decreases n, 1
  {
    if Like(n, m, x, decl, taken) {
      LikeTrackKept(n, m, x, decl, taken, mode);
    } else {
      var k, y :| Like(n, k, x, decl, taken) && IsRenamable(n, x, decl) && IsRenaming(k, m, y, x, decl, taken);
      RenamedScopeUntracked(k, x, y, decl, By(mode));
    }
  }

  lemma {:induction false} LikeTrackKept(n: Node, m: Node, x: string, decl: nat, taken: set<string>, mode: Mode)
    requires Like(n, m, x, decl, taken) && Known(n, taken) && !mode.Confused?
    ensures Kept(TrackWith(n, x, decl, By(mode)), TrackWith(m, x, decl, By(mode)), mode)
    decreases n, 0
  {
    match n {
      case Member(_, _) => ChainKept(n, m, x, decl, taken);
      case Index(_, _, _) => ChainKept(n, m, x, decl, taken);
      case Call(callee, args) =>
        TrackKept(callee, m.callee, x, decl, taken, mode);
        AllTrackKept(args, m.args, x, decl, taken, mode);
        CallTrackKept(callee, args, m.callee, m.args, x, decl, taken, mode);
      case Chain(inner) => InnerTrackKept(inner, m.inner, x, decl, taken, mode);
      case Spread(argument) => ChainKept(argument, m.argument, x, decl, taken);
      case Parts(_, parts) => AllTrackKept(parts, m.parts, x, decl, taken, mode);
      case Declare(_, _, inits) => AllTrackKept(inits, m.inits, x, decl, taken, mode);
      case Scope(_, _, heads, body) =>
        AllTrackKept(heads, m.heads, x, decl, taken, mode);
        AllTrackKept(body, m.body, x, decl, taken, mode);
        ScopeTrackKept(n, m, x, decl, taken, mode);
      case _ =>
    }
  }

  lemma CallTrackKept(callee: Node, args: seq<Node>, callee2: Node, args2: seq<Node>, x: string, decl: nat,
                      taken: set<string>, mode: Mode)
    requires Renamed(callee, callee2, x, decl, taken) && AllRenamed(args, args2, x, decl, taken)
    requires AllKnown(args, taken) && !mode.Confused?
    requires Kept(TrackWith(callee, x, decl, By(mode)), TrackWith(callee2, x, decl, By(mode)), mode)
    requires Kept(TrackAllWith(args, x, decl, By(mode)), TrackAllWith(args2, x, decl, By(mode)), mode)
    ensures Kept(TrackWith(Call(callee, args), x, decl, By(mode)), TrackWith(Call(callee2, args2), x, decl, By(mode)),
                 mode)
  {
    EscapesKept(args, args2, x, decl, taken);
    CallKept(callee, args, callee2, args2, x, decl, taken, mode, true);
  }

  lemma ScopeTrackKept(n: Node, m: Node, x: string, decl: nat, taken: set<string>, mode: Mode)
    requires n.Scope? && Like(n, m, x, decl, taken) && Known(n, taken) && !mode.Confused?
    requires Kept(TrackAllWith(n.heads, x, decl, By(mode)), TrackAllWith(m.heads, x, decl, By(mode)), mode)
    requires Kept(TrackAllWith(n.body, x, decl, By(mode)), TrackAllWith(m.body, x, decl, By(mode)), mode)
    ensures Kept(TrackWith(n, x, decl, By(mode)), TrackWith(m, x, decl, By(mode)), mode)
  {
    LoopKept(n, m, x, decl, taken);
  }

  lemma CallKept(callee: Node, args: seq<Node>, callee2: Node, args2: seq<Node>, x: string, decl: nat,
                 taken: set<string>, mode: Mode, keepPaths: bool)
    requires Renamed(callee, callee2, x, decl, taken) && AllRenamed(args, args2, x, decl, taken)
    requires AllKnown(args, taken) && !mode.Confused?
    ensures var a, b := ItemCallback(callee, args, x), ItemCallback(callee2, args2, x);
      (a.Some? <==> b.Some?)
      && (a.Some? ==>
            Kept(OfItems(a.value.0, ItemsOf(args[0].body, a.value.1, x, decl, By(mode)), keepPaths),
                 OfItems(b.value.0, ItemsOf(args2[0].body, b.value.1, x, decl, By(mode)), keepPaths), mode))
  {
    ItemCallKept(callee, args, callee2, args2, x, decl, taken, mode);
    var a, b := ItemCallback(callee, args, x), ItemCallback(callee2, args2, x);
    if a.Some? {
      ItemsKeptOf(a.value.0, ItemsOf(args[0].body, a.value.1, x, decl, By(mode)),
                  ItemsOf(args2[0].body, b.value.1, x, decl, By(mode)), keepPaths, mode);
    }
  }

  lemma {:induction false} InnerTrackKept(n: Node, m: Node, x: string, decl: nat, taken: set<string>, mode: Mode)
    requires Renamed(n, m, x, decl, taken) && Known(n, taken) && !mode.Confused?
    ensures Kept(TrackWith(Chain(n), x, decl, By(mode)), TrackWith(Chain(m), x, decl, By(mode)), mode)
    decreases n, 1
  {
    OnlyInside(n, m, x, decl, taken);
    match n {
      case Call(callee, args) =>
        CallKept(callee, args, m.callee, m.args, x, decl, taken, mode, false);
        TrackKept(callee, m.callee, x, decl, taken, mode);
        AllTrackKept(args, m.args, x, decl, taken, mode);
      case Member(obj, _) =>
        InnerChainKept(n, m, x, decl, taken);
        TrackKept(obj, m.obj, x, decl, taken, mode);
      case _ =>
    }
  }

  /** Loops over the query's items. */
  lemma LoopKept(n: Node, m: Node, x: string, decl: nat, taken: set<string>)
    requires n.Scope? && Like(n, m, x, decl, taken) && Known(n, taken)
    ensures Binds(m, x, Some(decl)) <==> Binds(n, x, Some(decl))
    ensures ItemLoop(m, x) == ItemLoop(n, x)
    ensures !Binds(n, x, Some(decl)) && ItemLoop(n, x).Some? ==>
      ItemAccessAll(m.body, ItemLoop(n, x).value.1) == ItemAccessAll(n.body, ItemLoop(n, x).value.1)
  {
    ShadowsKept(n.body, m.body, x, decl, taken, x, Some(decl));
    if n.heads != [] {
      ChainKept(n.heads[0], m.heads[0], x, decl, taken);
    }
    if !Binds(n, x, Some(decl)) && ItemLoop(n, x).Some? {
      assert ParamBinds(n.params[0], n.params[0].name) && n.params[0] in n.params;
      AllItemsKept(n.body, m.body, x, decl, taken, n.params[0].name);
    }
  }

  lemma {:induction false} AllTrackKept(ns: seq<Node>, ms: seq<Node>, x: string, decl: nat, taken: set<string>,
                                        mode: Mode)
    requires AllRenamed(ns, ms, x, decl, taken) && AllKnown(ns, taken) && !mode.Confused?
    ensures Kept(TrackAllWith(ns, x, decl, By(mode)), TrackAllWith(ms, x, decl, By(mode)), mode)
    decreases ns, 2
  {
    if ns != [] {
      TrackKept(ns[0], ms[0], x, decl, taken, mode);
      AllTrackKept(ns[1..], ms[1..], x, decl, taken, mode);
    }
  }

  // ---- the record lies between ----

  ghost predicate BetweenAll(ns: seq<Node>, x: string, decl: nat) {
    Between(TrackAllWith(ns, x, decl, By(Clear)), TrackAll(ns, x, decl), TrackAllWith(ns, x, decl, By(Most)))
  }

  ghost predicate BetweenOne(n: Node, x: string, decl: nat) {
    Between(TrackWith(n, x, decl, By(Clear)), Track(n, x, decl), TrackWith(n, x, decl, By(Most)))
  }

  lemma BetweenJoin(a: Access, b: Access, c: Access, d: Access, e: Access, f: Access)
    requires Between(a, b, c) && Between(d, e, f)
    ensures Between(Join(a, d), Join(b, e), Join(c, f))
  {
    WithinJoin(a, b, d, e);
    WithinJoin(b, c, e, f);
  }

  /** What a scope that does not shadow the query records. */
  function InScope(n: Node, x: string, heads: Access, body: Access): Access
    requires n.Scope?
  {
    var item := ItemLoop(n, x);
    if item.Some? then Join(OfItems(item.value.0, ItemAccessAll(n.body, item.value.1), true), heads)
    else Join(heads, body)
  }

  lemma ScopeRecords(n: Node, x: string, decl: nat, items: Items)
    requires n.Scope?
    ensures TrackWith(n, x, decl, items)
         == if Binds(n, x, Some(decl)) then Nothing
            else InScope(n, x, TrackAllWith(n.heads, x, decl, items), TrackAllWith(n.body, x, decl, items))
    ensures Track(n, x, decl)
         == if Binds(n, x, Some(decl)) then Nothing
            else InScope(n, x, TrackAll(n.heads, x, decl), TrackAll(n.body, x, decl))
  {
  }

  lemma InScopeBetween(n: Node, x: string, a: Access, b: Access, c: Access, d: Access, e: Access, f: Access)
    requires n.Scope? && Between(a, b, c) && Between(d, e, f)
    ensures Between(InScope(n, x, a, d), InScope(n, x, b, e), InScope(n, x, c, f))
  {
    var item := ItemLoop(n, x);
    if item.Some? {
      var own := OfItems(item.value.0, ItemAccessAll(n.body, item.value.1), true);
      BetweenJoin(own, own, own, a, b, c);
    } else {
      BetweenJoin(a, b, c, d, e, f);
    }
  }

  lemma ScopeTrackBetween(n: Node, x: string, decl: nat)
    requires n.Scope? && BetweenAll(n.heads, x, decl) && BetweenAll(n.body, x, decl)
    ensures BetweenOne(n, x, decl)
  {
    ScopeRecords(n, x, decl, By(Clear));
    ScopeRecords(n, x, decl, By(Most));
    InScopeBetween(n, x,
      TrackAllWith(n.heads, x, decl, By(Clear)), TrackAll(n.heads, x, decl), TrackAllWith(n.heads, x, decl, By(Most)),
      TrackAllWith(n.body, x, decl, By(Clear)), TrackAll(n.body, x, decl), TrackAllWith(n.body, x, decl, By(Most)));
  }

  lemma CallTrackBetween(callee: Node, args: seq<Node>, x: string, decl: nat)
    requires BetweenOne(callee, x, decl) && BetweenAll(args, x, decl)
    ensures BetweenOne(Call(callee, args), x, decl) && BetweenOne(Chain(Call(callee, args)), x, decl)
  {
    DirectTrackBetween(callee, args, x, decl);
    ChainTrackBetween(callee, args, x, decl);
  }

  lemma DirectTrackBetween(callee: Node, args: seq<Node>, x: string, decl: nat)
    requires BetweenOne(callee, x, decl) && BetweenAll(args, x, decl)
    ensures BetweenOne(Call(callee, args), x, decl)
  {
    if ItemCallback(callee, args, x).Some? {
      CallBetween(callee, args, x, decl, true);
    } else {
      var own := Opaque(SomeEscapes(args, x));
      BetweenJoin(TrackWith(callee, x, decl, By(Clear)), Track(callee, x, decl), TrackWith(callee, x, decl, By(Most)),
                  TrackAllWith(args, x, decl, By(Clear)), TrackAll(args, x, decl),
                  TrackAllWith(args, x, decl, By(Most)));
    }
  }

  lemma ChainTrackBetween(callee: Node, args: seq<Node>, x: string, decl: nat)
    requires BetweenOne(callee, x, decl) && BetweenAll(args, x, decl)
    ensures BetweenOne(Chain(Call(callee, args)), x, decl)
  {
    if ItemCallback(callee, args, x).Some? {
      CallBetween(callee, args, x, decl, false);
    } else {
      BetweenJoin(TrackWith(callee, x, decl, By(Clear)), Track(callee, x, decl), TrackWith(callee, x, decl, By(Most)),
                  TrackAllWith(args, x, decl, By(Clear)), TrackAll(args, x, decl),
                  TrackAllWith(args, x, decl, By(Most)));
    }
  }

  lemma MemberTrackBetween(n: Node, x: string, decl: nat)
    requires n.Chain? && n.inner.Member? && BetweenOne(n.inner.obj, x, decl)
    ensures BetweenOne(n, x, decl)
  {
    var own := OwnField(ChainOf(n), x);
    BetweenJoin(own, own, own, TrackWith(n.inner.obj, x, decl, By(Clear)), Track(n.inner.obj, x, decl),
                TrackWith(n.inner.obj, x, decl, By(Most)));
  }

  lemma PartsTrackBetween(n: Node, x: string, decl: nat)
    requires match n
             case Call(_, _) => BetweenOne(n, x, decl)
             case Chain(Call(_, _)) => BetweenOne(n, x, decl)
             case Chain(Member(_, _)) => BetweenOne(n, x, decl)
             case Parts(_, parts) => BetweenAll(parts, x, decl)
             case Declare(_, _, inits) => BetweenAll(inits, x, decl)
             case Scope(_, _, _, _) => BetweenOne(n, x, decl)
             case _ => true
    ensures BetweenOne(n, x, decl)
  {
  }

  lemma {:induction false} TrackBetween(n: Node, x: string, decl: nat)
    ensures BetweenOne(n, x, decl)
    decreases n, 0
  {
    match n {
      case Call(callee, args) =>
        TrackBetween(callee, x, decl);
        AllTrackBetween(args, x, decl);
        CallTrackBetween(callee, args, x, decl);
      case Chain(Call(callee, args)) =>
        TrackBetween(callee, x, decl);
        AllTrackBetween(args, x, decl);
        CallTrackBetween(callee, args, x, decl);
      case Chain(Member(obj, _)) =>
        TrackBetween(obj, x, decl);
        MemberTrackBetween(n, x, decl);
      case Parts(_, parts) => AllTrackBetween(parts, x, decl);
      case Declare(_, _, inits) => AllTrackBetween(inits, x, decl);
      case Scope(_, _, heads, body) =>
        AllTrackBetween(heads, x, decl);
        AllTrackBetween(body, x, decl);
        ScopeTrackBetween(n, x, decl);
      case _ =>
    }
    PartsTrackBetween(n, x, decl);
  }

  lemma CallBetween(callee: Node, args: seq<Node>, x: string, decl: nat, keepPaths: bool)
    ensures var item := ItemCallback(callee, args, x);
      item.Some? ==>
        Between(OfItems(item.value.0, ItemsOf(args[0].body, item.value.1, x, decl, By(Clear)), keepPaths),
                OfItems(item.value.0, ItemAccessAll(args[0].body, item.value.1), keepPaths),
                OfItems(item.value.0, ItemsOf(args[0].body, item.value.1, x, decl, By(Most)), keepPaths))
  {
    var item := ItemCallback(callee, args, x);
    if item.Some? {
      var body, p := args[0].body, item.value.1;
      AllItemsBetween(body, x, decl);
      ItemsWithin(item.value.0, ItemsOf(body, p, x, decl, By(Clear)), ItemAccessAll(body, p), keepPaths);
      ItemsWithin(item.value.0, ItemAccessAll(body, p), ItemsOf(body, p, x, decl, By(Most)), keepPaths);
    }
  }

  lemma {:induction false} AllTrackBetween(ns: seq<Node>, x: string, decl: nat)
    ensures BetweenAll(ns, x, decl)
    decreases ns, 1
  {
    if ns != [] {
      TrackBetween(ns[0], x, decl);
      AllTrackBetween(ns[1..], x, decl);
    }
  }

  /** Where nothing can be confused no renaming changes the record. */
  lemma KeptWhenClear(ns: seq<Node>, ms: seq<Node>, x: string, decl: nat, taken: set<string>)
    requires AllRenamed(ns, ms, x, decl, taken) && AllKnown(ns, taken)
    requires TrackAllWith(ns, x, decl, By(Most)) == TrackAllWith(ns, x, decl, By(Clear))
    ensures TrackAll(ms, x, decl) == TrackAll(ns, x, decl)
  {
    AllTrackKept(ns, ms, x, decl, taken, Clear);
    AllTrackKept(ns, ms, x, decl, taken, Most);
    AllTrackBetween(ns, x, decl);
    AllTrackBetween(ms, x, decl);
    var clear := TrackAllWith(ns, x, decl, By(Clear));
    WithinTwice(TrackAll(ms, x, decl), TrackAllWith(ms, x, decl, By(Most)), clear);
    WithinBoth(TrackAll(ms, x, decl), clear);
    WithinBoth(TrackAll(ns, x, decl), clear);
  }
}
