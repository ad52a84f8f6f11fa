/**
 Which fields of a query variable a file reads
 (native/vertz-compiler-core/src/field_selection.rs). One datatype stands for
 statements and expressions alike; scopes keep their kind, because the trackers
 treat the kinds differently.
 */
module FieldTracking {
  import opened JsxSyntax

  datatype Param = Simple(name: string) | Pattern(names: seq<string>)

  datatype Kind =
    | FunctionDecl(name: string, span: nat)
    | FunctionExpr(own: Option<string>)      // arrows have no name of their own
    | BlockScope
    | TryBlock                               // a `try` or `finally` block
    | Catch
    | For                                    // `for` and `for-in`
    | ForOf

  datatype Node =
    | Name(name: string)
    | Member(obj: Node, prop: string)
    | Index(obj: Node, index: Node, numeric: bool)
    | Call(callee: Node, args: seq<Node>)
    | Chain(inner: Node)                     // an optional chain
    | Spread(argument: Node)                 // in an object literal
    | Parts(visible: bool, parts: seq<Node>) // other constructs; only the callback tracker looks into invisible ones
    | Declare(param: Param, span: nat, inits: seq<Node>)
    | Scope(kind: Kind, params: seq<Param>, heads: seq<Node>, body: seq<Node>)
    | Other

  // ---- bindings ----

  predicate ParamBinds(param: Param, name: string) {
    match param
    case Simple(own) => own == name
    case Pattern(names) => name in names
  }

  predicate ParamsBind(params: seq<Param>, name: string) {
    exists i :: 0 <= i < |params| && ParamBinds(params[i], name)
  }

  /** Where a statement declares a name in the scope it stands in. */
  function DeclaresAt(n: Node, name: string): Option<nat> {
    match n
    case Declare(param, span, _) => if ParamBinds(param, name) then Some(span) else None
    case Scope(FunctionDecl(own, span), _, _, _) => if own == name then Some(span) else None
    case _ => None
  }

  predicate BodyShadows(body: seq<Node>, name: string, except: Option<nat>) {
    exists i :: 0 <= i < |body| && DeclaresAt(body[i], name).Some? && DeclaresAt(body[i], name) != except
  }

  /** Does the scope bind the name anew, at another place than `except`? */
  predicate Binds(n: Node, name: string, except: Option<nat>)
    requires n.Scope?
  {
    match n.kind
    case FunctionDecl(own, _) => own == name || ParamsBind(n.params, name) || BodyShadows(n.body, name, except)
    case FunctionExpr(own) => own == Some(name) || ParamsBind(n.params, name) || BodyShadows(n.body, name, except)
    case BlockScope => BodyShadows(n.body, name, except)
    case TryBlock => BodyShadows(n.body, name, except)
    case Catch => ParamsBind(n.params, name) || BodyShadows(n.body, name, except)
    case For => ParamsBind(n.params, name)
    case ForOf => ParamsBind(n.params, name)
  }

  // ---- property chains ----

  function ChainOf(n: Node): (r: Option<seq<string>>)
    ensures r.Some? ==> r.value != []
  {
    match n
    case Name(name) => Some([name])
    case Member(obj, prop) => var c := ChainOf(obj); if c.None? then None else Some(c.value + [prop])
    case Index(obj, _, _) => ChainOf(obj)
    case Chain(Member(obj, prop)) => var c := ChainOf(obj); if c.None? then None else Some(c.value + [prop])
    case Chain(Index(obj, _, _)) => ChainOf(obj)
    case Chain(Call(callee, _)) => ChainOf(callee)
    case _ => None
  }

  function Extended(chain: Option<seq<string>>, names: seq<string>): Option<seq<string>> {
    if chain.None? then None else Some(chain.value + names)
  }

  lemma ExtendOne(chain: Option<seq<string>>, prop: string, names: seq<string>)
    ensures Extended(Extended(chain, [prop]), names) == Extended(chain, [prop] + names)
    ensures Extended(chain, []) == chain
  {
    if chain.Some? {
      assert (chain.value + [prop]) + names == chain.value + ([prop] + names);
      assert chain.value + [] == chain.value;
    }
  }

  /** The loop goes from the last property inwards. */
  method BuildPropertyChain(n: Node) returns (chain: Option<seq<string>>)
    ensures chain == ChainOf(n)
  {
    var names: seq<string> := [];
    var current := n;
    ExtendOne(ChainOf(n), "", []);
    while true
      invariant ChainOf(n) == Extended(ChainOf(current), names)
      decreases current
    {
      match current {
        case Name(name) =>
          return Some([name] + names);
        case Member(obj, prop) =>
          ExtendOne(ChainOf(obj), prop, names);
          names := [prop] + names;
          current := obj;
        case Index(obj, _, _) =>
          current := obj;
        case Chain(Member(obj, prop)) =>
          ExtendOne(ChainOf(obj), prop, names);
          names := [prop] + names;
          current := obj;
        case Chain(Index(obj, _, _)) =>
          current := obj;
        case Chain(Call(callee, _)) =>
          current := callee;
        case _ =>
          return None;
      }
    }
  }

  predicate IsStructural(prop: string) {
    prop == "data" || prop == "items"
  }

  predicate IsNonEntity(prop: string) {
    prop in {"loading", "error", "revalidating", "refetch", "revalidate", "dispose",
             "map", "filter", "find", "forEach", "some", "every", "reduce", "flatMap",
             "includes", "indexOf", "length", "slice", "sort"}
  }

  datatype Nested = Nested(field: string, path: seq<string>)

  function AfterStructural(path: seq<string>): seq<string> {
    if path != [] && IsStructural(path[0]) then AfterStructural(path[1..]) else path
  }

  function Entities(path: seq<string>): seq<string> {
    if path == [] then []
    else (if IsNonEntity(path[0]) then [] else [path[0]]) + Entities(path[1..])
  }

  function ExtractField(chain: seq<string>): Option<Nested>
    requires chain != []
  {
    var parts := AfterStructural(chain[1..]);
    if parts == [] || (|parts| == 1 && IsNonEntity(parts[0])) then None
    else Some(Nested(parts[0], Entities(parts[1..])))
  }

  // ---- what a tracker records ----

  datatype Access = Access(fields: seq<string>, nested: seq<Nested>, isOpaque: bool)

  const Nothing := Access([], [], false)

  function Join(a: Access, b: Access): Access {
    Access(a.fields + b.fields, a.nested + b.nested, a.isOpaque || b.isOpaque)
  }

  function Opaque(yes: bool): Access {
    Access([], [], yes)
  }

  /** Every recorded field and path moved below a relation field. */
  function Below(parent: string, fields: seq<string>): seq<Nested> {
    if fields == [] then [] else [Nested(parent, [fields[0]])] + Below(parent, fields[1..])
  }

  function Deeper(parent: string, nested: seq<Nested>): seq<Nested> {
    if nested == [] then [] else [Nested(parent, [nested[0].field] + nested[0].path)] + Deeper(parent, nested[1..])
  }

  // ---- the callback tracker ----

  function CallbackField(n: Node, param: string): Access {
    var chain := ChainOf(n);
    if chain.Some? && 2 <= |chain.value| && chain.value[0] == param then
      Access([chain.value[1]], if |chain.value| > 2 then [Nested(chain.value[1], chain.value[2..])] else [], false)
    else Nothing
  }

  function ItemAccess(n: Node, param: string): Access
    decreases n, 0
  {
    match n
    case Member(_, _) => CallbackField(n, param)
    case Index(obj, _, numeric) => Join(CallbackField(n, param), Opaque(obj == Name(param) && !numeric))
    case Call(callee, args) => Join(ItemAccess(callee, param), ItemAccessAll(args, param))
    case Spread(argument) => Join(ItemAccess(argument, param), Opaque(argument == Name(param)))
    case Parts(_, parts) => ItemAccessAll(parts, param)
    case Declare(_, _, inits) => ItemAccessAll(inits, param)
    case Scope(kind, params, heads, body) =>
      (match kind
       case FunctionDecl(_, _) => Nothing
       case FunctionExpr(_) => Nothing
       case TryBlock => ItemAccessAll(body, param)
       case Catch => if ParamsBind(params, param) then Nothing else ItemAccessAll(body, param)
       case _ => if Binds(n, param, None) then Nothing
         else Join(ItemAccessAll(heads, param), ItemAccessAll(body, param)))
    case Name(_) => Nothing
    case Chain(_) => Nothing
    case Other => Nothing
  }

  function ItemAccessAll(ns: seq<Node>, param: string): Access
    decreases ns, 1
  {
    if ns == [] then Nothing else Join(ItemAccess(ns[0], param), ItemAccessAll(ns[1..], param))
  }

  // ---- the tracker of a query variable ----

  function ItemIndex(methodName: string): Option<nat> {
    if methodName in {"map", "filter", "find", "forEach", "some", "every", "flatMap"} then Some(0)
    else if methodName == "reduce" then Some(1)
    else None
  }

  function CallbackParam(callback: Node, index: nat): Option<string> {
    match callback
    case Scope(FunctionExpr(_), params, _, _) =>
      if index < |params| && params[index].Simple? then Some(params[index].name) else None
    case _ => None
  }

  predicate IsQueryList(chain: Option<seq<string>>, query: string) {
    chain.Some? && chain.value != [] && chain.value[0] == query && ("items" in chain.value || "data" in chain.value)
  }

  /** `query.data.items.map(item => ...)`: the list and the item's name. */
  function ItemCallback(callee: Node, args: seq<Node>, query: string): Option<(seq<string>, string)> {
    if !callee.Member? || ItemIndex(callee.prop).None? || args == [] then None
    else
      var chain := ChainOf(callee.obj);
      if !IsQueryList(chain, query) then None
      else
        var param := CallbackParam(args[0], ItemIndex(callee.prop).value);
        if param.None? then None else Some((chain.value, param.value))
  }

  /** What is read of the items counts as fields, or as paths below the relation that is listed. */
  function OfItems(chain: seq<string>, items: Access, keepPaths: bool): Access
    requires chain != []
  {
    var parent := ExtractField(chain);
    if parent.Some? && parent.value.path == [] then
      var field := parent.value.field;
      Access([field], Below(field, items.fields) + (if keepPaths then Deeper(field, items.nested) else []),
             items.isOpaque)
    else items
  }

  function OwnField(chain: Option<seq<string>>, query: string): Access {
    if chain.None? || chain.value == [] || chain.value[0] != query then Nothing
    else
      var found := ExtractField(chain.value);
      if found.None? then Nothing
      else Access([found.value.field], if found.value.path == [] then [] else [found.value], false)
  }

  /** The query variable, or its data as a whole, handed on. */
  predicate Escapes(n: Node, query: string) {
    var chain := ChainOf(n);
    chain.Some? && chain.value[0] == query && forall i :: 1 <= i < |chain.value| ==> IsStructural(chain.value[i])
  }

  predicate SomeEscapes(args: seq<Node>, query: string) {
    exists i :: 0 <= i < |args| && Escapes(args[i], query)
  }

  function ItemLoop(n: Node, query: string): Option<(seq<string>, string)>
    requires n.Scope?
  {
    if !n.kind.ForOf? || n.params == [] || !n.params[0].Simple? || n.heads == [] then None
    else
      var chain := ChainOf(n.heads[0]);
      if IsQueryList(chain, query) then Some((chain.value, n.params[0].name)) else None
  }

  function Track(n: Node, query: string, decl: nat): Access
    decreases n, 0
  {
    match n
    case Member(_, _) => OwnField(ChainOf(n), query)
    case Index(_, _, _) => OwnField(ChainOf(n), query)
    case Call(callee, args) =>
      var item := ItemCallback(callee, args, query);
      if item.Some? then OfItems(item.value.0, ItemAccessAll(args[0].body, item.value.1), true)
      else Join(Opaque(SomeEscapes(args, query)), Join(Track(callee, query, decl), TrackAll(args, query, decl)))
    case Chain(Call(callee, args)) =>
      var item := ItemCallback(callee, args, query);
      if item.Some? then OfItems(item.value.0, ItemAccessAll(args[0].body, item.value.1), false)
      else Join(Track(callee, query, decl), TrackAll(args, query, decl))
    case Chain(Member(obj, _)) => Join(OwnField(ChainOf(n), query), Track(obj, query, decl))
    case Chain(_) => Nothing
    case Spread(argument) => Opaque(ChainOf(argument).Some? && ChainOf(argument).value[0] == query)
    case Parts(visible, parts) => if visible then TrackAll(parts, query, decl) else Nothing
    case Declare(_, _, inits) => TrackAll(inits, query, decl)
    case Scope(_, _, heads, body) =>
      if Binds(n, query, Some(decl)) then Nothing
      else
        var item := ItemLoop(n, query);
        if item.Some?
          then Join(OfItems(item.value.0, ItemAccessAll(body, item.value.1), true), TrackAll(heads, query, decl))
        else Join(TrackAll(heads, query, decl), TrackAll(body, query, decl))
    case Name(_) => Nothing
    case Other => Nothing
  }

  function TrackAll(ns: seq<Node>, query: string, decl: nat): Access
    decreases ns, 1
  {
    if ns == [] then Nothing else Join(Track(ns[0], query, decl), TrackAll(ns[1..], query, decl))
  }

  // ---- the trackers as they run ----

  lemma JoinNothing(a: Access)
    ensures Join(a, Nothing) == a && Join(Nothing, a) == a
  {
  }

  lemma JoinJoin(a: Access, b: Access, c: Access)
    ensures Join(Join(a, b), c) == Join(a, Join(b, c))
  {
  }

  lemma JoinThree(a: Access, b: Access, c: Access, d: Access)
    ensures Join(Join(Join(a, b), c), d) == Join(a, Join(b, Join(c, d)))
  {
    JoinJoin(Join(a, b), c, d);
    JoinJoin(a, b, Join(c, d));
  }

  /** Pushes what it meets. */
  class FieldTracker {
    var fields: seq<string>
    var nested: seq<Nested>
    var hasOpaqueAccess: bool

    ghost function Seen(): Access
      reads this
    {
      Access(fields, nested, hasOpaqueAccess)
    }

    constructor ()
      ensures Seen() == Nothing
    {
      fields, nested, hasOpaqueAccess := [], [], false;
    }

    method Add(a: Access)
      modifies this
      ensures Seen() == Join(old(Seen()), a)
    {
      fields := fields + a.fields;
      nested := nested + a.nested;
      hasOpaqueAccess := hasOpaqueAccess || a.isOpaque;
    }

    method TrackCallback(n: Node, param: string)
      modifies this
      ensures Seen() == Join(old(Seen()), ItemAccess(n, param))
      decreases n, 0
    {
      ghost var before := Seen();
      JoinNothing(before);
      match n {
        case Member(_, _) =>
          Add(CallbackField(n, param));
        case Index(obj, _, numeric) =>
          Add(CallbackField(n, param));
          if obj == Name(param) && !numeric {
            hasOpaqueAccess := true;
          }
          JoinJoin(before, CallbackField(n, param), Opaque(obj == Name(param) && !numeric));
        case Call(callee, args) =>
          TrackCallback(callee, param);
          TrackCallbackAll(args, param);
          JoinJoin(before, ItemAccess(callee, param), ItemAccessAll(args, param));
        case Spread(argument) =>
          TrackCallback(argument, param);
          if argument == Name(param) {
            hasOpaqueAccess := true;
          }
          JoinJoin(before, ItemAccess(argument, param), Opaque(argument == Name(param)));
        case Parts(_, parts) =>
          TrackCallbackAll(parts, param);
        case Declare(_, _, inits) =>
          TrackCallbackAll(inits, param);
        case Scope(kind, params, heads, body) =>
          if kind.TryBlock? {
            TrackCallbackAll(body, param);
          } else if kind.Catch? {
            if !ParamsBind(params, param) {
              TrackCallbackAll(body, param);
            }
          } else if !kind.FunctionDecl? && !kind.FunctionExpr? && !Binds(n, param, None) {
            TrackCallbackAll(heads, param);
            TrackCallbackAll(body, param);
            JoinJoin(before, ItemAccessAll(heads, param), ItemAccessAll(body, param));
          }
        case _ =>
      }
    }

    method TrackCallbackAll(ns: seq<Node>, param: string)
      modifies this
      ensures Seen() == Join(old(Seen()), ItemAccessAll(ns, param))
      decreases ns, 1
    {
      ghost var before := Seen();
      JoinNothing(before);
      if ns != [] {
        TrackCallback(ns[0], param);
        TrackCallbackAll(ns[1..], param);
        JoinJoin(before, ItemAccess(ns[0], param), ItemAccessAll(ns[1..], param));
      }
    }

    /** Runs a fresh tracker over the statements that see one item. */
    method AddItems(chain: seq<string>, body: seq<Node>, param: string, keepPaths: bool)
      requires chain != []
      modifies this
      ensures Seen() == Join(old(Seen()), OfItems(chain, ItemAccessAll(body, param), keepPaths))
    {
      var cb := new FieldTracker();
      cb.TrackCallbackAll(body, param);
      JoinNothing(ItemAccessAll(body, param));
      Add(OfItems(chain, Access(cb.fields, cb.nested, cb.hasOpaqueAccess), keepPaths));
    }

    method TrackFieldAccess(n: Node, query: string, decl: nat)
      modifies this
      ensures Seen() == Join(old(Seen()), Track(n, query, decl))
      decreases n, 0
    {
      ghost var before := Seen();
      JoinNothing(before);
      match n {
        case Member(_, _) =>
          var chain := BuildPropertyChain(n);
          Add(OwnField(chain, query));
        case Index(_, _, _) =>
          var chain := BuildPropertyChain(n);
          Add(OwnField(chain, query));
        case Call(callee, args) =>
          var item := ItemCallback(callee, args, query);
          if item.Some? {
            AddItems(item.value.0, args[0].body, item.value.1, true);
          } else {
            Add(Opaque(SomeEscapes(args, query)));
            TrackFieldAccess(callee, query, decl);
            TrackAllAccess(args, query, decl);
            JoinThree(before, Opaque(SomeEscapes(args, query)), Track(callee, query, decl),
                      TrackAll(args, query, decl));
          }
        case Chain(Call(callee, args)) =>
          var item := ItemCallback(callee, args, query);
          if item.Some? {
            AddItems(item.value.0, args[0].body, item.value.1, false);
          } else {
            TrackFieldAccess(callee, query, decl);
            TrackAllAccess(args, query, decl);
            JoinJoin(before, Track(callee, query, decl), TrackAll(args, query, decl));
          }
        case Chain(Member(obj, _)) =>
          var chain := BuildPropertyChain(n);
          Add(OwnField(chain, query));
          TrackFieldAccess(obj, query, decl);
          JoinJoin(before, OwnField(chain, query), Track(obj, query, decl));
        case Spread(argument) =>
          var chain := BuildPropertyChain(argument);
          Add(Opaque(chain.Some? && chain.value[0] == query));
        case Parts(visible, parts) =>
          if visible {
            TrackAllAccess(parts, query, decl);
          }
        case Declare(_, _, inits) =>
          TrackAllAccess(inits, query, decl);
        case Scope(_, _, heads, body) =>
          if !Binds(n, query, Some(decl)) {
            var item := ItemLoop(n, query);
            if item.Some? {
              AddItems(item.value.0, body, item.value.1, true);
              TrackAllAccess(heads, query, decl);
              JoinJoin(before, OfItems(item.value.0, ItemAccessAll(body, item.value.1), true),
                       TrackAll(heads, query, decl));
            } else {
              TrackAllAccess(heads, query, decl);
              TrackAllAccess(body, query, decl);
              JoinJoin(before, TrackAll(heads, query, decl), TrackAll(body, query, decl));
            }
          }
        case _ =>
      }
    }

    method TrackAllAccess(ns: seq<Node>, query: string, decl: nat)
      modifies this
      ensures Seen() == Join(old(Seen()), TrackAll(ns, query, decl))
      decreases ns, 1
    {
      ghost var before := Seen();
      JoinNothing(before);
      if ns != [] {
        TrackFieldAccess(ns[0], query, decl);
        TrackAllAccess(ns[1..], query, decl);
        JoinJoin(before, Track(ns[0], query, decl), TrackAll(ns[1..], query, decl));
      }
    }
  }
}
