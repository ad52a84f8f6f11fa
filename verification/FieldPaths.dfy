/**
 Which field a read records, said of the source text rather than of the chain the
 tracker extracts: `query.data.items[0].author.name` reads the field `author`
 with the path `name`. Every such read that the tracker comes past is recorded,
 and nothing else is.
 */
module FieldPaths {
  import opened JsxSyntax
  import opened FieldTracking

  // ---- reads as they are written ----

  /** What may follow a name: `.prop`, `[index]`, and both optionally; an optional call is passed over. */
  datatype Step =
    | Dot(prop: string)
    | At(index: Node, numeric: bool)
    | MaybeDot(prop: string)
    | MaybeAt(index: Node, numeric: bool)
    | MaybeCall(args: seq<Node>)

  function Follow(n: Node, step: Step): Node {
    match step
    case Dot(prop) => Member(n, prop)
    case At(index, numeric) => Index(n, index, numeric)
    case MaybeDot(prop) => Chain(Member(n, prop))
    case MaybeAt(index, numeric) => Chain(Index(n, index, numeric))
    case MaybeCall(args) => Chain(Call(n, args))
  }

  function Path(root: string, steps: seq<Step>): Node {
    if steps == [] then Name(root) else Follow(Path(root, steps[..|steps| - 1]), steps[|steps| - 1])
  }

  /** The properties a path names, in order. */
  function Props(steps: seq<Step>): seq<string> {
    if steps == [] then []
    else match steps[|steps| - 1]
      case Dot(prop) => Props(steps[..|steps| - 1]) + [prop]
      case MaybeDot(prop) => Props(steps[..|steps| - 1]) + [prop]
      case At(_, _) => Props(steps[..|steps| - 1])
      case MaybeAt(_, _) => Props(steps[..|steps| - 1])
      case MaybeCall(_) => Props(steps[..|steps| - 1])
  }

  predicate EndsPlainly(steps: seq<Step>) {
    steps != [] && (steps[|steps| - 1].Dot? || steps[|steps| - 1].At?)
  }

  lemma FollowChain(n: Node, step: Step)
    ensures ChainOf(Follow(n, step)) == Extended(ChainOf(n), if step.Dot? || step.MaybeDot? then [step.prop] else [])
  {
    ExtendOne(ChainOf(n), "", []);
  }

  lemma {:induction false} PathIsChain(root: string, steps: seq<Step>)
    ensures ChainOf(Path(root, steps)) == Some([root] + Props(steps))
  {
    if steps == [] {
      assert [root] + [] == [root];
    } else {
      var init, last := steps[..|steps| - 1], steps[|steps| - 1];
      PathIsChain(root, init);
      FollowChain(Path(root, init), last);
      var own := if last.Dot? || last.MaybeDot? then [last.prop] else [];
      assert Props(steps) == Props(init) + own;
      assert ([root] + Props(init)) + own == [root] + (Props(init) + own);
    }
  }

  /** Only paths have a chain. */
  lemma {:induction false} ChainIsPath(n: Node) returns (root: string, steps: seq<Step>)
    requires ChainOf(n).Some?
    ensures n == Path(root, steps)
    decreases n, 0
  {
    match n {
      case Name(name) => root, steps := name, [];
      case Member(obj, prop) => root, steps := LongerPath(obj, Dot(prop));
      case Index(obj, index, numeric) => root, steps := LongerPath(obj, At(index, numeric));
      case Chain(Member(obj, prop)) => root, steps := LongerPath(obj, MaybeDot(prop));
      case Chain(Index(obj, index, numeric)) => root, steps := LongerPath(obj, MaybeAt(index, numeric));
      case Chain(Call(callee, args)) => root, steps := LongerPath(callee, MaybeCall(args));
    }
  }

  lemma {:induction false} LongerPath(n: Node, step: Step) returns (root: string, steps: seq<Step>)
    requires ChainOf(n).Some?
    ensures Follow(n, step) == Path(root, steps)
    decreases n, 1
  {
    root, steps := ChainIsPath(n);
    steps := steps + [step];
    assert steps[..|steps| - 1] + [step] == steps;
  }

  // ---- entity names ----

  predicate IsData(name: string) {
    name == "data" || name == "items"
  }

  /** Neither a signal of the query nor a member of an array. */
  predicate IsEntity(name: string) {
    name !in {"loading", "error", "revalidating", "refetch", "revalidate", "dispose",
              "map", "filter", "find", "forEach", "some", "every", "reduce", "flatMap",
              "includes", "indexOf", "length", "slice", "sort"}
  }

  function EntitiesOf(names: seq<string>): seq<string> {
    if names == [] then []
    else if IsEntity(names[0]) then [names[0]] + EntitiesOf(names[1..])
    else EntitiesOf(names[1..])
  }

  /** `field` is the first of `names` that is not `data` or `items`, and `rest` follows it. */
  predicate Leads(names: seq<string>, s: seq<string>, field: string, rest: seq<string>) {
    names == s + [field] + rest && AllData(s) && !IsData(field)
  }

  predicate AllData(names: seq<string>) {
    forall i :: 0 <= i < |names| ==> IsData(names[i])
  }

  /** A field counts unless it is the last name and not an entity. */
  predicate Counts(field: string, rest: seq<string>) {
    rest != [] || IsEntity(field)
  }

  function Record(field: string, path: seq<string>): Access {
    Access([field], if path == [] then [] else [Nested(field, path)], false)
  }

  lemma {:induction false} DataDropped(names: seq<string>, k: nat)
    requires k <= |names| && (forall i :: 0 <= i < k ==> IsData(names[i])) && (k < |names| ==> !IsData(names[k]))
    ensures AfterStructural(names) == names[k..]
    decreases k
  {
    if k > 0 {
      DataDropped(names[1..], k - 1);
    }
  }

  lemma {:induction false} EntitiesKept(names: seq<string>)
    ensures Entities(names) == EntitiesOf(names)
  {
    if names != [] {
      EntitiesKept(names[1..]);
      assert IsEntity(names[0]) == !IsNonEntity(names[0]);
    }
  }

  lemma FieldExtracted(query: string, names: seq<string>, s: seq<string>, field: string, rest: seq<string>)
    requires Leads(names, s, field, rest)
    ensures ExtractField([query] + names) == if Counts(field, rest) then Some(Nested(field, EntitiesOf(rest))) else None
  {
    DataDropped(names, |s|);
    EntitiesKept(rest);
    var parts := names[|s|..];
    assert parts == [field] + rest && parts[1..] == rest;
    assert ([query] + names)[1..] == names;
  }

  lemma NothingExtracted(query: string, names: seq<string>)
    requires AllData(names)
    ensures ExtractField([query] + names) == None
  {
    DataDropped(names, |names|);
    assert ([query] + names)[1..] == names;
  }

  // ---- one read ----

  /**
   A read records the first name that is not `data` or `items`, with the entity
   names behind it as its path. An optional read records its beginning as well.
   */
  lemma ReadRecords(query: string, steps: seq<Step>, s: seq<string>, field: string, rest: seq<string>, decl: nat)
    requires EndsPlainly(steps) && Leads(Props(steps), s, field, rest)
    ensures Track(Path(query, steps), query, decl)
         == if Counts(field, rest) then Record(field, EntitiesOf(rest)) else Access([], [], false)
  {
    PathIsChain(query, steps);
    FieldExtracted(query, Props(steps), s, field, rest);
  }

  lemma OptionalReadRecords(query: string, steps: seq<Step>, prop: string, s: seq<string>, field: string,
                            rest: seq<string>, decl: nat)
    requires Leads(Props(steps) + [prop], s, field, rest)
    ensures Track(Follow(Path(query, steps), MaybeDot(prop)), query, decl)
         == Join(if Counts(field, rest) then Record(field, EntitiesOf(rest)) else Access([], [], false),
                 Track(Path(query, steps), query, decl))
  {
    var n := Path(query, steps);
    PathIsChain(query, steps);
    FollowChain(n, MaybeDot(prop));
    assert ([query] + Props(steps)) + [prop] == [query] + (Props(steps) + [prop]);
    FieldExtracted(query, Props(steps) + [prop], s, field, rest);
  }

  /** Names that lead nowhere, and reads of other variables, record nothing. */
  lemma OtherReadsRecordNothing(root: string, query: string, steps: seq<Step>, decl: nat)
    requires EndsPlainly(steps) && (AllData(Props(steps)) || root != query)
    ensures Track(Path(root, steps), query, decl) == Access([], [], false)
  {
    PathIsChain(root, steps);
    if root == query {
      NothingExtracted(query, Props(steps));
    }
  }

  // ---- all reads of a program ----

  /** What the tracker comes past next: not shadowing scopes, and not into calls over the query's own lists. */
  function Within(n: Node, query: string, decl: nat): seq<Node> {
    match n
    case Call(callee, args) => if ItemCallback(callee, args, query).Some? then [] else [callee] + args
    case Chain(Call(callee, args)) => if ItemCallback(callee, args, query).Some? then [] else [callee] + args
    case Chain(Member(obj, _)) => [obj]
    case Parts(visible, parts) => if visible then parts else []
    case Declare(_, _, inits) => inits
    case Scope(_, _, heads, body) =>
      if Binds(n, query, Some(decl)) then [] else heads + if ItemLoop(n, query).Some? then [] else body
    case _ => []
  }

  /** `m` stands in `n` where the tracker comes past it. */
  ghost predicate Reaches(n: Node, m: Node, query: string, decl: nat)
    decreases n
  {
    n == m || exists i :: 0 <= i < |Within(n, query, decl)| && Reaches(Within(n, query, decl)[i], m, query, decl)
  }

  ghost predicate ReachesIn(ns: seq<Node>, m: Node, query: string, decl: nat) {
    exists i :: 0 <= i < |ns| && Reaches(ns[i], m, query, decl)
  }

  /** Everything `a` holds, `b` holds. */
  ghost predicate Holds(b: Access, a: Access) {
    && (forall f :: f in a.fields ==> f in b.fields) && (forall p :: p in a.nested ==> p in b.nested)
    && (a.isOpaque ==> b.isOpaque)
  }

  lemma HoldsJoined(a: Access, b: Access)
    ensures Holds(Join(a, b), a) && Holds(Join(a, b), b)
  {
  }

  lemma HoldsTwice(a: Access, b: Access, c: Access)
    requires Holds(a, b) && Holds(b, c)
    ensures Holds(a, c)
  {
  }

  /** What the tracker records at a node, before it goes on to what is within. */
  function Own(n: Node, query: string, decl: nat): Access {
    match n
    case Member(_, _) => OwnField(ChainOf(n), query)
    case Index(_, _, _) => OwnField(ChainOf(n), query)
    case Chain(Member(_, _)) => OwnField(ChainOf(n), query)
    case Call(callee, args) =>
      var item := ItemCallback(callee, args, query);
      if item.Some? then OfItems(item.value.0, ItemAccessAll(args[0].body, item.value.1), true)
      else Opaque(SomeEscapes(args, query))
    case Chain(Call(callee, args)) =>
      var item := ItemCallback(callee, args, query);
      if item.Some? then OfItems(item.value.0, ItemAccessAll(args[0].body, item.value.1), false) else Nothing
    case Spread(_) => Track(n, query, decl)
    case Scope(_, _, _, body) =>
      if Binds(n, query, Some(decl)) || ItemLoop(n, query).None? then Nothing
      else OfItems(ItemLoop(n, query).value.0, ItemAccessAll(body, ItemLoop(n, query).value.1), true)
    case _ => Nothing
  }

  ghost predicate SameHoldings(a: Access, b: Access) {
    Holds(a, b) && Holds(b, a)
  }

  lemma {:induction false} TrackAppend(a: seq<Node>, b: seq<Node>, query: string, decl: nat)
    ensures TrackAll(a + b, query, decl) == Join(TrackAll(a, query, decl), TrackAll(b, query, decl))
  {
    if a == [] {
      assert a + b == b;
      JoinNothing(TrackAll(b, query, decl));
    } else {
      assert (a + b)[1..] == a[1..] + b;
      TrackAppend(a[1..], b, query, decl);
      JoinJoin(Track(a[0], query, decl), TrackAll(a[1..], query, decl), TrackAll(b, query, decl));
    }
  }

  lemma TrackOne(n: Node, query: string, decl: nat)
    ensures TrackAll([n], query, decl) == Track(n, query, decl)
  {
    assert [n][1..] == [];
    JoinNothing(Track(n, query, decl));
  }

  /** A node records what it records itself and what is recorded within. */
  lemma CallSplits(callee: Node, args: seq<Node>, query: string, decl: nat)
    ensures SameHoldings(Track(Call(callee, args), query, decl),
                         Join(Own(Call(callee, args), query, decl),
                              TrackAll(Within(Call(callee, args), query, decl), query, decl)))
    ensures SameHoldings(Track(Chain(Call(callee, args)), query, decl),
                         Join(Own(Chain(Call(callee, args)), query, decl),
                              TrackAll(Within(Chain(Call(callee, args)), query, decl), query, decl)))
  {
    TrackOne(callee, query, decl);
    TrackAppend([callee], args, query, decl);
  }

  lemma RecordSplits(n: Node, query: string, decl: nat)
    ensures SameHoldings(Track(n, query, decl),
                         Join(Own(n, query, decl), TrackAll(Within(n, query, decl), query, decl)))
  {
    match n {
      case Call(callee, args) => CallSplits(callee, args, query, decl);
      case Chain(Call(callee, args)) => CallSplits(callee, args, query, decl);
      case Chain(Member(obj, _)) => TrackOne(obj, query, decl);
      case Scope(_, _, heads, body) => ScopeSplits(n, query, decl);
      case _ =>
    }
  }

  lemma ScopeSplits(n: Node, query: string, decl: nat)
    requires n.Scope?
    ensures SameHoldings(Track(n, query, decl),
                         Join(Own(n, query, decl), TrackAll(Within(n, query, decl), query, decl)))
  {
    if !Binds(n, query, Some(decl)) {
      if ItemLoop(n, query).Some? {
        assert n.heads + [] == n.heads;
      } else {
        TrackAppend(n.heads, n.body, query, decl);
      }
    }
  }

  lemma {:induction false} AllHeld(ns: seq<Node>, i: nat, query: string, decl: nat)
    requires i < |ns|
    ensures Holds(TrackAll(ns, query, decl), Track(ns[i], query, decl))
  {
    if i > 0 {
      AllHeld(ns[1..], i - 1, query, decl);
    }
  }

  /** What is recorded at a place the tracker reaches is recorded. */
  lemma {:induction false} ReachedIsHeld(n: Node, m: Node, query: string, decl: nat)
    requires Reaches(n, m, query, decl)
    ensures Holds(Track(n, query, decl), Track(m, query, decl))
    decreases n
  {
    if n != m {
      var parts := Within(n, query, decl);
      var i :| 0 <= i < |parts| && Reaches(parts[i], m, query, decl);
      ReachedIsHeld(parts[i], m, query, decl);
      AllHeld(parts, i, query, decl);
      RecordSplits(n, query, decl);
      HoldsJoined(Own(n, query, decl), TrackAll(parts, query, decl));
      HoldsTwice(Track(n, query, decl), Join(Own(n, query, decl), TrackAll(parts, query, decl)),
                 TrackAll(parts, query, decl));
      HoldsTwice(Track(n, query, decl), TrackAll(parts, query, decl), Track(parts[i], query, decl));
      HoldsTwice(Track(n, query, decl), Track(parts[i], query, decl), Track(m, query, decl));
    }
  }

  lemma {:induction false} SomeHolds(ns: seq<Node>, query: string, decl: nat, field: string) returns (i: nat)
    requires field in TrackAll(ns, query, decl).fields
    ensures i < |ns| && field in Track(ns[i], query, decl).fields
  {
    if field in Track(ns[0], query, decl).fields {
      i := 0;
    } else {
      i := SomeHolds(ns[1..], query, decl, field);
      i := i + 1;
    }
  }

  /** What is recorded is recorded at a place the tracker reaches. */
  lemma {:induction false} FieldIsReached(n: Node, query: string, decl: nat, field: string) returns (m: Node)
    requires field in Track(n, query, decl).fields
    ensures Reaches(n, m, query, decl) && field in Own(m, query, decl).fields
    decreases n
  {
    var parts := Within(n, query, decl);
    RecordSplits(n, query, decl);
    if field in Own(n, query, decl).fields {
      m := n;
    } else {
      var i := SomeHolds(parts, query, decl, field);
      m := FieldIsReached(parts[i], query, decl, field);
    }
  }

  // ---- lists ----

  /** Which parameter of the callback is the item. */
  function ItemPosition(methodName: string): Option<nat> {
    if methodName == "reduce" then Some(1)
    else if methodName in {"every", "filter", "find", "flatMap", "forEach", "map", "some"} then Some(0)
    else None
  }

  /** A path to the query's data, called as a list with a function whose item parameter is a plain name. */
  predicate IsListCall(query: string, names: seq<string>, methodName: string, callback: Node, item: string) {
    && ("data" in [query] + names || "items" in [query] + names) && ItemPosition(methodName).Some?
    && callback.Scope? && callback.kind.FunctionExpr? && ItemPosition(methodName).value < |callback.params|
    && callback.params[ItemPosition(methodName).value] == Simple(item)
  }

  /** The field a list is the value of, if it is not the list of all entities. */
  predicate IsRelation(names: seq<string>, s: seq<string>, field: string, rest: seq<string>) {
    Leads(names, s, field, rest) && Counts(field, rest) && EntitiesOf(rest) == []
  }

  /** The relation is recorded, and everything read of its items as a path below it. */
  ghost predicate IsBelow(r: Access, field: string, items: Access, keepPaths: bool) {
    && r.fields == [field] && r.isOpaque == items.isOpaque
    && forall p :: p in r.nested
         <==> p.field == field && (InPaths(p.path, items.fields) || (keepPaths && InLongPaths(p.path, items.nested)))
  }

  ghost predicate InPaths(path: seq<string>, fields: seq<string>) {
    exists x :: x in fields && path == [x]
  }

  ghost predicate InLongPaths(path: seq<string>, nested: seq<Nested>) {
    exists m :: m in nested && path == [m.field] + m.path
  }

  lemma {:induction false} BelowMember(field: string, fields: seq<string>, p: Nested)
    ensures p in Below(field, fields) <==> p.field == field && InPaths(p.path, fields)
  {
    if fields != [] {
      BelowMember(field, fields[1..], p);
      assert fields == [fields[0]] + fields[1..];
    }
  }

  lemma {:induction false} DeeperMember(field: string, nested: seq<Nested>, p: Nested)
    ensures p in Deeper(field, nested) <==> p.field == field && InLongPaths(p.path, nested)
  {
    if nested != [] {
      DeeperMember(field, nested[1..], p);
      assert nested == [nested[0]] + nested[1..];
    }
  }

  /** What is read of the items of a list. */
  ghost predicate ListRecord(r: Access, names: seq<string>, items: Access, keepPaths: bool) {
    && (forall s, field, rest :: IsRelation(names, s, field, rest) ==> IsBelow(r, field, items, keepPaths))
    && ((forall s, field, rest :: !IsRelation(names, s, field, rest)) ==> r == items)
  }

  lemma SplitNames(names: seq<string>) returns (s: seq<string>, field: string, rest: seq<string>)
    requires !AllData(names)
    ensures Leads(names, s, field, rest)
  {
    if !IsData(names[0]) {
      s, field, rest := [], names[0], names[1..];
    } else {
      s, field, rest := SplitNames(names[1..]);
      s := [names[0]] + s;
    }
  }

  lemma BelowRelation(query: string, names: seq<string>, s: seq<string>, field: string, rest: seq<string>,
                      items: Access, keepPaths: bool)
    requires IsRelation(names, s, field, rest)
    ensures IsBelow(OfItems([query] + names, items, keepPaths), field, items, keepPaths)
  {
    FieldExtracted(query, names, s, field, rest);
    forall p ensures p in OfItems([query] + names, items, keepPaths).nested
      <==> p.field == field && (InPaths(p.path, items.fields) || (keepPaths && InLongPaths(p.path, items.nested)))
    {
      BelowMember(field, items.fields, p);
      DeeperMember(field, items.nested, p);
    }
  }

  lemma ItemsRecord(query: string, names: seq<string>, items: Access, keepPaths: bool)
    ensures ListRecord(OfItems([query] + names, items, keepPaths), names, items, keepPaths)
  {
    forall s, field, rest | IsRelation(names, s, field, rest)
      ensures IsBelow(OfItems([query] + names, items, keepPaths), field, items, keepPaths)
    {
      BelowRelation(query, names, s, field, rest, items, keepPaths);
    }
    if forall s, field, rest :: !IsRelation(names, s, field, rest) {
      if AllData(names) {
        NothingExtracted(query, names);
      } else {
        var s, field, rest := SplitNames(names);
        FieldExtracted(query, names, s, field, rest);
        assert !IsRelation(names, s, field, rest);
      }
    }
  }

  /**
   A call over a list of the query's entities records what the callback reads of
   an item; over a list that a field holds, the field and those reads below it.
   */
  lemma ListCallRecords(query: string, steps: seq<Step>, methodName: string, callback: Node, more: seq<Node>,
                        item: string, decl: nat)
    requires IsListCall(query, Props(steps), methodName, callback, item)
    ensures var call := Call(Member(Path(query, steps), methodName), [callback] + more);
      ListRecord(Track(call, query, decl), Props(steps), ItemAccessAll(callback.body, item), true)
    ensures var call := Chain(Call(Member(Path(query, steps), methodName), [callback] + more));
      ListRecord(Track(call, query, decl), Props(steps), ItemAccessAll(callback.body, item), false)
  {
    PathIsChain(query, steps);
    ListCallFound(query, steps, methodName, callback, more, item);
    ItemsRecord(query, Props(steps), ItemAccessAll(callback.body, item), true);
    ItemsRecord(query, Props(steps), ItemAccessAll(callback.body, item), false);
  }

  lemma ListCallFound(query: string, steps: seq<Step>, methodName: string, callback: Node, more: seq<Node>,
                      item: string)
    requires IsListCall(query, Props(steps), methodName, callback, item)
    ensures ItemCallback(Member(Path(query, steps), methodName), [callback] + more, query)
         == Some(([query] + Props(steps), item))
  {
    PathIsChain(query, steps);
  }

  /** No other calls are list calls. */
  lemma ListCallShape(callee: Node, args: seq<Node>, query: string) returns (steps: seq<Step>, item: string)
    requires ItemCallback(callee, args, query).Some?
    ensures callee.Member? && callee.obj == Path(query, steps) && args != []
    ensures IsListCall(query, Props(steps), callee.prop, args[0], item)
  {
    var root, found := ChainIsPath(callee.obj);
    PathIsChain(root, found);
    steps, item := found, ItemCallback(callee, args, query).value.1;
  }

  lemma ListLoopRecords(query: string, steps: seq<Step>, params: seq<Param>, more: seq<Node>, body: seq<Node>,
                        item: string, decl: nat)
    requires "data" in [query] + Props(steps) || "items" in [query] + Props(steps)
    requires params != [] && params[0] == Simple(item) && !ParamsBind(params, query)
    ensures var heads := [Path(query, steps)] + more;
      exists r :: ListRecord(r, Props(steps), ItemAccessAll(body, item), true)
        && Track(Scope(ForOf, params, heads, body), query, decl) == Join(r, TrackAll(heads, query, decl))
  {
    var heads := [Path(query, steps)] + more;
    PathIsChain(query, steps);
    ItemsRecord(query, Props(steps), ItemAccessAll(body, item), true);
    var r := OfItems([query] + Props(steps), ItemAccessAll(body, item), true);
    assert ItemLoop(Scope(ForOf, params, heads, body), query) == Some(([query] + Props(steps), item));
    assert Track(Scope(ForOf, params, heads, body), query, decl) == Join(r, TrackAll(heads, query, decl));
  }

  // ---- reads of an item ----

  /** A read of an item records its first property, with all that follow as the path. */
  lemma ItemReadRecords(item: string, steps: seq<Step>)
    requires EndsPlainly(steps)
    ensures var names := Props(steps);
      ItemAccess(Path(item, steps), item)
      == Access(if names == [] then [] else [names[0]],
                if |names| > 1 then [Nested(names[0], names[1..])] else [],
                |steps| == 1 && steps[0].At? && !steps[0].numeric)
  {
    var init, last := steps[..|steps| - 1], steps[|steps| - 1];
    PathIsChain(item, steps);
    assert [item] + Props(steps) == ChainOf(Path(item, steps)).value;
    NameIsShort(item, init);
    if Props(steps) != [] {
      assert ([item] + Props(steps))[2..] == Props(steps)[1..];
    }
  }

  lemma NameIsShort(root: string, steps: seq<Step>)
    ensures Path(root, steps) == Name(root) <==> steps == []
  {
  }

  /**
   A callback over the query's list is searched for reads of the item alone: a
   read of the query itself in it is missed.
   */
  lemma QueryInCallbackIsMissed(query: string, item: string, field: string, decl: nat)
    requires item != query && field != "data" && field != "items" && IsEntity(field)
    ensures var list, read := Path(query, [Dot("data"), Dot("items")]), Path(query, [Dot("data"), Dot(field)]);
      var callback := Scope(FunctionExpr(None), [Simple(item)], [], [read]);
      && Track(read, query, decl) == Record(field, [])
      && Track(Call(Member(list, "map"), [callback]), query, decl) == Access([], [], false)
  {
    var steps, more := [Dot("data"), Dot("items")], [Dot("data"), Dot(field)];
    var read := Path(query, more);
    var callback := Scope(FunctionExpr(None), [Simple(item)], [], [read]);
    TwoProps("data", "items");
    TwoProps("data", field);
    assert ["data", field] == ["data"] + [field] + [] && Leads(["data", field], ["data"], field, []);
    ReadRecords(query, more, ["data"], field, [], decl);
    PathIsChain(query, steps);
    PathIsChain(query, more);
    ItemOne(read, item);
    assert ItemAccessAll([read], item) == Access([], [], false);
    NothingExtracted(query, ["data", "items"]);
    assert "data" in [query] + ["data", "items"] by {
      assert ([query] + ["data", "items"])[1] == "data";
    }
    ListCallFound(query, steps, "map", callback, [], item);
    assert [callback] + [] == [callback];
  }

  lemma TwoProps(a: string, b: string)
    ensures Props([Dot(a), Dot(b)]) == [a, b]
  {
    var steps := [Dot(a), Dot(b)];
    assert steps[..1] == [Dot(a)] && steps[..1][..0] == [];
    assert Props(steps[..1]) == [] + [a];
  }

  // ---- fields of reads, exactly ----

  /** `n` is a read of the query whose first name that is not `data` or `items` is `field`. */
  ghost predicate ReadsField(n: Node, query: string, field: string) {
    exists steps, s, rest :: ReadsBy(n, query, steps, s, field, rest)
  }

  predicate ReadsBy(n: Node, query: string, steps: seq<Step>, s: seq<string>, field: string, rest: seq<string>) {
    && n == Path(query, steps) && (EndsPlainly(steps) || (steps != [] && steps[|steps| - 1].MaybeDot?))
    && Leads(Props(steps), s, field, rest) && Counts(field, rest)
  }

  predicate IsList(n: Node, query: string, decl: nat) {
    match n
    case Call(callee, args) => ItemCallback(callee, args, query).Some?
    case Chain(Call(callee, args)) => ItemCallback(callee, args, query).Some?
    case Scope(_, _, _, _) => !Binds(n, query, Some(decl)) && ItemLoop(n, query).Some?
    case _ => false
  }

  lemma OwnIsRead(n: Node, query: string, decl: nat, field: string)
    requires field in Own(n, query, decl).fields && !IsList(n, query, decl)
    ensures ReadsField(n, query, field)
  {
    assert n.Member? || n.Index? || (n.Chain? && n.inner.Member?);
    var root, steps := ChainIsPath(n);
    PathIsChain(root, steps);
    if AllData(Props(steps)) {
      NothingExtracted(query, Props(steps));
    } else {
      var s, first, rest := SplitNames(Props(steps));
      FieldExtracted(query, Props(steps), s, first, rest);
      assert ReadsBy(n, query, steps, s, field, rest);
    }
  }

  lemma ReadIsOwn(n: Node, query: string, decl: nat, field: string)
    requires ReadsField(n, query, field)
    ensures field in Own(n, query, decl).fields
  {
    var steps, s, rest :| ReadsBy(n, query, steps, s, field, rest);
    PathIsChain(query, steps);
    FieldExtracted(query, Props(steps), s, field, rest);
  }

  /** A field is recorded exactly when the tracker reaches a read of it, or a list whose record holds it. */
  lemma FieldRecordedExactlyWhen(n: Node, query: string, decl: nat, field: string)
    ensures field in Track(n, query, decl).fields
       <==> exists m :: Reaches(n, m, query, decl)
              && (ReadsField(m, query, field) || (IsList(m, query, decl) && field in Own(m, query, decl).fields))
  {
    if field in Track(n, query, decl).fields {
      var m := FieldIsReached(n, query, decl, field);
      if !IsList(m, query, decl) {
        OwnIsRead(m, query, decl, field);
      }
    }
    forall m | Reaches(n, m, query, decl)
      && (ReadsField(m, query, field) || (IsList(m, query, decl) && field in Own(m, query, decl).fields))
      ensures field in Track(n, query, decl).fields
    {
      if ReadsField(m, query, field) {
        ReadIsOwn(m, query, decl, field);
      }
      RecordSplits(m, query, decl);
      ReachedIsHeld(n, m, query, decl);
    }
  }

  lemma ReachedReadIsRecorded(n: Node, query: string, steps: seq<Step>, s: seq<string>, field: string,
                              rest: seq<string>, decl: nat)
    requires Reaches(n, Path(query, steps), query, decl) && EndsPlainly(steps)
    requires Leads(Props(steps), s, field, rest) && Counts(field, rest)
    ensures field in Track(n, query, decl).fields
    ensures EntitiesOf(rest) != [] ==> Nested(field, EntitiesOf(rest)) in Track(n, query, decl).nested
  {
    ReadRecords(query, steps, s, field, rest, decl);
    ReachedIsHeld(n, Path(query, steps), query, decl);
  }

  // ---- data handed on as a whole ----

  /** The query or its data as a whole is an argument of a call, or anything of it is spread into an object. */
  ghost predicate HandsOn(n: Node, query: string) {
    match n
    case Call(_, args) => exists i, steps :: 0 <= i < |args| && IsWhole(args[i], query, steps)
    case Spread(argument) => exists steps :: argument == Path(query, steps)
    case _ => false
  }

  predicate IsWhole(n: Node, query: string, steps: seq<Step>) {
    n == Path(query, steps) && AllData(Props(steps))
  }

  lemma EscapesIsWhole(n: Node, query: string)
    ensures Escapes(n, query) <==> exists steps :: IsWhole(n, query, steps)
  {
    if Escapes(n, query) {
      var root, steps := ChainIsPath(n);
      PathIsChain(root, steps);
      forall i | 0 <= i < |Props(steps)| ensures IsData(Props(steps)[i]) {
        assert ([root] + Props(steps))[i + 1] == Props(steps)[i];
      }
      assert IsWhole(n, query, steps);
    }
    forall steps | IsWhole(n, query, steps) ensures Escapes(n, query) {
      PathIsChain(query, steps);
    }
  }

  lemma OwnIsHandedOn(n: Node, query: string, decl: nat)
    requires !IsList(n, query, decl)
    ensures Own(n, query, decl).isOpaque <==> HandsOn(n, query)
  {
    if n.Call? {
      forall i | 0 <= i < |n.args|
        ensures Escapes(n.args[i], query) <==> exists steps :: IsWhole(n.args[i], query, steps)
      {
        EscapesIsWhole(n.args[i], query);
      }
    } else if n.Spread? {
      if Own(n, query, decl).isOpaque {
        var root, steps := ChainIsPath(n.argument);
        PathIsChain(root, steps);
      }
      forall steps | n.argument == Path(query, steps) ensures Own(n, query, decl).isOpaque {
        PathIsChain(query, steps);
      }
    }
  }

  lemma {:induction false} SomeOpaque(ns: seq<Node>, query: string, decl: nat) returns (i: nat)
    requires TrackAll(ns, query, decl).isOpaque
    ensures i < |ns| && Track(ns[i], query, decl).isOpaque
  {
    if Track(ns[0], query, decl).isOpaque {
      i := 0;
    } else {
      i := SomeOpaque(ns[1..], query, decl);
      i := i + 1;
    }
  }

  lemma {:induction false} OpaqueIsReached(n: Node, query: string, decl: nat) returns (m: Node)
    requires Track(n, query, decl).isOpaque
    ensures Reaches(n, m, query, decl) && Own(m, query, decl).isOpaque
    decreases n
  {
    var parts := Within(n, query, decl);
    RecordSplits(n, query, decl);
    if Own(n, query, decl).isOpaque {
      m := n;
    } else {
      var i := SomeOpaque(parts, query, decl);
      m := OpaqueIsReached(parts[i], query, decl);
    }
  }

  /** The record is opaque exactly when the tracker reaches a place that hands the data on, or an opaque list. */
  lemma OpaqueExactlyWhen(n: Node, query: string, decl: nat)
    ensures Track(n, query, decl).isOpaque
       <==> exists m :: Reaches(n, m, query, decl)
              && if IsList(m, query, decl) then Own(m, query, decl).isOpaque else HandsOn(m, query)
  {
    if Track(n, query, decl).isOpaque {
      var m := OpaqueIsReached(n, query, decl);
      if !IsList(m, query, decl) {
        OwnIsHandedOn(m, query, decl);
      }
    }
    forall m | Reaches(n, m, query, decl)
      && if IsList(m, query, decl) then Own(m, query, decl).isOpaque else HandsOn(m, query)
      ensures Track(n, query, decl).isOpaque
    {
      if !IsList(m, query, decl) {
        OwnIsHandedOn(m, query, decl);
      }
      RecordSplits(m, query, decl);
      ReachedIsHeld(n, m, query, decl);
    }
  }

  // ---- all reads of an item ----

  /** What the callback tracker comes past next: not functions, and not scopes in which it sees the name bound. */
  function ItemWithin(n: Node, item: string): seq<Node> {
    match n
    case Call(callee, args) => [callee] + args
    case Spread(argument) => [argument]
    case Parts(_, parts) => parts
    case Declare(_, _, inits) => inits
    case Scope(kind, params, heads, body) =>
      if kind.FunctionDecl? || kind.FunctionExpr? then []
      else if kind.TryBlock? then body
      else if kind.Catch? then if ParamsBind(params, item) then [] else body
      else if Binds(n, item, None) then [] else heads + body
    case _ => []
  }

  ghost predicate ItemReaches(n: Node, m: Node, item: string)
    decreases n
  {
    n == m || exists i :: 0 <= i < |ItemWithin(n, item)| && ItemReaches(ItemWithin(n, item)[i], m, item)
  }

  function ItemOwn(n: Node, item: string): Access {
    match n
    case Member(_, _) => ItemAccess(n, item)
    case Index(_, _, _) => ItemAccess(n, item)
    case Spread(argument) => Opaque(argument == Name(item))
    case _ => Nothing
  }

  lemma {:induction false} ItemAppend(a: seq<Node>, b: seq<Node>, item: string)
    ensures ItemAccessAll(a + b, item) == Join(ItemAccessAll(a, item), ItemAccessAll(b, item))
  {
    if a == [] {
      assert a + b == b;
      JoinNothing(ItemAccessAll(b, item));
    } else {
      assert (a + b)[1..] == a[1..] + b;
      ItemAppend(a[1..], b, item);
      JoinJoin(ItemAccess(a[0], item), ItemAccessAll(a[1..], item), ItemAccessAll(b, item));
    }
  }

  lemma ItemSplits(n: Node, item: string)
    ensures SameHoldings(ItemAccess(n, item), Join(ItemOwn(n, item), ItemAccessAll(ItemWithin(n, item), item)))
  {
    match n {
      case Call(callee, args) =>
        ItemAppend([callee], args, item);
        ItemOne(callee, item);
      case Spread(argument) => ItemOne(argument, item);
      case Scope(_, _, _, _) => ItemScopeSplits(n, item);
      case _ =>
    }
  }

  lemma ItemScopeSplits(n: Node, item: string)
    requires n.Scope?
    ensures ItemAccess(n, item) == ItemAccessAll(ItemWithin(n, item), item)
  {
    ItemAppend(n.heads, n.body, item);
  }

  lemma ItemOne(n: Node, item: string)
    ensures ItemAccessAll([n], item) == ItemAccess(n, item)
  {
    assert [n][1..] == [];
    JoinNothing(ItemAccess(n, item));
  }

  lemma {:induction false} AllItemsHeld(ns: seq<Node>, i: nat, item: string)
    requires i < |ns|
    ensures Holds(ItemAccessAll(ns, item), ItemAccess(ns[i], item))
  {
    if i > 0 {
      AllItemsHeld(ns[1..], i - 1, item);
    }
  }

  lemma {:induction false} ReachedItemIsHeld(n: Node, m: Node, item: string)
    requires ItemReaches(n, m, item)
    ensures Holds(ItemAccess(n, item), ItemAccess(m, item))
    decreases n
  {
    if n != m {
      var parts := ItemWithin(n, item);
      var i :| 0 <= i < |parts| && ItemReaches(parts[i], m, item);
      ReachedItemIsHeld(parts[i], m, item);
      AllItemsHeld(parts, i, item);
      ItemSplits(n, item);
      var inside := ItemAccessAll(parts, item);
      HoldsJoined(ItemOwn(n, item), inside);
      HoldsTwice(ItemAccess(n, item), Join(ItemOwn(n, item), inside), inside);
      HoldsTwice(ItemAccess(n, item), inside, ItemAccess(parts[i], item));
      HoldsTwice(ItemAccess(n, item), ItemAccess(parts[i], item), ItemAccess(m, item));
    }
  }

  lemma {:induction false} SomeItemHolds(ns: seq<Node>, item: string, field: string) returns (i: nat)
    requires field in ItemAccessAll(ns, item).fields
    ensures i < |ns| && field in ItemAccess(ns[i], item).fields
  {
    if field in ItemAccess(ns[0], item).fields {
      i := 0;
    } else {
      i := SomeItemHolds(ns[1..], item, field);
      i := i + 1;
    }
  }

  lemma {:induction false} ItemFieldIsReached(n: Node, item: string, field: string) returns (m: Node)
    requires field in ItemAccess(n, item).fields
    ensures ItemReaches(n, m, item) && field in ItemOwn(m, item).fields
    decreases n
  {
    var parts := ItemWithin(n, item);
    ItemSplits(n, item);
    if field in ItemOwn(n, item).fields {
      m := n;
    } else {
      var i := SomeItemHolds(parts, item, field);
      m := ItemFieldIsReached(parts[i], item, field);
    }
  }

  predicate ReadsOfItem(n: Node, item: string, steps: seq<Step>, field: string) {
    n == Path(item, steps) && EndsPlainly(steps) && Props(steps) != [] && Props(steps)[0] == field
  }

  /** A callback records a field of its item exactly when the tracker reaches a read whose first property it is. */
  lemma ItemFieldRecordedExactlyWhen(n: Node, item: string, field: string)
    ensures field in ItemAccess(n, item).fields
       <==> exists m, steps :: ItemReaches(n, m, item) && ReadsOfItem(m, item, steps, field)
  {
    if field in ItemAccess(n, item).fields {
      var m := ItemFieldIsReached(n, item, field);
      var root, steps := ChainIsPath(m);
      PathIsChain(root, steps);
      ItemReadRecords(item, steps);
      assert ReadsOfItem(m, item, steps, field);
    }
    forall m, steps | ItemReaches(n, m, item) && ReadsOfItem(m, item, steps, field)
      ensures field in ItemAccess(n, item).fields
    {
      ItemReadRecords(item, steps);
      ReachedItemIsHeld(n, m, item);
    }
  }

  // ---- which scopes hide a name ----

  predicate Names(p: Param, name: string) {
    (p.Simple? && p.name == name) || (p.Pattern? && exists i :: 0 <= i < |p.names| && p.names[i] == name)
  }

  ghost predicate TakesParam(n: Node, name: string)
    requires n.Scope?
  {
    exists i :: 0 <= i < |n.params| && Names(n.params[i], name)
  }

  /** A declaration of `name`, of a variable or a function, that stands at `span`. */
  predicate DeclaresName(n: Node, name: string, span: nat) {
    || (n.Declare? && Names(n.param, name) && n.span == span)
    || (n.Scope? && n.kind.FunctionDecl? && n.kind.name == name && n.kind.span == span)
  }

  ghost predicate DeclaresInside(n: Node, name: string, except: Option<nat>)
    requires n.Scope?
  {
    exists i, span: nat :: 0 <= i < |n.body| && DeclaresName(n.body[i], name, span) && except != Some(span)
  }

  /**
   Functions bind their own names, parameters and declarations, blocks their
   declarations, handlers both a parameter and declarations, and loops what
   stands in their heads.
   */
  lemma BindsExactlyWhen(n: Node, name: string, except: Option<nat>)
    requires n.Scope?
    ensures Binds(n, name, except)
       <==> match n.kind
            case FunctionDecl(own, _) => own == name || TakesParam(n, name) || DeclaresInside(n, name, except)
            case FunctionExpr(own) => own == Some(name) || TakesParam(n, name) || DeclaresInside(n, name, except)
            case BlockScope => DeclaresInside(n, name, except)
            case TryBlock => DeclaresInside(n, name, except)
            case Catch => TakesParam(n, name) || DeclaresInside(n, name, except)
            case For => TakesParam(n, name)
            case ForOf => TakesParam(n, name)
  {
    ParamsNamed(n, name);
    BodyDeclares(n, name, except);
  }

  lemma ParamsNamed(n: Node, name: string)
    requires n.Scope?
    ensures ParamsBind(n.params, name) <==> TakesParam(n, name)
  {
    forall i | 0 <= i < |n.params| ensures ParamBinds(n.params[i], name) <==> Names(n.params[i], name) {
    }
  }

  lemma BodyDeclares(n: Node, name: string, except: Option<nat>)
    requires n.Scope?
    ensures BodyShadows(n.body, name, except) <==> DeclaresInside(n, name, except)
  {
    forall i, span: nat | 0 <= i < |n.body|
      ensures DeclaresAt(n.body[i], name) == Some(span) <==> DeclaresName(n.body[i], name, span)
    {
    }
    if BodyShadows(n.body, name, except) {
      var i :| 0 <= i < |n.body| && DeclaresAt(n.body[i], name).Some? && DeclaresAt(n.body[i], name) != except;
      assert DeclaresName(n.body[i], name, DeclaresAt(n.body[i], name).value);
    }
  }
}
