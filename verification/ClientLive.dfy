/**
 What an element shows once the values its attributes are given change
 (packages/ui/src/dom/attributes.ts): every attribute and property statement of
 the client program is run once, the reactive ones again after every change. An
 attribute given by an expression shows the expression's present value if it
 reads reactive state, and its first value otherwise.
 */
module ClientLive {
  import opened JsxSyntax
  import opened ClientCompiler
  import opened ClientDom
  import opened ClientRun

  // ---- values and places ----

  /** What the runtime asks of a value. */
  datatype Runtime<!V> = Runtime(isNone: V -> bool, isFalse: V -> bool, isTrue: V -> bool, isObject: V -> bool,
                                 styleText: V -> string, text: V -> string)

  datatype Place = AttrPlace(name: string) | PropPlace(name: string)

  /** An attribute's text, a property's literal or given value, or the property's own empty value. */
  datatype Shown<V> = ShownText(text: string) | ShownTrue | ShownValue(value: V) | ShownEmpty

  datatype Effect = Effect(place: Place, slice: Slice)

  datatype State<V> = State(values: map<Place, Shown<V>>, effects: seq<Effect>)

  function AttributeText<V>(rt: Runtime<V>, name: string, v: V): string {
    if rt.isTrue(v) then ""
    else if name == "style" && rt.isObject(v) then rt.styleText(v)
    else rt.text(v)
  }

  predicate IsAbsent<V>(rt: Runtime<V>, v: V) {
    rt.isNone(v) || rt.isFalse(v)
  }

  // ---- the statements ----

  function RunEffect<V>(rt: Runtime<V>, env: nat -> V, values: map<Place, Shown<V>>, e: Effect): map<Place, Shown<V>> {
    var v := env(e.slice.id);
    match e.place
    case AttrPlace(name) =>
      if IsAbsent(rt, v) then values - {e.place} else values[e.place := ShownText(AttributeText(rt, name, v))]
    case PropPlace(_) => values[e.place := if rt.isNone(v) then ShownEmpty else ShownValue(v)]
  }

  function Bind<V>(rt: Runtime<V>, env: nat -> V, s: State<V>, e: Effect): State<V> {
    State(RunEffect(rt, env, s.values, e), s.effects + [e])
  }

  function Literal(q: string): string {
    var text := Unquote(q);
    if text.None? then "" else text.value
  }

  function Do<V>(rt: Runtime<V>, env: nat -> V, s: State<V>, a: Action): State<V> {
    match a
    case SetAttribute(nameQ, valueQ) => s.(values := s.values[AttrPlace(Literal(nameQ)) := ShownText(Literal(valueQ))])
    case GuardedAttribute(name, slice) =>
      var v := env(slice.id);
      if IsAbsent(rt, v) then s
      else s.(values := s.values[AttrPlace(name) := ShownText(if rt.isTrue(v) then "" else rt.text(v))])
    case StyleText(slice) =>
      var v := env(slice.id);
      if IsAbsent(rt, v) then s
      else s.(values := s.values[AttrPlace("style") := ShownText(AttributeText(rt, "style", v))])
    case AssignProperty(name, valueQ) => s.(values := s.values[PropPlace(name) := ShownText(Literal(valueQ))])
    case AssignTrue(name) => s.(values := s.values[PropPlace(name) := ShownTrue])
    case GuardedProperty(name, slice) =>
      var v := env(slice.id);
      if rt.isNone(v) then s else s.(values := s.values[PropPlace(name) := ShownValue(v)])
    case ReactiveAttribute(name, slice) => Bind(rt, env, s, Effect(AttrPlace(name), slice))
    case ReactiveProperty(name, slice) => Bind(rt, env, s, Effect(PropPlace(name), slice))
    case _ => s
  }

  function DoAll<V>(rt: Runtime<V>, env: nat -> V, s: State<V>, actions: seq<Action>): State<V>
    decreases |actions|
  {
    if actions == [] then s else DoAll(rt, env, Do(rt, env, s, actions[0]), actions[1..])
  }

  /** A change: every effect runs again, in the order they were bound. */
  function Rerun<V>(rt: Runtime<V>, env: nat -> V, values: map<Place, Shown<V>>, effects: seq<Effect>):
    map<Place, Shown<V>>
    decreases |effects|
  {
    if effects == [] then values else Rerun(rt, env, RunEffect(rt, env, values, effects[0]), effects[1..])
  }

  function Change<V>(rt: Runtime<V>, s: State<V>, later: seq<nat -> V>): State<V>
    decreases |later|
  {
    if later == [] then s
    else Change(rt, s.(values := Rerun(rt, later[0], s.values, s.effects)), later[1..])
  }

  /** The statements about the element itself, in the order they run. */
  function ActionsOn(v: nat, stmts: seq<Stmt>): seq<Action> {
    if stmts == [] then []
    else if stmts[0].Act? && stmts[0].v == v then [stmts[0].action] + ActionsOn(v, stmts[1..])
    else ActionsOn(v, stmts[1..])
  }

  /** An element after its program has run and the values have changed any number of times. */
  function Showing<V>(rt: Runtime<V>, e: Element, live: Slice -> bool, counter: nat, first: nat -> V,
                      later: seq<nat -> V>): map<Place, Shown<V>> {
    var actions := ActionsOn(counter, TransformElement(e, live, counter).value.body);
    Change(rt, DoAll(rt, first, State(map[], []), actions), later).values
  }

  // ---- what the source says ----

  predicate IsExpression(attr: Attr) {
    attr.Attr? && (attr.value.Braced? || attr.value.BracedObject?)
  }

  predicate IsHandler(name: string) {
    |name| > 2 && name[0] == 'o' && name[1] == 'n'
  }

  /** Where an attribute of the source shows, if it is a matter of attributes and properties at all. */
  function PlaceOf(attr: Attr, tag: string): Option<Place> {
    if attr.SpreadAttr? || attr.name in {"key", "innerHTML"} || attr.value.BracedNothing? || attr.value.BracedJsx?
      || (IsExpression(attr) && (attr.name == "ref" || IsHandler(attr.name))) then None
    else
      var name := if attr.name == "className" then "class"
                  else if attr.name == "debounce" && tag in {"input", "select", "textarea"} && !attr.value.NoValue?
                    then "data-vertz-debounce"
                  else attr.name;
      Some(if IsFormProperty(tag, name) then PropPlace(name) else AttrPlace(name))
  }

  /** Form state that content attributes do not control. */
  predicate IsFormProperty(tag: string, name: string) {
    || (tag == "input" && (name == "value" || name == "checked" || name == "defaultValue" || name == "defaultChecked"))
    || (tag == "textarea" && (name == "value" || name == "defaultValue"))
    || (tag == "select" && name == "value")
  }

  /** What one place shows, and the slices it follows. */
  datatype Local<V> = Local(value: Option<Shown<V>>, follows: seq<Slice>)

  function Present<V>(rt: Runtime<V>, place: Place, v: V): Option<Shown<V>> {
    match place
    case AttrPlace(name) => if IsAbsent(rt, v) then None else Some(ShownText(AttributeText(rt, name, v)))
    case PropPlace(_) => Some(if rt.isNone(v) then ShownEmpty else ShownValue(v))
  }

  /** An attribute's turn at its place: an expression without reactive state leaves the place alone if it is absent. */
  function Turn<V>(rt: Runtime<V>, attr: Attr, live: Slice -> bool, env: nat -> V, place: Place, l: Local<V>): Local<V>
    requires attr.Attr?
  {
    match attr.value
    case Quoted(text) => l.(value := Some(ShownText(text)))
    case NoValue =>
      l.(value := Some(if place.PropPlace? && place.name in {"checked", "defaultChecked"} then ShownTrue
                       else ShownText("")))
    case Braced(slice) => ExpressionTurn(rt, slice, live, env, place, l)
    case BracedObject(_, slice) => ExpressionTurn(rt, slice, live, env, place, l)
    case _ => l
  }

  function ExpressionTurn<V>(rt: Runtime<V>, slice: Slice, live: Slice -> bool, env: nat -> V, place: Place,
                             l: Local<V>): Local<V> {
    var v := env(slice.id);
    if live(slice) then Local(Present(rt, place, v), l.follows + [slice])
    else if rt.isNone(v) || (place.AttrPlace? && rt.isFalse(v)) then l
    else l.(value := Present(rt, place, v))
  }

  /** The attributes that show at one place take their turns in source order. */
  function Turns<V>(rt: Runtime<V>, attrs: seq<Attr>, tag: string, live: Slice -> bool, env: nat -> V, place: Place,
                    l: Local<V>): Local<V>
    decreases |attrs|
  {
    if attrs == [] then l
    else Turns(rt, attrs[1..], tag, live, env, place,
               if PlaceOf(attrs[0], tag) == Some(place) then Turn(rt, attrs[0], live, env, place, l) else l)
  }

  /** After a change a place shows the present value of the last slice it follows, or what it showed before. */
  function Later<V>(rt: Runtime<V>, place: Place, l: Local<V>, later: seq<nat -> V>): Option<Shown<V>> {
    if later == [] || l.follows == [] then l.value
    else Present(rt, place, later[|later| - 1](l.follows[|l.follows| - 1].id))
  }

  // ---- one place at a time ----

  function At<V>(values: map<Place, Shown<V>>, place: Place): Option<Shown<V>> {
    if place in values then Some(values[place]) else None
  }

  function Following(effects: seq<Effect>, place: Place): seq<Slice> {
    if effects == [] then []
    else if effects[0].place == place then [effects[0].slice] + Following(effects[1..], place)
    else Following(effects[1..], place)
  }

  function LocalAt<V>(s: State<V>, place: Place): Local<V> {
    Local(At(s.values, place), Following(s.effects, place))
  }

  lemma {:induction false} FollowingAppend(effects: seq<Effect>, e: Effect, place: Place)
    ensures Following(effects + [e], place) == Following(effects, place) + if e.place == place then [e.slice] else []
  {
    if effects == [] {
      assert [] + [e] == [e] && [e][1..] == [];
    } else {
      assert (effects + [e])[1..] == effects[1..] + [e];
      FollowingAppend(effects[1..], e, place);
    }
  }

  lemma EffectAt<V>(rt: Runtime<V>, env: nat -> V, values: map<Place, Shown<V>>, e: Effect, place: Place)
    ensures At(RunEffect(rt, env, values, e), place)
         == if e.place == place then Present(rt, place, env(e.slice.id)) else At(values, place)
  {
  }

  lemma BindAt<V>(rt: Runtime<V>, env: nat -> V, s: State<V>, e: Effect, place: Place)
    ensures LocalAt(Bind(rt, env, s, e), place)
         == if e.place == place
            then Local(Present(rt, place, env(e.slice.id)), Following(s.effects, place) + [e.slice])
            else LocalAt(s, place)
  {
    EffectAt(rt, env, s.values, e, place);
    FollowingAppend(s.effects, e, place);
  }

  /** The place a statement writes to. */
  function ActionPlace(a: Action): Option<Place> {
    match a
    case SetAttribute(nameQ, _) => Some(AttrPlace(Literal(nameQ)))
    case GuardedAttribute(name, _) => Some(AttrPlace(name))
    case StyleText(_) => Some(AttrPlace("style"))
    case ReactiveAttribute(name, _) => Some(AttrPlace(name))
    case AssignProperty(name, _) => Some(PropPlace(name))
    case AssignTrue(name) => Some(PropPlace(name))
    case GuardedProperty(name, _) => Some(PropPlace(name))
    case ReactiveProperty(name, _) => Some(PropPlace(name))
    case _ => None
  }

  lemma DoElsewhere<V>(rt: Runtime<V>, env: nat -> V, s: State<V>, a: Action, place: Place)
    requires ActionPlace(a) != Some(place)
    ensures LocalAt(Do(rt, env, s, a), place) == LocalAt(s, place)
  {
    match a {
      case ReactiveAttribute(name, slice) => BindAt(rt, env, s, Effect(AttrPlace(name), slice), place);
      case ReactiveProperty(name, slice) => BindAt(rt, env, s, Effect(PropPlace(name), slice), place);
      case _ =>
    }
  }

  /** What a statement does to its place depends on that place alone. */
  lemma DoSame<V>(rt: Runtime<V>, env: nat -> V, s: State<V>, t: State<V>, a: Action, place: Place)
    requires LocalAt(s, place) == LocalAt(t, place)
    ensures LocalAt(Do(rt, env, s, a), place) == LocalAt(Do(rt, env, t, a), place)
  {
    match a {
      case ReactiveAttribute(name, slice) =>
        BindAt(rt, env, s, Effect(AttrPlace(name), slice), place);
        BindAt(rt, env, t, Effect(AttrPlace(name), slice), place);
      case ReactiveProperty(name, slice) =>
        BindAt(rt, env, s, Effect(PropPlace(name), slice), place);
        BindAt(rt, env, t, Effect(PropPlace(name), slice), place);
      case _ =>
    }
  }

  function OnPlace(actions: seq<Action>, place: Place): seq<Action> {
    if actions == [] then []
    else if ActionPlace(actions[0]) == Some(place) then [actions[0]] + OnPlace(actions[1..], place)
    else OnPlace(actions[1..], place)
  }

  lemma {:induction false} OnPlaceAppend(a: seq<Action>, b: seq<Action>, place: Place)
    ensures OnPlace(a + b, place) == OnPlace(a, place) + OnPlace(b, place)
  {
    if a == [] {
      assert a + b == b;
    } else {
      assert (a + b)[1..] == a[1..] + b;
      OnPlaceAppend(a[1..], b, place);
    }
  }

  lemma {:induction false} OnlyOnPlace<V>(rt: Runtime<V>, env: nat -> V, s: State<V>, t: State<V>, actions: seq<Action>,
                                          place: Place)
    requires LocalAt(s, place) == LocalAt(t, place)
    ensures LocalAt(DoAll(rt, env, s, actions), place) == LocalAt(DoAll(rt, env, t, OnPlace(actions, place)), place)
    decreases |actions|
  {
    if actions != [] {
      var s1 := Do(rt, env, s, actions[0]);
      if ActionPlace(actions[0]) == Some(place) {
        DoSame(rt, env, s, t, actions[0], place);
        assert OnPlace(actions, place)[1..] == OnPlace(actions[1..], place);
        OnlyOnPlace(rt, env, s1, Do(rt, env, t, actions[0]), actions[1..], place);
      } else {
        DoElsewhere(rt, env, s, actions[0], place);
        OnlyOnPlace(rt, env, s1, t, actions[1..], place);
      }
    }
  }

  lemma {:induction false} DoAppend<V>(rt: Runtime<V>, env: nat -> V, s: State<V>, a: seq<Action>, b: seq<Action>)
    ensures DoAll(rt, env, s, a + b) == DoAll(rt, env, DoAll(rt, env, s, a), b)
    decreases |a|
  {
    if a == [] {
      assert a + b == b;
    } else {
      assert (a + b)[1..] == a[1..] + b;
      DoAppend(rt, env, Do(rt, env, s, a[0]), a[1..], b);
    }
  }

  // ---- an attribute's statement is its turn ----

  /** What the compiler makes of a name, with and without a value. */
  lemma Names(name: string, tag: string)
    ensures IsHandlerName(name) == IsHandler(name) && IsIdlProperty(tag, name) == IsFormProperty(tag, name)
    ensures AttributeName(name, tag)
         == if name == "className" then "class"
            else if name == "debounce" && tag in {"input", "select", "textarea"} then "data-vertz-debounce" else name
  {
    if |name| > 2 {
      assert name[..2] == [name[0], name[1]];
    }
  }

  function ShownName(attr: Attr, tag: string): string
    requires attr.Attr?
  {
    if attr.value.NoValue? then if attr.name == "className" then "class" else attr.name
    else AttributeName(attr.name, tag)
  }

  lemma PlaceOfName(attr: Attr, tag: string)
    requires attr.Attr? && PlaceOf(attr, tag).Some?
    ensures var name := ShownName(attr, tag);
      PlaceOf(attr, tag) == Some(if IsIdlProperty(tag, name) then PropPlace(name) else AttrPlace(name))
  {
    Names(attr.name, tag);
    Names(ShownName(attr, tag), tag);
  }

  lemma LiteralReads(s: string)
    ensures Literal(JsonQuote(s)) == s
  {
    QuotedReadsBack(s);
  }

  function FixedText(attr: Attr): string
    requires attr.Attr?
  {
    if attr.value.Quoted? then attr.value.text else ""
  }

  /** The statement for a text or for no value, its literals read back. */
  lemma FixedAction(attr: Attr, tag: string, live: Slice -> bool) returns (nameQ: string, textQ: string)
    requires attr.Attr? && (attr.value.Quoted? || attr.value.NoValue?) && attr.name != "key"
    ensures Literal(nameQ) == ShownName(attr, tag) && Literal(textQ) == FixedText(attr)
    ensures ProcessAttr(attr, tag, live) == Some(FixedStatement(ShownName(attr, tag), nameQ, textQ,
                                                                IsIdlProperty(tag, ShownName(attr, tag)),
                                                                attr.value.NoValue?))
  {
    nameQ, textQ := JsonQuote(ShownName(attr, tag)), JsonQuote(FixedText(attr));
    LiteralReads(ShownName(attr, tag));
    LiteralReads(FixedText(attr));
  }

  function FixedStatement(name: string, nameQ: string, textQ: string, isIdl: bool, isBare: bool): Action {
    if !isIdl then SetAttribute(nameQ, textQ)
    else if isBare && IsBooleanIdlProperty(name) then AssignTrue(name)
    else AssignProperty(name, textQ)
  }

  lemma StatementPlace(name: string, nameQ: string, textQ: string, isIdl: bool, isBare: bool)
    requires Literal(nameQ) == name
    ensures ActionPlace(FixedStatement(name, nameQ, textQ, isIdl, isBare))
         == Some(if isIdl then PropPlace(name) else AttrPlace(name))
  {
  }

  lemma FixedPlace(attr: Attr, tag: string, nameQ: string, textQ: string)
    requires attr.Attr? && (attr.value.Quoted? || attr.value.NoValue?) && attr.name != "key" && attr.name != "innerHTML"
    requires Literal(nameQ) == ShownName(attr, tag)
    ensures var name := ShownName(attr, tag);
      ActionPlace(FixedStatement(name, nameQ, textQ, IsIdlProperty(tag, name), attr.value.NoValue?))
      == PlaceOf(attr, tag)
  {
    var name := ShownName(attr, tag);
    StatementPlace(name, nameQ, textQ, IsIdlProperty(tag, name), attr.value.NoValue?);
    assert PlaceOf(attr, tag).Some?;
    PlaceOfName(attr, tag);
  }

  function SliceOf(attr: Attr): Slice
    requires IsExpression(attr)
  {
    attr.value.slice
  }

  lemma ExpressionAction(attr: Attr, tag: string, live: Slice -> bool)
    requires IsExpression(attr) && attr.name != "key"
    ensures ProcessAttr(attr, tag, live) == Some(ProcessExpression(attr.name, SliceOf(attr), tag, live))
  {
  }

  /** What a shown expression compiles to. */
  lemma ExpressionStatement(attr: Attr, tag: string, live: Slice -> bool)
    requires IsExpression(attr) && PlaceOf(attr, tag).Some?
    ensures var name, isIdl := ShownName(attr, tag), IsIdlProperty(tag, ShownName(attr, tag));
      ProcessExpression(attr.name, SliceOf(attr), tag, live)
      == if live(SliceOf(attr)) then
           if isIdl then ReactiveProperty(name, SliceOf(attr)) else ReactiveAttribute(name, SliceOf(attr))
         else if name == "style" then StyleText(SliceOf(attr))
         else if isIdl then GuardedProperty(name, SliceOf(attr))
         else GuardedAttribute(name, SliceOf(attr))
  {
    RenamedAttr(attr.name, tag);
    Names(attr.name, tag);
    Names("onChange", tag);
  }

  lemma HiddenExpression(attr: Attr, tag: string, live: Slice -> bool)
    requires IsExpression(attr) && attr.name != "key" && attr.name != "innerHTML" && PlaceOf(attr, tag).None?
    ensures ActionPlace(ProcessExpression(attr.name, SliceOf(attr), tag, live)) == None
  {
    RenamedAttr(attr.name, tag);
    Names(attr.name, tag);
  }

  lemma StyleIsNoProperty(tag: string)
    ensures !IsIdlProperty(tag, "style")
  {
    Names("style", tag);
  }

  lemma ExpressionPlace(attr: Attr, tag: string, live: Slice -> bool)
    requires IsExpression(attr) && attr.name != "key" && attr.name != "innerHTML"
    ensures ActionPlace(ProcessExpression(attr.name, SliceOf(attr), tag, live)) == PlaceOf(attr, tag)
  {
    if PlaceOf(attr, tag).Some? {
      PlaceOfName(attr, tag);
      ExpressionStatement(attr, tag, live);
      StyleIsNoProperty(tag);
    } else {
      HiddenExpression(attr, tag, live);
    }
  }

  lemma IdlPlace(attr: Attr, tag: string)
    requires attr.Attr? && PlaceOf(attr, tag).Some?
    ensures IsIdlAttr(attr, tag) <==> PlaceOf(attr, tag).value.PropPlace?
  {
    Names(attr.name, tag);
    RenamedAttr(attr.name, tag);
    PlaceOfName(attr, tag);
  }

  lemma FixedTurn<V>(rt: Runtime<V>, attr: Attr, tag: string, live: Slice -> bool, env: nat -> V, s: State<V>,
                     place: Place)
    requires attr.Attr? && (attr.value.Quoted? || attr.value.NoValue?) && PlaceOf(attr, tag) == Some(place)
    requires ProcessAttr(attr, tag, live).Some?
    ensures LocalAt(Do(rt, env, s, ProcessAttr(attr, tag, live).value), place)
         == Turn(rt, attr, live, env, place, LocalAt(s, place))
  {
    var name := ShownName(attr, tag);
    var nameQ, textQ := FixedAction(attr, tag, live);
    PlaceOfName(attr, tag);
    DoFixed(rt, env, s, name, nameQ, textQ, IsIdlProperty(tag, name), attr.value.NoValue?, place);
  }

  lemma DoFixed<V>(rt: Runtime<V>, env: nat -> V, s: State<V>, name: string, nameQ: string, textQ: string, isIdl: bool,
                   isBare: bool, place: Place)
    requires Literal(nameQ) == name && place == if isIdl then PropPlace(name) else AttrPlace(name)
    ensures LocalAt(Do(rt, env, s, FixedStatement(name, nameQ, textQ, isIdl, isBare)), place)
         == LocalAt(s, place).(value := Some(if isIdl && isBare && name in {"checked", "defaultChecked"} then ShownTrue
                                             else ShownText(Literal(textQ))))
  {
  }

  lemma ShownExpression<V>(rt: Runtime<V>, attr: Attr, tag: string, live: Slice -> bool, env: nat -> V, s: State<V>,
                           place: Place)
    requires IsExpression(attr) && PlaceOf(attr, tag) == Some(place)
    ensures LocalAt(Do(rt, env, s, ProcessExpression(attr.name, SliceOf(attr), tag, live)), place)
         == ExpressionTurn(rt, SliceOf(attr), live, env, place, LocalAt(s, place))
  {
    PlaceOfName(attr, tag);
    ExpressionStatement(attr, tag, live);
    StyleIsNoProperty(tag);
    if live(SliceOf(attr)) {
      BindAt(rt, env, s, Effect(place, SliceOf(attr)), place);
    }
  }

  // ---- the statements sorted ----

  /** Attributes are set at once, properties assigned late, and the rest shows nowhere. */
  ghost predicate Placed(acc: AttrStmts) {
    && (forall a :: a in acc.now && ActionPlace(a).Some? ==> ActionPlace(a).value.AttrPlace?)
    && (forall a :: a in acc.idl && ActionPlace(a).Some? ==> ActionPlace(a).value.PropPlace?)
    && (acc.html.Some? ==> ActionPlace(acc.html.value).None?) && (acc.ref.Some? ==> ActionPlace(acc.ref.value).None?)
  }

  function All(acc: AttrStmts): seq<Action> {
    acc.now + Optional(acc.html) + (acc.idl + Optional(acc.ref))
  }

  lemma {:induction false} NoneOnPlace(actions: seq<Action>, place: Place)
    requires forall a :: a in actions ==> ActionPlace(a) != Some(place)
    ensures OnPlace(actions, place) == []
  {
    if actions != [] {
      NoneOnPlace(actions[1..], place);
    }
  }

  lemma AllOnPlace(acc: AttrStmts, place: Place)
    requires Placed(acc)
    ensures OnPlace(All(acc), place) == if place.AttrPlace? then OnPlace(acc.now, place) else OnPlace(acc.idl, place)
  {
    OnPlaceAppend(acc.now + Optional(acc.html), acc.idl + Optional(acc.ref), place);
    OnPlaceAppend(acc.now, Optional(acc.html), place);
    OnPlaceAppend(acc.idl, Optional(acc.ref), place);
    NoneOnPlace(Optional(acc.html), place);
    NoneOnPlace(Optional(acc.ref), place);
    if place.AttrPlace? {
      NoneOnPlace(acc.idl, place);
    } else {
      NoneOnPlace(acc.now, place);
    }
  }

  /** What is compiled for an attribute, as far as it shows at `place`. */
  function Own(attr: Attr, tag: string, live: Slice -> bool, place: Place): seq<Action> {
    if PlaceOf(attr, tag) == Some(place) && ProcessAttr(attr, tag, live).Some? then
      [ProcessAttr(attr, tag, live).value]
    else []
  }

  lemma ProcessedPlace(attr: Attr, tag: string, live: Slice -> bool)
    requires IsExtracted(attr) && !IsInnerHtmlAttr(attr)
    ensures var action := ProcessAttr(attr, tag, live);
      if action.None? then PlaceOf(attr, tag) == None else ActionPlace(action.value) == PlaceOf(attr, tag)
  {
    if attr.Attr? && attr.name != "key" {
      if IsExpression(attr) {
        ExpressionAction(attr, tag, live);
        ExpressionPlace(attr, tag, live);
      } else {
        var nameQ, textQ := FixedAction(attr, tag, live);
        FixedPlace(attr, tag, nameQ, textQ);
      }
    }
  }

  lemma OneOnPlace(actions: seq<Action>, a: Action, place: Place)
    ensures OnPlace(actions + [a], place) == OnPlace(actions, place) + if ActionPlace(a) == Some(place) then [a] else []
  {
    OnPlaceAppend(actions, [a], place);
    assert [a][1..] == [];
  }

  lemma SortPlaces(acc: AttrStmts, attr: Attr, tag: string, live: Slice -> bool, place: Place)
    requires Placed(acc)
    ensures Placed(SortAttr(acc, attr, tag, live))
    ensures OnPlace(All(SortAttr(acc, attr, tag, live)), place)
         == OnPlace(All(acc), place) + Own(attr, tag, live, place)
  {
    if IsExtracted(attr) && !IsInnerHtmlAttr(attr) {
      ProcessedPlace(attr, tag, live);
      SortProcessed(acc, attr, tag, live, ProcessAttr(attr, tag, live), place);
    } else {
      SamePlaces(acc, SortAttr(acc, attr, tag, live), place);
    }
  }

  lemma SortProcessed(acc: AttrStmts, attr: Attr, tag: string, live: Slice -> bool, action: Option<Action>,
                      place: Place)
    requires Placed(acc) && IsExtracted(attr) && !IsInnerHtmlAttr(attr) && action == ProcessAttr(attr, tag, live)
    requires if action.None? then PlaceOf(attr, tag) == None else ActionPlace(action.value) == PlaceOf(attr, tag)
    ensures var next := SortAttr(acc, attr, tag, live);
      Placed(next)
      && OnPlace(All(next), place)
         == OnPlace(All(acc), place)
            + if PlaceOf(attr, tag) == Some(place) && action.Some? then [action.value] else []
  {
    if IsRefAttr(attr) {
      assert PlaceOf(attr, tag) == None;
      SamePlaces(acc, acc.(ref := action), place);
    } else if action.Some? {
      if PlaceOf(attr, tag).Some? { IdlPlace(attr, tag); }
      OneSorted(acc, action.value, IsIdlAttr(attr, tag), place);
    }
  }

  lemma SamePlaces(acc: AttrStmts, next: AttrStmts, place: Place)
    requires Placed(acc) && Placed(next) && next.now == acc.now && next.idl == acc.idl
    ensures OnPlace(All(next), place) == OnPlace(All(acc), place)
  {
    AllOnPlace(acc, place);
    AllOnPlace(next, place);
  }

  lemma OneSorted(acc: AttrStmts, action: Action, late: bool, place: Place)
    requires Placed(acc) && (ActionPlace(action).Some? ==> ActionPlace(action).value.PropPlace? == late)
    ensures var next := if late then acc.(idl := acc.idl + [action]) else acc.(now := acc.now + [action]);
      Placed(next)
      && OnPlace(All(next), place)
         == OnPlace(All(acc), place) + if ActionPlace(action) == Some(place) then [action] else []
  {
    var next := if late then acc.(idl := acc.idl + [action]) else acc.(now := acc.now + [action]);
    OneOnPlace(if late then acc.idl else acc.now, action, place);
    AllOnPlace(acc, place);
    AllOnPlace(next, place);
  }

  lemma OwnTurn<V>(rt: Runtime<V>, attr: Attr, tag: string, live: Slice -> bool, env: nat -> V, s: State<V>,
                   place: Place)
    ensures LocalAt(DoAll(rt, env, s, Own(attr, tag, live, place)), place)
         == if PlaceOf(attr, tag) == Some(place) then Turn(rt, attr, live, env, place, LocalAt(s, place))
            else LocalAt(s, place)
  {
    if PlaceOf(attr, tag) == Some(place) {
      ProcessedPlace(attr, tag, live);
      assert Own(attr, tag, live, place)[1..] == [];
      if IsExpression(attr) {
        ExpressionAction(attr, tag, live);
        ShownExpression(rt, attr, tag, live, env, s, place);
      } else {
        FixedTurn(rt, attr, tag, live, env, s, place);
      }
    }
  }

  lemma {:induction false} SortedTurns<V>(rt: Runtime<V>, acc: AttrStmts, attrs: seq<Attr>, tag: string,
                                          live: Slice -> bool, env: nat -> V, s: State<V>, place: Place)
    requires Placed(acc)
    ensures LocalAt(DoAll(rt, env, s, OnPlace(All(SortAttrs(acc, attrs, tag, live)), place)), place)
         == Turns(rt, attrs, tag, live, env, place, LocalAt(DoAll(rt, env, s, OnPlace(All(acc), place)), place))
    decreases |attrs|
  {
    if attrs != [] {
      var next, own := SortAttr(acc, attrs[0], tag, live), Own(attrs[0], tag, live, place);
      var before := DoAll(rt, env, s, OnPlace(All(acc), place));
      SortPlaces(acc, attrs[0], tag, live, place);
      DoAppend(rt, env, s, OnPlace(All(acc), place), own);
      OwnTurn(rt, attrs[0], tag, live, env, before, place);
      SortedTurns(rt, next, attrs[1..], tag, live, env, s, place);
    }
  }

  // ---- changes ----

  lemma {:induction false} RerunAt<V>(rt: Runtime<V>, env: nat -> V, values: map<Place, Shown<V>>, effects: seq<Effect>,
                                      place: Place)
    ensures var follows := Following(effects, place);
      At(Rerun(rt, env, values, effects), place)
      == if follows == [] then At(values, place) else Present(rt, place, env(follows[|follows| - 1].id))
    decreases |effects|
  {
    if effects != [] {
      EffectAt(rt, env, values, effects[0], place);
      RerunAt(rt, env, RunEffect(rt, env, values, effects[0]), effects[1..], place);
    }
  }

  lemma {:induction false} ChangeAt<V>(rt: Runtime<V>, s: State<V>, later: seq<nat -> V>, place: Place)
    ensures At(Change(rt, s, later).values, place) == Later(rt, place, LocalAt(s, place), later)
    decreases |later|
  {
    if later != [] {
      RerunAt(rt, later[0], s.values, s.effects, place);
      ChangeAt(rt, s.(values := Rerun(rt, later[0], s.values, s.effects)), later[1..], place);
    }
  }

  // ---- the program's statements about its own element ----

  lemma {:induction false} ActionsAppend(v: nat, a: seq<Stmt>, b: seq<Stmt>)
    ensures ActionsOn(v, a + b) == ActionsOn(v, a) + ActionsOn(v, b)
  {
    if a == [] {
      assert a + b == b;
    } else {
      assert (a + b)[1..] == a[1..] + b;
      ActionsAppend(v, a[1..], b);
    }
  }

  lemma {:induction false} ActsAreActions(v: nat, actions: seq<Action>)
    ensures ActionsOn(v, Acts(v, actions)) == actions
  {
    if actions != [] {
      ActsAreActions(v, actions[1..]);
    }
  }

  lemma NoAction(v: nat, stmt: Stmt)
    requires !stmt.Act?
    ensures ActionsOn(v, [stmt]) == []
  {
    assert [stmt][1..] == [];
  }

  lemma {:induction false} ChildrenAct(children: seq<Child>, parent: nat, live: Slice -> bool, counter: nat, v: nat)
    ensures ActionsOn(v, TransformChildren(children, parent, live, counter).stmts) == []
  {
    if children != [] {
      var first := TransformChild(children[0], parent, live, counter);
      ChildrenAct(children[1..], parent, live, first.counter, v);
      ActionsAppend(v, first.stmts, TransformChildren(children[1..], parent, live, first.counter).stmts);
      if first.stmts != [] {
        NoAction(v, first.stmts[0]);
        assert first.stmts == [first.stmts[0]];
      }
    }
  }

  lemma InsideAct(v: nat, inner: seq<Stmt>)
    requires ActionsOn(v, inner) == []
    ensures ActionsOn(v, [EnterChildren(v)] + inner + [ExitChildren]) == []
  {
    ActionsAppend(v, [EnterChildren(v)] + inner, [ExitChildren]);
    ActionsAppend(v, [EnterChildren(v)], inner);
    NoAction(v, EnterChildren(v));
    NoAction(v, ExitChildren);
  }

  lemma ElementActs(e: Element, live: Slice -> bool, counter: nat)
    ensures ActionsOn(counter, TransformElement(e, live, counter).value.body)
         == All(SortAttrs(AttrStmts([], None, [], None), e.attrs, e.tag, live))
  {
    var sorted := SortAttrs(AttrStmts([], None, [], None), e.attrs, e.tag, live);
    var inner := TransformChildren(e.children, counter, live, counter + 1).stmts;
    var children := if Extracted(e.children) == [] then [] else [EnterChildren(counter)] + inner + [ExitChildren];
    ChildrenAct(e.children, counter, live, counter + 1, counter);
    InsideAct(counter, inner);
    AroundChildren(counter, JsonQuote(e.tag), sorted.now + Optional(sorted.html), children,
                   sorted.idl + Optional(sorted.ref));
  }

  lemma AroundChildren(v: nat, tagQ: string, early: seq<Action>, children: seq<Stmt>, late: seq<Action>)
    requires ActionsOn(v, children) == []
    ensures ActionsOn(v, [CreateElement(v, tagQ)] + Acts(v, early) + children + Acts(v, late)) == early + late
  {
    var open := [CreateElement(v, tagQ)] + Acts(v, early);
    NoAction(v, CreateElement(v, tagQ));
    ActionsAppend(v, [CreateElement(v, tagQ)], Acts(v, early));
    ActionsAppend(v, open, children);
    ActionsAppend(v, open + children, Acts(v, late));
    ActsAreActions(v, early);
    ActsAreActions(v, late);
  }

  // ---- what an element shows ----

  /**
   Whatever an element's attributes are, once its program has run and after any
   changes, each place shows what the attributes at that place say in source
   order: the present value of the last one that reads reactive state, if there
   is one and anything has changed.
   */
  lemma PlaceShows<V>(rt: Runtime<V>, e: Element, live: Slice -> bool, counter: nat, first: nat -> V,
                      later: seq<nat -> V>, place: Place)
    ensures At(Showing(rt, e, live, counter, first, later), place)
         == Later(rt, place, Turns(rt, e.attrs, e.tag, live, first, place, Local(None, [])), later)
  {
    var none := AttrStmts([], None, [], None);
    var start: State<V> := State(map[], []);
    var actions := All(SortAttrs(none, e.attrs, e.tag, live));
    ElementActs(e, live, counter);
    OnlyOnPlace(rt, first, start, start, actions, place);
    SortedTurns(rt, none, e.attrs, e.tag, live, first, start, place);
    ChangeAt(rt, DoAll(rt, first, start, actions), later, place);
  }

  lemma {:induction false} NoTurns<V>(rt: Runtime<V>, attrs: seq<Attr>, tag: string, live: Slice -> bool, env: nat -> V,
                                      place: Place, l: Local<V>)
    requires forall i :: 0 <= i < |attrs| ==> PlaceOf(attrs[i], tag) != Some(place)
    ensures Turns(rt, attrs, tag, live, env, place, l) == l
    decreases |attrs|
  {
    if attrs != [] {
      NoTurns(rt, attrs[1..], tag, live, env, place, l);
    }
  }

  lemma {:induction false} OneTurn<V>(rt: Runtime<V>, attrs: seq<Attr>, tag: string, live: Slice -> bool, env: nat -> V,
                                      place: Place, l: Local<V>, i: nat)
    requires i < |attrs| && PlaceOf(attrs[i], tag) == Some(place)
    requires forall j :: 0 <= j < |attrs| && j != i ==> PlaceOf(attrs[j], tag) != Some(place)
    ensures Turns(rt, attrs, tag, live, env, place, l) == Turn(rt, attrs[i], live, env, place, l)
    decreases |attrs|
  {
    if i == 0 {
      NoTurns(rt, attrs[1..], tag, live, env, place, Turn(rt, attrs[0], live, env, place, l));
    } else {
      OneTurn(rt, attrs[1..], tag, live, env, place, l, i - 1);
    }
  }

  function ValueNow<V>(first: nat -> V, later: seq<nat -> V>, id: nat): V {
    if later == [] then first(id) else later[|later| - 1](id)
  }

  /** An expression that is the only one at its place shows its present value if it is live, and its first otherwise. */
  lemma ExpressionShows<V>(rt: Runtime<V>, e: Element, live: Slice -> bool, counter: nat, first: nat -> V,
                           later: seq<nat -> V>, place: Place, i: nat)
    requires i < |e.attrs| && IsExpression(e.attrs[i]) && PlaceOf(e.attrs[i], e.tag) == Some(place)
    requires forall j :: 0 <= j < |e.attrs| && j != i ==> PlaceOf(e.attrs[j], e.tag) != Some(place)
    ensures var slice := SliceOf(e.attrs[i]);
      var shown := At(Showing(rt, e, live, counter, first, later), place);
      if live(slice) then
        shown == Present(rt, place, ValueNow(first, later, slice.id))
      else if rt.isNone(first(slice.id)) || (place.AttrPlace? && rt.isFalse(first(slice.id))) then shown == None
      else shown == Present(rt, place, first(slice.id))
  {
    PlaceShows(rt, e, live, counter, first, later, place);
    OneTurn(rt, e.attrs, e.tag, live, first, place, Local(None, []), i);
    LoneExpression(rt, e.attrs[i], live, first, later, place);
  }

  lemma LoneExpression<V>(rt: Runtime<V>, attr: Attr, live: Slice -> bool, first: nat -> V, later: seq<nat -> V>,
                          place: Place)
    requires IsExpression(attr)
    ensures var slice := SliceOf(attr);
      var shown := Later(rt, place, Turn(rt, attr, live, first, place, Local(None, [])), later);
      if live(slice) then
        shown == Present(rt, place, ValueNow(first, later, slice.id))
      else if rt.isNone(first(slice.id)) || (place.AttrPlace? && rt.isFalse(first(slice.id))) then shown == None
      else shown == Present(rt, place, first(slice.id))
  {
    var l := Turn(rt, attr, live, first, place, Local(None, []));
    assert l.follows == if live(SliceOf(attr)) then [SliceOf(attr)] else [];
  }

  /** A text, or no value at all, shows for ever. */
  lemma FixedShows<V>(rt: Runtime<V>, e: Element, live: Slice -> bool, counter: nat, first: nat -> V,
                      later: seq<nat -> V>, place: Place, i: nat)
    requires i < |e.attrs| && e.attrs[i].Attr? && (e.attrs[i].value.Quoted? || e.attrs[i].value.NoValue?)
    requires PlaceOf(e.attrs[i], e.tag) == Some(place)
    requires forall j :: 0 <= j < |e.attrs| && j != i ==> PlaceOf(e.attrs[j], e.tag) != Some(place)
    ensures At(Showing(rt, e, live, counter, first, later), place)
         == Some(if e.attrs[i].value.Quoted? then ShownText(e.attrs[i].value.text)
                 else if place == PropPlace("checked") || place == PropPlace("defaultChecked") then ShownTrue
                 else ShownText(""))
  {
    PlaceShows(rt, e, live, counter, first, later, place);
    OneTurn(rt, e.attrs, e.tag, live, first, place, Local(None, []), i);
  }

  /** Nothing shows where no attribute belongs. */
  lemma NothingElseShows<V>(rt: Runtime<V>, e: Element, live: Slice -> bool, counter: nat, first: nat -> V,
                            later: seq<nat -> V>, place: Place)
    requires forall i :: 0 <= i < |e.attrs| ==> PlaceOf(e.attrs[i], e.tag) != Some(place)
    ensures place !in Showing(rt, e, live, counter, first, later)
  {
    PlaceShows(rt, e, live, counter, first, later, place);
    NoTurns(rt, e.attrs, e.tag, live, first, place, Local(None, []));
  }

  // ---- handlers and spreads ----

  /** A handler as the source gives it: an event in lower case, or the change of a form; a spread may hold more. */
  datatype Handler = On(event: string, slice: Slice) | FormChange(slice: Slice) | AllOf(slice: Slice)

  function HandlerOf(attr: Attr, tag: string): seq<Handler> {
    if attr.SpreadAttr? then [AllOf(attr.slice)]
    else if !IsExpression(attr) || !IsHandler(attr.name) then []
    else if attr.name == "onChange" && tag == "form" then [FormChange(SliceOf(attr))]
    else
      var c := attr.name[2];
      [On([if 'A' <= c <= 'Z' then c + 32 as char else c] + attr.name[3..], SliceOf(attr))]
  }

  function HandlersOf(attrs: seq<Attr>, tag: string): seq<Handler> {
    if attrs == [] then [] else HandlerOf(attrs[0], tag) + HandlersOf(attrs[1..], tag)
  }

  function Bound(a: Action): seq<Handler> {
    match a
    case Listen(event, slice) => [On(event, slice)]
    case FormOnChange(slice) => [FormChange(slice)]
    case SpreadProps(slice) => [AllOf(slice)]
    case _ => []
  }

  function BoundIn(actions: seq<Action>): seq<Handler> {
    if actions == [] then [] else Bound(actions[0]) + BoundIn(actions[1..])
  }

  lemma {:induction false} BoundAppend(a: seq<Action>, b: seq<Action>)
    ensures BoundIn(a + b) == BoundIn(a) + BoundIn(b)
  {
    if a == [] {
      assert a + b == b;
    } else {
      assert (a + b)[1..] == a[1..] + b;
      BoundAppend(a[1..], b);
    }
  }

  lemma {:induction false} BindsNothing(actions: seq<Action>)
    requires forall a :: a in actions ==> Bound(a) == []
    ensures BoundIn(actions) == []
  {
    if actions != [] {
      BindsNothing(actions[1..]);
    }
  }

  /** Only what is set at once binds handlers. */
  ghost predicate BindsEarly(acc: AttrStmts) {
    && (forall a :: a in acc.idl ==> Bound(a) == []) && (acc.html.Some? ==> Bound(acc.html.value) == [])
    && (acc.ref.Some? ==> Bound(acc.ref.value) == [])
  }

  lemma AllBound(acc: AttrStmts)
    requires BindsEarly(acc)
    ensures BoundIn(All(acc)) == BoundIn(acc.now)
  {
    BoundAppend(acc.now + Optional(acc.html), acc.idl + Optional(acc.ref));
    BoundAppend(acc.now, Optional(acc.html));
    BoundAppend(acc.idl, Optional(acc.ref));
    BindsNothing(Optional(acc.html));
    BindsNothing(Optional(acc.ref));
    BindsNothing(acc.idl);
  }

  lemma HandlerBound(attr: Attr, tag: string, live: Slice -> bool)
    requires IsExpression(attr) && attr.name != "key" && attr.name != "innerHTML"
    ensures Bound(ProcessExpression(attr.name, SliceOf(attr), tag, live)) == HandlerOf(attr, tag)
    ensures HandlerOf(attr, tag) != [] ==> !IsIdlAttr(attr, tag) && !IsRefAttr(attr)
  {
    RenamedAttr(attr.name, tag);
    Names(attr.name, tag);
  }

  lemma BoundByAttr(attr: Attr, tag: string, live: Slice -> bool)
    requires IsExtracted(attr) && !IsInnerHtmlAttr(attr)
    ensures var action := ProcessAttr(attr, tag, live);
      (if action.None? then [] else Bound(action.value)) == HandlerOf(attr, tag)
    ensures HandlerOf(attr, tag) != [] ==> !IsIdlAttr(attr, tag) && !IsRefAttr(attr)
  {
    if attr.Attr? && attr.name != "key" {
      if IsExpression(attr) {
        ExpressionAction(attr, tag, live);
        HandlerBound(attr, tag, live);
      } else {
        var nameQ, textQ := FixedAction(attr, tag, live);
      }
    } else if attr.Attr? {
      assert !IsHandler("key");
    }
  }

  lemma SortBinds(acc: AttrStmts, attr: Attr, tag: string, live: Slice -> bool)
    requires BindsEarly(acc)
    ensures BindsEarly(SortAttr(acc, attr, tag, live))
    ensures BoundIn(SortAttr(acc, attr, tag, live).now) == BoundIn(acc.now) + HandlerOf(attr, tag)
  {
    if IsExtracted(attr) && !IsInnerHtmlAttr(attr) {
      BoundByAttr(attr, tag, live);
      BindProcessed(acc, attr, tag, live, ProcessAttr(attr, tag, live));
    } else if attr.Attr? {
      assert !IsHandler("innerHTML");
    }
  }

  lemma BindProcessed(acc: AttrStmts, attr: Attr, tag: string, live: Slice -> bool, action: Option<Action>)
    requires BindsEarly(acc) && IsExtracted(attr) && !IsInnerHtmlAttr(attr) && action == ProcessAttr(attr, tag, live)
    requires (if action.None? then [] else Bound(action.value)) == HandlerOf(attr, tag)
    requires HandlerOf(attr, tag) != [] ==> !IsIdlAttr(attr, tag) && !IsRefAttr(attr)
    ensures BindsEarly(SortAttr(acc, attr, tag, live))
    ensures BoundIn(SortAttr(acc, attr, tag, live).now) == BoundIn(acc.now) + HandlerOf(attr, tag)
  {
    if action.Some? && !IsRefAttr(attr) && !IsIdlAttr(attr, tag) {
      BoundAppend(acc.now, [action.value]);
      assert [action.value][1..] == [];
    }
  }

  lemma {:induction false} SortedBind(acc: AttrStmts, attrs: seq<Attr>, tag: string, live: Slice -> bool)
    requires BindsEarly(acc)
    ensures BindsEarly(SortAttrs(acc, attrs, tag, live))
    ensures BoundIn(SortAttrs(acc, attrs, tag, live).now) == BoundIn(acc.now) + HandlersOf(attrs, tag)
    decreases |attrs|
  {
    if attrs == [] {
      assert BoundIn(acc.now) + [] == BoundIn(acc.now);
    } else {
      SortBinds(acc, attrs[0], tag, live);
      SortedBind(SortAttr(acc, attrs[0], tag, live), attrs[1..], tag, live);
      HandlersJoin(BoundIn(acc.now), HandlerOf(attrs[0], tag), HandlersOf(attrs[1..], tag));
    }
  }

  lemma HandlersJoin(a: seq<Handler>, b: seq<Handler>, c: seq<Handler>)
    ensures (a + b) + c == a + (b + c)
  {
  }

  /** The program binds exactly the handlers and spreads of the source, in source order. */
  lemma HandlersBound(e: Element, live: Slice -> bool, counter: nat)
    ensures BoundIn(ActionsOn(counter, TransformElement(e, live, counter).value.body)) == HandlersOf(e.attrs, e.tag)
  {
    var none := AttrStmts([], None, [], None);
    ElementActs(e, live, counter);
    SortedBind(none, e.attrs, e.tag, live);
    AllBound(SortAttrs(none, e.attrs, e.tag, live));
    assert [] + HandlersOf(e.attrs, e.tag) == HandlersOf(e.attrs, e.tag);
  }

  // ---- the ref and the inner HTML ----

  /** The last `ref` given by an expression. */
  function LastRef(attrs: seq<Attr>): Option<Slice> {
    if attrs == [] then None
    else
      var last := attrs[|attrs| - 1];
      if IsExpression(last) && last.name == "ref" then Some(SliceOf(last)) else LastRef(attrs[..|attrs| - 1])
  }

  lemma {:induction false} SortLast(acc: AttrStmts, attrs: seq<Attr>, tag: string, live: Slice -> bool)
    requires attrs != []
    ensures SortAttrs(acc, attrs, tag, live)
         == SortAttr(SortAttrs(acc, attrs[..|attrs| - 1], tag, live), attrs[|attrs| - 1], tag, live)
    decreases |attrs|
  {
    if |attrs| > 1 {
      SortLast(SortAttr(acc, attrs[0], tag, live), attrs[1..], tag, live);
      assert attrs[1..][..|attrs| - 2] == attrs[..|attrs| - 1][1..];
    } else {
      assert attrs[1..] == [] && attrs[..0] == [];
    }
  }

  lemma RefSorted(acc: AttrStmts, attr: Attr, tag: string, live: Slice -> bool)
    ensures SortAttr(acc, attr, tag, live).ref
         == if IsExpression(attr) && attr.name == "ref" then Some(Ref(SliceOf(attr))) else acc.ref
  {
    if IsExpression(attr) && attr.name == "ref" {
      ExpressionAction(attr, tag, live);
    }
  }

  /** Only the last `ref` is kept. */
  lemma {:induction false} LastRefKept(attrs: seq<Attr>, tag: string, live: Slice -> bool)
    ensures SortAttrs(AttrStmts([], None, [], None), attrs, tag, live).ref
         == if LastRef(attrs).Some? then Some(Ref(LastRef(attrs).value)) else None
  {
    if attrs != [] {
      var none := AttrStmts([], None, [], None);
      SortLast(none, attrs, tag, live);
      LastRefKept(attrs[..|attrs| - 1], tag, live);
      RefSorted(SortAttrs(none, attrs[..|attrs| - 1], tag, live), attrs[|attrs| - 1], tag, live);
    }
  }

  /** What `innerHTML` is given: a text, a value, or nothing at all, which takes back what an earlier one gave. */
  datatype Html = HtmlGiven(text: string) | HtmlFrom(slice: Slice)

  function GivenHtml(attr: Attr): Option<Html>
    requires attr.Attr?
  {
    match attr.value
    case Quoted(text) => Some(HtmlGiven(text))
    case Braced(slice) => Some(HtmlFrom(slice))
    case BracedObject(_, slice) => Some(HtmlFrom(slice))
    case _ => None
  }

  function LastHtml(attrs: seq<Attr>): Option<Html> {
    if attrs == [] then None
    else
      var last := attrs[|attrs| - 1];
      if last.Attr? && last.name == "innerHTML" && !last.value.BracedNothing? && !last.value.BracedJsx? then
        GivenHtml(last)
      else LastHtml(attrs[..|attrs| - 1])
  }

  function HtmlStatement(html: Option<Html>): Option<Action> {
    match html
    case None => None
    case Some(HtmlGiven(text)) => Some(HtmlText(JsonQuote(text)))
    case Some(HtmlFrom(slice)) => Some(HtmlValue(slice))
  }

  lemma OneHtml(attr: Attr)
    requires attr.Attr?
    ensures InnerHtmlAction(attr) == HtmlStatement(GivenHtml(attr))
  {
  }

  lemma HtmlSorted(acc: AttrStmts, attr: Attr, tag: string, live: Slice -> bool, action: Option<Action>)
    requires action == ProcessAttr(attr, tag, live)
    ensures SortAttr(acc, attr, tag, live).html
         == if IsExtracted(attr) && IsInnerHtmlAttr(attr) then InnerHtmlAction(attr) else acc.html
  {
  }

  /** Only the last `innerHTML` is kept. */
  lemma {:induction false} LastHtmlKept(attrs: seq<Attr>, tag: string, live: Slice -> bool)
    ensures SortAttrs(AttrStmts([], None, [], None), attrs, tag, live).html == HtmlStatement(LastHtml(attrs))
  {
    if attrs != [] {
      var none := AttrStmts([], None, [], None);
      var last, acc := attrs[|attrs| - 1], SortAttrs(none, attrs[..|attrs| - 1], tag, live);
      SortLast(none, attrs, tag, live);
      LastHtmlKept(attrs[..|attrs| - 1], tag, live);
      HtmlSorted(acc, last, tag, live, ProcessAttr(last, tag, live));
      if last.Attr? { OneHtml(last); }
    }
  }
}
