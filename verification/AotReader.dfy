/**
 Reading emitted server code: the part of JavaScript's expression grammar the
 AOT back end writes, as a reader over text (ECMA-262, 14th edition: string
 literals in section 12.9.4, conditional expressions in 13.14), and what a
 chain of operands so read evaluates to. A slice is read only where it stays
 one operand; where its own operators would group with what surrounds it, the
 text is not read at all, be it an expression of another meaning or none.
 */
module AotReader {
  import opened JsxSyntax

  /** Emitted text: characters, and source slices copied whole. */
  datatype Tok = Ch(c: char) | Src(slice: Slice)

  type Code = seq<Tok>

  function Tx(s: string): Code {
    seq(|s|, i requires 0 <= i < |s| => Ch(s[i]))
  }

  lemma TxAppend(a: string, b: string)
    ensures Tx(a + b) == Tx(a) + Tx(b)
  {
  }

  /** A concatenation read operand by operand; literals contribute single characters. */
  datatype Chain =
    | End
    | Char(c: char, more: Chain)
    | Op(op: Operand, more: Chain)

  datatype Operand =
    | Call(helper: string, arg: Slice)                                    // __esc(x), String(x), ...
    | Component(name: string, props: seq<Prop>)                           // __ssr_Name({ ... })
    | Bare(arg: Slice)                                                    // x
    | Html(arg: Slice)                                                    // (x).__html
    | Ternary(negated: bool, test: Slice, yes: Chain, no: Chain)          // (x ? a : b), (!(x) ? a : b)
    | MapJoin(receiver: Slice, orEmpty: bool, param: string, body: Chain) // x.map(p => a).join('')

  datatype Prop =
    | Spread(arg: Slice)
    | Given(name: string, arg: Slice)
    | Flag(name: string)
    | Content(name: string, value: Chain)

  function Append(a: Chain, b: Chain): Chain {
    match a
    case End => b
    case Char(c, more) => Char(c, Append(more, b))
    case Op(op, more) => Op(op, Append(more, b))
  }

  function Chars(s: string): Chain {
    if s == "" then End else Char(s[0], Chars(s[1..]))
  }

  datatype Read<+T> = Fail | Got(value: T, rest: Code)

  predicate StartsWith(t: Code, s: string) {
    |s| <= |t| && t[..|s|] == Tx(s)
  }

  predicate IsNameChar(c: char) {
    'a' <= c <= 'z' || 'A' <= c <= 'Z' || '0' <= c <= '9' || c == '_' || c == '$' || c == '.'
  }

  predicate AtName(t: Code) {
    t != [] && t[0].Ch? && IsNameChar(t[0].c)
  }

  /** The longest run of name characters. */
  function ReadName(t: Code): (r: (string, Code))
    ensures |r.1| <= |t| && (AtName(t) ==> |r.1| < |t|)
  {
    if AtName(t) then var (s, rest) := ReadName(t[1..]); ([t[0].c] + s, rest) else ("", t)
  }

  function Before(c: char, r: Read<Chain>): Read<Chain> {
    if r.Got? then Got(Char(c, r.value), r.rest) else Fail
  }

  function Then(op: Operand, r: Read<Chain>): Read<Chain> {
    if r.Got? then Got(Op(op, r.value), r.rest) else Fail
  }

  /** A whole concatenation, from the start of an operand. */
  function ReadChain(t: Code): (r: Read<Chain>)
    ensures r.Got? ==> |r.rest| < |t|
    decreases |t|, 3
  {
    if t == [] then Fail
    else if t[0].Src? then
      if !t[0].slice.binding.Tight? then Fail
      else if StartsWith(t[1..], ".map(") then ReadMap(t[0].slice, false, t[6..])
      else Then(Bare(t[0].slice), ReadMore(t[1..]))
    else if t[0].c == '\'' then ReadLiteral(t[1..])
    else if t[0].c == '(' then ReadParen(t[1..])
    else ReadCall(t)
  }

  /** Inside an open single-quoted literal, to the end of the concatenation. */
  function ReadLiteral(t: Code): (r: Read<Chain>)
    ensures r.Got? ==> |r.rest| <= |t|
    decreases |t|, 1
  {
    if t == [] || t[0].Src? then Fail
    else if t[0].c == '\'' then ReadMore(t[1..])
    else if t[0].c == '\\' then
      if |t| < 2 || t[1].Src? then Fail
      else match t[1].c
        case '\\' => Before('\\', ReadLiteral(t[2..]))
        case '\'' => Before('\'', ReadLiteral(t[2..]))
        case 'n' => Before('\n', ReadLiteral(t[2..]))
        case 'r' => Before('\r', ReadLiteral(t[2..]))
        case _ => Fail
    else if t[0].c == '\n' || t[0].c == '\r' then Fail
    else Before(t[0].c, ReadLiteral(t[1..]))
  }

  /** After an operand: either another one follows or the concatenation ends. */
  function ReadMore(t: Code): (r: Read<Chain>)
    ensures r.Got? ==> |r.rest| <= |t|
    decreases |t|, 0
  {
    if StartsWith(t, " + ") then ReadChain(t[3..]) else Got(End, t)
  }

  /** After an opening parenthesis. */
  function ReadParen(t: Code): (r: Read<Chain>)
    ensures r.Got? ==> |r.rest| <= |t|
    decreases |t|, 2
  {
    if t != [] && t[0].Src? then
      if StartsWith(t[1..], " ?? []).map(") && t[0].slice.binding.Tight? then ReadMap(t[0].slice, true, t[13..])
      else if StartsWith(t[1..], ").__html") then Then(Html(t[0].slice), ReadMore(t[9..]))
      else if StartsWith(t[1..], " ? ") && !t[0].slice.binding.IsLoose() then ReadBranches(false, t[0].slice, t[4..])
      else Fail
    else if StartsWith(t, "!(") && 2 < |t| && t[2].Src? && StartsWith(t[3..], ") ? ") then
      ReadBranches(true, t[2].slice, t[7..])
    else Fail
  }

  /** The two branches of a parenthesised conditional. */
  function ReadBranches(negated: bool, test: Slice, t: Code): (r: Read<Chain>)
    ensures r.Got? ==> |r.rest| <= |t|
    decreases |t|, 4
  {
    var yes := ReadChain(t);
    if yes.Fail? || !StartsWith(yes.rest, " : ") then Fail
    else
      var no := ReadChain(yes.rest[3..]);
      if no.Fail? || !StartsWith(no.rest, ")") then Fail
      else Then(Ternary(negated, test, yes.value, no.value), ReadMore(no.rest[1..]))
  }

  /** After `.map(`. */
  function ReadMap(receiver: Slice, orEmpty: bool, t: Code): (r: Read<Chain>)
    ensures r.Got? ==> |r.rest| <= |t|
    decreases |t|, 4
  {
    var (param, t1) := ReadName(t);
    if param == "" || !StartsWith(t1, " => ") then Fail
    else
      var body := ReadChain(t1[4..]);
      if body.Fail? || !StartsWith(body.rest, ").join('')") then Fail
      else Then(MapJoin(receiver, orEmpty, param, body.value), ReadMore(body.rest[10..]))
  }

  /** A helper call or a component call. */
  function ReadCall(t: Code): (r: Read<Chain>)
    ensures r.Got? ==> |r.rest| < |t|
    decreases |t|, 2
  {
    var (name, t1) := ReadName(t);
    if name == "" || !StartsWith(t1, "(") || |t1| < 2 then Fail
    else if t1[1].Src? then
      if !t1[1].slice.binding.Comma? && StartsWith(t1[2..], ")") then Then(Call(name, t1[1].slice), ReadMore(t1[3..]))
      else Fail
    else if 6 < |name| && name[..6] == "__ssr_" then
      if StartsWith(t1[1..], "{})") then Then(Component(name[6..], []), ReadMore(t1[4..]))
      else if StartsWith(t1[1..], "{ ") then
        var props := ReadProps(t1[3..]);
        if props.Fail? || !StartsWith(props.rest, " })") then Fail
        else Then(Component(name[6..], props.value), ReadMore(props.rest[3..]))
      else Fail
    else Fail
  }

  function ReadProps(t: Code): (r: Read<seq<Prop>>)
    ensures r.Got? ==> |r.rest| < |t|
    decreases |t|, 5
  {
    var first := ReadProp(t);
    if first.Fail? then Fail
    else if StartsWith(first.rest, ", ") then
      var more := ReadProps(first.rest[2..]);
      if more.Fail? then Fail else Got([first.value] + more.value, more.rest)
    else Got([first.value], first.rest)
  }

  function ReadProp(t: Code): (r: Read<Prop>)
    ensures r.Got? ==> |r.rest| < |t|
    decreases |t|, 4
  {
    if StartsWith(t, "...") then
      if 3 < |t| && t[3].Src? && !t[3].slice.binding.Comma? then Got(Spread(t[3].slice), t[4..]) else Fail
    else
      var (name, t1) := ReadName(t);
      if name == "" || !StartsWith(t1, ": ") || |t1| < 3 then Fail
      else if t1[2].Src? then
        if t1[2].slice.binding.Comma? then Fail else Got(Given(name, t1[2].slice), t1[3..])
      else if StartsWith(t1[2..], "true") then Got(Flag(name), t1[6..])
      else
        var value := ReadChain(t1[2..]);
        if value.Fail? then Fail else Got(Content(name, value.value), value.rest)
  }

  // ---- evaluation ----

  datatype PropValue<V> =
    | SpreadValue(value: V)
    | GivenValue(name: string, value: V)
    | FlagValue(name: string)
    | ContentValue(name: string, text: string)

  /** Everything evaluation takes from outside: source expressions, helpers and components. */
  datatype World<!V> = World(
    eval: (nat, map<string, V>) -> V,
    truthy: V -> bool,
    nullish: V -> bool,
    items: V -> seq<V>,
    toText: V -> string,
    htmlOf: V -> V,
    helper: (string, V) -> string,
    component: (string, seq<PropValue<V>>) -> string)

  function Eval<V>(w: World<V>, scope: map<string, V>, chain: Chain): string
    decreases chain, 0, 0
  {
    match chain
    case End => ""
    case Char(c, more) => [c] + Eval(w, scope, more)
    case Op(op, more) => EvalOperand(w, scope, op) + Eval(w, scope, more)
  }

  function EvalOperand<V>(w: World<V>, scope: map<string, V>, op: Operand): string
    decreases op, 0, 0
  {
    match op
    case Call(helper, arg) => w.helper(helper, w.eval(arg.id, scope))
    case Component(name, props) => w.component(name, EvalProps(w, scope, props))
    case Bare(arg) => w.toText(w.eval(arg.id, scope))
    case Html(arg) => w.toText(w.htmlOf(w.eval(arg.id, scope)))
    case Ternary(negated, test, yes, no) =>
      if w.truthy(w.eval(test.id, scope)) != negated then Eval(w, scope, yes) else Eval(w, scope, no)
    case MapJoin(receiver, orEmpty, param, body) =>
      var list := w.eval(receiver.id, scope);
      if orEmpty && w.nullish(list) then "" else EvalEach(w, scope, param, body, w.items(list), 0)
  }

  /** `.map(param => body).join('')` over the items from index `i` on. */
  function EvalEach<V>(w: World<V>, scope: map<string, V>, param: string, body: Chain, items: seq<V>, i: nat): string
    requires i <= |items|
    decreases body, 1, |items| - i
  {
    if i == |items| then ""
    else Eval(w, scope[param := items[i]], body) + EvalEach(w, scope, param, body, items, i + 1)
  }

  function EvalProps<V>(w: World<V>, scope: map<string, V>, props: seq<Prop>): seq<PropValue<V>>
    decreases props, 0, 0
  {
    if props == [] then [] else [EvalProp(w, scope, props[0])] + EvalProps(w, scope, props[1..])
  }

  function EvalProp<V>(w: World<V>, scope: map<string, V>, prop: Prop): PropValue<V>
    decreases prop, 0, 0
  {
    match prop
    case Spread(arg) => SpreadValue(w.eval(arg.id, scope))
    case Given(name, arg) => GivenValue(name, w.eval(arg.id, scope))
    case Flag(name) => FlagValue(name)
    case Content(name, value) => ContentValue(name, Eval(w, scope, value))
  }
}
