/**
 How the reader treats emitted fragments, whatever follows them. A fragment
 either contributes a chain or makes every reading fail (`None`); both cases
 compose the same way.
 */
module AotReading {
  import opened JsxSyntax
  import opened AotReader

  function Follow(k: Option<Chain>, r: Read<Chain>): Read<Chain> {
    if k.None? || r.Fail? then Fail else Got(Append(k.value, r.value), r.rest)
  }

  function Both(a: Option<Chain>, b: Option<Chain>): Option<Chain> {
    if a.None? || b.None? then None else Some(Append(a.value, b.value))
  }

  function One(op: Operand): Option<Chain> {
    Some(Op(op, End))
  }

  function SomeChars(s: string): Option<Chain> {
    Some(Chars(s))
  }

  /** As operands of a concatenation, `x` contributes `k`. */
  ghost predicate ChainIs(x: Code, k: Option<Chain>) {
    forall rest: Code :: ReadChain(x + rest) == Follow(k, ReadMore(rest))
  }

  /** Inside an open literal, `x` contributes `k` and leaves a literal open. */
  ghost predicate LiteralIs(x: Code, k: Option<Chain>) {
    forall rest: Code :: ReadLiteral(x + rest) == Follow(k, ReadLiteral(rest))
  }

  /** With another operand following, `x` contributes `k`. */
  ghost predicate InnerIs(x: Code, k: Option<Chain>) {
    forall rest: Code :: ReadChain(x + (Tx(" + ") + rest)) == Follow(k, ReadChain(rest))
  }

  // ---- the algebra of chains ----

  lemma {:induction false} AppendEnd(a: Chain)
    ensures Append(a, End) == a
  {
    match a
    case End =>
    case Char(_, more) => AppendEnd(more);
    case Op(_, more) => AppendEnd(more);
  }

  lemma {:induction false} AppendAssoc(a: Chain, b: Chain, c: Chain)
    ensures Append(Append(a, b), c) == Append(a, Append(b, c))
  {
    match a
    case End =>
    case Char(_, more) => AppendAssoc(more, b, c);
    case Op(_, more) => AppendAssoc(more, b, c);
  }

  lemma FollowBoth(a: Option<Chain>, b: Option<Chain>, r: Read<Chain>)
    ensures Follow(a, Follow(b, r)) == Follow(Both(a, b), r)
  {
    if a.Some? && b.Some? && r.Got? {
      AppendAssoc(a.value, b.value, r.value);
    }
  }

  lemma FollowOne(op: Operand, r: Read<Chain>)
    ensures Follow(One(op), r) == Then(op, r)
  {
    if r.Got? {
      assert Append(End, r.value) == r.value;
    }
  }

  lemma {:induction false} EvalAppend<V>(w: World<V>, scope: map<string, V>, a: Chain, b: Chain)
    ensures Eval(w, scope, Append(a, b)) == Eval(w, scope, a) + Eval(w, scope, b)
  {
    match a
    case End =>
    case Char(_, more) => EvalAppend(w, scope, more, b);
    case Op(op, more) =>
      EvalAppend(w, scope, more, b);
      assert EvalOperand(w, scope, op) + (Eval(w, scope, more) + Eval(w, scope, b))
          == (EvalOperand(w, scope, op) + Eval(w, scope, more)) + Eval(w, scope, b);
  }

  lemma {:induction false} EvalChars<V>(w: World<V>, scope: map<string, V>, s: string)
    ensures Eval(w, scope, Chars(s)) == s
  {
    if s != "" {
      EvalChars(w, scope, s[1..]);
    }
  }

  // ---- looking ahead ----

  lemma Starts(s: string, rest: Code)
    ensures StartsWith(Tx(s) + rest, s)
    ensures (Tx(s) + rest)[|s|..] == rest
  {
  }

  lemma StartsNot(t: Code, s: string, i: nat)
    requires i < |s| && (i < |t| ==> t[i] != Ch(s[i]))
    ensures !StartsWith(t, s)
  {
  }

  // ---- composing fragments ----

  lemma ReadMorePlus(rest: Code)
    ensures ReadMore(Tx(" + ") + rest) == ReadChain(rest)
  {
    assert (Tx(" + ") + rest)[..3] == Tx(" + ");
    assert (Tx(" + ") + rest)[3..] == rest;
  }

  lemma ChainInner(x: Code, k: Option<Chain>)
    requires ChainIs(x, k)
    ensures InnerIs(x, k)
  {
    forall rest: Code ensures ReadChain(x + (Tx(" + ") + rest)) == Follow(k, ReadChain(rest)) {
      ReadMorePlus(rest);
    }
  }

  lemma PlusChain(x: Code, a: Option<Chain>, y: Code, b: Option<Chain>)
    requires InnerIs(x, a) && ChainIs(y, b)
    ensures ChainIs(x + Tx(" + ") + y, Both(a, b))
  {
    forall rest: Code ensures ReadChain(x + Tx(" + ") + y + rest) == Follow(Both(a, b), ReadMore(rest)) {
      assert x + Tx(" + ") + y + rest == x + (Tx(" + ") + (y + rest));
      FollowBoth(a, b, ReadMore(rest));
    }
  }

  lemma PlusChains(x: Code, a: Option<Chain>, y: Code, b: Option<Chain>)
    requires ChainIs(x, a) && ChainIs(y, b)
    ensures ChainIs(x + Tx(" + ") + y, Both(a, b))
  {
    ChainInner(x, a);
    PlusChain(x, a, y, b);
  }

  lemma LiteralAppend(x: Code, a: Option<Chain>, y: Code, b: Option<Chain>)
    requires LiteralIs(x, a) && LiteralIs(y, b)
    ensures LiteralIs(x + y, Both(a, b))
  {
    forall rest: Code ensures ReadLiteral(x + y + rest) == Follow(Both(a, b), ReadLiteral(rest)) {
      assert x + y + rest == x + (y + rest);
      FollowBoth(a, b, ReadLiteral(rest));
    }
  }

  lemma LiteralNothing()
    ensures LiteralIs([], Some(End))
  {
    forall rest: Code ensures ReadLiteral([] + rest) == Follow(Some(End), ReadLiteral(rest)) {
      assert [] + rest == rest;
    }
  }

  /** Quotes around what may stand in a literal make an operand. */
  lemma QuotedChain(x: Code, k: Option<Chain>)
    requires LiteralIs(x, k)
    ensures ChainIs(Tx("'") + x + Tx("'"), k)
  {
    forall rest: Code ensures ReadChain(Tx("'") + x + Tx("'") + rest) == Follow(k, ReadMore(rest)) {
      var t := Tx("'") + x + Tx("'") + rest;
      assert t[1..] == x + (Tx("'") + rest);
      assert (Tx("'") + rest)[1..] == rest;
    }
  }

  /** Closing the literal, operands, reopening it: what attribute fragments do. */
  lemma SpliceLiteral(x: Code, k: Option<Chain>)
    requires InnerIs(x, k)
    ensures LiteralIs(Tx("' + ") + x + Tx(" + '"), k)
  {
    forall rest: Code ensures ReadLiteral(Tx("' + ") + x + Tx(" + '") + rest) == Follow(k, ReadLiteral(rest)) {
      ClosesLiteral(x, rest);
      OpensLiteral(rest);
      ReadMorePlus(x + (Tx(" + ") + (Tx("'") + rest)));
    }
  }

  lemma ClosesLiteral(x: Code, rest: Code)
    ensures ReadLiteral(Tx("' + ") + x + Tx(" + '") + rest)
      == ReadMore(Tx(" + ") + (x + (Tx(" + ") + (Tx("'") + rest))))
  {
    var t := Tx("' + ") + x + Tx(" + '") + rest;
    assert t[1..] == Tx(" + ") + (x + (Tx(" + ") + (Tx("'") + rest)));
  }

  lemma OpensLiteral(rest: Code)
    ensures ReadChain(Tx("'") + rest) == ReadLiteral(rest)
  {
    assert (Tx("'") + rest)[1..] == rest;
  }

  // ---- characters of a literal ----

  predicate IsPlain(c: char) {
    c != '\'' && c != '\\' && c != '\n' && c != '\r'
  }

  predicate AllPlain(s: string) {
    forall i :: 0 <= i < |s| ==> IsPlain(s[i])
  }

  lemma FirstChar(s: string, rest: Code)
    requires s != ""
    ensures Tx(s) + rest == [Ch(s[0])] + (Tx(s[1..]) + rest)
  {
  }

  lemma PlainStep(c: char, t: Code)
    requires IsPlain(c)
    ensures ReadLiteral([Ch(c)] + t) == Before(c, ReadLiteral(t))
  {
    assert ([Ch(c)] + t)[1..] == t;
  }

  lemma {:induction false} PlainLiteral(s: string)
    requires AllPlain(s)
    ensures LiteralIs(Tx(s), SomeChars(s))
  {
    if s == "" {
      LiteralNothing();
      assert Tx("") == [];
    } else {
      PlainLiteral(s[1..]);
      forall rest: Code ensures ReadLiteral(Tx(s) + rest) == Follow(SomeChars(s), ReadLiteral(rest)) {
        FirstChar(s, rest);
        PlainStep(s[0], Tx(s[1..]) + rest);
      }
    }
  }

  lemma EmptyLiteral()
    ensures ChainIs(Tx("''"), Some(End))
  {
    LiteralNothing();
    QuotedChain([], Some(End));
    assert Tx("'") + [] + Tx("'") == Tx("''");
  }

  lemma PlainChain(s: string)
    requires AllPlain(s)
    ensures ChainIs(Tx("'" + s + "'"), SomeChars(s))
  {
    PlainLiteral(s);
    QuotedChain(Tx(s), SomeChars(s));
    assert Tx("'") + Tx(s) + Tx("'") == Tx("'" + s + "'");
  }

  // ---- names and calls ----

  predicate IsKey(s: string) {
    s != "" && forall i :: 0 <= i < |s| ==> IsNameChar(s[i])
  }

  lemma {:induction false} ReadsName(s: string, rest: Code)
    requires forall i :: 0 <= i < |s| ==> IsNameChar(s[i])
    requires !AtName(rest)
    ensures ReadName(Tx(s) + rest) == (s, rest)
  {
    if s == "" {
      assert Tx(s) + rest == rest;
    } else {
      assert (Tx(s) + rest)[1..] == Tx(s[1..]) + rest;
      ReadsName(s[1..], rest);
      assert s == [s[0]] + s[1..];
    }
  }

  /** A call of one argument; a comma expression would be several. */
  function CallOp(helper: string, slice: Slice): Option<Chain> {
    Unless(slice.binding.Comma?, One(Call(helper, slice)))
  }

  lemma CallChain(helper: string, slice: Slice)
    requires IsKey(helper)
    ensures ChainIs(Tx(helper + "(") + [Src(slice)] + Tx(")"), CallOp(helper, slice))
  {
    forall rest: Code
      ensures ReadChain(Tx(helper + "(") + [Src(slice)] + Tx(")") + rest)
           == Follow(CallOp(helper, slice), ReadMore(rest))
    {
      var t := Tx(helper + "(") + [Src(slice)] + Tx(")") + rest;
      var t1 := Tx("(") + ([Src(slice)] + (Tx(")") + rest));
      assert t == Tx(helper) + t1;
      ReadsName(helper, t1);
      Starts("(", [Src(slice)] + (Tx(")") + rest));
      assert t1[2..] == Tx(")") + rest;
      Starts(")", rest);
      assert t1[3..] == rest;
      assert t[0] == Ch(helper[0]);
      FollowOne(Call(helper, slice), ReadMore(rest));
      assert ReadChain(t) == ReadCall(t);
    }
  }

  lemma BareInner(slice: Slice)
    ensures InnerIs([Src(slice)], if slice.binding.Tight? then One(Bare(slice)) else None)
  {
    forall rest: Code
      ensures ReadChain([Src(slice)] + (Tx(" + ") + rest))
           == Follow(if slice.binding.Tight? then One(Bare(slice)) else None, ReadChain(rest))
    {
      var t := [Src(slice)] + (Tx(" + ") + rest);
      assert t[1..] == Tx(" + ") + rest;
      StartsNot(t[1..], ".map(", 0);
      ReadMorePlus(rest);
      FollowOne(Bare(slice), ReadChain(rest));
      ReadMorePlus(rest);
    }
  }

  lemma HtmlChain(slice: Slice)
    ensures ChainIs(Tx("(") + [Src(slice)] + Tx(").__html"), One(Html(slice)))
  {
    forall rest: Code
      ensures ReadChain(Tx("(") + [Src(slice)] + Tx(").__html") + rest) == Follow(One(Html(slice)), ReadMore(rest))
    {
      var t := Tx("(") + [Src(slice)] + Tx(").__html") + rest;
      var u := [Src(slice)] + (Tx(").__html") + rest);
      assert t[1..] == u;
      assert u[1..] == Tx(").__html") + rest;
      Starts(").__html", rest);
      StartsNot(u[1..], " ?? []).map(", 0);
      assert u[9..] == rest;
      FollowOne(Html(slice), ReadMore(rest));
      assert ReadChain(t) == ReadParen(u);
    }
  }

  // ---- conditionals and lists ----

  function BranchOp(negated: bool, test: Slice, yes: Option<Chain>, no: Option<Chain>): Option<Chain> {
    if yes.None? || no.None? then None else One(Ternary(negated, test, yes.value, no.value))
  }

  /** A chain followed by something that is not ` + ` is read to its end. */
  lemma ChainEnds(x: Code, k: Option<Chain>, rest: Code)
    requires ChainIs(x, k) && !StartsWith(rest, " + ")
    ensures ReadChain(x + rest) == if k.None? then Fail else Got(k.value, rest)
  {
    if k.Some? {
      AppendEnd(k.value);
    }
  }

  lemma Branches(negated: bool, test: Slice, yes: Code, a: Option<Chain>, no: Code, b: Option<Chain>, rest: Code)
    requires ChainIs(yes, a) && ChainIs(no, b)
    ensures ReadBranches(negated, test, yes + (Tx(" : ") + (no + (Tx(")") + rest))))
         == Follow(BranchOp(negated, test, a, b), ReadMore(rest))
  {
    var t2 := Tx(")") + rest;
    var t1 := Tx(" : ") + (no + t2);
    StartsNot(t1, " + ", 1);
    ChainEnds(yes, a, t1);
    Starts(" : ", no + t2);
    StartsNot(t2, " + ", 0);
    ChainEnds(no, b, t2);
    Starts(")", rest);
    if a.Some? && b.Some? {
      FollowOne(Ternary(negated, test, a.value, b.value), ReadMore(rest));
    }
  }

  function Unless(condition: bool, k: Option<Chain>): Option<Chain> {
    if condition then None else k
  }

  lemma ChoiceChain(test: Slice, yes: Code, a: Option<Chain>, no: Code, b: Option<Chain>)
    requires ChainIs(yes, a) && ChainIs(no, b)
    ensures ChainIs(Tx("(") + [Src(test)] + Tx(" ? ") + yes + Tx(" : ") + no + Tx(")"),
                    Unless(test.binding.IsLoose(), BranchOp(false, test, a, b)))
  {
    var k := Unless(test.binding.IsLoose(), BranchOp(false, test, a, b));
    forall rest: Code
      ensures ReadChain(Tx("(") + [Src(test)] + Tx(" ? ") + yes + Tx(" : ") + no + Tx(")") + rest)
           == Follow(k, ReadMore(rest))
    {
      var t := Tx("(") + [Src(test)] + Tx(" ? ") + yes + Tx(" : ") + no + Tx(")") + rest;
      var v := yes + (Tx(" : ") + (no + (Tx(")") + rest)));
      var u := [Src(test)] + (Tx(" ? ") + v);
      ChoiceText(test, yes, no, rest);
      ReadsTest(test, v);
      Branches(false, test, yes, a, no, b, rest);
      assert ReadChain(t) == ReadParen(u);
    }
  }

  lemma ChoiceText(test: Slice, yes: Code, no: Code, rest: Code)
    ensures Tx("(") + [Src(test)] + Tx(" ? ") + yes + Tx(" : ") + no + Tx(")") + rest
         == [Ch('(')] + ([Src(test)] + (Tx(" ? ") + (yes + (Tx(" : ") + (no + (Tx(")") + rest))))))
  {
  }

  lemma ReadsTest(test: Slice, v: Code)
    ensures var u := [Src(test)] + (Tx(" ? ") + v);
      u[1..] == Tx(" ? ") + v && !StartsWith(u[1..], " ?? []).map(") && !StartsWith(u[1..], ").__html")
        && StartsWith(u[1..], " ? ") && u[4..] == v
  {
    var u := [Src(test)] + (Tx(" ? ") + v);
    assert u[1..] == Tx(" ? ") + v;
    StartsNot(u[1..], " ?? []).map(", 2);
    StartsNot(u[1..], ").__html", 0);
    Starts(" ? ", v);
  }

  lemma NotChoiceText(test: Code, yes: Code, no: Code, rest: Code)
    ensures Tx("(!(") + test + Tx(") ? ") + yes + Tx(" : ") + no + Tx(")") + rest
         == Tx("(") + (Tx("!(") + (test + (Tx(") ? ") + (yes + (Tx(" : ") + (no + (Tx(")") + rest)))))))
  {
    assert Tx("(!(") == Tx("(") + Tx("!(");
  }

  lemma ReadsNegated(test: Slice, v: Code)
    ensures ReadParen(Tx("!(") + ([Src(test)] + (Tx(") ? ") + v))) == ReadBranches(true, test, v)
  {
    var x := [Src(test)] + (Tx(") ? ") + v);
    var u := Tx("!(") + x;
    Starts("!(", x);
    assert u[2] == Src(test);
    assert u[3..] == Tx(") ? ") + v;
    Starts(") ? ", v);
    assert u[7..] == v;
  }

  lemma NotChoiceChain(test: Slice, yes: Code, a: Option<Chain>, no: Code, b: Option<Chain>)
    requires ChainIs(yes, a) && ChainIs(no, b)
    ensures ChainIs(Tx("(!(") + [Src(test)] + Tx(") ? ") + yes + Tx(" : ") + no + Tx(")"),
                    BranchOp(true, test, a, b))
  {
    forall rest: Code
      ensures ReadChain(Tx("(!(") + [Src(test)] + Tx(") ? ") + yes + Tx(" : ") + no + Tx(")") + rest)
           == Follow(BranchOp(true, test, a, b), ReadMore(rest))
    {
      var v := yes + (Tx(" : ") + (no + (Tx(")") + rest)));
      NotChoiceText([Src(test)], yes, no, rest);
      ReadsParen(Tx("!(") + ([Src(test)] + (Tx(") ? ") + v)));
      ReadsNegated(test, v);
      Branches(true, test, yes, a, no, b, rest);
    }
  }

  lemma ReadsParen(u: Code)
    ensures ReadChain(Tx("(") + u) == ReadParen(u)
  {
    assert (Tx("(") + u)[1..] == u;
  }

  function ListOp(receiver: Slice, orEmpty: bool, param: string, body: Option<Chain>): Option<Chain> {
    if body.None? then None else One(MapJoin(receiver, orEmpty, param, body.value))
  }

  lemma MapBody(receiver: Slice, orEmpty: bool, param: string, body: Code, k: Option<Chain>, rest: Code)
    requires IsKey(param) && ChainIs(body, k)
    ensures ReadMap(receiver, orEmpty, Tx(param) + (Tx(" => ") + (body + (Tx(").join('')") + rest))))
         == Follow(ListOp(receiver, orEmpty, param, k), ReadMore(rest))
  {
    var t2 := Tx(").join('')") + rest;
    var t1 := Tx(" => ") + (body + t2);
    ReadsName(param, t1);
    Starts(" => ", body + t2);
    StartsNot(t2, " + ", 0);
    ChainEnds(body, k, t2);
    Starts(").join('')", rest);
    if k.Some? {
      FollowOne(MapJoin(receiver, orEmpty, param, k.value), ReadMore(rest));
    }
  }

  lemma ListText(caller: Code, param: string, body: Code, rest: Code)
    ensures caller + Tx(".map(" + param + " => ") + body + Tx(").join('')") + rest
         == caller + (Tx(".map(") + (Tx(param) + (Tx(" => ") + (body + (Tx(").join('')") + rest)))))
  {
    assert Tx(".map(" + param + " => ") == Tx(".map(") + Tx(param) + Tx(" => ");
  }

  lemma ReadsReceiver(receiver: Slice, v: Code)
    requires receiver.binding.Tight?
    ensures ReadChain([Src(receiver)] + (Tx(".map(") + v)) == ReadMap(receiver, false, v)
  {
    var t := [Src(receiver)] + (Tx(".map(") + v);
    assert t[1..] == Tx(".map(") + v;
    Starts(".map(", v);
    assert t[6..] == v;
  }

  lemma ReadsOptionalReceiver(receiver: Slice, v: Code)
    requires receiver.binding.Tight?
    ensures ReadChain(Tx("(") + [Src(receiver)] + Tx(" ?? [])") + (Tx(".map(") + v)) == ReadMap(receiver, true, v)
  {
    var u := [Src(receiver)] + (Tx(" ?? []).map(") + v);
    assert Tx(" ?? []).map(") == Tx(" ?? [])") + Tx(".map(");
    assert Tx("(") + [Src(receiver)] + Tx(" ?? [])") + (Tx(".map(") + v) == Tx("(") + u;
    ReadsParen(u);
    assert u[1..] == Tx(" ?? []).map(") + v;
    Starts(" ?? []).map(", v);
    assert u[13..] == v;
  }

  function Caller(receiver: Slice, orEmpty: bool): Code {
    if orEmpty then Tx("(") + [Src(receiver)] + Tx(" ?? [])") else [Src(receiver)]
  }

  lemma MapChain(receiver: Slice, orEmpty: bool, param: string, body: Code, k: Option<Chain>)
    requires receiver.binding.Tight?
    requires IsKey(param) && ChainIs(body, k)
    ensures ChainIs(Caller(receiver, orEmpty) + Tx(".map(" + param + " => ") + body + Tx(").join('')"),
                    ListOp(receiver, orEmpty, param, k))
  {
    forall rest: Code
      ensures ReadChain(Caller(receiver, orEmpty) + Tx(".map(" + param + " => ") + body + Tx(").join('')") + rest)
           == Follow(ListOp(receiver, orEmpty, param, k), ReadMore(rest))
    {
      var v := Tx(param) + (Tx(" => ") + (body + (Tx(").join('')") + rest)));
      ListText(Caller(receiver, orEmpty), param, body, rest);
      MapBody(receiver, orEmpty, param, body, k, rest);
      if orEmpty {
        ReadsOptionalReceiver(receiver, v);
      } else {
        ReadsReceiver(receiver, v);
      }
    }
  }

  // ---- component calls ----

  /** As one property of an object literal, followed by `, ` or ` })`. */
  ghost predicate PropIs(x: Code, p: Option<Prop>) {
    forall rest: Code | !StartsWith(rest, " + ") ::
      ReadProp(x + rest) == if p.None? then Fail else Got(p.value, rest)
  }

  ghost predicate PropsAre(x: Code, ps: Option<seq<Prop>>) {
    forall rest: Code | StartsWith(rest, " })") ::
      ReadProps(x + rest) == if ps.None? then Fail else Got(ps.value, rest)
  }

  lemma SpreadProp(slice: Slice)
    ensures PropIs(Tx("...") + [Src(slice)], if slice.binding.Comma? then None else Some(Spread(slice)))
  {
    forall rest: Code | !StartsWith(rest, " + ")
      ensures ReadProp(Tx("...") + [Src(slice)] + rest)
           == if slice.binding.Comma? then Fail else Got(Spread(slice), rest)
    {
      var t := Tx("...") + [Src(slice)] + rest;
      assert t == Tx("...") + ([Src(slice)] + rest);
      Starts("...", [Src(slice)] + rest);
      assert t[4..] == rest;
    }
  }

  /** The longest prefix of name characters. */
  function KeyPrefix(name: string): string {
    if name == "" || !IsNameChar(name[0]) then "" else [name[0]] + KeyPrefix(name[1..])
  }

  lemma {:induction false} ReadsPrefix(name: string, rest: Code)
    requires exists i :: 0 <= i < |name| && !IsNameChar(name[i])
    ensures |KeyPrefix(name)| < |name| && !IsNameChar(name[|KeyPrefix(name)|])
    ensures ReadName(Tx(name) + rest) == (KeyPrefix(name), Tx(name[|KeyPrefix(name)|..]) + rest)
  {
    if IsNameChar(name[0]) {
      assert (Tx(name) + rest)[1..] == Tx(name[1..]) + rest;
      var i :| 0 <= i < |name| && !IsNameChar(name[i]);
      assert name[1..][i - 1] == name[i];
      ReadsPrefix(name[1..], rest);
      assert name[1..][|KeyPrefix(name[1..])|..] == name[|KeyPrefix(name)|..];
    } else {
      assert name[0..] == name;
    }
  }

  /** Names as the JSX grammar allows them, in ASCII. */
  predicate IsJsxNameChar(c: char) {
    (IsNameChar(c) && c != '.') || c == '-' || c == ':'
  }

  predicate IsAttrName(name: string) {
    name != "" && forall i :: 0 <= i < |name| ==> IsJsxNameChar(name[i])
  }

  function Keyed(name: string, p: Option<Prop>): Option<Prop> {
    if IsKey(name) then p else None
  }

  /** `name: ` is read as a key exactly when the name is an identifier. */
  lemma ReadsKey(name: string, x: Code)
    requires IsAttrName(name)
    ensures var t := Tx(name + ": ") + x;
            && !StartsWith(t, "...")
            && (IsKey(name) ==> ReadName(t) == (name, Tx(": ") + x))
            && (!IsKey(name) ==> !StartsWith(ReadName(t).1, ": "))
  {
    var t := Tx(name + ": ") + x;
    assert t == Tx(name) + (Tx(": ") + x);
    StartsNot(t, "...", 0);
    if IsKey(name) {
      ReadsName(name, Tx(": ") + x);
    } else {
      ReadsPrefix(name, Tx(": ") + x);
      var n := |KeyPrefix(name)|;
      var t1 := Tx(name[n..]) + (Tx(": ") + x);
      if name[n] == ':' {
        assert t1[1] == Ch(if n + 1 < |name| then name[n + 1] else ':');
        StartsNot(t1, ": ", 1);
      } else {
        StartsNot(t1, ": ", 0);
      }
    }
  }

  function GivenKeyed(name: string, slice: Slice): Option<Prop> {
    Keyed(name, if slice.binding.Comma? then None else Some(Given(name, slice)))
  }

  lemma GivenProp(name: string, slice: Slice)
    requires IsAttrName(name)
    ensures PropIs(Tx(name + ": ") + [Src(slice)], GivenKeyed(name, slice))
  {
    forall rest: Code | !StartsWith(rest, " + ")
      ensures ReadProp(Tx(name + ": ") + [Src(slice)] + rest)
           == if IsKey(name) && !slice.binding.Comma? then Got(Given(name, slice), rest) else Fail
    {
      var x := [Src(slice)] + rest;
      assert Tx(name + ": ") + [Src(slice)] + rest == Tx(name + ": ") + x;
      ReadsKey(name, x);
      Starts(": ", x);
      assert (Tx(": ") + x)[3..] == rest;
    }
  }

  lemma FlagProp(name: string)
    requires IsAttrName(name)
    ensures PropIs(Tx(name + ": true"), Keyed(name, Some(Flag(name))))
  {
    forall rest: Code | !StartsWith(rest, " + ")
      ensures ReadProp(Tx(name + ": true") + rest) == if IsKey(name) then Got(Flag(name), rest) else Fail
    {
      var x := Tx("true") + rest;
      assert Tx(name + ": true") + rest == Tx(name + ": ") + x;
      ReadsKey(name, x);
      Starts(": ", x);
      assert (Tx(": ") + x)[2..] == x;
      Starts("true", rest);
      assert (Tx(": ") + x)[6..] == rest;
    }
  }

  /** The texts of operands never look like a slice or a boolean at their start. */
  predicate IsOperandStart(x: Code) {
    x != [] && x[0].Ch? && x[0].c != 't'
  }

  function Holding(name: string, k: Option<Chain>): Option<Prop> {
    if k.None? then None else Some(Content(name, k.value))
  }

  lemma ContentProp(name: string, x: Code, k: Option<Chain>)
    requires IsAttrName(name) && ChainIs(x, k) && IsOperandStart(x)
    ensures PropIs(Tx(name + ": ") + x, Keyed(name, Holding(name, k)))
  {
    forall rest: Code | !StartsWith(rest, " + ")
      ensures ReadProp(Tx(name + ": ") + x + rest)
           == if IsKey(name) && k.Some? then Got(Content(name, k.value), rest) else Fail
    {
      assert Tx(name + ": ") + x + rest == Tx(name + ": ") + (x + rest);
      ReadsKey(name, x + rest);
      Starts(": ", x + rest);
      assert (Tx(": ") + (x + rest))[2..] == x + rest;
      assert (Tx(": ") + (x + rest))[2] == x[0];
      StartsNot(x + rest, "true", 0);
      ChainEnds(x, k, rest);
    }
  }

  function Cons(p: Option<Prop>, ps: Option<seq<Prop>>): Option<seq<Prop>> {
    if p.None? || ps.None? then None else Some([p.value] + ps.value)
  }

  lemma LastProp(x: Code, p: Option<Prop>)
    requires PropIs(x, p)
    ensures PropsAre(x, Cons(p, Some([])))
  {
    if p.Some? {
      assert [p.value] + [] == [p.value];
    }
    forall rest: Code | StartsWith(rest, " })")
      ensures ReadProps(x + rest) == if p.None? then Fail else Got([p.value], rest)
    {
      assert rest[..3][1] == Ch('}');
      StartsNot(rest, " + ", 1);
      StartsNot(rest, ", ", 0);
      assert ReadProp(x + rest) == if p.None? then Fail else Got(p.value, rest);
    }
  }

  lemma MoreProps(x: Code, p: Option<Prop>, y: Code, ps: Option<seq<Prop>>)
    requires PropIs(x, p) && PropsAre(y, ps)
    ensures PropsAre(x + Tx(", ") + y, Cons(p, ps))
  {
    forall rest: Code | StartsWith(rest, " })")
      ensures ReadProps(x + Tx(", ") + y + rest) == if Cons(p, ps).None? then Fail else Got(Cons(p, ps).value, rest)
    {
      var t := Tx(", ") + (y + rest);
      assert x + Tx(", ") + y + rest == x + t;
      StartsNot(t, " + ", 0);
      Starts(", ", y + rest);
    }
  }

  function Built(name: string, ps: Option<seq<Prop>>): Option<Chain> {
    if ps.None? then None else One(Component(name, ps.value))
  }

  lemma ReadsComponent(name: string, x: Code)
    requires IsKey(name) && x != [] && x[0].Ch?
    ensures ReadChain(Tx("__ssr_" + name + "(") + x) == ReadCall(Tx("__ssr_" + name) + (Tx("(") + x))
    ensures ReadName(Tx("__ssr_" + name) + (Tx("(") + x)) == ("__ssr_" + name, Tx("(") + x)
  {
    assert Tx("__ssr_" + name + "(") + x == Tx("__ssr_" + name) + (Tx("(") + x);
    ReadsName("__ssr_" + name, Tx("(") + x);
  }

  lemma EmptyComponent(name: string)
    requires IsKey(name)
    ensures ChainIs(Tx("__ssr_" + name + "(") + Tx("{}") + Tx(")"), Built(name, Some([])))
  {
    forall rest: Code
      ensures ReadChain(Tx("__ssr_" + name + "(") + Tx("{}") + Tx(")") + rest)
           == Follow(Built(name, Some([])), ReadMore(rest))
    {
      var x := Tx("{})") + rest;
      assert Tx("__ssr_" + name + "(") + Tx("{}") + Tx(")") + rest == Tx("__ssr_" + name + "(") + x;
      ReadsComponent(name, x);
      var t1 := Tx("(") + x;
      Starts("(", x);
      assert t1[1..] == x;
      Starts("{})", rest);
      assert t1[4..] == rest;
      assert ("__ssr_" + name)[..6] == "__ssr_" && ("__ssr_" + name)[6..] == name;
      FollowOne(Component(name, []), ReadMore(rest));
    }
  }

  lemma PropsComponent(name: string, y: Code, ps: Option<seq<Prop>>)
    requires IsKey(name) && PropsAre(y, ps)
    ensures ChainIs(Tx("__ssr_" + name + "(") + (Tx("{ ") + y + Tx(" }")) + Tx(")"), Built(name, ps))
  {
    forall rest: Code
      ensures ReadChain(Tx("__ssr_" + name + "(") + (Tx("{ ") + y + Tx(" }")) + Tx(")") + rest)
           == Follow(Built(name, ps), ReadMore(rest))
    {
      var z := Tx(" })") + rest;
      var x := Tx("{ ") + (y + z);
      assert Tx("__ssr_" + name + "(") + (Tx("{ ") + y + Tx(" }")) + Tx(")") + rest == Tx("__ssr_" + name + "(") + x;
      ReadsComponent(name, x);
      ReadsObject(name, y, ps, rest);
    }
  }

  lemma ReadsObject(name: string, y: Code, ps: Option<seq<Prop>>, rest: Code)
    requires IsKey(name) && PropsAre(y, ps)
    ensures ReadCall(Tx("__ssr_" + name) + (Tx("(") + (Tx("{ ") + (y + (Tx(" })") + rest)))))
         == Follow(Built(name, ps), ReadMore(rest))
  {
    var z := Tx(" })") + rest;
    var x := Tx("{ ") + (y + z);
    var t1 := Tx("(") + x;
    ReadsComponent(name, x);
    Starts("(", x);
    assert t1[1..] == x;
    StartsNot(x, "{})", 1);
    Starts("{ ", y + z);
    assert t1[3..] == y + z;
    Starts(" })", rest);
    assert ("__ssr_" + name)[..6] == "__ssr_" && ("__ssr_" + name)[6..] == name;
    if ps.Some? {
      FollowOne(Component(name, ps.value), ReadMore(rest));
    }
  }
}
