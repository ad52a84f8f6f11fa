/**
 Slices that fall apart where they are copied
 (native/vertz-compiler-core/src/aot_string_transformer.rs). Raw HTML values
 stand without parentheses between `+` signs, which JavaScript groups from the
 left: a value that is itself a chain of `+` and `-` is regrouped. A comma
 expression that loses its parentheses becomes several arguments. When that
 shows, and when it does not.
 */
module AotAdditive {
  import opened JsxSyntax
  import opened AotReader
  import opened AotCompiler
  import opened AotReference
  import opened AotCorrect
  import AotGuards

  // ---- values ----

  /** Primitive values; fractions, symbols and big integers are not modelled. */
  datatype Js = Str(text: string) | Num(n: int) | NotANumber | Bool(b: bool) | Null | Undefined

  function Digit(n: nat): char
    requires n < 10
  {
    n as char + '0'
  }

  function Digits(n: nat): string {
    if n < 10 then [Digit(n)] else Digits(n / 10) + [Digit(n % 10)]
  }

  function Decimal(n: int): string {
    if n < 0 then "-" + Digits(-n) else Digits(n)
  }

  function ToText(v: Js): string {
    match v
    case Str(text) => text
    case Num(n) => Decimal(n)
    case NotANumber => "NaN"
    case Bool(b) => if b then "true" else "false"
    case Null => "null"
    case Undefined => "undefined"
  }

  /** How strings become numbers: whatever else it does, what starts with `<` or `N` is not a number. */
  ghost predicate IsToNumber(f: string -> Js) {
    forall s :: (f(s).Num? || f(s).NotANumber?) && (s != "" && s[0] in {'<', 'N'} ==> f(s).NotANumber?)
  }

  function ToNumber(f: string -> Js, v: Js): Js {
    match v
    case Str(text) => f(text)
    case Bool(b) => Num(if b then 1 else 0)
    case Null => Num(0)
    case Undefined => NotANumber
    case _ => v
  }

  function NoString(s: string): Js {
    NotANumber
  }

  function Plus(a: Js, b: Js): Js {
    if a.Str? || b.Str? then Str(ToText(a) + ToText(b))
    else
      var x, y := ToNumber(NoString, a), ToNumber(NoString, b);
      if x.Num? && y.Num? then Num(x.n + y.n) else NotANumber
  }

  function Minus(f: string -> Js, a: Js, b: Js): Js {
    var x, y := ToNumber(f, a), ToNumber(f, b);
    if x.Num? && y.Num? then Num(x.n - y.n) else NotANumber
  }

  // ---- chains of `+` and `-` ----

  datatype Term = Term(minus: bool, value: Js)

  /** `left ± v ± w ...`, grouped from the left. */
  function Fold(f: string -> Js, left: Js, terms: seq<Term>): Js
    decreases terms
  {
    if terms == [] then left
    else
      Fold(f, if terms[0].minus then Minus(f, left, terms[0].value) else Plus(left, terms[0].value), terms[1..])
  }

  /** `open + first ± v ± w ... + close`, as JavaScript groups it. */
  function Emitted(f: string -> Js, open: string, first: Js, terms: seq<Term>, close: string): Js {
    Plus(Fold(f, Plus(Str(open), first), terms), Str(close))
  }

  /** `open + (first ± v ± w ...) + close`. */
  function Meant(f: string -> Js, open: string, first: Js, terms: seq<Term>, close: string): Js {
    Plus(Plus(Str(open), Fold(f, first, terms)), Str(close))
  }

  predicate OnlyPlus(terms: seq<Term>) {
    forall t :: t in terms ==> !t.minus
  }

  /** A sum that is text from its second operand on, or a single operand. */
  predicate KeepsItsMeaning(first: Js, terms: seq<Term>) {
    terms == [] || (OnlyPlus(terms) && (first.Str? || terms[0].value.Str?))
  }

  // ---- decimal numbers do not add by juxtaposition ----

  predicate IsDigit(c: char) {
    '0' <= c <= '9'
  }

  predicate AllDigits(s: string) {
    forall i :: 0 <= i < |s| ==> IsDigit(s[i])
  }

  function NumberOf(s: string): nat
    requires AllDigits(s)
  {
    if s == "" then 0 else 10 * NumberOf(s[..|s| - 1]) + (s[|s| - 1] - '0') as nat
  }

  function Power(k: nat): nat {
    if k == 0 then 1 else 10 * Power(k - 1)
  }

  lemma {:induction false} DigitsRead(n: nat)
    ensures Digits(n) != "" && AllDigits(Digits(n)) && NumberOf(Digits(n)) == n
  {
    if n >= 10 {
      DigitsRead(n / 10);
      var d := Digits(n);
      assert d[..|d| - 1] == Digits(n / 10);
    } else {
      assert Digits(n)[..0] == "";
    }
  }

  lemma Shifted(x: nat, p: nat, y: nat, d: nat)
    ensures 10 * (x * p + y) + d == x * (10 * p) + (10 * y + d)
  {
  }

  lemma LastDigit(s: string)
    requires s != "" && AllDigits(s)
    ensures NumberOf(s) == 10 * NumberOf(s[..|s| - 1]) + (s[|s| - 1] - '0') as nat
  {
  }

  lemma {:induction false} NumberOfBoth(a: string, b: string)
    requires AllDigits(a) && AllDigits(b)
    ensures AllDigits(a + b) && NumberOf(a + b) == NumberOf(a) * Power(|b|) + NumberOf(b)
    decreases |b|
  {
    if b == "" {
      assert a + b == a;
    } else {
      var front, whole := b[..|b| - 1], a + b;
      assert whole[..|whole| - 1] == a + front && whole[|whole| - 1] == b[|b| - 1];
      NumberOfBoth(a, front);
      LastDigit(whole);
      LastDigit(b);
      Shifted(NumberOf(a), Power(|front|), NumberOf(front), (b[|b| - 1] - '0') as nat);
    }
  }

  lemma {:induction false} PowerGrows(k: nat)
    requires k > 0
    ensures Power(k) >= 10
  {
    if k > 1 {
      PowerGrows(k - 1);
    }
  }

  lemma Outgrown(x: nat, p: nat, y: nat)
    requires p >= 10
    ensures x * p + y >= x + y && (x > 0 ==> x * p + y > x + y)
  {
    assert x * p == x + x * (p - 1);
    assert x * (p - 1) >= x * 9;
  }

  function DecimalsOf(ns: seq<int>): string {
    if ns == [] then "" else Decimal(ns[0]) + DecimalsOf(ns[1..])
  }

  function SumOf(ns: seq<int>): int {
    if ns == [] then 0 else ns[0] + SumOf(ns[1..])
  }

  /** Juxtaposed digits read as no less than the sum. */
  lemma {:induction false} JoinedDigits(ns: seq<int>)
    requires forall n :: n in ns ==> n >= 0
    ensures var joined := DecimalsOf(ns);
      AllDigits(joined) && NumberOf(joined) >= SumOf(ns) >= 0 && |joined| >= |ns|
  {
    if ns != [] {
      var rest := DecimalsOf(ns[1..]);
      assert ns[0] in ns && forall n :: n in ns[1..] ==> n in ns;
      JoinedDigits(ns[1..]);
      DigitsRead(ns[0]);
      NumberOfBoth(Digits(ns[0]), rest);
      if ns[1..] == [] {
        assert rest == "" && Power(0) == 1 && ns[0] * 1 == ns[0];
      } else {
        PowerGrows(|rest|);
        Outgrown(ns[0], Power(|rest|), NumberOf(rest));
      }
    }
  }

  lemma {:induction false} NoLeadingZero(n: nat)
    ensures |Digits(n)| > 1 ==> Digits(n)[0] != '0'
  {
    if n >= 10 {
      NoLeadingZero(n / 10);
      DigitsRead(n / 10);
      if n / 10 < 10 {
        assert Digits(n / 10) == [Digit(n / 10)];
      }
    }
  }

  lemma DigitsDoNotJoin(a: nat, ns: seq<int>, c: nat)
    requires ns != [] && (forall n :: n in ns ==> n >= 0) && c <= a + SumOf(ns)
    ensures Digits(a) + DecimalsOf(ns) != Digits(c)
  {
    var rest := DecimalsOf(ns);
    JoinedDigits(ns);
    DigitsRead(a);
    DigitsRead(c);
    NumberOfBoth(Digits(a), rest);
    PowerGrows(|rest|);
    Outgrown(a, Power(|rest|), NumberOf(rest));
    if a == 0 {
      NoLeadingZero(c);
      assert (Digits(a) + rest)[0] == '0';
    }
  }

  lemma SignFirst(n: int)
    ensures Decimal(n) != "" && (Decimal(n)[0] == '-' <==> n < 0)
    ensures forall i :: 1 <= i < |Decimal(n)| ==> Decimal(n)[i] != '-'
    ensures forall i :: 0 <= i < |Decimal(n)| ==> !IsLetter(Decimal(n)[i])
  {
    var m: nat := if n < 0 then -n else n;
    DigitsRead(m);
    Unsigned(Digits(m));
    if n < 0 {
      SignedText(Digits(m));
    }
  }

  predicate IsUnsigned(s: string) {
    forall i :: 0 <= i < |s| ==> s[i] != '-' && !IsLetter(s[i])
  }

  lemma Unsigned(s: string)
    requires AllDigits(s)
    ensures IsUnsigned(s)
  {
  }

  lemma SignedText(s: string)
    requires IsUnsigned(s)
    ensures forall i :: 1 <= i < |"-" + s| ==> ("-" + s)[i] != '-' && !IsLetter(("-" + s)[i])
  {
    forall i | 1 <= i < |"-" + s| ensures ("-" + s)[i] != '-' && !IsLetter(("-" + s)[i]) {
      assert ("-" + s)[i] == s[i - 1];
    }
  }

  lemma {:induction false} SomeSign(ns: seq<int>)
    requires exists n :: n in ns && n < 0
    ensures '-' in DecimalsOf(ns)
  {
    SignFirst(ns[0]);
    if ns[0] < 0 {
      assert DecimalsOf(ns)[0] == '-';
    } else {
      assert ns == [ns[0]] + ns[1..];
      SomeSign(ns[1..]);
    }
  }

  /** Two or more numbers side by side never spell their sum. */
  lemma DecimalsDoNotJoin(a: int, ns: seq<int>)
    requires ns != []
    ensures Decimal(a) + DecimalsOf(ns) != Decimal(a + SumOf(ns))
  {
    if exists n :: n in ns && n < 0 {
      SomeSign(ns);
      SignFirst(a);
      LateSign(Decimal(a), DecimalsOf(ns), a + SumOf(ns));
    } else if a < 0 {
      EarlySign(-a, ns);
    } else {
      PlainNumbersDoNotJoin(a, ns);
    }
  }

  lemma PlainNumbersDoNotJoin(a: nat, ns: seq<int>)
    requires ns != [] && forall n :: n in ns ==> n >= 0
    ensures Decimal(a) + DecimalsOf(ns) != Decimal(a + SumOf(ns))
  {
    JoinedDigits(ns);
    var c: nat := a + SumOf(ns);
    DigitsDoNotJoin(a, ns, c);
    assert Decimal(a) == Digits(a) && Decimal(c) == Digits(c);
  }

  lemma LateSign(s: string, t: string, n: int)
    requires s != "" && '-' in t
    ensures s + t != Decimal(n)
  {
    SignFirst(n);
    var i :| 0 <= i < |t| && t[i] == '-';
    assert (s + t)[|s| + i] == '-';
  }

  lemma EarlySign(a: int, ns: seq<int>)
    requires a > 0 && ns != [] && forall n :: n in ns ==> n >= 0
    ensures Decimal(-a) + DecimalsOf(ns) != Decimal(SumOf(ns) - a)
  {
    var c := SumOf(ns) - a;
    SignFirst(c);
    if c < 0 {
      DifferenceOfDigits(a, ns, -c);
    } else {
      assert (Decimal(-a) + DecimalsOf(ns))[0] == '-';
    }
  }

  lemma DifferenceOfDigits(a: int, ns: seq<int>, c: int)
    requires a > 0 && c > 0 && ns != [] && (forall n :: n in ns ==> n >= 0) && c == a - SumOf(ns)
    ensures Decimal(-a) + DecimalsOf(ns) != Decimal(-c)
  {
    JoinedDigits(ns);
    assert c <= a + SumOf(ns);
    DigitsDoNotJoin(a, ns, c);
    SameSign(Digits(a), DecimalsOf(ns), Digits(c));
  }

  lemma SameSign(a: string, b: string, c: string)
    ensures ("-" + a) + b == "-" + c <==> a + b == c
  {
    assert (("-" + a) + b)[1..] == a + b && ("-" + c)[1..] == c;
    assert ("-" + a) + b == "-" + (a + b);
  }

  // ---- other values do not either ----

  predicate IsLetter(c: char) {
    'a' <= c <= 'z'
  }

  function TextsOf(vs: seq<Js>): string {
    if vs == [] then "" else ToText(vs[0]) + TextsOf(vs[1..])
  }

  function SumAll(acc: Js, vs: seq<Js>): Js
    decreases vs
  {
    if vs == [] then acc else SumAll(Plus(acc, vs[0]), vs[1..])
  }

  predicate NoStrings(vs: seq<Js>) {
    forall v :: v in vs ==> !v.Str?
  }

  predicate AllNumbers(vs: seq<Js>) {
    forall v :: v in vs ==> v.Num?
  }

  function Ints(vs: seq<Js>): seq<int>
    requires AllNumbers(vs)
  {
    if vs == [] then [] else [vs[0].n] + Ints(vs[1..])
  }

  lemma {:induction false} NumbersAdd(acc: int, vs: seq<Js>)
    requires AllNumbers(vs)
    ensures SumAll(Num(acc), vs) == Num(acc + SumOf(Ints(vs))) && |Ints(vs)| == |vs|
    decreases vs
  {
    if vs != [] {
      NumbersAdd(acc + vs[0].n, vs[1..]);
      assert Ints(vs)[1..] == Ints(vs[1..]);
    }
  }

  lemma {:induction false} NumberTexts(vs: seq<Js>)
    requires AllNumbers(vs)
    ensures TextsOf(vs) == DecimalsOf(Ints(vs))
  {
    if vs != [] {
      NumberTexts(vs[1..]);
      assert Ints(vs)[1..] == Ints(vs[1..]);
    }
  }

  /** A sum without strings is a number, or `NaN` if that is what one of its operands counts for. */
  lemma {:induction false} SumIsNumber(acc: Js, vs: seq<Js>)
    requires !acc.Str? && NoStrings(vs)
    ensures !SumAll(acc, vs).Str? && (vs != [] || acc.Num? || acc.NotANumber? ==> !Worded(SumAll(acc, vs)))
    ensures SumAll(acc, vs).NotANumber? ==> IsNaN(acc) || exists v :: v in vs && IsNaN(v)
    decreases vs
  {
    if vs != [] {
      SumIsNumber(Plus(acc, vs[0]), vs[1..]);
      assert vs[0] in vs;
    }
  }

  predicate IsNaN(v: Js) {
    v.NotANumber? || v.Undefined?
  }

  predicate Worded(v: Js) {
    v.Bool? || v.Null? || v.Undefined?
  }

  lemma NotEmpty(v: Js)
    requires !v.Str?
    ensures ToText(v) != "" && (IsNaN(v) ==> |ToText(v)| >= 3)
    ensures !v.Num? ==> exists c :: c in ToText(v) && IsLetter(c)
  {
    match v {
      case Num(n) => SignFirst(n);
      case NotANumber => LetterAt("NaN", 1);
      case Bool(b) => LetterAt(ToText(v), 0);
      case Null => LetterAt("null", 0);
      case Undefined => LetterAt("undefined", 0);
    }
  }

  lemma LetterAt(s: string, i: nat)
    requires i < |s| && IsLetter(s[i])
    ensures exists c :: c in s && IsLetter(c)
  {
    assert s[i] in s;
  }

  lemma {:induction false} TextsGrow(vs: seq<Js>)
    requires NoStrings(vs)
    ensures |TextsOf(vs)| >= |vs| && ((exists v :: v in vs && IsNaN(v)) ==> |TextsOf(vs)| >= |vs| + 2)
    ensures !AllNumbers(vs) ==> exists c :: c in TextsOf(vs) && IsLetter(c)
  {
    if vs != [] {
      NotEmpty(vs[0]);
      TextsGrow(vs[1..]);
      if !vs[0].Num? {
        var c :| c in ToText(vs[0]) && IsLetter(c);
        assert c in TextsOf(vs);
      } else if !AllNumbers(vs) {
        var c :| c in TextsOf(vs[1..]) && IsLetter(c);
        assert c in TextsOf(vs);
      }
    }
  }

  /** Two or more values that are not strings, side by side, never spell their sum. */
  lemma ValuesDoNotJoin(first: Js, vs: seq<Js>)
    requires !first.Str? && NoStrings(vs) && vs != []
    ensures TextsOf([first] + vs) != ToText(SumAll(first, vs))
  {
    var all := [first] + vs;
    SumIsNumber(first, vs);
    if AllNumbers(all) {
      NumbersDoNotJoin(first, vs);
    } else {
      TextsGrow(all);
      var sum := SumAll(first, vs);
      if sum.Num? {
        LettersAreNoNumber(TextsOf(all), sum.n);
      } else {
        assert forall v :: v in all <==> v == first || v in vs;
      }
    }
  }

  lemma NumbersDoNotJoin(first: Js, vs: seq<Js>)
    requires first.Num? && AllNumbers(vs) && vs != []
    ensures TextsOf([first] + vs) != ToText(SumAll(first, vs))
  {
    NumbersAdd(first.n, vs);
    NumberTexts(vs);
    DecimalsDoNotJoin(first.n, Ints(vs));
    assert ([first] + vs)[1..] == vs;
  }

  lemma LettersAreNoNumber(s: string, n: int)
    requires exists c :: c in s && IsLetter(c)
    ensures s != Decimal(n)
  {
    SignFirst(n);
  }

  // ---- raw HTML values ----

  function Texts(terms: seq<Term>): string {
    if terms == [] then "" else ToText(terms[0].value) + Texts(terms[1..])
  }

  /** Once there is text on the left, all the rest is appended. */
  lemma {:induction false} TextAppends(f: string -> Js, s: string, terms: seq<Term>)
    requires OnlyPlus(terms)
    ensures Fold(f, Str(s), terms) == Str(s + Texts(terms))
    decreases terms
  {
    if terms == [] {
      assert s + "" == s;
    } else {
      TextAppends(f, s + ToText(terms[0].value), terms[1..]);
      assert (s + ToText(terms[0].value)) + Texts(terms[1..]) == s + Texts(terms);
    }
  }

  /** The operands before the first string. */
  function Leading(terms: seq<Term>): seq<Js> {
    if terms == [] || terms[0].value.Str? then [] else [terms[0].value] + Leading(terms[1..])
  }

  function Trailing(terms: seq<Term>): seq<Term> {
    if terms == [] || terms[0].value.Str? then terms else Trailing(terms[1..])
  }

  /** A sum adds up its leading operands and appends the others. */
  lemma Regroup(x: string, y: string, z: string)
    ensures (x + y) + z == x + (y + z)
  {
  }

  lemma {:induction false} TextsSplit(terms: seq<Term>)
    requires OnlyPlus(terms)
    ensures NoStrings(Leading(terms)) && Texts(terms) == TextsOf(Leading(terms)) + Texts(Trailing(terms))
  {
    if terms != [] && !terms[0].value.Str? {
      TextsSplit(terms[1..]);
      assert Leading(terms)[1..] == Leading(terms[1..]);
      Regroup(ToText(terms[0].value), TextsOf(Leading(terms[1..])), Texts(Trailing(terms[1..])));
    }
  }

  lemma {:induction false} FoldSplits(f: string -> Js, acc: Js, terms: seq<Term>)
    requires !acc.Str? && OnlyPlus(terms)
    ensures ToText(Fold(f, acc, terms)) == ToText(SumAll(acc, Leading(terms))) + Texts(Trailing(terms))
    decreases terms
  {
    if terms != [] {
      if terms[0].value.Str? {
        TextAppends(f, ToText(acc) + terms[0].value.text, terms[1..]);
        Regroup(ToText(acc), terms[0].value.text, Texts(terms[1..]));
      } else {
        FoldSplits(f, Plus(acc, terms[0].value), terms[1..]);
        assert Leading(terms)[1..] == Leading(terms[1..]);
      }
    }
  }

  /** After a difference at most `NaN` and what is appended to it is left. */
  predicate IsLost(v: Js) {
    v.NotANumber? || (v.Str? && v.text != "" && v.text[0] == 'N')
  }

  lemma {:induction false} StaysLost(f: string -> Js, v: Js, terms: seq<Term>)
    requires IsToNumber(f) && IsLost(v)
    ensures IsLost(Fold(f, v, terms))
    decreases terms
  {
    if terms != [] {
      StaysLost(f, if terms[0].minus then Minus(f, v, terms[0].value) else Plus(v, terms[0].value), terms[1..]);
    }
  }

  lemma {:induction false} DifferenceLoses(f: string -> Js, s: string, terms: seq<Term>)
    requires IsToNumber(f) && s != "" && s[0] == '<' && !OnlyPlus(terms)
    ensures IsLost(Fold(f, Str(s), terms))
    decreases terms
  {
    if terms[0].minus {
      StaysLost(f, NotANumber, terms[1..]);
    } else {
      DifferenceLoses(f, s + ToText(terms[0].value), terms[1..]);
    }
  }

  lemma Cancel(open: string, x: string, y: string, z: string, close: string)
    ensures (open + (x + z)) + close == (open + (y + z)) + close <==> x == y
  {
    assert (open + (x + z)) + close == open + x + (z + close);
    assert (open + (y + z)) + close == open + y + (z + close);
    Inside(open, x, y, z + close);
  }

  lemma Inside(open: string, x: string, y: string, close: string)
    ensures open + x + close == open + y + close <==> x == y
  {
    if open + x + close == open + y + close {
      assert |x| == |y|;
      assert x == (open + x + close)[|open|..|open| + |x|];
      assert y == (open + y + close)[|open|..|open| + |y|];
    }
  }

  lemma SumShows(f: string -> Js, open: string, first: Js, terms: seq<Term>, close: string)
    requires OnlyPlus(terms) && !first.Str?
    ensures Emitted(f, open, first, terms, close) == Meant(f, open, first, terms, close)
       <==> terms == [] || terms[0].value.Str?
  {
    var early, late := Leading(terms), Texts(Trailing(terms));
    SumTexts(f, open, first, terms, close);
    Cancel(open, ToText(first) + TextsOf(early), ToText(SumAll(first, early)), late, close);
    if early == [] {
      assert ToText(first) + "" == ToText(first);
    } else {
      assert ([first] + early)[1..] == early;
      ValuesDoNotJoin(first, early);
    }
  }

  /** What a sum prints, where its leading operands are joined and where they are added up. */
  lemma SumTexts(f: string -> Js, open: string, first: Js, terms: seq<Term>, close: string)
    requires OnlyPlus(terms) && !first.Str?
    ensures var early, late := Leading(terms), Texts(Trailing(terms));
      && Emitted(f, open, first, terms, close) == Str((open + ((ToText(first) + TextsOf(early)) + late)) + close)
      && Meant(f, open, first, terms, close) == Str((open + (ToText(SumAll(first, early)) + late)) + close)
      && NoStrings(early) && (early == [] <==> terms == [] || terms[0].value.Str?)
  {
    var early, late := Leading(terms), Texts(Trailing(terms));
    TextAppends(f, open + ToText(first), terms);
    TextsSplit(terms);
    FoldSplits(f, first, terms);
    RegroupTwice(open, ToText(first), TextsOf(early), late);
  }

  lemma RegroupTwice(a: string, b: string, c: string, d: string)
    ensures (a + b) + (c + d) == a + ((b + c) + d)
  {
  }

  /**
   The emitted text means what was written exactly when the value is a single
   operand, or a sum that is text from its second operand on: numbers at the
   start are joined instead of added, and a difference swallows the start tag.
   */
  lemma AdditiveValue(f: string -> Js, open: string, first: Js, terms: seq<Term>, close: string)
    requires IsToNumber(f) && open != "" && open[0] == '<'
    ensures Emitted(f, open, first, terms, close) == Meant(f, open, first, terms, close)
       <==> KeepsItsMeaning(first, terms)
  {
    if !OnlyPlus(terms) {
      DifferenceLoses(f, open + ToText(first), terms);
      assert Meant(f, open, first, terms, close).text[0] == '<';
      var fold := Fold(f, Str(open + ToText(first)), terms);
      assert (ToText(fold) + close)[0] == 'N';
    } else if first.Str? {
      TextAppends(f, open + first.text, terms);
      TextAppends(f, first.text, terms);
      assert (open + first.text) + Texts(terms) == open + (first.text + Texts(terms));
    } else {
      SumShows(f, open, first, terms, close);
    }
  }

  /** `innerHTML={n - 1}` loses the start tag, `{n + 1}` joins the digits, and `{n + 1 + " items"}` does too. */
  lemma DifferenceLosesTag(f: string -> Js, n: int)
    requires IsToNumber(f)
    ensures Emitted(f, "<p>", Num(n), [Term(true, Num(1))], "</p>") == Str("NaN</p>")
    ensures Meant(f, "<p>", Num(n), [Term(true, Num(1))], "</p>") == Str("<p>" + Decimal(n - 1) + "</p>")
    ensures var terms := [Term(false, Num(1)), Term(false, Str(" items"))];
      && Emitted(f, "<p>", Num(n), terms, "</p>") == Str("<p>" + Decimal(n) + "1" + " items" + "</p>")
      && Meant(f, "<p>", Num(n), terms, "</p>") == Str("<p>" + (Decimal(n + 1) + " items") + "</p>")
  {
    assert ("<p>" + Decimal(n))[0] == '<';
    assert Decimal(1) == "1";
    assert [Term(true, Num(1))][1..] == [];
    var terms := [Term(false, Num(1)), Term(false, Str(" items"))];
    assert terms[1..] == [Term(false, Str(" items"))] && terms[1..][1..] == [];
  }

  /**
   Such an element's text is the value's own text between two `+` signs, and it
   does not read as a chain of operands in which the value is one.
   */
  lemma RawValueIsBare(e: Element, rx: bool, hid: Option<string>, slice: Slice)
    requires ParsedElement(e) && HidOk(hid) && !IsComponentTag(e.tag) && !HasNoEndTag(e.tag)
    requires RawContentOf(e.attrs) == RawValue(slice) && !slice.binding.Tight?
    ensures ElementText(e, rx, hid)
         == Tx("'<" + e.tag) + BuildAttrString(AttrsText(e.attrs), Tx(HydrationAttr(hid))) + Tx(">'")
            + Tx(" + ") + [Src(slice)] + Tx(" + ") + Tx("'</" + e.tag + ">'")
    ensures ReadChain(ElementText(e, rx, hid)).Fail?
  {
    var w: World<int> := World((id, scope) => 0, v => false, v => false, v => [], v => "", v => v, (h, v) => "",
                               (n, p) => "");
    var k := ElementReads(w, e, rx, hid);
    AotGuards.WholeReading(ElementText(e, rx, hid), k);
    RawSlice(e.attrs, slice);
  }

  lemma {:induction false} DangerousSlice(attrs: seq<Attr>)
    ensures DangerousContent(attrs).RawValue? ==>
      ExtractDangerousHtml(attrs) == Some([Src(DangerousContent(attrs).slice)])
    ensures DangerousContent(attrs).NoRaw? ==> ExtractDangerousHtml(attrs).None?
  {
    if attrs != [] {
      DangerousSlice(attrs[1..]);
    }
  }

  lemma {:induction false} InnerSlice(attrs: seq<Attr>)
    ensures InnerContent(attrs).RawValue? ==> ExtractInnerHtml(attrs) == Some([Src(InnerContent(attrs).slice)])
  {
    if attrs != [] {
      InnerSlice(attrs[1..]);
    }
  }

  lemma RawSlice(attrs: seq<Attr>, slice: Slice)
    requires RawContentOf(attrs) == RawValue(slice)
    ensures RawHtml(attrs) == Some([Src(slice)])
  {
    DangerousSlice(attrs);
    InnerSlice(attrs);
  }

  // ---- comma expressions ----

  /** `helper((a, b, ...))`: the last value is the argument. */
  function MeantCall<V>(w: World<V>, helper: string, values: seq<V>): string
    requires values != []
  {
    w.helper(helper, values[|values| - 1])
  }

  /** `helper(a, b, ...)`: the helpers take one argument, the first. */
  function EmittedCall<V>(w: World<V>, helper: string, values: seq<V>): string
    requires values != []
  {
    w.helper(helper, values[0])
  }

  /** The two mean the same in every world exactly when the first value is the last one. */
  lemma CommaShows<V(!new)>(values: seq<V>)
    requires values != []
    ensures (forall w: World<V>, helper :: EmittedCall(w, helper, values) == MeantCall(w, helper, values))
       <==> values[0] == values[|values| - 1]
  {
    var first := values[0];
    var w: World<V> := World((id, scope) => first, v => false, v => false, v => [], v => "", v => v,
                             (h, v) => if v == first then "a" else "b", (n, p) => "");
    if values[0] != values[|values| - 1] {
      assert EmittedCall(w, "__esc", values) != MeantCall(w, "__esc", values);
    }
  }

  /**
   A parenthesised comma expression in a branch loses its parentheses: the text
   is a call of several arguments and does not read as the chain that was written.
   */
  lemma CommaBranchUnread(test: Slice, value: Slice, whole: Slice, other: Expr, choice: Slice, rx: bool)
    requires value.binding.Comma? && whole.binding.Tight? && !test.binding.IsLoose() && ParsedExpr(other)
    ensures var branch := Paren(Other(value, false), whole, false);
      && NodeText(branch, rx) == Tx("__esc(") + [Src(value)] + Tx(")")
      && ReadChain(NodeText(branch, rx)).Fail?
      && ReadChain(ConditionalRootText(Conditional(test, branch, other, choice), rx)).Fail?
      && ReadChain(ConditionalRootText(And(test, branch, choice), rx)).Fail?
  {
    var w: World<int> := World((id, scope) => 0, v => false, v => false, v => [], v => "", v => v, (h, v) => "",
                               (n, p) => "");
    var branch := Paren(Other(value, false), whole, false);
    assert "__esc" + "(" == "__esc(";
    assert NodeText(branch, rx) == NodeText(Other(value, false), rx);
    var k := NodeReads(w, branch, rx);
    AotGuards.WholeReading(NodeText(branch, rx), k);
    AotGuards.ConditionalRootPreservesMeaning(w, Conditional(test, branch, other, choice), rx);
    AotGuards.ConditionalRootPreservesMeaning(w, And(test, branch, choice), rx);
  }
}
