/**
 Substitution of callback-local names
 (native/vertz-compiler-core/src/jsx_transformer.rs): a scanning replacement of
 whole words, applied once per name.
 */
module InlineSubstitution {
  import opened TextSearch

  predicate IsName(s: string) {
    s != "" && forall i :: 0 <= i < |s| ==> IsWord(s[i])
  }

  // ---- what substitution means ----

  function RunLength(text: string): (n: nat)
    ensures n <= |text| && (text != "" && IsWord(text[0]) ==> n > 0)
  {
    if text == "" || !IsWord(text[0]) then 0 else 1 + RunLength(text[1..])
  }

  lemma {:induction false} RunIs(text: string)
    ensures var n := RunLength(text);
      && (forall i :: 0 <= i < n ==> IsWord(text[i])) && (n < |text| ==> !IsWord(text[n]))
  {
    if text != "" && IsWord(text[0]) {
      RunIs(text[1..]);
    }
  }

  function Image(run: string, subs: map<string, string>): string {
    if run in subs then subs[run] else run
  }

  /** Every maximal run of identifier characters is replaced when it is a name to substitute. */
  function Substitute(text: string, subs: map<string, string>): string
    decreases |text|
  {
    if text == "" then ""
    else if !IsWord(text[0]) then [text[0]] + Substitute(text[1..], subs)
    else
      var n := RunLength(text);
      Image(text[..n], subs) + Substitute(text[n..], subs)
  }

  // ---- the scanning loop ----

  predicate StartsWord(text: string, k: nat)
    requires k <= |text|
  {
    k == 0 || !IsWord(text[k - 1])
  }

  predicate EndsWord(text: string, k: nat) {
    k >= |text| || !IsWord(text[k])
  }

  predicate IsMatch(text: string, k: nat, name: string) {
    OccursAt(text, k, name) && StartsWord(text, k) && EndsWord(text, k + |name|)
  }

  /** The end of the run of identifier characters at `k`. */
  function RunEnd(text: string, k: nat): (e: nat)
    requires k <= |text|
    ensures k <= e <= |text|
    decreases |text| - k
  {
    if k == |text| || !IsWord(text[k]) then k else RunEnd(text, k + 1)
  }

  /** What the text from position `k` on becomes, `k` possibly inside a run. */
  function From(text: string, k: nat, name: string, replacement: string): string
    requires k <= |text|
    decreases |text| - k
  {
    if k == |text| then ""
    else if !IsWord(text[k]) then [text[k]] + From(text, k + 1, name, replacement)
    else
      var e := RunEnd(text, k + 1);
      (if StartsWord(text, k) && text[k..e] == name then replacement else text[k..e]) + From(text, e, name, replacement)
  }

  lemma {:induction false} RunEndIs(text: string, k: nat)
    requires k <= |text|
    ensures EndsWord(text, RunEnd(text, k)) && forall i :: k <= i < RunEnd(text, k) ==> IsWord(text[i])
    decreases |text| - k
  {
    if k < |text| && IsWord(text[k]) {
      RunEndIs(text, k + 1);
    }
  }

  lemma WholeRunMatches(text: string, k: nat, e: nat, name: string)
    requires k < e <= |text| && StartsWord(text, k) && EndsWord(text, e) && text[k..e] == name
    ensures IsMatch(text, k, name)
  {
  }

  /** A run that is not the name, or not all of its word, is copied. */
  lemma RunIsCopied(text: string, k: nat, name: string, replacement: string)
    requires k < |text| && IsWord(text[k]) && !IsMatch(text, k, name)
    ensures var e := RunEnd(text, k + 1);
      From(text, k, name, replacement) == text[k..e] + From(text, e, name, replacement)
  {
    var e := RunEnd(text, k + 1);
    RunEndIs(text, k + 1);
    if StartsWord(text, k) && text[k..e] == name {
      WholeRunMatches(text, k, e, name);
    }
  }

  /** In the middle of a run the rest of it is copied. */
  lemma RestIsCopied(text: string, k: nat, name: string, replacement: string)
    requires 0 < k < |text| && IsWord(text[k - 1]) && IsWord(text[k])
    ensures var e := RunEnd(text, k);
      From(text, k, name, replacement) == text[k..e] + From(text, e, name, replacement)
  {
  }

  /** Where no whole-word occurrence starts, one character is copied. */
  lemma CopyOne(text: string, k: nat, name: string, replacement: string)
    requires k < |text| && !IsMatch(text, k, name)
    ensures From(text, k, name, replacement) == [text[k]] + From(text, k + 1, name, replacement)
  {
    if IsWord(text[k]) {
      var e := RunEnd(text, k + 1);
      RunIsCopied(text, k, name, replacement);
      assert text[k..e] == [text[k]] + text[k + 1..e];
      if e > k + 1 {
        RestIsCopied(text, k + 1, name, replacement);
        Grouped([text[k]], text[k + 1..e], From(text, e, name, replacement));
      }
    }
  }

  lemma {:induction false} CopyMany(text: string, k: nat, p: nat, name: string, replacement: string)
    requires k <= p <= |text| && forall q :: k <= q < p ==> !IsMatch(text, q, name)
    ensures From(text, k, name, replacement) == text[k..p] + From(text, p, name, replacement)
    decreases p - k
  {
    if k == p {
      assert text[k..p] == "";
    } else {
      CopyOne(text, k, name, replacement);
      CopyMany(text, k + 1, p, name, replacement);
      assert text[k..p] == [text[k]] + text[k + 1..p];
      Grouped([text[k]], text[k + 1..p], From(text, p, name, replacement));
    }
  }

  /** A run ends where the characters stop being identifier characters. */
  lemma {:induction false} RunEndAt(text: string, k: nat, e: nat)
    requires k <= e <= |text| && EndsWord(text, e) && forall i :: k <= i < e ==> IsWord(text[i])
    ensures RunEnd(text, k) == e
    decreases e - k
  {
    if k < e {
      RunEndAt(text, k + 1, e);
    }
  }

  lemma ReplaceOne(text: string, p: nat, name: string, replacement: string)
    requires IsName(name) && IsMatch(text, p, name)
    ensures From(text, p, name, replacement) == replacement + From(text, p + |name|, name, replacement)
  {
    var e := p + |name|;
    forall i | p <= i < e ensures IsWord(text[i]) {
      assert text[i] == text[p..e][i - p];
    }
    RunEndAt(text, p + 1, e);
  }

  /** Inside an occurrence that is only part of a word nothing matches. */
  lemma NoMatchInside(text: string, p: nat, name: string)
    requires IsName(name) && OccursAt(text, p, name) && !IsMatch(text, p, name)
    ensures forall q :: p <= q < p + |name| ==> !IsMatch(text, q, name)
  {
    forall q | p < q < p + |name| ensures !IsMatch(text, q, name) {
      assert text[q - 1] == text[p..p + |name|][q - 1 - p];
    }
  }

  lemma FromRun(text: string, k: nat, name: string, replacement: string)
    requires k < |text| && IsWord(text[k]) && StartsWord(text, k)
    ensures var e := RunEnd(text, k);
      From(text, k, name, replacement) == Image(text[k..e], map[name := replacement]) + From(text, e, name, replacement)
  {
  }

  /** A run and what follows it. */
  lemma RunThenRest(run: string, rest: string, subs: map<string, string>)
    requires IsName(run) && (rest == "" || !IsWord(rest[0]))
    ensures Substitute(run + rest, subs) == Image(run, subs) + Substitute(rest, subs)
  {
    SubstituteSeam(run, rest, subs);
    OneRun(run, subs);
  }

  lemma OtherThenRest(c: char, rest: string, subs: map<string, string>)
    requires !IsWord(c)
    ensures Substitute([c] + rest, subs) == [c] + Substitute(rest, subs)
  {
    SubstituteSeam([c], rest, subs);
    assert [c][1..] == "";
  }

  lemma WordCut(text: string, k: nat, e: nat, name: string, replacement: string)
    requires k < e <= |text| && (forall i :: k <= i < e ==> IsWord(text[i])) && (e < |text| ==> !IsWord(text[e]))
    ensures Substitute(text[k..], map[name := replacement])
         == Image(text[k..e], map[name := replacement]) + Substitute(text[e..], map[name := replacement])
  {
    assert text[k..] == text[k..e] + text[e..];
    RunThenRest(text[k..e], text[e..], map[name := replacement]);
  }

  lemma {:induction false} FromIsSubstitute(text: string, k: nat, name: string, replacement: string)
    requires k <= |text| && (k < |text| && IsWord(text[k]) ==> StartsWord(text, k))
    ensures From(text, k, name, replacement) == Substitute(text[k..], map[name := replacement])
    decreases |text| - k
  {
    if k < |text| {
      var e := if IsWord(text[k]) then RunEnd(text, k) else k + 1;
      RunEndIs(text, k);
      FromIsSubstitute(text, e, name, replacement);
      if IsWord(text[k]) {
        FromRun(text, k, name, replacement);
        WordCut(text, k, e, name, replacement);
      } else {
        OtherCut(text, k, name, replacement);
      }
    }
  }

  lemma OtherCut(text: string, k: nat, name: string, replacement: string)
    requires k < |text| && !IsWord(text[k])
    ensures Substitute(text[k..], map[name := replacement])
      == [text[k]] + Substitute(text[k + 1..], map[name := replacement])
  {
    assert text[k..] == [text[k]] + text[k + 1..];
    OtherThenRest(text[k], text[k + 1..], map[name := replacement]);
  }

  predicate NoneIn(text: string, start: nat, end: nat, name: string) {
    forall q :: start <= q < end ==> !OccursAt(text, q, name)
  }

  lemma ReplacedUpTo(text: string, start: nat, pos: nat, name: string, replacement: string, result: string)
    requires IsName(name) && start <= pos && IsMatch(text, pos, name) && NoneIn(text, start, pos, name)
    ensures result + From(text, start, name, replacement)
         == ((result + text[start..pos]) + replacement) + From(text, pos + |name|, name, replacement)
  {
    CopyMany(text, start, pos, name, replacement);
    ReplaceOne(text, pos, name, replacement);
    Grouped(result, text[start..pos], replacement + From(text, pos + |name|, name, replacement));
    Grouped(result + text[start..pos], replacement, From(text, pos + |name|, name, replacement));
  }

  lemma CopiedUpTo(text: string, start: nat, pos: nat, name: string, replacement: string, result: string)
    requires IsName(name) && start <= pos && OccursAt(text, pos, name) && !IsMatch(text, pos, name)
    requires NoneIn(text, start, pos, name)
    ensures result + From(text, start, name, replacement)
         == (result + text[start..pos + |name|]) + From(text, pos + |name|, name, replacement)
  {
    NoMatchInside(text, pos, name);
    CopyMany(text, start, pos + |name|, name, replacement);
    Grouped(result, text[start..pos + |name|], From(text, pos + |name|, name, replacement));
  }

  lemma CopiedToEnd(text: string, start: nat, name: string, replacement: string, result: string)
    requires IsName(name) && start <= |text| && NoneIn(text, start, |text|, name)
    ensures result + From(text, start, name, replacement) == result + text[start..]
  {
    CopyMany(text, start, |text|, name, replacement);
  }

  /** `word_boundary_replace`: one scan replaces exactly the maximal runs equal to the name. */
  method WordBoundaryReplace(text: string, name: string, replacement: string) returns (result: string)
    requires IsName(name)
    ensures result == Substitute(text, map[name := replacement])
  {
    result := "";
    var start: nat := 0;
    ghost var all := From(text, 0, name, replacement);
    while start < |text|
      invariant start <= |text|
      invariant result + From(text, start, name, replacement) == all
    {
      var pos := Find(text, start, name);
      if pos == -1 {
        CopiedToEnd(text, start, name, replacement, result);
        result := result + text[start..];
        break;
      }
      var after: nat := pos + |name|;
      if StartsWord(text, pos) && EndsWord(text, after) {
        ReplacedUpTo(text, start, pos, name, replacement, result);
        result := result + text[start..pos];
        result := result + replacement;
      } else {
        CopiedUpTo(text, start, pos, name, replacement, result);
        result := result + text[start..after];
      }
      start := after;
    }
    assert result == all;
    FromIsSubstitute(text, 0, name, replacement);
    assert text[0..] == text;
  }

  lemma Grouped(a: string, b: string, c: string)
    ensures a + (b + c) == (a + b) + c
  {
  }

  // ---- several names ----

  /** No run of identifier characters spans the seam. */
  predicate IsSeam(a: string, b: string) {
    a == "" || b == "" || !IsWord(a[|a| - 1]) || !IsWord(b[0])
  }

  lemma {:induction false} SubstituteSeam(a: string, b: string, subs: map<string, string>)
    requires IsSeam(a, b)
    ensures Substitute(a + b, subs) == Substitute(a, subs) + Substitute(b, subs)
    decreases |a|
  {
    if a == "" {
      assert a + b == b;
    } else if !IsWord(a[0]) {
      assert (a + b)[1..] == a[1..] + b;
      SubstituteSeam(a[1..], b, subs);
      Grouped([a[0]], Substitute(a[1..], subs), Substitute(b, subs));
    } else {
      var n := RunLength(a);
      RunOfSeam(a, b);
      assert (a + b)[..n] == a[..n] && (a + b)[n..] == a[n..] + b;
      SubstituteSeam(a[n..], b, subs);
      Grouped(Image(a[..n], subs), Substitute(a[n..], subs), Substitute(b, subs));
    }
  }

  lemma {:induction false} RunOfSeam(a: string, b: string)
    requires IsSeam(a, b) && a != ""
    ensures RunLength(a + b) == RunLength(a)
  {
    if IsWord(a[0]) {
      assert (a + b)[1..] == a[1..] + b;
      if |a| == 1 {
        assert a[1..] + b == b;
      } else {
        RunOfSeam(a[1..], b);
      }
    }
  }

  /** The text starts with a character that no substitution touches. */
  lemma HeadStays(text: string, subs: map<string, string>)
    requires text != "" && !IsWord(text[0])
    ensures Substitute(text, subs) != "" && Substitute(text, subs)[0] == text[0]
  {
  }

  lemma OneRun(run: string, subs: map<string, string>)
    requires IsName(run)
    ensures Substitute(run, subs) == Image(run, subs)
  {
    var n := RunLength(run);
    RunIs(run);
    assert n == |run|;
    assert run[..n] == run && run[n..] == "";
    assert Image(run, subs) + "" == Image(run, subs);
  }

  /** In parentheses, as the substitution puts them. */
  predicate IsWrapped(replacement: string) {
    |replacement| >= 2 && replacement[0] == '(' && replacement[|replacement| - 1] == ')'
  }

  /** Substituting one name first, then the others, substitutes all of them at once. */
  lemma {:induction false} OneThenOthers(text: string, name: string, replacement: string, subs: map<string, string>)
    requires name !in subs && Substitute(replacement, subs) == replacement && IsWrapped(replacement)
    ensures Substitute(Substitute(text, map[name := replacement]), subs) == Substitute(text, subs[name := replacement])
    decreases |text|
  {
    var one, all := map[name := replacement], subs[name := replacement];
    if text == "" {
    } else if !IsWord(text[0]) {
      OneThenOthers(text[1..], name, replacement, subs);
      SubstituteSeam([text[0]], Substitute(text[1..], one), subs);
      assert Substitute([text[0]], subs) == [text[0]];
    } else {
      var n := RunLength(text);
      RunIs(text);
      var run, rest := text[..n], text[n..];
      OneThenOthers(rest, name, replacement, subs);
      if rest != "" {
        HeadStays(rest, one);
      }
      SubstituteSeam(Image(run, one), Substitute(rest, one), subs);
      OneRun(run, subs);
    }
  }

  /** The result of applying the substitutions one after another, in the order given. */
  function InTurn(text: string, subs: seq<(string, string)>): string
    decreases |subs|
  {
    if subs == [] then text else InTurn(Substitute(text, map[subs[0].0 := subs[0].1]), subs[1..])
  }

  lemma {:induction false} NothingToSubstitute(text: string)
    ensures Substitute(text, map[]) == text
    decreases |text|
  {
    if text != "" {
      if IsWord(text[0]) {
        NothingToSubstitute(text[RunLength(text)..]);
        assert text == text[..RunLength(text)] + text[RunLength(text)..];
      } else {
        NothingToSubstitute(text[1..]);
        assert text == [text[0]] + text[1..];
      }
    }
  }

  /** The replacements as they are inserted, in parentheses. */
  function Wrapped(locals: seq<(string, string)>): seq<(string, string)> {
    seq(|locals|, i requires 0 <= i < |locals| => (locals[i].0, "(" + locals[i].1 + ")"))
  }

  /** A name that stands alone becomes its expression in parentheses; what is around it becomes what it would alone. */
  lemma NameBecomesExpression(before: string, name: string, after: string, expression: string)
    requires IsName(name) && IsSeam(before, name) && IsSeam(name, after)
    ensures var subs := Wrapped([(name, expression)]);
      InTurn(before + name + after, subs) == InTurn(before, subs) + "(" + expression + ")" + InTurn(after, subs)
  {
    var subs := Wrapped([(name, expression)]);
    var one := map[name := "(" + expression + ")"];
    assert subs == [(name, "(" + expression + ")")] && subs[1..] == [];
    SubstituteSeam(before + name, after, one);
    SubstituteSeam(before, name, one);
    OneRun(name, one);
    Regrouped(Substitute(before, one), expression, Substitute(after, one));
  }

  lemma Regrouped(a: string, e: string, b: string)
    ensures (a + ("(" + e + ")")) + b == a + "(" + e + ")" + b
  {
  }

  /** `apply_inline_subs`, for one order of its map's entries. */
  method ApplyInlineSubs(text: string, locals: seq<(string, string)>) returns (result: string)
    requires forall i :: 0 <= i < |locals| ==> IsName(locals[i].0)
    ensures result == InTurn(text, Wrapped(locals))
  {
    ghost var subs := Wrapped(locals);
    result := text;
    assert subs[0..] == subs;
    for i := 0 to |locals|
      invariant InTurn(result, subs[i..]) == InTurn(text, subs)
    {
      assert subs[i..][1..] == subs[i + 1..];
      result := WordBoundaryReplace(result, locals[i].0, "(" + locals[i].1 + ")");
    }
  }
}
