/**
 Inline substitutions are applied in the order of an unordered map
 (native/vertz-compiler-core/src/jsx_transformer.rs). When that order matters.
 */
module SubstitutionOrder {
  import opened TextSearch
  import opened InlineSubstitution

  function MapOf(subs: seq<(string, string)>): map<string, string> {
    if subs == [] then map[] else MapOf(subs[1..])[subs[0].0 := subs[0].1]
  }

  predicate DistinctNames(subs: seq<(string, string)>) {
    forall i, j :: 0 <= i < j < |subs| ==> subs[i].0 != subs[j].0
  }

  /** The order given by the map: names are distinct identifiers, replacements stand in parentheses. */
  predicate IsOrder(subs: seq<(string, string)>) {
    DistinctNames(subs) && forall s :: s in subs ==> IsName(s.0) && IsWrapped(s.1)
  }

  /** The same entries, in any order. */
  ghost predicate IsOrderOf(other: seq<(string, string)>, subs: seq<(string, string)>) {
    DistinctNames(other) && forall s :: s in subs <==> s in other
  }

  /** The name is one of the text's maximal identifier runs. */
  predicate Mentions(text: string, name: string)
    decreases |text|
  {
    text != ""
    && if !IsWord(text[0]) then Mentions(text[1..], name)
       else text[..RunLength(text)] == name || Mentions(text[RunLength(text)..], name)
  }

  /** No replacement mentions the name of another entry; its own it may. */
  predicate Independent(subs: seq<(string, string)>) {
    forall s, t :: s in subs && t in subs && s.0 != t.0 ==> !Mentions(s.1, t.0)
  }

  lemma {:induction false} MapOfMember(subs: seq<(string, string)>, name: string)
    ensures name in MapOf(subs) <==> exists i :: 0 <= i < |subs| && subs[i].0 == name
    ensures DistinctNames(subs) ==> forall i :: 0 <= i < |subs| ==>
      subs[i].0 in MapOf(subs) && MapOf(subs)[subs[i].0] == subs[i].1
  {
    if subs != [] {
      MapOfMember(subs[1..], name);
      assert name in MapOf(subs) <==> name == subs[0].0 || name in MapOf(subs[1..]);
      if exists i :: 0 <= i < |subs| && subs[i].0 == name {
        var i :| 0 <= i < |subs| && subs[i].0 == name;
        if i > 0 {
          assert subs[1..][i - 1] == subs[i];
        }
      }
      if DistinctNames(subs) {
        forall i | 0 < i < |subs| ensures subs[i].0 in MapOf(subs) && MapOf(subs)[subs[i].0] == subs[i].1 {
          assert subs[1..][i - 1] == subs[i];
        }
      }
    }
  }

  // ---- independent entries ----

  lemma {:induction false} NothingMentioned(text: string, subs: map<string, string>)
    requires forall name :: name in subs ==> !Mentions(text, name)
    ensures Substitute(text, subs) == text
    decreases |text|
  {
    if text == "" {
    } else if !IsWord(text[0]) {
      NothingMentioned(text[1..], subs);
      assert text == [text[0]] + text[1..];
    } else {
      var n := RunLength(text);
      NothingMentioned(text[n..], subs);
      assert text == text[..n] + text[n..];
    }
  }

  lemma HeadIsInert(subs: seq<(string, string)>)
    requires subs != [] && IsOrder(subs) && Independent(subs)
    ensures IsOrder(subs[1..]) && Independent(subs[1..]) && subs[0].0 !in MapOf(subs[1..])
    ensures Substitute(subs[0].1, MapOf(subs[1..])) == subs[0].1
  {
    var tail := subs[1..];
    MapOfMember(tail, subs[0].0);
    forall name | name in MapOf(tail) ensures !Mentions(subs[0].1, name) {
      MapOfMember(tail, name);
      var i :| 0 <= i < |tail| && tail[i].0 == name;
      assert subs[i + 1] == tail[i] && subs[i + 1] in subs && subs[0] in subs;
    }
    NothingMentioned(subs[0].1, MapOf(tail));
  }

  /**
   When no replacement mentions another entry's name, applying the substitutions
   one by one is one simultaneous substitution.
   */
  lemma {:induction false} InTurnIsAtOnce(text: string, subs: seq<(string, string)>)
    requires IsOrder(subs) && Independent(subs)
    ensures InTurn(text, subs) == Substitute(text, MapOf(subs))
    decreases |subs|
  {
    if subs == [] {
      NothingToSubstitute(text);
    } else {
      HeadIsInert(subs);
      assert subs[0] in subs;
      InTurnIsAtOnce(Substitute(text, map[subs[0].0 := subs[0].1]), subs[1..]);
      OneThenOthers(text, subs[0].0, subs[0].1, MapOf(subs[1..]));
    }
  }

  lemma SameMember(a: seq<(string, string)>, b: seq<(string, string)>, name: string)
    requires DistinctNames(a) && DistinctNames(b) && forall s :: s in a <==> s in b
    ensures name in MapOf(a) ==> name in MapOf(b) && MapOf(a)[name] == MapOf(b)[name]
  {
    MapOfMember(a, name);
    MapOfMember(b, name);
    if name in MapOf(a) {
      var i :| 0 <= i < |a| && a[i].0 == name;
      assert a[i] in b;
      var j :| 0 <= j < |b| && b[j] == a[i];
    }
  }

  lemma SameMap(subs: seq<(string, string)>, other: seq<(string, string)>)
    requires DistinctNames(subs) && IsOrderOf(other, subs)
    ensures MapOf(subs) == MapOf(other)
  {
    forall name ensures name in MapOf(subs) <==> name in MapOf(other) {
      SameMember(subs, other, name);
      SameMember(other, subs, name);
    }
    forall name | name in MapOf(subs) ensures MapOf(subs)[name] == MapOf(other)[name] {
      SameMember(subs, other, name);
    }
  }

  lemma AnyOrder(text: string, subs: seq<(string, string)>, other: seq<(string, string)>)
    requires IsOrder(subs) && Independent(subs) && IsOrderOf(other, subs)
    ensures InTurn(text, subs) == InTurn(text, other)
  {
    InTurnIsAtOnce(text, subs);
    InTurnIsAtOnce(text, other);
    SameMap(subs, other);
  }

  // ---- entries that depend on each other ----

  /** The text around the first whole-word mention; what is in front of it stays as it is. */
  lemma {:induction false} FirstMention(text: string, name: string, replacement: string) returns (p: string, q: string)
    requires IsName(name) && Mentions(text, name)
    ensures text == p + name + q && Substitute(p, map[name := replacement]) == p
    ensures (p == "" || !IsWord(p[|p| - 1])) && (q == "" || !IsWord(q[0]))
    ensures text != "" && (p != "" ==> p[0] == text[0]) && (!IsWord(text[0]) ==> p != "")
    decreases |text|
  {
    if !IsWord(text[0]) {
      var after: string;
      after, q := FirstMention(text[1..], name, replacement);
      p := BehindOther(text, after, name, q, replacement);
    } else if text[..RunLength(text)] == name {
      p, q := "", text[RunLength(text)..];
      RunIs(text);
      assert "" + name + q == text;
    } else {
      var after: string;
      RunIs(text);
      after, q := FirstMention(text[RunLength(text)..], name, replacement);
      p := BehindRun(text, after, name, q, replacement);
    }
  }

  lemma BehindOther(text: string, after: string, name: string, q: string, replacement: string) returns (p: string)
    requires text != "" && !IsWord(text[0]) && text[1..] == after + name + q
    requires Substitute(after, map[name := replacement]) == after && (after == "" || !IsWord(after[|after| - 1]))
    ensures p != "" && text == p + name + q && p[0] == text[0] && !IsWord(p[|p| - 1])
    ensures Substitute(p, map[name := replacement]) == p
  {
    p := [text[0]] + after;
    OtherThenRest(text[0], after, map[name := replacement]);
    assert text == [text[0]] + (after + name + q);
    AddHead([text[0]], after, name, q, text);
  }

  /** A run of another name stays as it is. */
  lemma BehindRun(text: string, after: string, name: string, q: string, replacement: string) returns (p: string)
    requires text != "" && IsWord(text[0]) && text[..RunLength(text)] != name && IsName(text[..RunLength(text)])
    requires text[RunLength(text)..] == after + name + q
    requires after != "" && !IsWord(after[0]) && !IsWord(after[|after| - 1])
    requires Substitute(after, map[name := replacement]) == after
    ensures p != "" && text == p + name + q && p[0] == text[0] && !IsWord(p[|p| - 1])
    ensures Substitute(p, map[name := replacement]) == p
  {
    var run := text[..RunLength(text)];
    p := run + after;
    RunThenRest(run, after, map[name := replacement]);
    assert text == run + (after + name + q);
    AddHead(run, after, name, q, text);
  }

  lemma AddHead(head: string, p: string, name: string, q: string, text: string)
    requires text == head + (p + name + q)
    ensures text == (head + p) + name + q
  {
  }

  lemma LastStays(text: string, subs: map<string, string>)
    requires text != "" && !IsWord(text[|text| - 1])
    ensures Substitute(text, subs) != "" && !IsWord(Substitute(text, subs)[|Substitute(text, subs)| - 1])
  {
    var front, last := text[..|text| - 1], [text[|text| - 1]];
    assert text == front + last && last[1..] == "";
    SubstituteSeam(front, last, subs);
  }

  predicate EndsOutside(p: string) {
    p == "" || !IsWord(p[|p| - 1])
  }

  predicate BeginsOutside(q: string) {
    q == "" || !IsWord(q[0])
  }

  /** `x` and `y` agree up to `p`; then `x` has a parenthesis and `y` the name. */
  ghost predicate Diverge(x: string, y: string, p: string, u: string, name: string, q: string) {
    && x == p + u && y == p + (name + q)
    && u != "" && !IsWord(u[0]) && IsName(name)
    && EndsOutside(p) && BeginsOutside(q)
  }

  lemma Diverging(x: string, y: string, p: string, u: string, name: string, q: string)
    requires Diverge(x, y, p, u, name, q)
    ensures x != y
  {
    assert x[|p|] == u[0] && y[|p|] == name[0];
  }

  /** What later substitutions do, whatever they replace, as long as it is not `name`. */
  ghost predicate Keeps(f: string -> string, name: string) {
    && f("") == "" && f(name) == name
    && (forall a, b :: IsSeam(a, b) ==> f(a + b) == f(a) + f(b))
    && (forall t :: t != "" && BeginsOutside(t) ==> f(t) != "" && BeginsOutside(f(t)))
    && (forall t :: EndsOutside(t) ==> EndsOutside(f(t)))
  }

  lemma SeamsKept(subs: map<string, string>)
    ensures forall a, b :: IsSeam(a, b) ==> Substitute(a + b, subs) == Substitute(a, subs) + Substitute(b, subs)
  {
    forall a, b | IsSeam(a, b) ensures Substitute(a + b, subs) == Substitute(a, subs) + Substitute(b, subs) {
      SubstituteSeam(a, b, subs);
    }
  }

  lemma EndsKept(subs: map<string, string>, t: string)
    ensures t != "" && BeginsOutside(t) ==> Substitute(t, subs) != "" && BeginsOutside(Substitute(t, subs))
    ensures EndsOutside(t) ==> EndsOutside(Substitute(t, subs))
  {
    if t != "" {
      if BeginsOutside(t) { HeadStays(t, subs); }
      if EndsOutside(t) { LastStays(t, subs); }
    }
  }

  lemma SubstitutionKeeps(subs: map<string, string>, name: string)
    requires IsName(name) && name !in subs
    ensures Keeps((t: string) => Substitute(t, subs), name)
  {
    OneRun(name, subs);
    SeamsKept(subs);
    forall t
      ensures t != "" && BeginsOutside(t) ==> Substitute(t, subs) != "" && BeginsOutside(Substitute(t, subs))
      ensures EndsOutside(t) ==> EndsOutside(Substitute(t, subs))
    {
      EndsKept(subs, t);
    }
  }

  lemma ImagesDiverge(f: string -> string, x: string, y: string, p: string, u: string, name: string, q: string)
    requires Diverge(x, y, p, u, name, q) && Keeps(f, name)
    ensures Diverge(f(x), f(y), f(p), f(u), name, f(q))
  {
    assert IsSeam(p, u) && IsSeam(p, name + q) && IsSeam(name, q);
    assert f(p + (name + q)) == f(p) + f(name + q);
    assert q == "" || f(q) != "";
  }

  lemma InTurnStep(text: string, subs: seq<(string, string)>)
    requires subs != []
    ensures InTurn(text, subs) == InTurn(Substitute(text, map[subs[0].0 := subs[0].1]), subs[1..])
  {
  }

  /** Later substitutions of other names keep the difference. */
  lemma {:induction false} StayDiverged(x: string, y: string, p: string, u: string, name: string, q: string,
                                        rest: seq<(string, string)>)
    requires Diverge(x, y, p, u, name, q) && forall s :: s in rest ==> s.0 != name
    ensures InTurn(x, rest) != InTurn(y, rest)
    decreases |rest|
  {
    if |rest| == 0 {
      Diverging(x, y, p, u, name, q);
    } else {
      var subs := map[rest[0].0 := rest[0].1];
      assert rest[0] in rest && name !in subs;
      SubstitutionKeeps(subs, name);
      ImagesDiverge((t: string) => Substitute(t, subs), x, y, p, u, name, q);
      InTurnStep(x, rest);
      InTurnStep(y, rest);
      StayDiverged(Substitute(x, subs), Substitute(y, subs), Substitute(p, subs), Substitute(u, subs),
                   name, Substitute(q, subs), rest[1..]);
    }
  }

  function Without(subs: seq<(string, string)>, a: string, b: string): seq<(string, string)> {
    if subs == [] then []
    else (if subs[0].0 == a || subs[0].0 == b then [] else [subs[0]]) + Without(subs[1..], a, b)
  }

  lemma {:induction false} WithoutIs(subs: seq<(string, string)>, a: string, b: string)
    requires DistinctNames(subs)
    ensures DistinctNames(Without(subs, a, b))
    ensures forall s :: s in Without(subs, a, b) <==> s in subs && s.0 != a && s.0 != b
  {
    if subs != [] {
      WithoutIs(subs[1..], a, b);
      var rest := Without(subs[1..], a, b);
      forall i | 0 <= i < |rest| ensures rest[i].0 != subs[0].0 {
        assert rest[i] in subs[1..];
      }
    }
  }

  lemma OneName(subs: seq<(string, string)>, s: (string, string), t: (string, string))
    requires DistinctNames(subs) && s in subs && t in subs && s.0 == t.0
    ensures s == t
  {
  }

  /** Two entries in front, in either order, are orders of all the entries. */
  lemma TwoInFront(subs: seq<(string, string)>, s: (string, string), t: (string, string))
    requires DistinctNames(subs) && s in subs && t in subs && s.0 != t.0
    ensures IsOrderOf([s, t] + Without(subs, s.0, t.0), subs)
  {
    var rest := Without(subs, s.0, t.0);
    var all := [s, t] + rest;
    WithoutIs(subs, s.0, t.0);
    forall i, j | 0 <= i < j < |all| ensures all[i].0 != all[j].0 {
      if j >= 2 {
        assert all[j] == rest[j - 2] && all[j] in rest;
        if i >= 2 {
          assert all[i] == rest[i - 2];
        }
      }
    }
    forall e ensures e in subs <==> e in all {
      assert e in all <==> e == s || e == t || e in rest;
      if e in subs && e.0 == s.0 { OneName(subs, e, s); }
      if e in subs && e.0 == t.0 { OneName(subs, e, t); }
    }
  }

  lemma InTurnTwice(text: string, a: (string, string), b: (string, string), rest: seq<(string, string)>)
    ensures InTurn(text, [a, b] + rest) == InTurn(Substitute(Substitute(text, map[a.0 := a.1]), map[b.0 := b.1]), rest)
  {
    var all := [a, b] + rest;
    assert all[1..] == [b] + rest && all[1..][1..] == rest;
    InTurnStep(text, all);
    InTurnStep(Substitute(text, map[a.0 := a.1]), all[1..]);
  }

  /** Substituting in a replacement that mentions the name. */
  lemma MentionDiverges(text: string, name: string, replacement: string) returns (p: string, u: string, q: string)
    requires IsName(name) && Mentions(text, name) && IsWrapped(replacement)
    ensures Diverge(Substitute(text, map[name := replacement]), text, p, u, name, q)
  {
    var subs := map[name := replacement];
    p, q := FirstMention(text, name, replacement);
    assert text == p + (name + q);
    SubstituteSeam(p, name + q, subs);
    SubstituteSeam(name, q, subs);
    OneRun(name, subs);
    u := replacement + Substitute(q, subs);
  }

  /** If `s` mentions the name of `t`, the text `s.0` shows which of the two came first. */
  lemma OrderShows(s: (string, string), t: (string, string), rest: seq<(string, string)>)
    requires IsName(s.0) && IsName(t.0) && IsWrapped(t.1) && s.0 != t.0 && Mentions(s.1, t.0)
    requires forall e :: e in rest ==> e.0 != t.0
    ensures InTurn(s.0, [s, t] + rest) != InTurn(s.0, [t, s] + rest)
  {
    OneRun(s.0, map[s.0 := s.1]);
    OneRun(s.0, map[t.0 := t.1]);
    InTurnTwice(s.0, s, t, rest);
    InTurnTwice(s.0, t, s, rest);
    var p, u, q := MentionDiverges(s.1, t.0, t.1);
    StayDiverged(Substitute(s.1, map[t.0 := t.1]), s.1, p, u, t.0, q, rest);
  }

  /** Dependent entries: some text comes out differently in some order. */
  lemma DependentShows(subs: seq<(string, string)>) returns (text: string, other: seq<(string, string)>)
    requires IsOrder(subs) && !Independent(subs)
    ensures IsOrderOf(other, subs) && InTurn(text, other) != InTurn(text, subs)
  {
    var s, t :| s in subs && t in subs && s.0 != t.0 && Mentions(s.1, t.0);
    var rest := Without(subs, s.0, t.0);
    WithoutIs(subs, s.0, t.0);
    SwapNames(subs, s.0, t.0);
    TwoInFront(subs, s, t);
    TwoInFront(subs, t, s);
    OrderShows(s, t, rest);
    text := s.0;
    other := if InTurn(text, [s, t] + rest) != InTurn(text, subs) then [s, t] + rest else [t, s] + rest;
  }

  /**
   Over all texts, all orders give the same result exactly when no replacement
   mentions the name of another entry.
   */
  lemma OrderIrrelevantExactlyWhen(subs: seq<(string, string)>)
    requires IsOrder(subs)
    ensures Independent(subs)
       <==> (forall text, other :: IsOrderOf(other, subs) ==> InTurn(text, other) == InTurn(text, subs))
  {
    if Independent(subs) {
      forall text, other | IsOrderOf(other, subs) ensures InTurn(text, other) == InTurn(text, subs) {
        AnyOrder(text, subs, other);
      }
    } else {
      var text, other := DependentShows(subs);
    }
  }

  lemma {:induction false} SwapNames(subs: seq<(string, string)>, a: string, b: string)
    ensures Without(subs, a, b) == Without(subs, b, a)
  {
    if subs != [] {
      SwapNames(subs[1..], a, b);
    }
  }

  /** A replacement that mentions another name makes the order matter. */
  lemma OrderCanMatter()
    ensures InTurn("a", [("a", "(b)"), ("b", "(c)")]) == "((c))"
    ensures InTurn("a", [("b", "(c)"), ("a", "(b)")]) == "(b)"
  {
    var ab, bc := ("a", "(b)"), ("b", "(c)");
    assert [ab, bc][1..] == [bc] && [bc, ab][1..] == [ab] && [ab][1..] == [] && [bc][1..] == [];
    OneRun("a", map["a" := "(b)"]);
    OneRun("a", map["b" := "(c)"]);
    OneRun("b", map["b" := "(c)"]);
    SubstituteSeam("(", "b" + ")", map["b" := "(c)"]);
    SubstituteSeam("b", ")", map["b" := "(c)"]);
    assert "(" + ("b" + ")") == "(b)";
    assert "(" + ("(c)" + ")") == "((c))";
  }
}
