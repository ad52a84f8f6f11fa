/**
 What the characters of a style key and of a class name decide: which keys open
 an at-rule, what `&` stands for, and that names differing in one byte hash
 differently.
 */
module StyleNames {
  import opened Replacing
  import opened StyleTree

  // ---- keys ----

  /** `@` and a name open an at-rule around the rules of the same selector. */
  lemma AtKeyWraps(selector: string, name: string, children: seq<Node>)
    ensures RulesOf(selector, Nested("@" + name, children))
         == if Build(selector, children) == [] then [] else [AtRule("@" + name, Build(selector, children))]
  {
  }

  /** A key that does not start with `@` opens none: its rules are those of the resolved selector. */
  lemma OtherKeyResolves(selector: string, key: string, children: seq<Node>)
    requires key == "" || key[0] != '@'
    ensures RulesOf(selector, Nested(key, children)) == Build(Replace(key, '&', selector), children)
  {
  }

  /** A key written with `&` between its pieces. */
  function Written(pieces: seq<string>): string {
    if pieces == [] then "" else if |pieces| == 1 then pieces[0] else pieces[0] + "&" + Written(pieces[1..])
  }

  function Resolved(pieces: seq<string>, selector: string): string {
    if pieces == [] then ""
    else if |pieces| == 1 then pieces[0]
    else pieces[0] + selector + Resolved(pieces[1..], selector)
  }

  lemma {:induction false} NothingReplaced(s: string, c: char, with: string)
    requires c !in s
    ensures Replace(s, c, with) == s
  {
    if s != "" {
      NothingReplaced(s[1..], c, with);
    }
  }

  /** Every `&` stands for the selector above, and nothing else changes. */
  lemma {:induction false} AmpersandsResolve(pieces: seq<string>, selector: string)
    requires forall i :: 0 <= i < |pieces| ==> '&' !in pieces[i]
    ensures Replace(Written(pieces), '&', selector) == Resolved(pieces, selector)
  {
    if |pieces| == 1 {
      NothingReplaced(pieces[0], '&', selector);
    } else if |pieces| > 1 {
      AmpersandsResolve(pieces[1..], selector);
      NothingReplaced(pieces[0], '&', selector);
      ReplaceOne('&', '&', selector);
      ReplaceAppend(pieces[0], "&", '&', selector);
      ReplaceAppend(pieces[0] + "&", Written(pieces[1..]), '&', selector);
    }
  }

  // ---- static blocks ----

  /** A property makes a block static exactly when its key is known and its value fits the key's first character. */
  lemma StaticExactlyWhen(prop: Prop)
    ensures AllStatic([prop])
       <==> prop.Property? && prop.key.NamedKey?
            && if "&" <= prop.key.name || "@" <= prop.key.name
               then prop.value.Object? && prop.value.props != [] && AllStatic(prop.value.props)
               else prop.value.Static?
  {
    assert [prop][1..] == [];
  }

  // ---- hashes ----

  /** The hash of nothing, and of one byte. */
  lemma ShortHashes(b: bv8)
    ensures Polynomial([]) == 5381 && Polynomial([b]) == 177573 + b as int
  {
    assert [b][..0] == [];
  }

  /** 33 has an inverse modulo 2^32. */
  lemma Divides(x: int)
    requires (33 * x) % Two32 == 0
    ensures x % Two32 == 0
  {
    var k := 33 * x / Two32;
    var q := 1041204193 * k - 8 * x;
    assert 33 * 1041204193 == 8 * Two32 + 1;
    assert x == q * Two32 by {
      assert 33 * x == k * Two32;
    }
  }

  lemma LastByte(a: seq<bv8>, c: bv8)
    ensures Polynomial(a + [c]) == 33 * Polynomial(a) + c as int
  {
    assert (a + [c])[..|a|] == a;
  }

  /** What differs modulo 2^32 still does one byte later. */
  lemma Carried(p: int, q: int, k: int, x: int, y: int)
    requires x == 33 * p + k && y == 33 * q + k && p % Two32 != q % Two32
    ensures x % Two32 != y % Two32
  {
    if Same(x, y) {
      Cancelled(p, q, k, x, y);
      SameRemainder(p, q);
    }
    Apart(x, y);
  }

  lemma Cancelled(p: int, q: int, k: int, x: int, y: int)
    requires x == 33 * p + k && y == 33 * q + k && Same(x, y)
    ensures Same(p, q)
  {
    assert x - y == 33 * (p - q);
    Divides(p - q);
  }

  lemma ByteGap(b: bv8, c: bv8)
    requires b as int == c as int
    ensures b == c
  {
    assert (b as int) as bv8 == b && (c as int) as bv8 == c;
  }

  lemma SmallGap(b: int, c: int)
    requires 0 <= b < 256 && 0 <= c < 256 && Same(b, c)
    ensures b == c
  {
  }

  /** Names that differ in one byte never have the same hash. */
  lemma {:induction false} OneByteMatters(before: seq<bv8>, b: bv8, c: bv8, rest: seq<bv8>)
    requires b != c
    ensures Polynomial(before + [b] + rest) % Two32 != Polynomial(before + [c] + rest) % Two32
    decreases |rest|
  {
    if rest == [] {
      assert before + [b] + rest == before + [b] && before + [c] + rest == before + [c];
      LastByte(before, b);
      LastByte(before, c);
      if b as int == c as int { ByteGap(b, c); }
      assert !Same(b as int, c as int) by {
        if Same(b as int, c as int) { SmallGap(b as int, c as int); }
      }
      NotSame(33 * Polynomial(before), b as int, c as int);
    } else {
      var init, last := rest[..|rest| - 1], rest[|rest| - 1];
      OneByteMatters(before, b, c, init);
      assert before + [b] + rest == before + [b] + init + [last];
      assert before + [c] + rest == before + [c] + init + [last];
      LastByte(before + [b] + init, last);
      LastByte(before + [c] + init, last);
      Carried(Polynomial(before + [b] + init), Polynomial(before + [c] + init), last as int,
              Polynomial(before + [b] + rest), Polynomial(before + [c] + rest));
    }
  }

  lemma NotSame(p: int, b: int, c: int)
    requires !Same(b, c)
    ensures (p + b) % Two32 != (p + c) % Two32
  {
    assert (p + b) - (p + c) == b - c;
    Apart(p + b, p + c);
  }

  lemma Apart(a: int, b: int)
    requires !Same(a, b)
    ensures a % Two32 != b % Two32
  {
  }
}
