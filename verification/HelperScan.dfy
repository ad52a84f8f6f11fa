/**
 Detecting calls of runtime helpers in compiled code
 (native/vertz-compiler-core/src/import_injection.rs): comments and string
 bodies are blanked out by a small scanner, then `name(` is searched for.
 */
module HelperScan {
  import opened JsxWhitespace
  import opened TextSearch

  predicate IsLetter(c: char) {
    'a' <= c <= 'z' || 'A' <= c <= 'Z'
  }

  predicate IsQuote(c: char) {
    c == '\'' || c == '"' || c == '`'
  }

  // ---- where the parts end ----

  function LineEnd(s: string, i: nat): (e: nat)
    requires i <= |s|
    ensures i <= e <= |s|
    decreases |s| - i
  {
    if i == |s| || s[i] == '\n' then i else LineEnd(s, i + 1)
  }

  /** Just past `*` `/`, or the last character when there is none. */
  function BlockEnd(s: string, i: nat): (e: nat)
    requires i <= |s|
    ensures i <= e <= |s|
    decreases |s| - i
  {
    if i + 1 >= |s| then i
    else if s[i] == '*' && s[i + 1] == '/' then i + 2
    else BlockEnd(s, i + 1)
  }

  /** The closing quote, or the end of the text. */
  function BodyEnd(s: string, i: nat, quote: char): (e: nat)
    requires i <= |s|
    ensures i <= e <= |s| && (e < |s| ==> s[e] == quote)
    decreases |s| - i
  {
    if i == |s| || s[i] == quote then i
    else if s[i] == '\\' && i + 1 < |s| then BodyEnd(s, i + 2, quote)
    else BodyEnd(s, i + 1, quote)
  }

  function FlagsEnd(s: string, i: nat): (e: nat)
    requires i <= |s|
    ensures i <= e <= |s|
    decreases |s| - i
  {
    if i == |s| || !IsLetter(s[i]) then i else FlagsEnd(s, i + 1)
  }

  function RegexEnd(s: string, i: nat, inClass: bool): (e: nat)
    requires i <= |s|
    ensures i <= e <= |s|
    decreases |s| - i
  {
    if i == |s| then i
    else if s[i] == '\\' && i + 1 < |s| then RegexEnd(s, i + 2, inClass)
    else if s[i] == '[' then RegexEnd(s, i + 1, true)
    else if s[i] == ']' && inClass then RegexEnd(s, i + 1, false)
    else if s[i] == '/' && !inClass then FlagsEnd(s, i + 1)
    else if s[i] == '\n' then i
    else RegexEnd(s, i + 1, inClass)
  }

  /** One past the last character before `i` that is not white space, or 0. */
  function LastInk(s: string, i: nat): (j: nat)
    requires i <= |s|
    ensures j <= i && (j > 0 ==> !IsWhite(s[j - 1]))
  {
    if i == 0 || !IsWhite(s[i - 1]) then i else LastInk(s, i - 1)
  }

  /** The start of the word that ends at `i`. */
  function WordStart(s: string, i: nat): (j: nat)
    requires i <= |s|
    ensures j <= i
  {
    if i == 0 || !IsWord(s[i - 1]) then i else WordStart(s, i - 1)
  }

  predicate IsOperandKeyword(token: string) {
    token in {"return", "typeof", "instanceof", "in", "of", "delete", "void", "new", "throw", "yield", "await", "case",
              "do", "else"}
  }

  predicate IsRegexStart(s: string, pos: nat)
    requires pos < |s|
  {
    && pos + 1 < |s| && s[pos + 1] != '/' && s[pos + 1] != '*'
    && var j := LastInk(s, pos);
       (j == 0
        || (if IsWord(s[j - 1]) then IsOperandKeyword(s[WordStart(s, j)..j])
            else s[j - 1] != ')' && s[j - 1] != ']' && s[j - 1] != '}'))
  }

  // ---- stripping ----

  function Mask(s: string): string {
    seq(|s|, k requires 0 <= k < |s| => if s[k] == '\n' then '\n' else ' ')
  }

  datatype Part = LineComment | BlockComment | Regex | Quoted | Plain

  /** What starts at `i`. */
  function PartAt(s: string, i: nat): Part
    requires i < |s|
  {
    if i + 1 < |s| && s[i] == '/' && s[i + 1] == '/' then LineComment
    else if i + 1 < |s| && s[i] == '/' && s[i + 1] == '*' then BlockComment
    else if s[i] == '/' && IsRegexStart(s, i) then Regex
    else if IsQuote(s[i]) then Quoted
    else Plain
  }

  function PartEnd(s: string, i: nat): (e: nat)
    requires i < |s|
    ensures i < e <= |s|
  {
    match PartAt(s, i)
    case LineComment => assert s[i] == '/'; LineEnd(s, i + 1)
    case BlockComment => BlockEnd(s, i + 2)
    case Regex => RegexEnd(s, i + 1, false)
    case Quoted => var e := BodyEnd(s, i + 1, s[i]); if e < |s| then e + 1 else e
    case Plain => i + 1
  }

  function PartText(s: string, i: nat): string
    requires i < |s|
  {
    match PartAt(s, i)
    case LineComment => ""
    case BlockComment => ""
    case Regex => s[i..PartEnd(s, i)]
    case Quoted =>
      var e := BodyEnd(s, i + 1, s[i]);
      [s[i]] + Mask(s[i + 1..e]) + if e < |s| then [s[e]] else ""
    case Plain => [s[i]]
  }

  function Strip(s: string, i: nat): string
    requires i <= |s|
    decreases |s| - i
  {
    if i == |s| then "" else PartText(s, i) + Strip(s, PartEnd(s, i))
  }

  // ---- the scanner as it runs ----

  method RegexStarts(chars: string, pos: nat) returns (yes: bool)
    requires pos < |chars|
    ensures yes == IsRegexStart(chars, pos)
  {
    if pos + 1 >= |chars| {
      return false;
    }
    var next := chars[pos + 1];
    if next == '/' || next == '*' {
      return false;
    }
    var j: nat := pos;
    while true
      invariant j <= pos && LastInk(chars, pos) == LastInk(chars, j)
      decreases j
    {
      if j == 0 {
        return true;
      }
      j := j - 1;
      if !IsWhite(chars[j]) {
        break;
      }
    }
    assert LastInk(chars, pos) == j + 1;
    var prev := chars[j];
    if IsWord(prev) {
      var start := j + 1;
      while start > 0 && IsWord(chars[start - 1])
        invariant start <= j + 1 && WordStart(chars, j + 1) == WordStart(chars, start)
      {
        start := start - 1;
      }
      return IsOperandKeyword(chars[start..j + 1]);
    }
    return prev != ')' && prev != ']' && prev != '}';
  }

  method SkipRegexLiteral(chars: string, start: nat) returns (end: nat)
    requires start < |chars|
    ensures end == RegexEnd(chars, start + 1, false)
  {
    var i := start + 1;
    var inClass := false;
    while i < |chars|
      invariant i <= |chars| && RegexEnd(chars, i, inClass) == RegexEnd(chars, start + 1, false)
    {
      var c := chars[i];
      if c == '\\' && i + 1 < |chars| {
        i := i + 2;
      } else if c == '[' {
        inClass := true;
        i := i + 1;
      } else if c == ']' && inClass {
        inClass := false;
        i := i + 1;
      } else if c == '/' && !inClass {
        i := i + 1;
        while i < |chars| && IsLetter(chars[i])
          invariant i <= |chars| && FlagsEnd(chars, i) == RegexEnd(chars, start + 1, false)
        {
          i := i + 1;
        }
        return i;
      } else if c == '\n' {
        return i;
      } else {
        i := i + 1;
      }
    }
    return i;
  }

  lemma MaskLast(s: string, from: nat, k: nat)
    requires from <= k < |s|
    ensures Mask(s[from..k + 1]) == Mask(s[from..k]) + [if s[k] == '\n' then '\n' else ' ']
  {
  }

  lemma MaskNext(quote: char, s: string, from: nat, k: nat)
    requires from <= k < |s|
    ensures ([quote] + Mask(s[from..k])) + [if s[k] == '\n' then '\n' else ' '] == [quote] + Mask(s[from..k + 1])
  {
    MaskLast(s, from, k);
  }

  lemma Appended(result: string, text: string, rest: string)
    ensures result + (text + rest) == (result + text) + rest
  {
  }

  method SkipComment(chars: string, start: nat) returns (end: nat)
    requires start < |chars| && (PartAt(chars, start).LineComment? || PartAt(chars, start).BlockComment?)
    ensures end == PartEnd(chars, start)
  {
    if chars[start + 1] == '/' {
      end := start + 1;
      while end < |chars| && chars[end] != '\n'
        invariant start + 1 <= end <= |chars| && LineEnd(chars, end) == LineEnd(chars, start + 1)
      {
        end := end + 1;
      }
    } else {
      end := start + 2;
      while end + 1 < |chars| && !(chars[end] == '*' && chars[end + 1] == '/')
        invariant start + 2 <= end <= |chars| && BlockEnd(chars, end) == BlockEnd(chars, start + 2)
      {
        end := end + 1;
      }
      if end + 1 < |chars| {
        end := end + 2;
      }
    }
  }

  method BlankString(chars: string, start: nat) returns (text: string, end: nat)
    requires start < |chars| && PartAt(chars, start).Quoted?
    ensures text == PartText(chars, start) && end == PartEnd(chars, start)
  {
    var quote := chars[start];
    text := [quote];
    end := start + 1;
    while end < |chars| && chars[end] != quote
      invariant start + 1 <= end <= |chars| && BodyEnd(chars, end, quote) == BodyEnd(chars, start + 1, quote)
      invariant text == [quote] + Mask(chars[start + 1..end])
    {
      if chars[end] == '\\' && end + 1 < |chars| {
        MaskNext(quote, chars, start + 1, end);
        text := text + [' '];
        end := end + 1;
      }
      MaskNext(quote, chars, start + 1, end);
      text := text + [if chars[end] == '\n' then '\n' else ' '];
      end := end + 1;
    }
    if end < |chars| {
      text := text + [chars[end]];
      end := end + 1;
    } else {
      assert text + "" == text;
    }
  }

  /** `strip_comments`. */
  method StripComments(code: string) returns (result: string)
    ensures result == Strip(code, 0)
  {
    result := "";
    var i: nat := 0;
    while i < |code|
      invariant i <= |code| && result + Strip(code, i) == Strip(code, 0)
      decreases |code| - i
    {
      Appended(result, PartText(code, i), Strip(code, PartEnd(code, i)));
      if i + 1 < |code| && code[i] == '/' {
        if code[i + 1] == '/' || code[i + 1] == '*' {
          assert result + "" == result;
          i := SkipComment(code, i);
          continue;
        }
        var regex := RegexStarts(code, i);
        if regex {
          var end := SkipRegexLiteral(code, i);
          result := result + code[i..end];
          i := end;
          continue;
        }
      }
      if IsQuote(code[i]) {
        var text, end := BlankString(code, i);
        result := result + text;
        i := end;
        continue;
      }
      result := result + [code[i]];
      i := i + 1;
    }
  }

  // ---- bodies of strings do not matter ----

  /**
   From `i` on, `b` is scanned into the same parts as `a` and differs from it
   only inside quoted bodies, where it has its line breaks in the same places.
   */
  predicate SameButBodies(a: string, b: string, i: nat)
    requires i <= |a|
    decreases |a| - i
  {
    && |b| == |a|
    && (i < |a| ==>
        && a[i] == b[i]
        && (if PartAt(a, i).Quoted? then
              var e := BodyEnd(a, i + 1, a[i]);
              && BodyEnd(b, i + 1, a[i]) == e
              && (forall k :: i < k < e ==> (a[k] == '\n' <==> b[k] == '\n'))
            else a[i..PartEnd(a, i)] == b[i..PartEnd(a, i)])
        && SameButBodies(a, b, PartEnd(a, i)))
  }

  /** The two texts look the same to a `/` at `i`. */
  ghost predicate SameBefore(a: string, b: string, i: nat)
    requires i <= |a| == |b|
  {
    var j := LastInk(a, i);
    && LastInk(b, i) == j && (j > 0 ==> a[j - 1] == b[j - 1])
    && SameWord(a, b, j) && SameWord(a, b, i)
  }

  /** The same word ends at `i`. */
  predicate SameWord(a: string, b: string, i: nat)
    requires i <= |a| == |b|
  {
    WordStart(b, i) == WordStart(a, i) && a[WordStart(a, i)..i] == b[WordStart(a, i)..i]
  }

  lemma BeforeStep(a: string, b: string, i: nat)
    requires i < |a| == |b| && a[i] == b[i] && SameBefore(a, b, i)
    ensures SameBefore(a, b, i + 1)
  {
    if IsWord(a[i]) {
      var w := WordStart(a, i);
      assert a[w..i + 1] == a[w..i] + [a[i]];
      assert b[w..i + 1] == b[w..i] + [b[i]];
    }
  }

  lemma {:induction false} BeforeRange(a: string, b: string, i: nat, e: nat)
    requires i <= e <= |a| == |b| && a[i..e] == b[i..e] && SameBefore(a, b, i)
    ensures SameBefore(a, b, e)
    decreases e - i
  {
    if i < e {
      assert a[i] == a[i..e][0] == b[i..e][0] == b[i];
      assert a[i + 1..e] == a[i..e][1..] == b[i..e][1..] == b[i + 1..e];
      BeforeStep(a, b, i);
      BeforeRange(a, b, i + 1, e);
    }
  }

  /** After a quote nothing earlier matters. */
  lemma BeforeQuote(a: string, b: string, e: nat)
    requires e < |a| == |b| && a[e] == b[e] && IsQuote(a[e])
    ensures SameBefore(a, b, e + 1)
  {
  }

  /** Equal characters up to and including `e` end a part at the same place. */
  lemma {:induction false} SameLineEnd(a: string, b: string, i: nat)
    requires i <= |a| == |b|
    requires var e := LineEnd(a, i); a[i..e] == b[i..e] && (e < |a| ==> a[e] == b[e])
    ensures LineEnd(b, i) == LineEnd(a, i)
    decreases |a| - i
  {
    var e := LineEnd(a, i);
    if i < e {
      assert a[i] == a[i..e][0] == b[i..e][0] == b[i];
      assert a[i + 1..e] == a[i..e][1..] == b[i..e][1..] == b[i + 1..e];
      SameLineEnd(a, b, i + 1);
    }
  }

  lemma {:induction false} SameBlockEnd(a: string, b: string, i: nat)
    requires i <= |a| == |b|
    requires var e := BlockEnd(a, i); a[i..e] == b[i..e] && (e < |a| ==> a[e] == b[e])
    ensures BlockEnd(b, i) == BlockEnd(a, i)
    decreases |a| - i
  {
    var e := BlockEnd(a, i);
    if i + 1 < |a| {
      assert i < e;
      assert a[i] == a[i..e][0] == b[i..e][0] == b[i];
      if i + 1 < e {
        assert a[i + 1] == a[i..e][1] == b[i..e][1] == b[i + 1];
      }
      if !(a[i] == '*' && a[i + 1] == '/') {
        assert a[i + 1..e] == a[i..e][1..] == b[i..e][1..] == b[i + 1..e];
        SameBlockEnd(a, b, i + 1);
      }
    }
  }

  lemma {:induction false} SameFlagsEnd(a: string, b: string, i: nat)
    requires i <= |a| == |b|
    requires var e := FlagsEnd(a, i); a[i..e] == b[i..e] && (e < |a| ==> a[e] == b[e])
    ensures FlagsEnd(b, i) == FlagsEnd(a, i)
    decreases |a| - i
  {
    var e := FlagsEnd(a, i);
    if i < e {
      assert a[i] == a[i..e][0] == b[i..e][0] == b[i];
      assert a[i + 1..e] == a[i..e][1..] == b[i..e][1..] == b[i + 1..e];
      SameFlagsEnd(a, b, i + 1);
    }
  }

  lemma {:induction false} SameRegexEnd(a: string, b: string, i: nat, inClass: bool)
    requires i <= |a| == |b|
    requires var e := RegexEnd(a, i, inClass); a[i..e] == b[i..e] && (e < |a| ==> a[e] == b[e])
    ensures RegexEnd(b, i, inClass) == RegexEnd(a, i, inClass)
    decreases |a| - i
  {
    var e := RegexEnd(a, i, inClass);
    if i < e {
      assert a[i] == a[i..e][0] == b[i..e][0] == b[i];
      assert a[i + 1..e] == a[i..e][1..] == b[i..e][1..] == b[i + 1..e];
      if a[i] == '\\' && i + 1 < |a| {
        assert a[i + 2..e] == a[i..e][2..] == b[i..e][2..] == b[i + 2..e];
        SameRegexEnd(a, b, i + 2, inClass);
      } else if a[i] == '[' {
        SameRegexEnd(a, b, i + 1, true);
      } else if a[i] == ']' && inClass {
        SameRegexEnd(a, b, i + 1, false);
      } else if a[i] == '/' && !inClass {
        SameFlagsEnd(a, b, i + 1);
      } else if a[i] != '\n' {
        SameRegexEnd(a, b, i + 1, inClass);
      }
    }
  }

  /** The second characters agree where it matters. */
  lemma SecondChar(a: string, b: string, i: nat)
    requires i + 1 < |a| && SameButBodies(a, b, i) && !PartAt(a, i).Quoted?
    ensures a[i + 1] == b[i + 1]
  {
    var e := PartEnd(a, i);
    if e > i + 1 {
      assert a[i + 1] == a[i..e][1] == b[i..e][1] == b[i + 1];
    }
  }

  lemma SameRegexStart(a: string, b: string, i: nat)
    requires i < |a| == |b| && SameBefore(a, b, i) && (i + 1 < |a| ==> a[i + 1] == b[i + 1])
    ensures IsRegexStart(a, i) == IsRegexStart(b, i)
  {
  }

  lemma SameQuoted(a: string, b: string, i: nat)
    requires i < |a| && SameButBodies(a, b, i) && PartAt(a, i).Quoted?
    ensures PartAt(b, i).Quoted? && PartEnd(b, i) == PartEnd(a, i) && PartText(b, i) == PartText(a, i)
  {
    var close := BodyEnd(a, i + 1, a[i]);
    assert Mask(a[i + 1..close]) == Mask(b[i + 1..close]);
  }

  lemma Shifted(a: string, b: string, i: nat, e: nat)
    requires i < e <= |a| == |b| && a[i..e] == b[i..e]
    ensures a[i] == b[i] && a[i + 1..e] == b[i + 1..e]
    ensures i + 2 <= e ==> a[i + 2..e] == b[i + 2..e]
  {
    assert a[i + 1..e] == a[i..e][1..] && b[i + 1..e] == b[i..e][1..];
    if i + 2 <= e {
      assert a[i + 2..e] == a[i..e][2..] && b[i + 2..e] == b[i..e][2..];
    }
  }

  lemma SameKind(a: string, b: string, i: nat)
    requires i < |a| && SameButBodies(a, b, i) && SameBefore(a, b, i) && !PartAt(a, i).Quoted?
    ensures PartAt(b, i) == PartAt(a, i)
  {
    if i + 1 < |a| {
      SecondChar(a, b, i);
    }
    SameRegexStart(a, b, i);
  }

  lemma SameEnd(a: string, b: string, i: nat)
    requires i < |a| == |b| && PartAt(b, i) == PartAt(a, i) && !PartAt(a, i).Quoted?
    requires var e := PartEnd(a, i); a[i..e] == b[i..e] && (e < |a| ==> a[e] == b[e])
    ensures PartEnd(b, i) == PartEnd(a, i)
  {
    Shifted(a, b, i, PartEnd(a, i));
    match PartAt(a, i) {
      case LineComment => SameLineEnd(a, b, i + 1);
      case BlockComment => SameBlockEnd(a, b, i + 2);
      case Regex => SameRegexEnd(a, b, i + 1, false);
      case Plain =>
    }
  }

  /** The same part starts and ends at `i`, and leaves the same text. */
  lemma SamePart(a: string, b: string, i: nat)
    requires i < |a| && SameButBodies(a, b, i) && SameBefore(a, b, i)
    ensures PartAt(b, i) == PartAt(a, i) && PartEnd(b, i) == PartEnd(a, i) && PartText(b, i) == PartText(a, i)
  {
    if PartAt(a, i).Quoted? {
      SameQuoted(a, b, i);
    } else {
      SameKind(a, b, i);
      SameEnd(a, b, i);
    }
  }

  lemma BeforeNext(a: string, b: string, i: nat)
    requires i < |a| && SameButBodies(a, b, i) && SameBefore(a, b, i) && PartEnd(a, i) < |a|
    ensures SameBefore(a, b, PartEnd(a, i))
  {
    var e := PartEnd(a, i);
    if PartAt(a, i).Quoted? {
      var close := BodyEnd(a, i + 1, a[i]);
      assert BodyEnd(b, i + 1, a[i]) == close;
      BeforeQuote(a, b, close);
    } else {
      BeforeRange(a, b, i, e);
    }
  }

  /** Sources that differ only inside strings and templates strip to the same text. */
  lemma {:induction false} StripIgnoresBodies(a: string, b: string, i: nat)
    requires i <= |a| && SameButBodies(a, b, i) && SameBefore(a, b, i)
    ensures Strip(a, i) == Strip(b, i)
    decreases |a| - i
  {
    if i < |a| {
      var e := PartEnd(a, i);
      SamePart(a, b, i);
      if e < |a| {
        BeforeNext(a, b, i);
        StripIgnoresBodies(a, b, e);
      }
    }
  }

  // ---- finding a call ----

  /** Opening minus closing parentheses in `[from, to)`. */
  function Net(code: string, lo: nat, hi: nat): (n: int)
    requires lo <= hi <= |code|
    decreases hi
  {
    if lo == hi then 0
    else
      var last := code[hi - 1];
      var step: int := if last == '(' then 1 else if last == ')' then -1 else 0;
      Net(code, lo, hi - 1) + step
  }

  /** `close` matches the parenthesis before `from`. */
  ghost predicate Matches(code: string, from: nat, close: nat) {
    && from <= close < |code| && Net(code, from, close + 1) == -1
    && forall d :: from <= d <= close ==> Net(code, from, d) >= 0
  }

  function SkipSpace(code: string, i: nat): (e: nat)
    requires i <= |code|
    ensures i <= e <= |code|
    decreases |code| - i
  {
    if i < |code| && code[i] in {' ', '\t', '\n', '\r'} then SkipSpace(code, i + 1) else i
  }

  predicate BraceFollows(code: string, i: nat) {
    i <= |code| && var e := SkipSpace(code, i); e < |code| && code[e] == '{'
  }

  /** The parenthesis before `from` is closed, and a brace follows. */
  ghost predicate IsShorthandMethod(code: string, from: nat) {
    exists close: nat :: Matches(code, from, close) && BraceFollows(code, close + 1)
  }

  lemma OneMatch(code: string, from: nat, c: nat, d: nat)
    requires Matches(code, from, c) && Matches(code, from, d)
    ensures c == d
  {
    assert c < d ==> !(from <= c + 1 <= d);
    assert d < c ==> !(from <= d + 1 <= c);
  }

  method ShorthandMethod(code: string, open: nat) returns (yes: bool)
    requires open < |code|
    ensures yes == IsShorthandMethod(code, open + 1)
  {
    var depth := 1;
    var i := open + 1;
    ghost var from := open + 1;
    while i < |code| && depth > 0
      invariant from <= i <= |code| && depth == 1 + Net(code, from, i) && depth >= 0
      invariant forall d :: from <= d < i ==> Net(code, from, d) >= 0
      invariant depth > 0 ==> Net(code, from, i) >= 0
      invariant depth == 0 ==> i > from
    {
      if code[i] == '(' {
        depth := depth + 1;
      } else if code[i] == ')' {
        depth := depth - 1;
      }
      i := i + 1;
    }
    if depth != 0 {
      assert forall close :: !Matches(code, from, close);
      return false;
    }
    ghost var close: nat := i - 1;
    assert Matches(code, from, close);
    while i < |code| && (code[i] == ' ' || code[i] == '\t' || code[i] == '\n' || code[i] == '\r')
      invariant i <= |code| && SkipSpace(code, i) == SkipSpace(code, close + 1)
    {
      i := i + 1;
    }
    yes := i < |code| && code[i] == '{';
    forall other | Matches(code, from, other) ensures other == close {
      OneMatch(code, from, other, close);
    }
  }

  predicate EndsWith(s: string, t: string) {
    |t| <= |s| && s[|s| - |t|..] == t
  }

  predicate IsGeneratorStar(before: string) {
    && before != "" && before[|before| - 1] == '*'
    && var rest := TrimEnd(before[..|before| - 1]);
       (rest == "" || !(IsWord(rest[|rest| - 1]) || rest[|rest| - 1] == ')' || rest[|rest| - 1] == ']'))
  }

  predicate EndsInKeyword(before: string, keyword: string) {
    && EndsWith(before, keyword)
    && var k := |before| - |keyword|; (k == 0 || !IsWord(before[k - 1]))
  }

  predicate IsMethodDefinition(code: string, p: nat)
    requires p <= |code|
  {
    var before := TrimEnd(code[..p]);
    before != ""
    && (IsGeneratorStar(before) || EndsInKeyword(before, "async") || EndsInKeyword(before, "get")
        || EndsInKeyword(before, "set") || EndsInKeyword(before, "static"))
  }

  /** An occurrence of `name(` at `p` is a call of the name itself. */
  ghost predicate IsStandalone(code: string, p: nat, name: string) {
    && OccursAt(code, p, name + "(")
    && (p > 0 ==> !IsWord(code[p - 1]) && code[p - 1] != '.')
    && !IsShorthandMethod(code, p + |name| + 1) && !IsMethodDefinition(code, p)
  }

  /** Occurrences of a pattern with its only parenthesis at the end cannot overlap. */
  lemma NoOverlap(code: string, p: nat, q: nat, name: string)
    requires '(' !in name && OccursAt(code, p, name + "(") && OccursAt(code, q, name + "(") && p < q
    ensures p + |name| + 1 <= q
  {
    var pattern := name + "(";
    assert code[p + |name|] == code[p..p + |pattern|][|name|] == '(';
    forall k | q <= k < q + |name| ensures code[k] != '(' {
      assert code[k] == code[q..q + |pattern|][k - q] == name[k - q];
    }
  }

  /** The search that jumps past rejected occurrences misses none. */
  method ContainsStandaloneCall(code: string, name: string) returns (found: bool)
    requires '(' !in name
    ensures found <==> exists p :: IsStandalone(code, p, name)
  {
    var pattern := name + "(";
    var from: nat := 0;
    while true
      invariant from <= |code| && forall q :: 0 <= q < from ==> !IsStandalone(code, q, name)
      decreases |code| - from
    {
      var pos := Find(code, from, pattern);
      if pos == -1 {
        return false;
      }
      var p: nat := pos;
      forall q | p < q < p + |pattern| ensures !OccursAt(code, q, pattern) {
        if OccursAt(code, q, pattern) {
          NoOverlap(code, p, q, name);
        }
      }
      if p > 0 && (IsWord(code[p - 1]) || code[p - 1] == '.') {
        from := p + |pattern|;
        continue;
      }
      var shorthand := ShorthandMethod(code, p + |name|);
      if shorthand || IsMethodDefinition(code, p) {
        from := p + |pattern|;
        continue;
      }
      assert IsStandalone(code, p, name);
      return true;
    }
  }

  /** So detection ignores string bodies. */
  lemma DetectionIgnoresBodies(a: string, b: string, name: string)
    requires SameButBodies(a, b, 0)
    ensures (exists p :: IsStandalone(Strip(a, 0), p, name)) <==> (exists p :: IsStandalone(Strip(b, 0), p, name))
  {
    StripIgnoresBodies(a, b, 0);
  }
}
