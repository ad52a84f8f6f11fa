/**
 Where the scanner's parts end, said of source texts as they are written: a
 string with its escapes, a comment, a regular expression behind whatever comes
 before it; and which calls count, by what stands around them.
 */
module HelperParts {
  import opened JsxWhitespace
  import opened TextSearch
  import opened HelperScan

  // ---- characters ----

  /** The characters of identifiers. */
  lemma WordCharacters(c: char)
    ensures var n := c as int;
      IsWord(c) <==> n == 36 || 48 <= n <= 57 || 65 <= n <= 90 || n == 95 || 97 <= n <= 122
  {
  }

  /** White space as Unicode lists it. */
  lemma WhiteCharacters(c: char)
    ensures IsWhite(c)
       <==> c as int in {9, 10, 11, 12, 13, 32, 133, 160, 5760, 8192, 8193, 8194, 8195, 8196, 8197, 8198, 8199, 8200,
                         8201, 8202, 8232, 8233, 8239, 8287, 12288}
  {
  }

  // ---- strings ----

  /** Every quote and every backslash is behind a backslash. */
  predicate IsEscaped(body: string, quote: char) {
    if body == "" then true
    else if body[0] == '\\' then |body| >= 2 && IsEscaped(body[2..], quote)
    else body[0] != quote && IsEscaped(body[1..], quote)
  }

  /** A text as it is written between quotes. */
  function Escape(text: string, quote: char): string {
    if text == "" then ""
    else (if text[0] == quote || text[0] == '\\' then ['\\', text[0]] else [text[0]]) + Escape(text[1..], quote)
  }

  lemma {:induction false} EscapeIsEscaped(text: string, quote: char)
    ensures IsEscaped(Escape(text, quote), quote)
  {
    if text != "" {
      EscapeIsEscaped(text[1..], quote);
      var first := if text[0] == quote || text[0] == '\\' then ['\\', text[0]] else [text[0]];
      assert Escape(text, quote)[|first|..] == Escape(text[1..], quote);
    }
  }

  lemma {:induction false} BodyRead(code: string, i: nat, e: nat, quote: char)
    requires quote != '\\' && i <= e <= |code| && IsEscaped(code[i..e], quote) && (e < |code| ==> code[e] == quote)
    ensures BodyEnd(code, i, quote) == e
    decreases e - i
  {
    if i < e {
      var body := code[i..e];
      if code[i] == '\\' {
        assert body[2..] == code[i + 2..e];
        BodyRead(code, i + 2, e, quote);
      } else {
        assert body[1..] == code[i + 1..e];
        BodyRead(code, i + 1, e, quote);
      }
    }
  }

  /**
   A string ends at the first quote that no backslash escapes, whatever follows:
   what starts at the opening quote is the whole string, and all of its body but
   the line breaks is blanked.
   */
  lemma StringEnds(code: string, before: string, quote: char, body: string, rest: string)
    requires IsQuote(quote) && IsEscaped(body, quote) && code == before + [quote] + body + [quote] + rest
    ensures PartEnd(code, |before|) == |before| + 1 + |body| + 1
    ensures PartText(code, |before|) == [quote] + Mask(body) + [quote]
  {
    var i, e := |before| + 1, |before| + 1 + |body|;
    assert code[|before|] == quote && code[e] == quote && code[i..e] == body;
    BodyRead(code, i, e, quote);
  }

  /** So does any text, once escaped. */
  lemma EscapedTextEnds(before: string, quote: char, text: string, rest: string)
    requires IsQuote(quote)
    ensures var body := Escape(text, quote);
      PartEnd(before + [quote] + body + [quote] + rest, |before|) == |before| + 1 + |body| + 1
  {
    EscapeIsEscaped(text, quote);
    var body := Escape(text, quote);
    StringEnds(before + [quote] + body + [quote] + rest, before, quote, body, rest);
  }

  /** Without a closing quote the rest of the file is its body. */
  lemma OpenStringEnds(before: string, quote: char, body: string)
    requires IsQuote(quote) && IsEscaped(body, quote)
    ensures var code := before + [quote] + body;
      PartEnd(code, |before|) == |code| && PartText(code, |before|) == [quote] + Mask(body)
  {
    var code := before + [quote] + body;
    assert code[|before|] == quote && code[|before| + 1..|code|] == body;
    BodyRead(code, |before| + 1, |code|, quote);
  }

  /** Blanking keeps length and line breaks and leaves no other character. */
  lemma BlankedBody(body: string)
    ensures |Mask(body)| == |body|
    ensures forall k :: 0 <= k < |body| ==> Mask(body)[k] == if body[k] == '\n' then '\n' else ' '
  {
  }

  // ---- comments ----

  predicate LacksPair(text: string) {
    forall k :: 0 <= k < |text| - 1 ==> !(text[k] == '*' && text[k + 1] == '/')
  }

  lemma {:induction false} LineRead(code: string, i: nat, e: nat)
    requires i <= e <= |code| && '\n' !in code[i..e] && (e < |code| ==> code[e] == '\n')
    ensures LineEnd(code, i) == e
    decreases e - i
  {
    if i < e {
      assert code[i] == code[i..e][0] && code[i + 1..e] == code[i..e][1..];
      LineRead(code, i + 1, e);
    }
  }

  /** A line comment ends before the line break and leaves nothing. */
  lemma LineCommentEnds(before: string, text: string, rest: string)
    requires '\n' !in text && (rest != "" ==> rest[0] == '\n')
    ensures var code := before + "//" + text + rest;
      PartEnd(code, |before|) == |before| + 2 + |text| && PartText(code, |before|) == ""
  {
    var code := before + "//" + text + rest;
    var i, e := |before| + 1, |before| + 2 + |text|;
    assert code[|before|] == '/' && code[i] == '/' && code[i..e] == "/" + text;
    assert rest != "" ==> code[e] == rest[0];
    LineRead(code, i, e);
  }

  lemma {:induction false} BlockRead(code: string, i: nat, e: nat)
    requires i <= e && e + 1 < |code| && code[e] == '*' && code[e + 1] == '/'
    requires forall k :: i <= k < e ==> !(code[k] == '*' && code[k + 1] == '/')
    ensures BlockEnd(code, i) == e + 2
    decreases e - i
  {
    if i < e {
      BlockRead(code, i + 1, e);
    }
  }

  /** A block comment ends with the first `*` `/` and leaves nothing. */
  lemma BlockCommentEnds(before: string, text: string, rest: string)
    requires LacksPair(text + "*")
    ensures var code := before + "/*" + text + "*/" + rest;
      PartEnd(code, |before|) == |before| + 2 + |text| + 2 && PartText(code, |before|) == ""
  {
    var code := before + "/*" + text + "*/" + rest;
    var i, e := |before| + 2, |before| + 2 + |text|;
    assert code[|before|] == '/' && code[|before| + 1] == '*' && code[e] == '*' && code[e + 1] == '/';
    assert code[i..e + 1] == text + "*";
    forall k | i <= k < e ensures !(code[k] == '*' && code[k + 1] == '/') {
      assert code[k] == (text + "*")[k - i] && code[k + 1] == (text + "*")[k + 1 - i];
    }
    BlockRead(code, i, e);
  }

  // ---- regular expressions ----

  /** Every slash outside a character class is behind a backslash, no line ends, and no class is left open. */
  predicate IsRegexBody(body: string, inClass: bool) {
    if body == "" then !inClass
    else if body[0] == '\\' then |body| >= 2 && IsRegexBody(body[2..], inClass)
    else if body[0] == '[' then IsRegexBody(body[1..], true)
    else if body[0] == ']' && inClass then IsRegexBody(body[1..], false)
    else body[0] != '\n' && (body[0] == '/' ==> inClass) && IsRegexBody(body[1..], inClass)
  }

  predicate AreLetters(text: string) {
    forall k :: 0 <= k < |text| ==> 'a' <= text[k] <= 'z' || 'A' <= text[k] <= 'Z'
  }

  lemma {:induction false} FlagsRead(code: string, i: nat, e: nat)
    requires i <= e <= |code| && AreLetters(code[i..e]) && (e < |code| ==> !AreLetters([code[e]]))
    ensures FlagsEnd(code, i) == e
    decreases e - i
  {
    if i < e {
      assert code[i] == code[i..e][0] && code[i + 1..e] == code[i..e][1..];
      FlagsRead(code, i + 1, e);
    } else if e < |code| {
      assert !AreLetters([code[e]]);
    }
  }

  lemma {:induction false} RegexRead(code: string, i: nat, e: nat, inClass: bool)
    requires i <= e < |code| && IsRegexBody(code[i..e], inClass) && code[e] == '/'
    ensures RegexEnd(code, i, inClass) == FlagsEnd(code, e + 1)
    decreases e - i
  {
    if i < e {
      var body := code[i..e];
      assert code[i] == body[0] && body[1..] == code[i + 1..e];
      if code[i] == '\\' {
        assert body[2..] == code[i + 2..e];
        RegexRead(code, i + 2, e, inClass);
      } else {
        RegexRead(code, i + 1, e, code[i] == '[' || (inClass && code[i] != ']'));
      }
    }
  }

  /** A regular expression ends behind its flags and is copied as it stands. */
  lemma RegexEnds(code: string, before: string, body: string, flags: string, rest: string)
    requires code == before + "/" + body + "/" + flags + rest && IsRegexStart(code, |before|)
    requires body != "" && body[0] != '*' && IsRegexBody(body, false) && AreLetters(flags)
    requires rest != "" ==> !AreLetters([rest[0]])
    ensures PartEnd(code, |before|) == |before| + 1 + |body| + 1 + |flags|
    ensures PartText(code, |before|) == "/" + body + "/" + flags
  {
    RegexPlaces(code, before, body, flags, rest);
    RegexFrom(code, |before|, |before| + 1 + |body|, |flags|);
  }

  lemma RegexFrom(code: string, i: nat, e: nat, n: nat)
    requires i + 1 < e && e + 1 + n <= |code| && code[i] == '/' && code[e] == '/' && IsRegexStart(code, i)
    requires code[i + 1] != '*' && IsRegexBody(code[i + 1..e], false)
    requires AreLetters(code[e + 1..e + 1 + n]) && (e + 1 + n < |code| ==> !AreLetters([code[e + 1 + n]]))
    ensures PartEnd(code, i) == e + 1 + n && PartText(code, i) == code[i..e + 1 + n]
  {
    RegexEndsAt(code, i + 1, e, n);
    RegexPart(code, i, e + 1 + n);
  }

  lemma RegexEndsAt(code: string, i: nat, e: nat, n: nat)
    requires i <= e && e + 1 + n <= |code| && IsRegexBody(code[i..e], false) && code[e] == '/'
    requires AreLetters(code[e + 1..e + 1 + n]) && (e + 1 + n < |code| ==> !AreLetters([code[e + 1 + n]]))
    ensures RegexEnd(code, i, false) == e + 1 + n
  {
    RegexRead(code, i, e, false);
    FlagsRead(code, e + 1, e + 1 + n);
  }

  lemma RegexPart(code: string, i: nat, e: nat)
    requires i + 1 < |code| && code[i] == '/' && code[i + 1] != '/' && code[i + 1] != '*' && IsRegexStart(code, i)
    requires RegexEnd(code, i + 1, false) == e
    ensures PartEnd(code, i) == e && PartText(code, i) == code[i..e]
  {
  }

  lemma RegexPlaces(code: string, before: string, body: string, flags: string, rest: string)
    requires code == before + "/" + body + "/" + flags + rest && body != ""
    ensures var i, e := |before| + 1, |before| + 1 + |body|;
      && code[|before|] == '/' && code[i] == body[0] && code[i..e] == body && code[e] == '/'
      && code[e + 1..e + 1 + |flags|] == flags && (rest != "" ==> code[e + 1 + |flags|] == rest[0])
      && code[|before|..e + 1 + |flags|] == "/" + body + "/" + flags
  {
    var i, e := |before| + 1, |before| + 1 + |body|;
    assert code == before + ("/" + body + "/" + flags) + rest;
    assert code == (before + "/") + body + ("/" + flags + rest);
    assert code == (before + "/" + body + "/") + flags + rest;
  }

  lemma {:induction false} InkRead(code: string, i: nat, j: nat)
    requires j <= i <= |code| && AllWhite(code[j..i]) && (j > 0 ==> !IsWhite(code[j - 1]))
    ensures LastInk(code, i) == j
    decreases i - j
  {
    if j < i {
      assert code[i - 1] == code[j..i][i - 1 - j];
      assert code[j..i - 1] == code[j..i][..i - 1 - j];
      InkRead(code, i - 1, j);
    }
  }

  predicate AreWord(text: string) {
    forall k :: 0 <= k < |text| ==> IsWord(text[k])
  }

  lemma {:induction false} WordRead(code: string, i: nat, j: nat)
    requires j <= i <= |code| && AreWord(code[j..i]) && (j > 0 ==> !IsWord(code[j - 1]))
    ensures WordStart(code, i) == j
    decreases i - j
  {
    if j < i {
      assert code[i - 1] == code[j..i][i - 1 - j];
      assert code[j..i - 1] == code[j..i][..i - 1 - j];
      WordRead(code, i - 1, j);
    }
  }

  /** A slash at the start of the file begins a regular expression. */
  lemma RegexFirst(space: string, rest: string)
    requires AllWhite(space) && rest != "" && rest[0] != '/' && rest[0] != '*'
    ensures IsRegexStart(space + "/" + rest, |space|)
  {
    var code := space + "/" + rest;
    assert code[0..|space|] == space && code[|space| + 1] == rest[0];
    InkRead(code, |space|, 0);
  }

  /** Behind a word it does so exactly behind these keywords. */
  lemma RegexBehindWord(before: string, word: string, space: string, rest: string)
    requires word != "" && AreWord(word) && (before != "" ==> !IsWord(before[|before| - 1]))
    requires AllWhite(space) && rest != "" && rest[0] != '/' && rest[0] != '*'
    ensures IsRegexStart(before + word + space + "/" + rest, |before + word + space|)
       <==> word in {"await", "case", "delete", "do", "else", "in", "instanceof", "new", "of", "return", "throw",
                     "typeof", "void", "yield"}
  {
    var code := before + word + space + "/" + rest;
    var i, j := |before + word + space|, |before + word|;
    assert code[i + 1] == rest[0] && code[j..i] == space && code[j - 1] == word[|word| - 1];
    InkRead(code, i, j);
    assert code[|before|..j] == word && (before != "" ==> code[|before| - 1] == before[|before| - 1]);
    WordRead(code, j, |before|);
  }

  /** Behind any other character it does so unless that closes a group, a list or a block. */
  lemma RegexBehindSign(before: string, sign: char, space: string, rest: string)
    requires !IsWord(sign) && !IsWhite(sign)
    requires AllWhite(space) && rest != "" && rest[0] != '/' && rest[0] != '*'
    ensures IsRegexStart(before + [sign] + space + "/" + rest, |before| + 1 + |space|)
       <==> sign != ')' && sign != ']' && sign != '}'
  {
    var code := before + [sign] + space + "/" + rest;
    var i, j := |before| + 1 + |space|, |before| + 1;
    assert code[i + 1] == rest[0] && code[j..i] == space && code[j - 1] == sign;
    InkRead(code, i, j);
  }

  // ---- what stands before a call ----

  lemma {:induction false} TrimmedEnd(text: string, space: string)
    requires AllWhite(space) && (text != "" ==> !IsWhite(text[|text| - 1]))
    ensures TrimEnd(text + space) == text
    decreases |space|
  {
    if space == "" {
      assert text + space == text;
    } else {
      var init := space[..|space| - 1];
      assert (text + space)[..|text + space| - 1] == text + init;
      TrimmedEnd(text, init);
    }
  }

  lemma KeywordAtEnd(before: string, word: string, keyword: string)
    requires word != "" && AreWord(word) && (before != "" ==> !IsWord(before[|before| - 1]))
    requires keyword != "" && AreWord(keyword)
    ensures EndsInKeyword(before + word, keyword) <==> word == keyword
  {
    var all := before + word;
    if word == keyword {
      assert all[|all| - |keyword|..] == keyword;
    } else if |keyword| <= |all| {
      OtherEnd(before, word, keyword);
    }
  }

  lemma OtherEnd(before: string, word: string, keyword: string)
    requires word != "" && AreWord(word) && (before != "" ==> !IsWord(before[|before| - 1]))
    requires |keyword| <= |before + word| && AreWord(keyword) && word != keyword
    ensures !EndsInKeyword(before + word, keyword)
  {
    var all := before + word;
    var k := |all| - |keyword|;
    if k == |before| {
      assert all[k..] == word;
    } else if k < |before| {
      assert all[|before| - 1] == before[|before| - 1];
      assert all[k..][|before| - 1 - k] == all[|before| - 1];
    } else {
      assert all[k - 1] == word[k - 1 - |before|];
    }
  }

  /** Behind a word it is the definition of a method exactly behind one of four keywords. */
  lemma MethodBehindWord(before: string, word: string, space: string, rest: string)
    requires word != "" && AreWord(word) && (before != "" ==> !IsWord(before[|before| - 1])) && AllWhite(space)
    ensures IsMethodDefinition(before + word + space + rest, |before + word + space|)
       <==> word in {"async", "get", "set", "static"}
  {
    var code := before + word + space + rest;
    assert code[..|before + word + space|] == (before + word) + space;
    assert (before + word)[|before + word| - 1] == word[|word| - 1];
    TrimmedEnd(before + word, space);
    KeywordAtEnd(before, word, "async");
    KeywordAtEnd(before, word, "get");
    KeywordAtEnd(before, word, "set");
    KeywordAtEnd(before, word, "static");
  }

  /** Behind a star it is a generator unless the star multiplies, which shows by what the star follows. */
  lemma MethodBehindStar(before: string, gap: string, space: string, rest: string)
    requires AllWhite(gap) && AllWhite(space) && (before != "" ==> !IsWhite(before[|before| - 1]))
    ensures IsMethodDefinition(before + gap + "*" + space + rest, |before + gap + "*" + space|)
       <==> before == "" || !(IsWord(before[|before| - 1]) || before[|before| - 1] in {')', ']'})
  {
    var code := before + gap + "*" + space + rest;
    var star := before + gap + "*";
    assert code[..|star + space|] == star + space && star[..|star| - 1] == before + gap;
    TrimmedEnd(star, space);
    TrimmedEnd(before, gap);
    NotAfterSign(star);
  }

  lemma NotAfterSign(text: string)
    requires text != "" && !IsWord(text[|text| - 1])
    ensures !EndsInKeyword(text, "async") && !EndsInKeyword(text, "get") && !EndsInKeyword(text, "set")
    ensures !EndsInKeyword(text, "static")
  {
    LastOfWord(text, "async");
    LastOfWord(text, "get");
    LastOfWord(text, "set");
    LastOfWord(text, "static");
  }

  lemma LastOfWord(text: string, keyword: string)
    requires text != "" && !IsWord(text[|text| - 1]) && keyword != "" && AreWord(keyword)
    ensures !EndsInKeyword(text, keyword)
  {
    if |keyword| <= |text| {
      assert text[|text| - |keyword|..][|keyword| - 1] == text[|text| - 1];
    }
  }

  /** Behind any other character, and at the start of the file, it is no definition. */
  lemma NoMethodBehindSign(before: string, space: string, rest: string)
    requires AllWhite(space)
    requires before != "" ==>
      var sign := before[|before| - 1]; !IsWhite(sign) && !IsWord(sign) && sign != '*'
    ensures !IsMethodDefinition(before + space + rest, |before + space|)
  {
    assert (before + space + rest)[..|before + space|] == before + space;
    TrimmedEnd(before, space);
    if before != "" {
      NotAfterSign(before);
    }
  }

  // ---- what stands behind it ----

  /** Arguments with their parentheses in pairs: text, a group, and more. */
  datatype Arguments = Flat(text: string) | Grouped(text: string, inner: Arguments, more: Arguments)

  function Spell(a: Arguments): string {
    match a
    case Flat(text) => text
    case Grouped(text, inner, more) => text + "(" + Spell(inner) + ")" + Spell(more)
  }

  predicate IsPaired(a: Arguments) {
    match a
    case Flat(text) => '(' !in text && ')' !in text
    case Grouped(text, inner, more) => '(' !in text && ')' !in text && IsPaired(inner) && IsPaired(more)
  }

  /** Parentheses in `[lo, hi)` are in pairs. */
  ghost predicate Even(code: string, lo: nat, hi: nat)
    requires hi <= |code|
  {
    lo <= hi && Net(code, lo, hi) == 0 && forall d :: lo <= d <= hi ==> Net(code, lo, d) >= 0
  }

  lemma {:induction false} NetSplit(code: string, lo: nat, mid: nat, hi: nat)
    requires lo <= mid <= hi <= |code|
    ensures Net(code, lo, hi) == Net(code, lo, mid) + Net(code, mid, hi)
    decreases hi
  {
    if mid < hi {
      NetSplit(code, lo, mid, hi - 1);
    }
  }

  lemma EvenTwice(code: string, lo: nat, mid: nat, hi: nat)
    requires hi <= |code| && mid <= |code| && Even(code, lo, mid) && Even(code, mid, hi)
    ensures Even(code, lo, hi)
  {
    forall d | lo <= d <= hi ensures Net(code, lo, d) >= 0 {
      if mid <= d {
        NetSplit(code, lo, mid, d);
      }
    }
    NetSplit(code, lo, mid, hi);
  }

  lemma {:induction false} FlatIsEven(code: string, lo: nat, hi: nat)
    requires lo <= hi <= |code| && '(' !in code[lo..hi] && ')' !in code[lo..hi]
    ensures Even(code, lo, hi)
    decreases hi
  {
    if lo < hi {
      assert code[hi - 1] == code[lo..hi][hi - 1 - lo] && code[lo..hi - 1] == code[lo..hi][..hi - 1 - lo];
      FlatIsEven(code, lo, hi - 1);
    }
  }

  lemma GroupIsEven(code: string, lo: nat, hi: nat)
    requires lo + 1 <= hi < |code| && code[lo] == '(' && code[hi] == ')' && Even(code, lo + 1, hi)
    ensures Even(code, lo, hi + 1)
  {
    forall d | lo <= d <= hi + 1 ensures Net(code, lo, d) >= 0 {
      if lo < d {
        NetSplit(code, lo, lo + 1, d);
      }
    }
    NetSplit(code, lo, lo + 1, hi + 1);
  }

  lemma {:induction false} SpelledIsEven(code: string, lo: nat, a: Arguments)
    requires IsPaired(a) && lo + |Spell(a)| <= |code| && code[lo..lo + |Spell(a)|] == Spell(a)
    ensures Even(code, lo, lo + |Spell(a)|)
    decreases a
  {
    if a.Flat? {
      FlatIsEven(code, lo, lo + |a.text|);
    } else {
      var open, close := lo + |a.text|, lo + |a.text| + 1 + |Spell(a.inner)|;
      GroupPlaces(code, lo, a);
      FlatIsEven(code, lo, open);
      SpelledIsEven(code, open + 1, a.inner);
      SpelledIsEven(code, close + 1, a.more);
      EvenAround(code, lo, open, close, lo + |Spell(a)|);
    }
  }

  lemma EvenAround(code: string, lo: nat, open: nat, close: nat, hi: nat)
    requires lo <= open < close < hi <= |code|
    requires Even(code, lo, open) && code[open] == '(' && Even(code, open + 1, close) && code[close] == ')'
    requires Even(code, close + 1, hi)
    ensures Even(code, lo, hi)
  {
    GroupIsEven(code, open, close);
    EvenTwice(code, lo, open, close + 1);
    EvenTwice(code, lo, close + 1, hi);
  }

  lemma GroupPlaces(code: string, lo: nat, a: Arguments)
    requires a.Grouped? && lo + |Spell(a)| <= |code| && code[lo..lo + |Spell(a)|] == Spell(a)
    ensures var open, close := lo + |a.text|, lo + |a.text| + 1 + |Spell(a.inner)|;
      && code[lo..open] == a.text && code[open] == '(' && code[open + 1..close] == Spell(a.inner) && code[close] == ')'
      && code[close + 1..lo + |Spell(a)|] == Spell(a.more)
  {
    var all, t, n := Spell(a), |a.text|, |Spell(a.inner)|;
    SpelledGroup(a);
    Within(code, lo, all, 0, t);
    Within(code, lo, all, t + 1, t + 1 + n);
    Within(code, lo, all, t + 2 + n, |all|);
    assert code[lo + t] == code[lo..lo + |all|][t] && code[lo + t + 1 + n] == code[lo..lo + |all|][t + 1 + n];
  }

  lemma SpelledGroup(a: Arguments)
    requires a.Grouped?
    ensures var all, t, n := Spell(a), |a.text|, |Spell(a.inner)|;
      && |all| >= t + 2 + n && all[..t] == a.text && all[t] == '(' && all[t + 1..t + 1 + n] == Spell(a.inner)
      && all[t + 1 + n] == ')' && all[t + 2 + n..] == Spell(a.more)
  {
  }

  lemma Within(code: string, lo: nat, all: string, k: nat, l: nat)
    requires lo + |all| <= |code| && code[lo..lo + |all|] == all && k <= l <= |all|
    ensures code[lo + k..lo + l] == all[k..l]
  {
    forall m | 0 <= m < l - k ensures code[lo + k..lo + l][m] == all[k..l][m] {
      assert code[lo..lo + |all|][k + m] == all[k + m];
    }
  }

  predicate AreSpaces(text: string) {
    forall k :: 0 <= k < |text| ==> text[k] in {' ', '\t', '\n', '\r'}
  }

  lemma {:induction false} SpaceSkipped(code: string, i: nat, e: nat)
    requires i <= e <= |code| && AreSpaces(code[i..e]) && (e < |code| ==> code[e] !in {' ', '\t', '\n', '\r'})
    ensures SkipSpace(code, i) == e
    decreases e - i
  {
    if i < e {
      assert code[i] == code[i..e][0] && code[i + 1..e] == code[i..e][1..];
      SpaceSkipped(code, i + 1, e);
    }
  }

  lemma ClosesAt(code: string, from: nat, close: nat)
    requires close < |code| && code[close] == ')' && Even(code, from, close)
    ensures Matches(code, from, close)
  {
  }

  lemma CallPlaces(code: string, before: string, arguments: string, space: string, rest: string)
    requires code == before + "(" + arguments + ")" + space + rest
    ensures var from, close := |before| + 1, |before| + 1 + |arguments|;
      var e := close + 1 + |space|;
      && |code| == e + |rest| && code[from..close] == arguments && code[close] == ')' && code[close + 1..e] == space
      && (rest != "" ==> code[e] == rest[0])
  {
    assert code == (before + "(") + arguments + (")" + space + rest);
    assert code == (before + "(" + arguments + ")") + space + rest;
  }

  /** Arguments in parentheses are parameters of a method exactly when a brace follows. */
  lemma ShorthandExactlyWhen(code: string, before: string, a: Arguments, space: string, rest: string)
    requires code == before + "(" + Spell(a) + ")" + space + rest
    requires IsPaired(a) && AreSpaces(space) && (rest != "" ==> rest[0] !in {' ', '\t', '\n', '\r'})
    ensures IsShorthandMethod(code, |before| + 1) <==> rest != "" && rest[0] == '{'
  {
    var from, close := |before| + 1, |before| + 1 + |Spell(a)|;
    var e := close + 1 + |space|;
    CallPlaces(code, before, Spell(a), space, rest);
    SpelledIsEven(code, from, a);
    ClosesAt(code, from, close);
    SpaceSkipped(code, close + 1, e);
    forall other: nat | Matches(code, from, other) ensures other == close {
      OneMatch(code, from, other, close);
    }
  }

  /**
   `name(...)` is a call of the helper exactly when it is not part of a longer
   name, not a member, not a method's parameters, and no keyword or star before
   it makes it a definition.
   */
  lemma CallExactlyWhen(code: string, before: string, name: string, a: Arguments, space: string, rest: string)
    requires code == before + name + "(" + Spell(a) + ")" + space + rest
    requires IsPaired(a) && AreSpaces(space) && (rest != "" ==> rest[0] !in {' ', '\t', '\n', '\r'})
    ensures IsStandalone(code, |before|, name)
       <==> (before == "" || !(IsWord(before[|before| - 1]) || before[|before| - 1] == '.'))
            && (rest == "" || rest[0] != '{') && !IsMethodDefinition(code, |before|)
  {
    NameOccurs(code, before, name, Spell(a) + ")" + space + rest);
    assert code == (before + name) + "(" + Spell(a) + ")" + space + rest;
    ShorthandExactlyWhen(code, before + name, a, space, rest);
  }

  lemma NameOccurs(code: string, before: string, name: string, rest: string)
    requires code == before + name + "(" + rest
    ensures OccursAt(code, |before|, name + "(") && (before != "" ==> code[|before| - 1] == before[|before| - 1])
  {
    assert code == before + (name + "(") + rest;
  }
}
