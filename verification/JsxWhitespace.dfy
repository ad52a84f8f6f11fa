/**
 The two JSX text cleaners: the server's in
 native/vertz-compiler-core/src/aot_string_transformer.rs and the client's in
 native/vertz-compiler-core/src/jsx_transformer.rs. Both drop the line breaks
 and indentation of JSX text; only the client's treats a lone carriage return
 as a line break.
 */
module JsxWhitespace {

  /** Unicode White_Space, as Rust's `trim` understands it. */
  predicate IsWhite(c: char) {
    var n := c as int;
    9 <= n <= 13 || n == 0x20 || n == 0x85 || n == 0xA0 || n == 0x1680 || 0x2000 <= n <= 0x200A
    || n == 0x2028 || n == 0x2029 || n == 0x202F || n == 0x205F || n == 0x3000
  }

  predicate AllWhite(s: string) {
    forall i :: 0 <= i < |s| ==> IsWhite(s[i])
  }

  function TrimStart(s: string): string {
    if s != "" && IsWhite(s[0]) then TrimStart(s[1..]) else s
  }

  function TrimEnd(s: string): string {
    if s != "" && IsWhite(s[|s| - 1]) then TrimEnd(s[..|s| - 1]) else s
  }

  function Detab(s: string): string {
    seq(|s|, i requires 0 <= i < |s| => if s[i] == '\t' then ' ' else s[i])
  }

  function Split(s: string, sep: char): (r: seq<string>)
    ensures r != []
  {
    if s == "" then [""]
    else
      var more := Split(s[1..], sep);
      if s[0] == sep then [""] + more else [[s[0]] + more[0]] + more[1..]
  }

  /** Rust's `replace("\r\n", "\n")`. */
  function CrLfToLf(s: string): string {
    if |s| < 2 then s
    else if s[0] == '\r' && s[1] == '\n' then ['\n'] + CrLfToLf(s[2..])
    else [s[0]] + CrLfToLf(s[1..])
  }

  function CrToLf(s: string): string {
    seq(|s|, i requires 0 <= i < |s| => if s[i] == '\r' then '\n' else s[i])
  }

  function CleanLine(line: string, first: bool, last: bool): string {
    var s := Detab(line);
    var t := if first then s else TrimStart(s);
    if last then t else TrimEnd(t)
  }

  function Kept(s: string): seq<string> {
    if s == "" then [] else [s]
  }

  /** The cleaned lines that are not empty; `first` and `last` say whether the text starts and ends here. */
  function CleanLines(lines: seq<string>, first: bool, last: bool): seq<string> {
    if lines == [] then []
    else Kept(CleanLine(lines[0], first, last && |lines| == 1)) + CleanLines(lines[1..], false, last)
  }

  function Spaced(parts: seq<string>): string {
    if parts == [] then "" else if |parts| == 1 then parts[0] else parts[0] + " " + Spaced(parts[1..])
  }

  function ServerClean(raw: string): string {
    if '\n' !in raw && '\r' !in raw then raw
    else Spaced(CleanLines(Split(raw, '\n'), true, true))
  }

  function ClientClean(raw: string): string {
    if '\n' !in raw && '\r' !in raw then raw
    else Spaced(CleanLines(Split(CrToLf(CrLfToLf(raw)), '\n'), true, true))
  }

  // ---- the cleaners as they run ----

  lemma CleanLinesStep(lines: seq<string>, i: nat)
    requires i < |lines|
    ensures CleanLines(lines[i..], i == 0, true)
         == Kept(CleanLine(lines[i], i == 0, i == |lines| - 1)) + CleanLines(lines[i + 1..], false, true)
  {
    assert lines[i..][1..] == lines[i + 1..];
  }

  lemma Regroup<T>(a: seq<T>, b: seq<T>, c: seq<T>)
    ensures a + (b + c) == (a + b) + c
  {
  }

  lemma CleanedSoFar(lines: seq<string>, i: nat, cleaned: seq<string>, all: seq<string>)
    requires i < |lines| && cleaned + CleanLines(lines[i..], i == 0, true) == all
    ensures cleaned + Kept(CleanLine(lines[i], i == 0, i == |lines| - 1)) + CleanLines(lines[i + 1..], false, true)
      == all
  {
    CleanLinesStep(lines, i);
    Regroup(cleaned, Kept(CleanLine(lines[i], i == 0, i == |lines| - 1)), CleanLines(lines[i + 1..], false, true));
  }

  method CleanAll(lines: seq<string>) returns (joined: string)
    requires lines != []
    ensures joined == Spaced(CleanLines(lines, true, true))
  {
    var cleaned: seq<string> := [];
    assert lines[0..] == lines;
    for i := 0 to |lines|
      invariant cleaned + CleanLines(lines[i..], i == 0, true) == CleanLines(lines, true, true)
    {
      CleanedSoFar(lines, i, cleaned, CleanLines(lines, true, true));
      var s := CleanOne(lines[i], i > 0, i < |lines| - 1);
      if s != "" {
        cleaned := cleaned + [s];
      } else {
        assert cleaned + Kept(s) == cleaned;
      }
    }
    assert cleaned + [] == cleaned;
    joined := Spaced(cleaned);
  }

  method CleanOne(line: string, trimStart: bool, trimEnd: bool) returns (s: string)
    ensures s == CleanLine(line, !trimStart, !trimEnd)
  {
    s := Detab(line);
    if trimStart {
      s := TrimStart(s);
    }
    if trimEnd {
      s := TrimEnd(s);
    }
  }

  /** The server's `clean_jsx_text`. */
  method CleanJsxTextServer(raw: string) returns (text: string)
    ensures text == ServerClean(raw)
  {
    if '\n' !in raw && '\r' !in raw {
      return raw;
    }
    text := CleanAll(Split(raw, '\n'));
  }

  /** The client's `clean_jsx_text`. */
  method CleanJsxTextClient(raw: string) returns (text: string)
    ensures text == ClientClean(raw)
  {
    if '\n' !in raw && '\r' !in raw {
      return raw;
    }
    text := CleanAll(Split(CrToLf(CrLfToLf(raw)), '\n'));
  }

  // ---- what survives cleaning ----

  predicate Lacks(s: string, c: char) {
    forall i :: 0 <= i < |s| ==> s[i] != c
  }

  predicate AllLack(parts: seq<string>, c: char) {
    forall i :: 0 <= i < |parts| ==> Lacks(parts[i], c)
  }

  lemma {:induction false} TrimStartIs(s: string) returns (n: nat)
    ensures n <= |s| && TrimStart(s) == s[n..]
  {
    if s != "" && IsWhite(s[0]) {
      n := TrimStartIs(s[1..]);
      n := n + 1;
    } else {
      n := 0;
    }
  }

  lemma {:induction false} TrimEndIs(s: string) returns (n: nat)
    ensures n <= |s| && TrimEnd(s) == s[..n]
  {
    if s != "" && IsWhite(s[|s| - 1]) {
      n := TrimEndIs(s[..|s| - 1]);
    } else {
      n := |s|;
    }
  }

  lemma CleanLineLacks(line: string, first: bool, last: bool, c: char)
    requires Lacks(line, c) && c != ' '
    ensures Lacks(CleanLine(line, first, last), c)
  {
    var a := TrimStartIs(Detab(line));
    var b := TrimEndIs(if first then Detab(line) else TrimStart(Detab(line)));
  }

  lemma {:induction false} CleanLinesLack(lines: seq<string>, first: bool, last: bool, c: char)
    requires AllLack(lines, c) && c != ' '
    ensures AllLack(CleanLines(lines, first, last), c)
  {
    if lines != [] {
      CleanLineLacks(lines[0], first, last && |lines| == 1, c);
      CleanLinesLack(lines[1..], false, last, c);
    }
  }

  lemma {:induction false} SpacedLacks(parts: seq<string>, c: char)
    requires c != ' '
    ensures Lacks(Spaced(parts), c) <==> AllLack(parts, c)
  {
    if |parts| > 1 {
      SpacedLacks(parts[1..], c);
      var more := Spaced(parts[1..]);
      var s := parts[0] + " " + more;
      if Lacks(s, c) {
        forall i | 0 <= i < |parts[0]| ensures parts[0][i] != c { assert s[i] == parts[0][i]; }
        forall i | 0 <= i < |more| ensures more[i] != c { assert s[|parts[0]| + 1 + i] == more[i]; }
        assert AllLack(parts, c) by {
          forall i | 0 <= i < |parts| ensures Lacks(parts[i], c) {
            if i > 0 { assert parts[i] == parts[1..][i - 1]; }
          }
        }
      } else if AllLack(parts, c) {
        assert AllLack(parts[1..], c);
        assert Lacks(parts[0], c);
      }
    }
  }

  lemma {:induction false} SplitLacks(s: string, sep: char, c: char)
    requires c == sep || Lacks(s, c)
    ensures AllLack(Split(s, sep), c)
  {
    if s != "" {
      SplitLacks(s[1..], sep, c);
    }
  }

  lemma Shielded(raw: string, c: char)
    ensures c in raw <==> !Lacks(raw, c)
  {
  }

  lemma JoinOfOne(s: string)
    ensures Spaced(Kept(s)) == s
  {
  }

  lemma {:induction false} SplitNone(s: string, sep: char)
    requires Lacks(s, sep)
    ensures Split(s, sep) == [s]
  {
    if s != "" {
      SplitNone(s[1..], sep);
      assert [s[0]] + s[1..] == s;
    }
  }

  /** The client's text holds neither line breaks nor carriage returns. */
  lemma ClientHasNoBreaks(raw: string)
    ensures Lacks(ClientClean(raw), '\n') && Lacks(ClientClean(raw), '\r')
  {
    if '\n' in raw || '\r' in raw {
      var flat := CrToLf(CrLfToLf(raw));
      var lines := Split(flat, '\n');
      SplitLacks(flat, '\n', '\n');
      SplitLacks(flat, '\n', '\r');
      CleanLinesLack(lines, true, true, '\n');
      CleanLinesLack(lines, true, true, '\r');
      SpacedLacks(CleanLines(lines, true, true), '\n');
      SpacedLacks(CleanLines(lines, true, true), '\r');
    }
  }

  /** The server's text holds no line breaks, and no tabs once anything was cleaned. */
  lemma ServerHasNoBreaks(raw: string)
    ensures Lacks(ServerClean(raw), '\n')
    ensures '\n' in raw || '\r' in raw ==> Lacks(ServerClean(raw), '\t')
  {
    if '\n' in raw || '\r' in raw {
      var lines := Split(raw, '\n');
      SplitLacks(raw, '\n', '\n');
      CleanLinesLack(lines, true, true, '\n');
      SpacedLacks(CleanLines(lines, true, true), '\n');
      CleanLinesTabless(lines, true, true);
      SpacedLacks(CleanLines(lines, true, true), '\t');
    }
  }

  lemma TablessLine(line: string, first: bool, last: bool)
    ensures Lacks(CleanLine(line, first, last), '\t')
  {
    var d := Detab(line);
    var a := TrimStartIs(d);
    var b := TrimEndIs(if first then d else TrimStart(d));
  }

  lemma {:induction false} CleanLinesTabless(lines: seq<string>, first: bool, last: bool)
    ensures AllLack(CleanLines(lines, first, last), '\t')
  {
    if lines != [] {
      TablessLine(lines[0], first, last && |lines| == 1);
      CleanLinesTabless(lines[1..], false, last);
    }
  }

  /** Cleaning text twice is cleaning it once, on either side. */
  lemma CleaningIsIdempotent(raw: string)
    ensures ServerClean(ServerClean(raw)) == ServerClean(raw)
    ensures ClientClean(ClientClean(raw)) == ClientClean(raw)
  {
    ClientHasNoBreaks(raw);
    Shielded(ClientClean(raw), '\n');
    Shielded(ClientClean(raw), '\r');
    ServerHasNoBreaks(raw);
    var text := ServerClean(raw);
    if '\r' in text {
      SplitNone(text, '\n');
      assert Detab(text) == text;
      assert CleanLines([text], true, true) == Kept(text) + [] == Kept(text);
      JoinOfOne(text);
    }
  }

  // ---- when server and client agree ----

  lemma {:induction false} TrimStartWhite(w: string, s: string)
    requires AllWhite(w)
    ensures TrimStart(w + s) == TrimStart(s)
  {
    if w == "" {
      assert w + s == s;
    } else {
      assert (w + s)[1..] == w[1..] + s;
      TrimStartWhite(w[1..], s);
    }
  }

  lemma {:induction false} TrimEndWhite(s: string, w: string)
    requires AllWhite(w)
    ensures TrimEnd(s + w) == TrimEnd(s)
  {
    if w == "" {
      assert s + w == s;
    } else {
      assert (s + w)[..|s + w| - 1] == s + w[..|w| - 1];
      TrimEndWhite(s, w[..|w| - 1]);
    }
  }

  lemma {:induction false} TrimStartKeeps(s: string, i: nat) returns (n: nat)
    requires i < |s| && !IsWhite(s[i])
    ensures n <= i && TrimStart(s) == s[n..]
  {
    if IsWhite(s[0]) {
      n := TrimStartKeeps(s[1..], i - 1);
      n := n + 1;
    } else {
      n := 0;
    }
  }

  lemma {:induction false} TrimEndKeeps(s: string, i: nat) returns (n: nat)
    requires i < |s| && !IsWhite(s[i])
    ensures i < n <= |s| && TrimEnd(s) == s[..n]
  {
    if IsWhite(s[|s| - 1]) {
      n := TrimEndKeeps(s[..|s| - 1], i);
    } else {
      n := |s|;
    }
  }

  lemma WhiteCleans(s: string, first: bool, last: bool)
    requires AllWhite(s) && !(first && last)
    ensures CleanLine(s, first, last) == ""
  {
    var d := Detab(s);
    if !first {
      TrimStartWhite(d, "");
      assert d + "" == d;
    } else {
      TrimEndWhite("", d);
      assert "" + d == d;
    }
    if !first && !last {
      assert TrimEnd("") == "";
    }
  }

  /** White space before a line's text is trimmed away with the carriage return it ends in. */
  lemma CleanAfterWhite(w: string, s: string, last: bool)
    requires AllWhite(w)
    ensures CleanLine(w + s, false, last) == CleanLine(s, false, last)
  {
    assert Detab(w + s) == Detab(w) + Detab(s);
    TrimStartWhite(Detab(w), Detab(s));
  }

  /** White space after a line's text is trimmed away with the carriage return it starts with. */
  lemma CleanBeforeWhite(s: string, w: string, first: bool)
    requires AllWhite(w)
    ensures CleanLine(s + w, first, false) == CleanLine(s, first, false)
  {
    var d, e := Detab(s), Detab(w);
    assert Detab(s + w) == d + e;
    if first {
      TrimEndWhite(d, e);
    } else {
      TrimAround(d, e);
    }
  }

  lemma {:induction false} TrimAround(d: string, e: string)
    requires AllWhite(e)
    ensures TrimEnd(TrimStart(d + e)) == TrimEnd(TrimStart(d))
  {
    if d == "" {
      assert d + e == e;
      TrimStartWhite(e, "");
      assert e + "" == e;
    } else if IsWhite(d[0]) {
      assert (d + e)[1..] == d[1..] + e;
      TrimAround(d[1..], e);
    } else {
      TrimEndWhite(d, e);
    }
  }

  /** Where a character of the detabbed line ends up when there is text, or no trimming, on both sides of it. */
  lemma Survives(d: string, at: nat, first: bool, last: bool, i: nat, j: nat) returns (k: nat)
    requires i <= at <= j < |d|
    requires (first || !IsWhite(d[i])) && (last || !IsWhite(d[j]))
    ensures var t := if first then d else TrimStart(d);
            var u := if last then t else TrimEnd(t);
            k < |u| && u[k] == d[at]
  {
    var a := 0;
    if !first {
      a := TrimStartKeeps(d, i);
    }
    var t := if first then d else TrimStart(d);
    assert t == d[a..];
    k := at - a;
    if !last {
      var n := TrimEndKeeps(t, j - a);
    }
  }

  /** A carriage return that cleaning removes has only white space on a trimmed side of it. */
  lemma RemovedCr(p: string, rest: string, first: bool, last: bool)
    requires Lacks(CleanLine(p + "\r" + rest, first, last), '\r')
    ensures (!first && AllWhite(p)) || (!last && AllWhite(rest))
  {
    var line := p + "\r" + rest;
    var d := Detab(line);
    if (first || !AllWhite(p)) && (last || !AllWhite(rest)) {
      var i, j := |p|, |p|;
      if !first {
        i :| 0 <= i < |p| && !IsWhite(p[i]);
        assert line[i] == p[i];
      }
      if !last {
        var m :| 0 <= m < |rest| && !IsWhite(rest[m]);
        j := |p| + 1 + m;
        assert line[j] == rest[m];
      }
      var k := Survives(d, |p|, first, last, i, j);
    }
  }

  /** The parts one source line becomes when the client breaks it at carriage returns. */
  lemma {:induction false} LineAgrees(line: string, first: bool, last: bool)
    requires Lacks(CleanLine(line, first, last), '\r')
    ensures CleanLines(Split(line, '\r'), first, last) == Kept(CleanLine(line, first, last))
    decreases |line|
  {
    if Lacks(line, '\r') {
      SplitNone(line, '\r');
      assert Kept(CleanLine(line, first, last)) + [] == Kept(CleanLine(line, first, last));
    } else {
      var at := FirstCr(line);
      var p, rest := line[..at], line[at + 1..];
      assert line == p + "\r" + rest;
      SplitAt(p, rest, '\r');
      RemovedCr(p, rest, first, last);
      TwoParts(p, Split(rest, '\r'), first, last);
      if !first && AllWhite(p) {
        CleanAfterWhite(p + "\r", rest, last);
        WhiteCleans(p, false, false);
        LineAgrees(rest, false, last);
      } else {
        TrailingWhite(p, rest, first);
      }
    }
  }

  lemma TrailingWhite(p: string, rest: string, first: bool)
    requires AllWhite(rest)
    ensures CleanLine(p + "\r" + rest, first, false) == CleanLine(p, first, false)
    ensures CleanLines(Split(rest, '\r'), false, false) == []
  {
    CleanBeforeWhite(p, "\r" + rest, first);
    assert p + ("\r" + rest) == p + "\r" + rest;
    SplitWhite(rest, '\r');
    AllWhiteLines(Split(rest, '\r'), false);
  }

  lemma TwoParts(p: string, rest: seq<string>, first: bool, last: bool)
    requires rest != []
    ensures CleanLines([p] + rest, first, last) == Kept(CleanLine(p, first, false)) + CleanLines(rest, false, last)
  {
    assert ([p] + rest)[1..] == rest;
  }

  lemma FirstCr(line: string) returns (at: nat)
    requires !Lacks(line, '\r')
    ensures at < |line| && line[at] == '\r' && Lacks(line[..at], '\r')
  {
    if line[0] == '\r' {
      at := 0;
    } else {
      at := FirstCr(line[1..]);
      at := at + 1;
      assert line[..at] == [line[0]] + line[1..][..at - 1];
    }
  }

  lemma {:induction false} SplitAt(p: string, rest: string, sep: char)
    requires Lacks(p, sep)
    ensures Split(p + [sep] + rest, sep) == [p] + Split(rest, sep)
  {
    var s := p + [sep] + rest;
    if p == "" {
      assert s[1..] == rest;
    } else {
      assert s[1..] == p[1..] + [sep] + rest;
      SplitAt(p[1..], rest, sep);
      assert [s[0]] + p[1..] == p;
    }
  }

  lemma {:induction false} SplitWhite(s: string, sep: char)
    requires AllWhite(s)
    ensures forall x :: x in Split(s, sep) ==> AllWhite(x)
  {
    if s != "" {
      var more := Split(s[1..], sep);
      SplitWhite(s[1..], sep);
      assert more[0] in more;
      assert AllWhite([s[0]] + more[0]);
    }
  }

  lemma {:induction false} AllWhiteLines(lines: seq<string>, last: bool)
    requires forall x :: x in lines ==> AllWhite(x)
    ensures CleanLines(lines, false, last) == []
  {
    if lines != [] {
      WhiteCleans(lines[0], false, last && |lines| == 1);
      AllWhiteLines(lines[1..], last);
    }
  }

  // ---- from whole texts to lines ----

  function DropCr(line: string): string {
    if line != "" && line[|line| - 1] == '\r' then line[..|line| - 1] else line
  }

  /** The client's lines, from the lines the server sees. */
  function ClientLines(lines: seq<string>): seq<string> {
    if lines == [] then []
    else if |lines| == 1 then Split(lines[0], '\r')
    else Split(DropCr(lines[0]), '\r') + ClientLines(lines[1..])
  }

  function Normal(s: string): string {
    CrToLf(CrLfToLf(s))
  }

  lemma NormalStep(s: string)
    requires s != ""
    ensures |s| >= 2 && s[0] == '\r' && s[1] == '\n' ==> Normal(s) == ['\n'] + Normal(s[2..])
    ensures !(|s| >= 2 && s[0] == '\r' && s[1] == '\n') ==>
      Normal(s) == [if s[0] == '\r' then '\n' else s[0]] + Normal(s[1..])
  {
    if |s| >= 2 && s[0] == '\r' && s[1] == '\n' {
      assert CrLfToLf(s) == ['\n'] + CrLfToLf(s[2..]);
    } else {
      assert CrLfToLf(s) == [s[0]] + CrLfToLf(s[1..]);
    }
  }

  /** Putting an ordinary character before a text puts it before its first line. */
  lemma PrefixLines(c: char, lines: seq<string>)
    requires lines != [] && c != '\r'
    ensures var cl := ClientLines(lines);
            cl != [] && ClientLines([[c] + lines[0]] + lines[1..]) == [[c] + cl[0]] + cl[1..]
  {
    var h := lines[0];
    var longer := [[c] + h] + lines[1..];
    assert longer[1..] == lines[1..];
    if |lines| == 1 {
      PrefixSplit(c, h);
    } else {
      PrefixSplit(c, DropCr(h));
      assert DropCr([c] + h) == [c] + DropCr(h);
      PrefixFirst(c, Split(DropCr(h), '\r'), ClientLines(lines[1..]));
    }
  }

  lemma PrefixFirst(c: char, sp: seq<string>, more: seq<string>)
    requires sp != []
    ensures ([[c] + sp[0]] + sp[1..]) + more == [[c] + (sp + more)[0]] + (sp + more)[1..]
  {
    assert (sp + more)[1..] == sp[1..] + more;
  }

  lemma PrefixSplit(c: char, h: string)
    requires c != '\r'
    ensures Split([c] + h, '\r') == [[c] + Split(h, '\r')[0]] + Split(h, '\r')[1..]
  {
    assert ([c] + h)[1..] == h;
  }

  /** Putting a lone carriage return before a text opens a new client line. */
  lemma PrefixCr(lines: seq<string>)
    requires lines != [] && (|lines| == 1 || lines[0] != "")
    ensures ClientLines([['\r'] + lines[0]] + lines[1..]) == [""] + ClientLines(lines)
  {
    var h, t := lines[0], lines[1..];
    assert lines == [h] + t;
    ClientLinesStep(h, t);
    ClientLinesStep(['\r'] + h, t);
    if t == [] {
      CrSplit(h);
    } else {
      DropCrPrefix(h);
      CrSplit(DropCr(h));
      Regroup([""], Split(DropCr(h), '\r'), ClientLines(t));
    }
  }

  lemma DropCrPrefix(h: string)
    requires h != ""
    ensures DropCr(['\r'] + h) == ['\r'] + DropCr(h)
  {
  }

  lemma ClientLinesStep(h: string, t: seq<string>)
    ensures ClientLines([h] + t)
         == if t == [] then Split(h, '\r') else Split(DropCr(h), '\r') + ClientLines(t)
  {
    assert ([h] + t)[1..] == t;
  }

  lemma CrSplit(h: string)
    ensures Split(['\r'] + h, '\r') == [""] + Split(h, '\r')
  {
    assert (['\r'] + h)[1..] == h;
  }

  lemma {:induction false} NormalLines(raw: string)
    ensures Split(Normal(raw), '\n') == ClientLines(Split(raw, '\n'))
    decreases |raw|
  {
    if raw == "" {
    } else if |raw| >= 2 && raw[0] == '\r' && raw[1] == '\n' {
      NormalStep(raw);
      NormalLines(raw[2..]);
      assert raw[1..][1..] == raw[2..];
      var lines := Split(raw[2..], '\n');
      assert Split(raw[1..], '\n') == [""] + lines;
      assert ([""] + lines)[1..] == lines;
      assert ['\r'] + "" == "\r";
      assert Split(raw, '\n') == ["\r"] + lines;
      assert (["\r"] + lines)[1..] == lines;
      assert DropCr("\r") == "" && Split("", '\r') == [""];
      assert (['\n'] + Normal(raw[2..]))[1..] == Normal(raw[2..]);
    } else {
      NormalStep(raw);
      NormalLines(raw[1..]);
      var lines := Split(raw[1..], '\n');
      var n := Normal(raw[1..]);
      var c := if raw[0] == '\r' then '\n' else raw[0];
      assert ([c] + n)[1..] == n;
      if raw[0] == '\n' {
        assert ([""] + lines)[1..] == lines;
        assert DropCr("") == "" && Split("", '\r') == [""];
      } else if raw[0] == '\r' {
        assert |lines| == 1 || lines[0] != "";
        PrefixCr(lines);
      } else {
        PrefixLines(raw[0], lines);
      }
    }
  }

  lemma {:induction false} CleanLinesAppend(a: seq<string>, b: seq<string>, first: bool, last: bool)
    requires a != [] && b != []
    ensures CleanLines(a + b, first, last) == CleanLines(a, first, false) + CleanLines(b, false, last)
  {
    assert (a + b)[1..] == a[1..] + b;
    if |a| == 1 {
      assert a[1..] + b == b;
    } else {
      CleanLinesAppend(a[1..], b, false, last);
    }
  }

  lemma {:induction false} LinesAgree(lines: seq<string>, first: bool)
    requires lines != [] && AllLack(CleanLines(lines, first, true), '\r')
    ensures ClientLines(lines) != []
    ensures CleanLines(ClientLines(lines), first, true) == CleanLines(lines, first, true)
  {
    var own := CleanLine(lines[0], first, |lines| == 1);
    var more := CleanLines(lines[1..], false, true);
    PartsLack(own, more);
    if |lines| == 1 {
      LineAgrees(lines[0], first, true);
      assert Kept(own) + [] == Kept(own);
    } else {
      LinesAgree(lines[1..], false);
      FirstLineAgrees(lines[0], first, ClientLines(lines[1..]));
    }
  }

  lemma PartsLack(own: string, more: seq<string>)
    requires AllLack(Kept(own) + more, '\r')
    ensures Lacks(own, '\r') && AllLack(more, '\r')
  {
    assert own != "" ==> (Kept(own) + more)[0] == own;
    forall i | 0 <= i < |more| ensures Lacks(more[i], '\r') {
      assert (Kept(own) + more)[|Kept(own)| + i] == more[i];
    }
  }

  lemma FirstLineAgrees(line: string, first: bool, rest: seq<string>)
    requires rest != [] && Lacks(CleanLine(line, first, false), '\r')
    ensures CleanLines(Split(DropCr(line), '\r') + rest, first, true)
         == Kept(CleanLine(line, first, false)) + CleanLines(rest, false, true)
  {
    DropCrCleans(line, first);
    LineAgrees(DropCr(line), first, false);
    CleanLinesAppend(Split(DropCr(line), '\r'), rest, first, true);
  }

  lemma DropCrCleans(line: string, first: bool)
    ensures CleanLine(DropCr(line), first, false) == CleanLine(line, first, false)
  {
    if DropCr(line) != line {
      CleanBeforeWhite(DropCr(line), "\r", first);
      assert DropCr(line) + "\r" == line;
    }
  }

  /** Server and client agree on a text exactly when no carriage return survives the server's cleaning. */
  lemma CleanersAgree(raw: string)
    ensures ServerClean(raw) == ClientClean(raw) <==> '\r' !in ServerClean(raw)
  {
    ClientHasNoBreaks(raw);
    Shielded(ClientClean(raw), '\r');
    if '\r' !in ServerClean(raw) && ('\n' in raw || '\r' in raw) {
      var lines := Split(raw, '\n');
      Shielded(ServerClean(raw), '\r');
      SpacedLacks(CleanLines(lines, true, true), '\r');
      NormalLines(raw);
      LinesAgree(lines, true);
    }
  }

  /** Every carriage return is followed by a line feed. */
  predicate OnlyCrLf(raw: string) {
    forall i :: 0 <= i < |raw| && raw[i] == '\r' ==> i + 1 < |raw| && raw[i + 1] == '\n'
  }

  /** In particular they agree on every text with ordinary line endings. */
  lemma OrdinaryTextAgrees(raw: string)
    requires OnlyCrLf(raw)
    ensures ServerClean(raw) == ClientClean(raw)
  {
    if '\n' in raw || '\r' in raw {
      OrdinaryLines(raw);
      OrdinaryCleaned(Split(raw, '\n'), true);
      SpacedLacks(CleanLines(Split(raw, '\n'), true, true), '\r');
      Shielded(ServerClean(raw), '\r');
    }
    CleanersAgree(raw);
  }

  /** Lines whose carriage returns all stand at the end of a line that is not the last. */
  ghost predicate Ordinary(lines: seq<string>) {
    forall i :: 0 <= i < |lines| ==> Lacks(if i < |lines| - 1 then DropCr(lines[i]) else lines[i], '\r')
  }

  lemma {:induction false} OrdinaryLines(raw: string)
    requires OnlyCrLf(raw)
    ensures Ordinary(Split(raw, '\n'))
  {
    if raw != "" {
      var rest := raw[1..];
      assert forall i :: 0 <= i < |rest| ==> rest[i] == raw[i + 1];
      assert OnlyCrLf(rest) by {
        forall i | 0 <= i < |rest| && rest[i] == '\r' ensures i + 1 < |rest| && rest[i + 1] == '\n' {
          assert raw[i + 1] == '\r';
        }
      }
      OrdinaryLines(rest);
      OrdinaryStep(raw[0], rest);
    }
  }

  lemma OrdinaryStep(c: char, rest: string)
    requires Ordinary(Split(rest, '\n'))
    requires c == '\r' ==> rest != "" && rest[0] == '\n'
    ensures Ordinary(Split([c] + rest, '\n'))
  {
    var more := Split(rest, '\n');
    assert ([c] + rest)[1..] == rest;
    if c == '\n' {
      OrdinaryCons("", more);
    } else {
      assert Ordinary(more[1..]) by {
        forall i | 0 <= i < |more[1..]|
          ensures Lacks(if i < |more[1..]| - 1 then DropCr(more[1..][i]) else more[1..][i], '\r')
        {
          assert more[1..][i] == more[i + 1];
        }
      }
      OrdinaryHead(c, rest);
      OrdinaryCons([c] + more[0], more[1..]);
    }
  }

  lemma OrdinaryHead(c: char, rest: string)
    requires Ordinary(Split(rest, '\n')) && c != '\n'
    requires c == '\r' ==> rest != "" && rest[0] == '\n'
    ensures var more := Split(rest, '\n');
            Lacks(if more[1..] != [] then DropCr([c] + more[0]) else [c] + more[0], '\r')
  {
    var more := Split(rest, '\n');
    if c == '\r' {
      assert more[0] == "" && |more| > 1;
    }
  }

  lemma OrdinaryCons(line: string, more: seq<string>)
    requires Ordinary(more) && Lacks(if more != [] then DropCr(line) else line, '\r')
    ensures Ordinary([line] + more)
  {
    var lines := [line] + more;
    forall i | 0 <= i < |lines| ensures Lacks(if i < |lines| - 1 then DropCr(lines[i]) else lines[i], '\r') {
      if i > 0 { assert lines[i] == more[i - 1]; }
    }
  }

  lemma {:induction false} OrdinaryCleaned(lines: seq<string>, first: bool)
    requires Ordinary(lines)
    ensures AllLack(CleanLines(lines, first, true), '\r')
  {
    if lines != [] {
      assert Ordinary(lines[1..]) by {
        forall i | 0 <= i < |lines[1..]|
          ensures Lacks(if i < |lines[1..]| - 1 then DropCr(lines[1..][i]) else lines[1..][i], '\r')
        {
          assert lines[1..][i] == lines[i + 1];
        }
      }
      OrdinaryCleaned(lines[1..], false);
      if |lines| == 1 {
        CleanLineLacks(lines[0], first, true, '\r');
      } else {
        DropCrCleans(lines[0], first);
        CleanLineLacks(DropCr(lines[0]), first, false, '\r');
      }
    }
  }
}
