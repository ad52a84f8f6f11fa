/**
 What cleaning makes of a text as it is written: lines with indentation, a word
 or more, and trailing white space, or blank lines. The words are kept, one
 space between them.
 */
module JsxLines {
  import opened JsxWhitespace

  datatype Line = Line(indent: string, words: string, trail: string)
  {
    function Text(): string {
      indent + words + trail
    }

    predicate Valid() {
      && AllWhite(indent) && AllWhite(trail) && '\n' !in Text() && '\r' !in Text() && '\t' !in words
      && (words != "" ==> !IsWhite(words[0]) && !IsWhite(words[|words| - 1]))
    }
  }

  function Written(lines: seq<Line>): string {
    if lines == [] then "" else if |lines| == 1 then lines[0].Text() else lines[0].Text() + "\n" + Written(lines[1..])
  }

  predicate AllValid(lines: seq<Line>) {
    forall i :: 0 <= i < |lines| ==> lines[i].Valid()
  }

  /** What follows the first words: a space and the words, for every line that has any. */
  function Following(lines: seq<Line>): string {
    if lines == [] then ""
    else (if lines[0].words == "" then "" else " " + lines[0].words) + Following(lines[1..])
  }

  function Shown(lines: seq<Line>): string {
    if lines == [] then ""
    else if lines[0].words == "" then Shown(lines[1..])
    else lines[0].words + Following(lines[1..])
  }

  function Texts(lines: seq<Line>): seq<string> {
    if lines == [] then [] else [lines[0].Text()] + Texts(lines[1..])
  }

  function Words(lines: seq<Line>): seq<string> {
    if lines == [] then [] else Kept(lines[0].words) + Words(lines[1..])
  }

  lemma {:induction false} WrittenSplits(lines: seq<Line>)
    requires lines != [] && AllValid(lines)
    ensures Split(Written(lines), '\n') == Texts(lines)
  {
    var own := lines[0].Text();
    assert Lacks(own, '\n');
    if |lines| == 1 {
      SplitNone(own, '\n');
      assert Texts(lines) == [own] + [];
    } else {
      WrittenSplits(lines[1..]);
      SplitAt(own, Written(lines[1..]), '\n');
    }
  }

  lemma {:induction false} WrittenHasBreak(lines: seq<Line>)
    requires AllValid(lines)
    ensures '\r' !in Written(lines) && (|lines| > 1 ==> '\n' in Written(lines))
  {
    if |lines| > 1 {
      WrittenHasBreak(lines[1..]);
      assert Written(lines)[|lines[0].Text()|] == '\n';
    }
  }

  lemma {:induction false} InkStays(s: string)
    requires s != "" && !IsWhite(s[0]) && !IsWhite(s[|s| - 1]) && '\t' !in s
    ensures Detab(s) == s && TrimStart(s) == s && TrimEnd(s) == s
  {
    assert forall i :: 0 <= i < |s| ==> Detab(s)[i] == s[i];
  }

  lemma LineCleans(line: Line, first: bool, last: bool)
    requires line.Valid() && !(first && last)
    requires line.words != "" ==> (first ==> line.indent == "") && (last ==> line.trail == "")
    ensures CleanLine(line.Text(), first, last) == line.words
  {
    if line.words == "" {
      assert AllWhite(line.Text());
      WhiteCleans(line.Text(), first, last);
    } else {
      InkStays(line.words);
      WordsClean(line, first, last);
    }
  }

  lemma WordsClean(line: Line, first: bool, last: bool)
    requires line.Valid() && !(first && last) && line.words != ""
    requires Detab(line.words) == line.words && TrimStart(line.words) == line.words
    requires TrimEnd(line.words) == line.words
    requires (first ==> line.indent == "") && (last ==> line.trail == "")
    ensures CleanLine(line.Text(), first, last) == line.words
  {
    assert CleanLine(line.words, first, last) == line.words;
    if !first {
      CleanAfterWhite(line.indent, line.words, last);
    } else {
      assert line.indent + line.words == line.words;
    }
    if !last {
      CleanBeforeWhite(line.indent + line.words, line.trail, first);
    } else {
      assert line.indent + line.words + line.trail == line.indent + line.words;
    }
  }

  lemma {:induction false} LinesClean(lines: seq<Line>, first: bool)
    requires lines != [] && AllValid(lines) && (first ==> |lines| > 1)
    requires first && lines[0].words != "" ==> lines[0].indent == ""
    requires lines[|lines| - 1].words != "" ==> lines[|lines| - 1].trail == ""
    ensures CleanLines(Texts(lines), first, true) == Words(lines)
  {
    LineCleans(lines[0], first, |lines| == 1);
    assert Texts(lines)[1..] == Texts(lines[1..]);
    TextsCount(lines);
    if |lines| > 1 {
      LinesClean(lines[1..], false);
    }
  }

  lemma {:induction false} TextsCount(lines: seq<Line>)
    ensures |Texts(lines)| == |lines|
  {
    if lines != [] {
      TextsCount(lines[1..]);
    }
  }

  lemma {:induction false} SpacedWords(words: string, lines: seq<Line>)
    requires words != ""
    ensures Spaced([words] + Words(lines)) == words + Following(lines)
    decreases lines
  {
    if lines == [] {
      assert [words] + [] == [words] && words + "" == words;
    } else if lines[0].words == "" {
      SpacedWords(words, lines[1..]);
      assert Words(lines) == Words(lines[1..]) && Following(lines) == Following(lines[1..]);
    } else {
      SpacedWords(lines[0].words, lines[1..]);
      SpacedStep(words, lines[0].words, Words(lines[1..]), Following(lines[1..]));
    }
  }

  lemma SpacedStep(a: string, b: string, more: seq<string>, rest: string)
    requires Spaced([b] + more) == b + rest
    ensures Spaced([a] + ([b] + more)) == a + (" " + b + rest)
  {
    assert ([a] + ([b] + more))[1..] == [b] + more;
    assert a + " " + (b + rest) == a + (" " + b + rest);
  }

  lemma {:induction false} WordsAreShown(lines: seq<Line>)
    ensures Spaced(Words(lines)) == Shown(lines)
  {
    if lines != [] {
      if lines[0].words == "" {
        WordsAreShown(lines[1..]);
        assert Words(lines) == Words(lines[1..]);
      } else {
        SpacedWords(lines[0].words, lines[1..]);
      }
    }
  }

  /**
   A text of several lines, whose first words and last words stand at its very
   edges: both cleaners keep the words of every line, one space between the
   words of two lines, and drop blank lines, indentation and trailing space.
   */
  lemma LinesBecomeWords(lines: seq<Line>)
    requires |lines| > 1 && AllValid(lines)
    requires lines[0].words != "" ==> lines[0].indent == ""
    requires lines[|lines| - 1].words != "" ==> lines[|lines| - 1].trail == ""
    ensures ServerClean(Written(lines)) == Shown(lines) && ClientClean(Written(lines)) == Shown(lines)
  {
    WrittenHasBreak(lines);
    WrittenSplits(lines);
    LinesClean(lines, true);
    WordsAreShown(lines);
    OrdinaryTextAgrees(Written(lines));
  }

  /** A text of one line is kept as it is. */
  lemma OneLineStays(raw: string)
    requires '\n' !in raw && '\r' !in raw
    ensures ServerClean(raw) == raw && ClientClean(raw) == raw
  {
  }

  /** Words on two lines. */
  lemma WordsOnLines(a: string, indent: string, b: string)
    requires Line("", a, "").Valid() && Line(indent, b, "").Valid() && a != "" && b != ""
    ensures ServerClean(a + "\n" + indent + b) == a + " " + b
  {
    var lines := [Line("", a, ""), Line(indent, b, "")];
    LinesBecomeWords(lines);
    TwoWritten(lines[0], lines[1]);
    TwoShown(lines[0], lines[1]);
    BareTexts(a, indent, b);
  }

  lemma BareTexts(a: string, indent: string, b: string)
    ensures Line("", a, "").Text() + "\n" + Line(indent, b, "").Text() == a + "\n" + indent + b
  {
  }

  lemma TwoWritten(first: Line, last: Line)
    ensures Written([first, last]) == first.Text() + "\n" + last.Text()
  {
    assert [first, last][1..] == [last];
  }

  lemma TwoShown(first: Line, last: Line)
    requires first.words != "" && last.words != ""
    ensures Shown([first, last]) == first.words + " " + last.words
  {
    assert [first, last][1..] == [last] && [last][1..] == [];
    assert Following([last]) == " " + last.words;
    assert first.words + (" " + last.words) == first.words + " " + last.words;
  }
}
