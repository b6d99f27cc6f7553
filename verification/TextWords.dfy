/** What stripping and splitting at white space mean, without reference to how they scan. */
module TextWords {
  import opened PyText

  predicate Blank(s: string) {
    forall i | 0 <= i < |s| :: IsSpace(s[i])
  }

  predicate NoSpace(s: string) {
    forall i | 0 <= i < |s| :: !IsSpace(s[i])
  }

  predicate NoOuterSpace(s: string) {
    s == "" || (!IsSpace(s[0]) && !IsSpace(s[|s| - 1]))
  }

  lemma {:induction false} LStripIs(a: string, r: string)
    requires Blank(a) && (r == "" || !IsSpace(r[0]))
    ensures LStrip(a + r) == r
  {
    if a == [] {
      assert a + r == r;
    } else {
      assert (a + r)[1..] == a[1..] + r;
      LStripIs(a[1..], r);
    }
  }

  lemma {:induction false} RStripIs(r: string, b: string)
    requires Blank(b) && (r == "" || !IsSpace(r[|r| - 1]))
    ensures RStrip(r + b) == r
  {
    if b == [] {
      assert r + b == r;
    } else {
      var init := b[..|b| - 1];
      assert (r + b)[..|r + b| - 1] == r + init;
      RStripIs(r, init);
    }
  }

  /** Stripping takes away exactly the outer white space. */
  lemma StripIs(a: string, r: string, b: string)
    requires Blank(a) && NoOuterSpace(r) && Blank(b)
    ensures Strip(a + r + b) == r
  {
    if r == "" {
      assert Blank(a + r + b);
      RStripIs("", a + b);
      assert a + r + b == "" + (a + b);
    } else {
      RStripIs(a + r, b);
      LStripIs(a, r);
    }
  }

  /** Every text is its stripped form between two stretches of white space. */
  lemma StripParts(s: string) returns (a: string, b: string)
    ensures Blank(a) && Blank(b) && NoOuterSpace(Strip(s)) && s == a + Strip(s) + b
  {
    hide IsSpace, LStrip, RStrip;
    var t := RStrip(s);
    StripEnds(s);
    a, b := t[..|t| - |Strip(s)|], s[|t|..];
    assert s == t + b;
    assert t == a + Strip(s);
  }

  lemma BlankCons(a: string)
    requires Blank(a)
    ensures Blank([' '] + a)
  {
  }

  lemma StripLeadingBlank(s: string)
    ensures Strip([' '] + s) == Strip(s)
  {
    hide Strip, Blank, NoOuterSpace;
    var a, b := StripParts(s);
    var r := Strip(s);
    BlankCons(a);
    StripIs([' '] + a, r, b);
    assert ([' '] + a) + r + b == [' '] + (a + r + b);
  }

  /** The stretch holds newlines only. */
  predicate Newlines(s: string) {
    forall i | 0 <= i < |s| :: s[i] == '\n'
  }

  /** Stripping newlines takes away all of them at that end and nothing else. */
  lemma {:induction false} NewlinesStripped(s: string, a: string, r: string)
    requires s == a + r && Newlines(a) && (r == "" || r[0] != '\n')
    ensures LStripNewlines(s) == r
    decreases |a|
  {
    if a == "" {
      assert s == r;
    } else {
      assert s[1..] == a[1..] + r;
      NewlinesStripped(s[1..], a[1..], r);
    }
  }

  lemma {:induction false} FinalNewlinesStripped(s: string, r: string, b: string)
    requires s == r + b && Newlines(b) && (r == "" || r[|r| - 1] != '\n')
    ensures RStripNewlines(s) == r
    decreases |b|
  {
    if b == "" {
      assert s == r;
    } else {
      var init := b[..|b| - 1];
      assert s[..|s| - 1] == r + init;
      FinalNewlinesStripped(s[..|s| - 1], r, init);
    }
  }

  // ---- Words ----

  function Woven(gaps: seq<string>, words: seq<string>): string
    requires |gaps| == |words| + 1
  {
    if words == [] then gaps[0] else gaps[0] + words[0] + Woven(gaps[1..], words[1..])
  }

  /** The text is these words with these gaps around them: no word is empty or holds white space, the gaps hold nothing
      else, and between two words there is always some. */
  ghost predicate CutInto(s: string, words: seq<string>, gaps: seq<string>) {
    && |gaps| == |words| + 1 && s == Woven(gaps, words)
    && (forall i | 0 <= i < |words| :: words[i] != "" && NoSpace(words[i]))
    && (forall i | 0 <= i < |gaps| :: Blank(gaps[i]))
    && (forall i | 0 < i < |words| :: gaps[i] != "")
  }

  lemma CutFirst(g: string, w: string, rest: string, words: seq<string>, gaps: seq<string>)
    requires CutInto(rest, words, gaps)
    requires Blank(g) && w != "" && NoSpace(w) && (words != [] ==> gaps[0] != "")
    ensures CutInto(g + w + rest, [w] + words, [g] + gaps)
  {
    var ws, gs := [w] + words, [g] + gaps;
    assert ws[1..] == words && gs[1..] == gaps;
    assert Woven(gs, ws) == g + w + Woven(gaps, words);
  }

  lemma CutRest(s: string, words: seq<string>, gaps: seq<string>)
    requires CutInto(s, words, gaps) && words != []
    ensures CutInto(Woven(gaps[1..], words[1..]), words[1..], gaps[1..])
    ensures var rest := Woven(gaps[1..], words[1..]);
      s == gaps[0] + words[0] + rest && (rest == "" || IsSpace(rest[0]))
  {
    var rest := Woven(gaps[1..], words[1..]);
    if |words| > 1 {
      assert gaps[1] != "" && Blank(gaps[1]);
    } else {
      assert rest == gaps[1] && Blank(gaps[1]);
    }
  }

  lemma {:induction false} WordLengthIs(w: string, rest: string)
    requires NoSpace(w) && (rest == "" || IsSpace(rest[0]))
    ensures WordLength(w + rest) == |w|
  {
    if w == [] {
      assert w + rest == rest;
    } else {
      assert (w + rest)[1..] == w[1..] + rest;
      WordLengthIs(w[1..], rest);
    }
  }

  lemma WordsUnfold(s: string, t: string, n: nat)
    requires t == LStrip(s) && t != "" && n == WordLength(t)
    ensures Words(s) == [t[..n]] + Words(t[n..])
  {
    hide LStrip, WordLength, IsSpace;
  }

  lemma WordsOfFirst(g: string, w: string, rest: string)
    requires Blank(g) && w != "" && NoSpace(w) && (rest == "" || IsSpace(rest[0]))
    ensures Words(g + w + rest) == [w] + Words(rest)
  {
    hide Words, LStrip, WordLength, IsSpace;
    LStripIs(g, w + rest);
    assert g + w + rest == g + (w + rest);
    WordLengthIs(w, rest);
    assert (w + rest)[..|w|] == w && (w + rest)[|w|..] == rest;
    WordsUnfold(g + w + rest, w + rest, |w|);
  }

  lemma NoWords(s: string)
    requires LStrip(s) == ""
    ensures Words(s) == [] && Blank(s)
  {
  }

  lemma {:induction false} CutGivesWords(s: string, words: seq<string>, gaps: seq<string>)
    requires CutInto(s, words, gaps)
    ensures Words(s) == words
    decreases |words|
  {
    hide IsSpace, Words, LStrip, Blank, NoSpace;
    if words == [] {
      BlankHasNoWords(s, gaps);
    } else {
      var rest := Woven(gaps[1..], words[1..]);
      CutRest(s, words, gaps);
      CutGivesWords(rest, words[1..], gaps[1..]);
      CutHead(s, words, gaps);
      WordsOfFirst(gaps[0], words[0], rest);
      assert words == [words[0]] + words[1..];
    }
  }

  lemma BlankHasNoWords(s: string, gaps: seq<string>)
    requires CutInto(s, [], gaps)
    ensures Words(s) == []
  {
    LStripIs(s, "");
    assert s + "" == s;
  }

  lemma CutHead(s: string, words: seq<string>, gaps: seq<string>)
    requires CutInto(s, words, gaps) && words != []
    ensures Blank(gaps[0]) && words[0] != "" && NoSpace(words[0])
  {
  }

  lemma {:induction false} WordLengthEnds(s: string)
    ensures var n := WordLength(s); NoSpace(s[..n]) && (n < |s| ==> IsSpace(s[n]))
  {
    if s != [] && !IsSpace(s[0]) { WordLengthEnds(s[1..]); }
  }

  lemma LStripDrops(s: string)
    ensures var t := LStrip(s); |t| <= |s| && s == s[..|s| - |t|] + t && Blank(s[..|s| - |t|])
  {
    hide LStrip, IsSpace;
  }

  /** The first step of the cut: leading white space, a word up to the next white space, and the rest. */
  lemma WordsStep(s: string) returns (g: string, w: string, rest: string)
    requires LStrip(s) != ""
    ensures s == g + w + rest && Blank(g) && NoSpace(w) && w != "" && (rest == "" || IsSpace(rest[0]))
    ensures s != "" && IsSpace(s[0]) ==> g != ""
    ensures Words(s) == [w] + Words(rest)
  {
    hide Words, LStrip, WordLength, IsSpace;
    var t := LStrip(s);
    var n := WordLength(t);
    LStripDrops(s);
    WordLengthEnds(t);
    WordsUnfold(s, t, n);
    g, w, rest := s[..|s| - |t|], t[..n], t[n..];
    assert t == w + rest;
    assert g + (w + rest) == g + w + rest;
  }

  lemma {:induction false} WordsCut(s: string) returns (gaps: seq<string>)
    ensures CutInto(s, Words(s), gaps)
    ensures s != "" && IsSpace(s[0]) ==> gaps[0] != ""
    decreases |s|
  {
    hide Words, LStrip, IsSpace;
    if LStrip(s) == "" {
      NoWords(s);
      gaps := [s];
    } else {
      var g, w, rest := WordsStep(s);
      var more := WordsCut(rest);
      if rest == "" { NoWordsInNothing(); }
      CutFirst(g, w, rest, Words(rest), more);
      gaps := [g] + more;
    }
  }

  lemma NoWordsInNothing()
    ensures Words("") == []
  {
  }

  /** `split()` cuts a text exactly where white space stands, and loses nothing else. */
  lemma WordsIffCut(s: string, words: seq<string>)
    ensures words == Words(s) <==> exists gaps :: CutInto(s, words, gaps)
  {
    var own := WordsCut(s);
    if gaps :| CutInto(s, words, gaps) { CutGivesWords(s, words, gaps); }
  }

  /** The text is these words with one blank between any two, and nothing around them. */
  ghost predicate SpacedOut(s: string, words: seq<string>) {
    exists gaps :: CutInto(s, words, gaps) && SingleBlanks(gaps)
  }

  predicate SingleBlanks(gaps: seq<string>) {
    forall i | 0 <= i < |gaps| :: gaps[i] == if 0 < i < |gaps| - 1 then " " else ""
  }

  lemma {:induction false} JoinIsCut(words: seq<string>) returns (gaps: seq<string>)
    requires forall i | 0 <= i < |words| :: words[i] != "" && NoSpace(words[i])
    ensures CutInto(Join(words, " "), words, gaps) && SingleBlanks(gaps)
  {
    if words == [] {
      gaps := [""];
    } else if |words| == 1 {
      gaps := ["", ""];
      CutFirst("", words[0], "", [], [""]);
      assert [words[0]] + [] == words && [""] + [""] == gaps;
      assert "" + words[0] + "" == words[0];
    } else {
      var more := JoinIsCut(words[1..]);
      var rest := Join(words[1..], " ");
      var spaced := [" "] + more[1..];
      CutLeadingBlank(rest, words[1..], more);
      CutFirst("", words[0], " " + rest, words[1..], spaced);
      gaps := [""] + spaced;
      assert [words[0]] + words[1..] == words;
      assert "" + words[0] + (" " + rest) == words[0] + " " + rest;
    }
  }

  lemma CutLeadingBlank(rest: string, words: seq<string>, gaps: seq<string>)
    requires words != [] && CutInto(rest, words, gaps) && gaps[0] == ""
    ensures CutInto(" " + rest, words, [" "] + gaps[1..])
  {
    var spaced := [" "] + gaps[1..];
    assert spaced[1..] == gaps[1..];
    assert rest == words[0] + Woven(gaps[1..], words[1..]);
    assert Woven(spaced, words) == " " + words[0] + Woven(gaps[1..], words[1..]);
    assert Woven(spaced, words) == " " + rest;
  }

  /** Joining the words of a text with blanks: the same words, one blank apart. */
  lemma JoinedWords(text: string)
    ensures SpacedOut(Join(Words(text), " "), Words(text))
  {
    var own := WordsCut(text);
    var gaps := JoinIsCut(Words(text));
  }

  // ---- Lines ----

  /** One line break as a whole: a carriage return takes a newline behind it along. */
  predicate EndsLine(end: string, rest: string) {
    || (end == "\r\n")
    || (|end| == 1 && IsBreak(end[0]) && !(end[0] == '\r' && rest != "" && rest[0] == '\n'))
  }

  /** `s` begins with this line and its end; a last line may lack its end, if it is not empty. */
  predicate FirstLine(s: string, line: string, end: string, rest: string) {
    && s == line + end + rest && NoBreak(line)
    && (EndsLine(end, rest) || (end == "" && rest == "" && line != ""))
  }

  /** The text is these lines, one behind the other. */
  ghost predicate BrokenInto(s: string, lines: seq<string>)
    decreases |lines|
  {
    if lines == [] then s == ""
    else exists end, rest :: FirstLine(s, lines[0], end, rest) && BrokenInto(rest, lines[1..])
  }

  lemma FirstLineSplits(s: string, line: string, end: string, rest: string)
    requires FirstLine(s, line, end, rest)
    ensures |rest| < |s| && SplitLines(s) == [line] + SplitLines(rest)
  {
    hide IsBreak;
    assert s[..|line|] == line;
    if end == "" {
      assert s == line;
    } else {
      assert s[|line|] == end[0];
      assert s[|line| + |end|..] == rest;
      assert end == "\r\n" ==> s[|line| + 1] == '\n';
      assert |end| == 1 && rest != "" ==> s[|line| + 1] == rest[0];
      ReturnBreaks();
    }
    FirstBreakIs(s, |line|);
  }

  lemma ReturnBreaks()
    ensures IsBreak('\r')
  {
  }

  lemma LineFound(s: string) returns (line: string, end: string, rest: string)
    requires s != ""
    ensures FirstLine(s, line, end, rest)
  {
    hide IsBreak;
    var i := FirstBreak(s);
    if i == |s| {
      line, end, rest := s, "", "";
      assert s[..i] == s;
    } else {
      var width := if s[i] == '\r' && i + 1 < |s| && s[i + 1] == '\n' then 2 else 1;
      line, end, rest := s[..i], s[i..i + width], s[i + width..];
      assert s == line + end + rest;
      if width == 2 { assert end == "\r\n"; }
    }
  }

  lemma {:induction false} BrokenIsSplit(s: string, lines: seq<string>)
    requires BrokenInto(s, lines)
    ensures SplitLines(s) == lines
    decreases |lines|
  {
    hide FirstLine, SplitLines;
    if lines == [] {
      NoLines();
    } else {
      var end, rest :| FirstLine(s, lines[0], end, rest) && BrokenInto(rest, lines[1..]);
      FirstLineSplits(s, lines[0], end, rest);
      BrokenIsSplit(rest, lines[1..]);
      assert lines == [lines[0]] + lines[1..];
    }
  }

  lemma {:induction false} SplitIsBroken(s: string)
    ensures BrokenInto(s, SplitLines(s))
    decreases |s|
  {
    hide SplitLines;
    if s == "" {
      NoLines();
    } else {
      var line, end, rest := LineFound(s);
      FirstLineSplits(s, line, end, rest);
      hide FirstLine;
      SplitIsBroken(rest);
      var lines := SplitLines(s);
      assert lines[0] == line && lines[1..] == SplitLines(rest);
      assert FirstLine(s, lines[0], end, rest) && BrokenInto(rest, lines[1..]);
    }
  }

  /** `splitlines()` breaks a text at every line break and nowhere else. */
  lemma LinesIffBroken(s: string, lines: seq<string>)
    ensures lines == SplitLines(s) <==> BrokenInto(s, lines)
  {
    SplitIsBroken(s);
    if BrokenInto(s, lines) { BrokenIsSplit(s, lines); }
  }

  lemma NoLines()
    ensures SplitLines("") == []
  {
  }

  /** The value on one line: its lines with single blanks for the breaks between them. */
  lemma OneLineIs(v: string, lines: seq<string>)
    requires BrokenInto(v, lines)
    ensures OneLine(v) == Join(lines, " ")
  {
    LinesIffBroken(v, lines);
  }
}
