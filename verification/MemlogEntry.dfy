/** One entry of the memory log: its tag, and the text on one line. */
module MemlogEntry {
  import opened Common
  import opened PyText
  import opened TextWords
  import opened MemlogDocument

  /** `(kind by author) `, either part optional. */
  function Tag(kind: string, author: string): string {
    var tagText := if author != "" then Strip(kind + " by " + author) else kind;
    if tagText != "" then "(" + tagText + ") " else ""
  }

  function EntryLine(text: string, kind: string, author: string): string {
    "- " + Tag(kind, author) + Join(Words(text), " ")
  }

  predicate IsEntry(line: string) { "- " <= line }

  /** Entries always go to the end of the body. */
  function AddEntry(body: string, entry: string): string {
    if Strip(body) != "" then RStripNewlines(body) + "\n" + entry else entry
  }

  // ---- The tag ----

  /** The author as named after "by". */
  function Named(author: string): string {
    if RStrip(author) == "" then "" else " " + RStrip(author)
  }

  /** No tag, the kind alone, the author alone, or both; outer white space of the pair is gone. */
  predicate IsTag(tag: string, kind: string, author: string) {
    && (kind == "" && author == "" ==> tag == "")
    && (kind != "" && author == "" ==> tag == "(" + kind + ") ")
    && (author != "" && Blank(kind) ==> tag == "(by" + Named(author) + ") ")
    && (author != "" && !Blank(kind) ==> tag == "(" + LStrip(kind) + " by" + Named(author) + ") ")
  }

  /** The kind and the word between it and the author. */
  function KindBy(kind: string): string {
    if Blank(kind) then "by" else LStrip(kind) + " by"
  }

  lemma CharKinds()
    ensures IsSpace(' ') && !IsSpace('b') && !IsSpace('y')
  {
  }

  lemma KindPart(kind: string) returns (a: string)
    ensures kind + " by" == a + KindBy(kind) && Blank(a)
    ensures KindBy(kind) != "" && !IsSpace(KindBy(kind)[0]) && !IsSpace(KindBy(kind)[|KindBy(kind)| - 1])
  {
    hide IsSpace, LStrip;
    CharKinds();
    if Blank(kind) {
      a := kind + " ";
    } else {
      var t := LStrip(kind);
      StrippedEnd(kind);
      a := kind[..|kind| - |t|];
      EndsInY(t);
      assert kind == a + t;
      assert kind + " by" == a + (t + " by");
    }
  }

  lemma StrippedEnd(kind: string)
    ensures var t := LStrip(kind);
      |t| <= |kind| && kind[|kind| - |t|..] == t && Blank(kind[..|kind| - |t|]) && (t == "" <==> Blank(kind))
  {
    hide IsSpace, LStrip;
    assert kind[..|kind|] == kind;
  }

  lemma EndsInY(t: string)
    ensures var r := t + " by"; r[|r| - 1] == 'y' && (t != "" ==> r[0] == t[0])
  {
  }

  lemma AuthorPart(author: string) returns (b: string)
    ensures " " + author == Named(author) + b && Blank(b)
    ensures Named(author) == "" || !IsSpace(Named(author)[|Named(author)| - 1])
  {
    hide IsSpace, RStrip;
    var a := RStrip(author);
    if a == "" {
      CharKinds();
      b := " " + author;
    } else {
      b := author[|a|..];
      assert author == a + b;
      assert " " + author == (" " + a) + b;
      assert Named(author)[|a|] == a[|a| - 1];
    }
  }

  lemma LabelIs(kind: string, author: string)
    ensures Strip(kind + " by " + author) == KindBy(kind) + Named(author)
  {
    hide IsSpace, Strip, KindBy, Named, Blank;
    var a := KindPart(kind);
    var b := AuthorPart(author);
    Regroup(kind, author, a, KindBy(kind), Named(author), b);
    NoOuter(KindBy(kind), Named(author));
    StripIs(a, KindBy(kind) + Named(author), b);
  }

  lemma Regroup(kind: string, author: string, a: string, k: string, n: string, b: string)
    requires kind + " by" == a + k && " " + author == n + b
    ensures kind + " by " + author == a + (k + n) + b
  {
    assert kind + " by " + author == (kind + " by") + (" " + author);
    assert (a + k) + (n + b) == a + (k + n) + b;
  }

  lemma NoOuter(k: string, n: string)
    requires k != "" && !IsSpace(k[0]) && !IsSpace(k[|k| - 1]) && (n == "" || !IsSpace(n[|n| - 1]))
    ensures NoOuterSpace(k + n)
  {
    hide IsSpace;
  }

  lemma AuthoredTag(kind: string, author: string)
    requires author != ""
    ensures Tag(kind, author) == "(" + (KindBy(kind) + Named(author)) + ") "
  {
    hide Strip, KindBy, Named;
    LabelIs(kind, author);
    assert KindBy(kind) != "" by { var a := KindPart(kind); }
  }

  lemma Parens(k: string, by': string, n: string)
    ensures "(" + ((k + by') + n) + ") " == "(" + k + by' + n + ") "
  {
  }

  lemma TagIsOneOfFour(kind: string, author: string)
    ensures IsTag(Tag(kind, author), kind, author)
  {
    hide Strip, LStrip, Named, Blank;
    if author != "" {
      AuthoredTag(kind, author);
      if Blank(kind) {
        Parens("", "by", Named(author));
        assert "" + "by" == "by" && "(" + "" + "by" == "(by";
      } else {
        Parens(LStrip(kind), " by", Named(author));
      }
    }
  }

  // ---- The line ----

  /** The line is a dash, the tag, and the words of the text with one blank between any two. */
  ghost predicate Records(line: string, text: string, kind: string, author: string) {
    exists tag, rest :: line == "- " + tag + rest && IsTag(tag, kind, author) && SpacedOut(rest, Words(text))
  }

  lemma EntryRecords(text: string, kind: string, author: string)
    ensures Records(EntryLine(text, kind, author), text, kind, author)
  {
    hide IsTag, SpacedOut;
    TagIsOneOfFour(kind, author);
    JoinedWords(text);
  }

  lemma NoBreakConcat(a: string, b: string)
    requires NoBreak(a) && NoBreak(b)
    ensures NoBreak(a + b)
  {
  }

  lemma AuthoredLabel(kind: string, author: string)
    requires NoBreak(kind) && NoBreak(author)
    ensures NoBreak(Strip(kind + " by " + author))
  {
    NoBreakConcat(kind, " by ");
    NoBreakConcat(kind + " by ", author);
    StripNoBreak(kind + " by " + author);
  }

  lemma Parenthesised(inner: string)
    requires NoBreak(inner)
    ensures NoBreak("(" + inner + ") ")
  {
    NoBreakConcat("(", inner);
    NoBreakConcat("(" + inner, ") ");
  }

  lemma TagIsOneLine(kind: string, author: string)
    requires NoBreak(kind) && NoBreak(author)
    ensures NoBreak(Tag(kind, author))
  {
    AuthoredLabel(kind, author);
    Parenthesised(if author != "" then Strip(kind + " by " + author) else kind);
  }

  lemma EntryIsOneLine(text: string, kind: string, author: string)
    requires NoBreak(kind) && NoBreak(author)
    ensures NoBreak(EntryLine(text, kind, author)) && IsEntry(EntryLine(text, kind, author))
  {
    TagIsOneLine(kind, author);
    JoinNoBreak(Words(text), " ");
    NoBreakConcat("- ", Tag(kind, author));
    NoBreakConcat("- " + Tag(kind, author), Join(Words(text), " "));
  }

  // ---- An entry at the end of any body ----

  /** The lines of a body, final newlines apart. */
  function BodyLines(body: string): seq<string> {
    if Strip(body) == "" then [] else SplitLines(RStripNewlines(body) + "\n")
  }

  /** Adding an entry leaves the lines of the body, whatever they are, and puts the entry behind them. */
  lemma AddedIsLastLine(body: string, entry: string)
    requires OnlyNewlines(body) && LStripNewlines(body) == body && NoBreak(entry) && entry != ""
    ensures var b := AddEntry(body, entry);
      && OnlyNewlines(b) && LStripNewlines(RStripNewlines(b)) == b
      && SplitLines(b) == BodyLines(body) + [entry]
  {
    hide SplitLines, Strip, Join;
    SplitOnlyLine(entry);
    var b := AddEntry(body, entry);
    assert b[|b| - 1] == entry[|entry| - 1];
    if Strip(body) != "" {
      var r := RStripNewlines(body);
      StripOfNothing(body);
      SplitBehind(r, entry);
    }
  }

  lemma {:induction false} StripOfNothing(body: string)
    requires LStripNewlines(body) == body && Strip(body) != ""
    ensures var r := RStripNewlines(body); r != "" && r[0] != '\n'
  {
    if body != "" && RStripNewlines(body) == "" { AllNewlines(body); }
  }

  lemma {:induction false} AllNewlines(body: string)
    requires body != "" && RStripNewlines(body) == ""
    ensures body[0] == '\n'
  {
    if |body| > 1 { AllNewlines(body[..|body| - 1]); }
  }

  lemma SplitBehind(r: string, entry: string)
    requires OnlyNewlines(r) && NoBreak(entry) && entry != ""
    ensures SplitLines(r + "\n" + entry) == SplitLines(r + "\n") + [entry]
  {
    hide SplitLines, Join;
    JoinSplit(r);
    SplitNoBreak(r + "\n");
    SplitJoined(SplitLines(r + "\n"), entry);
    SplitOnlyLine(entry);
  }

  lemma SplitNoBreak(s: string)
    ensures forall i | 0 <= i < |SplitLines(s)| :: NoBreak(SplitLines(s)[i])
  {
  }
}
