/** The string operations of Python that the memory log relies on. */
module PyText {
  import opened Common

  /** Characters at which `str.splitlines` breaks. */
  predicate IsBreak(c: char) {
    c == '\n' || c == '\r' || ('\U{0B}' <= c <= '\U{0C}') || ('\U{1C}' <= c <= '\U{1E}') || c == '\U{85}'
    || c == '\U{2028}' || c == '\U{2029}'
  }

  /** Characters that `str.strip` and `str.split` treat as white space. */
  predicate IsSpace(c: char) {
    IsBreak(c) || c == ' ' || c == '\t' || c == '\U{1F}' || c == '\U{A0}' || c == '\U{1680}'
    || ('\U{2000}' <= c <= '\U{200A}') || c == '\U{202F}' || c == '\U{205F}' || c == '\U{3000}'
  }

  predicate NoBreak(s: string) {
    forall i | 0 <= i < |s| :: !IsBreak(s[i])
  }

  /** The text breaks at newlines only. */
  predicate OnlyNewlines(s: string) {
    forall i | 0 <= i < |s| && IsBreak(s[i]) :: s[i] == '\n'
  }

  function FirstBreak(s: string): (i: nat)
    ensures i <= |s| && NoBreak(s[..i]) && (i < |s| ==> IsBreak(s[i]))
  {
    if s == [] || IsBreak(s[0]) then 0 else 1 + FirstBreak(s[1..])
  }

  function SplitLines(s: string): (lines: seq<string>)
    ensures forall i | 0 <= i < |lines| :: NoBreak(lines[i])
    decreases |s|
  {
    if s == [] then []
    else
      var i := FirstBreak(s);
      if i == |s| then [s]
      else
        var width := if s[i] == '\r' && i + 1 < |s| && s[i + 1] == '\n' then 2 else 1;
        [s[..i]] + SplitLines(s[i + width..])
  }

  function Join(parts: seq<string>, sep: string): string {
    if parts == [] then ""
    else if |parts| == 1 then parts[0]
    else parts[0] + sep + Join(parts[1..], sep)
  }

  function LStrip(s: string): (r: string)
    ensures r == [] || !IsSpace(r[0])
    ensures |r| <= |s| && r == s[|s| - |r|..] && forall i | 0 <= i < |s| - |r| :: IsSpace(s[i])
  {
    if s != [] && IsSpace(s[0]) then LStrip(s[1..]) else s
  }

  function RStrip(s: string): (r: string)
    ensures r == [] || !IsSpace(r[|r| - 1])
    ensures r <= s && forall i | |r| <= i < |s| :: IsSpace(s[i])
  {
    if s != [] && IsSpace(s[|s| - 1]) then RStrip(s[..|s| - 1]) else s
  }

  function Strip(s: string): string { LStrip(RStrip(s)) }

  /** `lstrip("\n")` and `rstrip("\n")`. */
  function LStripNewlines(s: string): (r: string)
    ensures r == [] || r[0] != '\n'
  {
    if s != [] && s[0] == '\n' then LStripNewlines(s[1..]) else s
  }

  function RStripNewlines(s: string): (r: string)
    ensures r == [] || r[|r| - 1] != '\n'
    ensures r <= s
  {
    if s != [] && s[|s| - 1] == '\n' then RStripNewlines(s[..|s| - 1]) else s
  }

  function FirstIndex(s: string, c: char): (i: nat)
    ensures i <= |s| && c !in s[..i] && (i < |s| ==> s[i] == c)
  {
    if s == [] || s[0] == c then 0
    else
      assert s[..1 + FirstIndex(s[1..], c)] == [s[0]] + s[1..][..FirstIndex(s[1..], c)];
      1 + FirstIndex(s[1..], c)
  }

  /** `split(c, 1)` when `c` occurs: what precedes and what follows its first occurrence. */
  function SplitOnce(s: string, c: char): (string, string)
    requires c in s
  {
    var i := FirstIndex(s, c);
    assert i < |s|;
    (s[..i], s[i + 1..])
  }

  /** `split()`: maximal runs without white space. */
  function Words(s: string): (w: seq<string>)
    ensures forall i | 0 <= i < |w| :: NoBreak(w[i])
    decreases |s|
  {
    var t := LStrip(s);
    if t == [] then [] else var n := WordLength(t); [t[..n]] + Words(t[n..])
  }

  function WordLength(s: string): (n: nat)
    ensures n <= |s| && NoBreak(s[..n]) && forall i | 0 <= i < n :: !IsSpace(s[i])
    ensures s != [] && !IsSpace(s[0]) ==> n > 0
  {
    if s == [] || IsSpace(s[0]) then 0 else 1 + WordLength(s[1..])
  }

  // ---- Lines ----

  lemma FirstBreakIs(s: string, i: nat)
    requires i <= |s| && NoBreak(s[..i]) && (i < |s| ==> IsBreak(s[i]))
    ensures FirstBreak(s) == i
  {
    var k := FirstBreak(s);
    assert forall j | 0 <= j < i :: s[..i][j] == s[j];
    assert forall j | 0 <= j < k :: s[..k][j] == s[j];
  }

  lemma SplitFirstLine(line: string, rest: string)
    requires NoBreak(line)
    ensures SplitLines(line + "\n" + rest) == [line] + SplitLines(rest)
  {
    var s := line + "\n" + rest;
    assert s[..|line|] == line && s[|line|] == '\n';
    FirstBreakIs(s, |line|);
    assert s[|line| + 1..] == rest;
  }

  lemma SplitOnlyLine(line: string)
    requires NoBreak(line) && line != ""
    ensures SplitLines(line) == [line]
  {
    assert line[..|line|] == line;
    FirstBreakIs(line, |line|);
  }

  lemma JoinFirst(lines: seq<string>, sep: string, rest: string)
    requires |lines| > 1
    ensures Join(lines, sep) + sep + rest == lines[0] + sep + (Join(lines[1..], sep) + sep + rest)
  {
  }

  lemma {:induction false} SplitJoined(lines: seq<string>, rest: string)
    requires lines != [] && forall i | 0 <= i < |lines| :: NoBreak(lines[i])
    ensures SplitLines(Join(lines, "\n") + "\n" + rest) == lines + SplitLines(rest)
  {
    if |lines| == 1 {
      SplitFirstLine(lines[0], rest);
    } else {
      var tail, after := Join(lines[1..], "\n") + "\n" + rest, SplitLines(rest);
      calc {
        SplitLines(Join(lines, "\n") + "\n" + rest);
        { JoinFirst(lines, "\n", rest); }
        SplitLines(lines[0] + "\n" + tail);
        { SplitFirstLine(lines[0], tail); }
        [lines[0]] + SplitLines(tail);
        { SplitJoined(lines[1..], rest); }
        [lines[0]] + (lines[1..] + after);
        lines + after;
      }
    }
  }

  /** Splitting a newline-only text and joining it again gives the text back, up to a final newline. */
  lemma {:induction false} JoinSplit(t: string)
    requires OnlyNewlines(t)
    ensures Join(SplitLines(t + "\n"), "\n") == t
    ensures SplitLines(t + "\n") != []
    decreases |t|
  {
    var i := FirstBreak(t);
    if i == |t| {
      assert t[..i] == t;
      SplitFirstLine(t, "");
      assert t + "\n" == t + "\n" + "";
    } else {
      var line, rest := t[..i], t[i + 1..];
      assert t == line + "\n" + rest;
      assert t + "\n" == line + "\n" + (rest + "\n");
      SplitFirstLine(line, rest + "\n");
      JoinSplit(rest);
      var lines := SplitLines(t + "\n");
      assert lines[1..] == SplitLines(rest + "\n");
    }
  }

  lemma {:induction false} JoinNoBreak(parts: seq<string>, sep: string)
    requires NoBreak(sep) && forall i | 0 <= i < |parts| :: NoBreak(parts[i])
    ensures NoBreak(Join(parts, sep))
  {
    if |parts| > 1 { JoinNoBreak(parts[1..], sep); }
  }

  /** `" ".join(v.splitlines())`: the value on one line. */
  function OneLine(v: string): (r: string)
    ensures NoBreak(r)
    ensures NoBreak(v) ==> r == v
  {
    JoinNoBreak(SplitLines(v), " ");
    if NoBreak(v) && v != "" then SplitOnlyLine(v); Join(SplitLines(v), " ") else Join(SplitLines(v), " ")
  }

  // ---- Stripping ----

  lemma StripFixed(s: string)
    requires s == "" || (!IsSpace(s[0]) && !IsSpace(s[|s| - 1]))
    ensures Strip(s) == s
  {
  }

  lemma StripEnds(s: string)
    ensures var r := Strip(s); r == "" || (!IsSpace(r[0]) && !IsSpace(r[|r| - 1]))
  {
  }

  lemma StripIdempotent(s: string)
    ensures Strip(Strip(s)) == Strip(s)
  {
    StripEnds(s);
    StripFixed(Strip(s));
  }

  lemma StripNoBreak(s: string)
    requires NoBreak(s)
    ensures NoBreak(Strip(s))
  {
    var t := RStrip(s);
    assert NoBreak(t);
    assert Strip(s) == t[|t| - |Strip(s)|..];
  }

  lemma StripNoChar(s: string, c: char)
    requires c !in s
    ensures c !in Strip(s)
  {
    var t := RStrip(s);
    assert Strip(s) == t[|t| - |Strip(s)|..];
  }

  lemma SplitOnceAt(k: string, c: char, rest: string)
    requires c !in k
    ensures c in k + [c] + rest && SplitOnce(k + [c] + rest, c) == (k, rest)
  {
    var s := k + [c] + rest;
    assert s[|k|] == c;
    var i := FirstIndex(s, c);
    assert forall j | 0 <= j < |k| :: s[j] == k[j] != c;
    assert forall j | 0 <= j < i :: s[..i][j] == s[j];
    assert s[..|k|] == k && s[|k| + 1..] == rest;
  }
}
