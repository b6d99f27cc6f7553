/** The memory-log document: frontmatter fields in source order, and a body of one-line entries. */
module MemlogDocument {
  import opened Common
  import opened PyText
  import opened TextWords
  import opened OrderedDict

  type Fields = seq<Field<string, string>>
  datatype Document = Document(meta: Fields, body: string)
  datatype ParseError = NoFrontmatter | NotTerminated

  /** Stamps `updated` and keeps it last. */
  function Touch(meta: Fields, now: string): Fields {
    Remove(meta, "updated") + [Field("updated", now)]
  }

  // ---- Parsing and printing ----

  function ParseLine(meta: Fields, line: string): Fields {
    if ':' in line then
      var (k, v) := SplitOnce(line, ':');
      PutField(meta, Strip(k), Strip(v))
    else meta
  }

  function ParseFields(lines: seq<string>): Fields {
    if lines == [] then [] else ParseLine(ParseFields(lines[..|lines| - 1]), lines[|lines| - 1])
  }

  /** The first line after the opening fence that is exactly the fence. */
  function ClosingFence(lines: seq<string>, from: nat): (i: nat)
    requires from <= |lines|
    ensures from <= i <= |lines| && (i < |lines| ==> lines[i] == "---")
    ensures forall j | from <= j < i :: lines[j] != "---"
    decreases |lines| - from
  {
    if from == |lines| || lines[from] == "---" then from else ClosingFence(lines, from + 1)
  }

  function Split(text: string): Result<Document, ParseError> {
    var lines := SplitLines(text);
    if lines == [] || lines[0] != "---" then Failure(NoFrontmatter)
    else
      var end := ClosingFence(lines, 1);
      if end == |lines| then Failure(NotTerminated)
      else Success(Document(ParseFields(lines[1..end]), LStripNewlines(Join(lines[end + 1..], "\n"))))
  }

  function RenderField(f: Field<string, string>): string {
    f.key + ": " + OneLine(f.value)
  }

  function RenderFields(meta: Fields): (lines: seq<string>)
    ensures |lines| == |meta| && forall i | 0 <= i < |lines| :: lines[i] == RenderField(meta[i])
  {
    if meta == [] then [] else [RenderField(meta[0])] + RenderFields(meta[1..])
  }

  function Render(d: Document): string {
    "---\n" + Join(RenderFields(d.meta), "\n") + "\n---\n\n" + RStripNewlines(d.body) + "\n"
  }

  /** The frontmatter loop of `split`. */
  method ReadFields(lines: seq<string>) returns (meta: Fields)
    ensures meta == ParseFields(lines)
  {
    meta := [];
    for i := 0 to |lines|
      invariant meta == ParseFields(lines[..i])
    {
      assert lines[..i + 1][..i] == lines[..i];
      if ':' in lines[i] {
        var (k, v) := SplitOnce(lines[i], ':');
        meta := PutField(meta, Strip(k), Strip(v));
      }
    }
    assert lines[..|lines|] == lines;
  }

  method Read(text: string) returns (r: Result<Document, ParseError>)
    ensures r == Split(text)
  {
    var lines := SplitLines(text);
    if lines == [] || lines[0] != "---" { return Failure(NoFrontmatter); }
    var end := ClosingFence(lines, 1);
    if end == |lines| { return Failure(NotTerminated); }
    var meta := ReadFields(lines[1..end]);
    return Success(Document(meta, LStripNewlines(Join(lines[end + 1..], "\n"))));
  }

  // ---- Reading back what was printed ----

  predicate GoodKey(k: string) { NoBreak(k) && ':' !in k }

  predicate GoodKeys(meta: Fields) {
    forall i | 0 <= i < |meta| :: GoodKey(meta[i].key)
  }

  /** A value as it reads back: on one line, without surrounding white space. */
  function NormValue(v: string): string { Strip(OneLine(v)) }

  /** Fields as they read back; keys that differ only in surrounding white space become one. */
  function NormFields(meta: Fields): Fields {
    Normalise(meta, Strip, NormValue)
  }

  lemma ParseLineAt(meta: Fields, k: string, rest: string)
    requires ':' !in k
    ensures ParseLine(meta, k + [':'] + rest) == PutField(meta, Strip(k), Strip(rest))
  {
    SplitOnceAt(k, ':', rest);
  }

  lemma RenderedShape(f: Field<string, string>)
    ensures RenderField(f) == f.key + [':'] + ([' '] + OneLine(f.value))
  {
  }

  lemma ParseRenderedField(meta: Fields, f: Field<string, string>)
    requires GoodKey(f.key)
    ensures ParseLine(meta, RenderField(f)) == PutField(meta, Strip(f.key), NormValue(f.value))
  {
    RenderedShape(f);
    ParseLineAt(meta, f.key, [' '] + OneLine(f.value));
    StripLeadingBlank(OneLine(f.value));
  }

  lemma RenderedFieldIsLine(f: Field<string, string>)
    requires GoodKey(f.key)
    ensures NoBreak(RenderField(f)) && RenderField(f) != "---"
  {
    assert RenderField(f)[|f.key|] == ':';
  }

  lemma RenderAppend(meta: Fields, f: Field<string, string>)
    ensures RenderFields(meta + [f]) == RenderFields(meta) + [RenderField(f)]
  {
  }

  lemma ParseAppend(lines: seq<string>, line: string)
    ensures ParseFields(lines + [line]) == ParseLine(ParseFields(lines), line)
  {
    assert (lines + [line])[..|lines|] == lines;
  }

  lemma {:induction false} ParseRenderedFields(meta: Fields)
    requires GoodKeys(meta)
    ensures ParseFields(RenderFields(meta)) == NormFields(meta)
  {
    if meta != [] {
      var init, last := meta[..|meta| - 1], meta[|meta| - 1];
      assert meta == init + [last];
      calc {
        ParseFields(RenderFields(init + [last]));
        { RenderAppend(init, last); }
        ParseFields(RenderFields(init) + [RenderField(last)]);
        { ParseAppend(RenderFields(init), RenderField(last)); }
        ParseLine(ParseFields(RenderFields(init)), RenderField(last));
        { ParseRenderedFields(init); ParseRenderedField(NormFields(init), last); }
        PutField(NormFields(init), Strip(last.key), NormValue(last.value));
        { NormaliseAppend(init, last, Strip, NormValue); }
        NormFields(init + [last]);
      }
    }
  }

  lemma RenderedFieldsAreLines(meta: Fields)
    requires GoodKeys(meta)
    ensures forall i | 0 <= i < |meta| :: NoBreak(RenderFields(meta)[i]) && RenderFields(meta)[i] != "---"
  {
    forall i | 0 <= i < |meta| ensures NoBreak(RenderFields(meta)[i]) && RenderFields(meta)[i] != "---" {
      RenderedFieldIsLine(meta[i]);
    }
  }

  lemma {:induction false} JoinAround(middle: seq<string>)
    requires middle != []
    ensures Join(["---"] + middle + ["---"], "\n") == "---\n" + Join(middle, "\n") + "\n---"
  {
    JoinEnd(middle, "---");
    var tail := middle + ["---"];
    assert ["---"] + middle + ["---"] == ["---"] + tail;
    assert (["---"] + tail)[1..] == tail;
    calc {
      Join(["---"] + tail, "\n");
      "---" + "\n" + Join(tail, "\n");
      "---\n" + (Join(middle, "\n") + "\n" + "---");
      "---\n" + Join(middle, "\n") + "\n---";
    }
  }

  lemma {:induction false} JoinEnd(lines: seq<string>, last: string)
    requires lines != []
    ensures Join(lines + [last], "\n") == Join(lines, "\n") + "\n" + last
  {
    if |lines| == 1 {
      assert (lines + [last])[1..] == [last];
    } else {
      assert (lines + [last])[1..] == lines[1..] + [last];
      JoinEnd(lines[1..], last);
      calc {
        Join(lines + [last], "\n");
        lines[0] + "\n" + (Join(lines[1..], "\n") + "\n" + last);
        (lines[0] + "\n" + Join(lines[1..], "\n")) + "\n" + last;
        Join(lines, "\n") + "\n" + last;
      }
    }
  }

  /** The lines between the fences; without fields there is one empty line. */
  function FenceLines(meta: Fields): seq<string> {
    if meta == [] then [""] else RenderFields(meta)
  }

  lemma RenderedLines(d: Document)
    requires GoodKeys(d.meta)
    ensures SplitLines(Render(d)) == ["---"] + FenceLines(d.meta) + ["---"] +
        SplitLines("\n" + RStripNewlines(d.body) + "\n")
  {
    var middle, tail := FenceLines(d.meta), "\n" + RStripNewlines(d.body) + "\n";
    RenderedFieldsAreLines(d.meta);
    JoinAround(middle);
    RegroupText(Join(middle, "\n"), RStripNewlines(d.body));
    assert Join(middle, "\n") == Join(RenderFields(d.meta), "\n");
    FencedNoBreak(middle);
    SplitJoined(["---"] + middle + ["---"], tail);
  }

  lemma FencedNoBreak(middle: seq<string>)
    requires forall i | 0 <= i < |middle| :: NoBreak(middle[i])
    ensures var lines := ["---"] + middle + ["---"]; forall i | 0 <= i < |lines| :: NoBreak(lines[i])
  {
    var lines := ["---"] + middle + ["---"];
    forall i | 0 <= i < |lines| ensures NoBreak(lines[i]) {
      assert lines[i] == if 0 < i <= |middle| then middle[i - 1] else "---";
    }
  }

  lemma RegroupText(fields: string, body: string)
    ensures "---\n" + fields + "\n---\n\n" + body + "\n" == ("---\n" + fields + "\n---") + "\n" + ("\n" + body + "\n")
  {
  }

  lemma FenceFound(middle: seq<string>, rest: seq<string>)
    requires forall i | 0 <= i < |middle| :: middle[i] != "---"
    ensures ClosingFence(["---"] + middle + ["---"] + rest, 1) == |middle| + 1
  {
    var lines := ["---"] + middle + ["---"] + rest;
    var end := ClosingFence(lines, 1);
    assert forall j | 1 <= j <= |middle| :: lines[j] == middle[j - 1];
    assert lines[|middle| + 1] == "---";
  }

  lemma TrimBody(body: string)
    requires OnlyNewlines(body)
    ensures var r := RStripNewlines(body);
            LStripNewlines(Join(SplitLines("\n" + r + "\n"), "\n")) == LStripNewlines(r)
  {
    hide SplitLines, Join;
    var r := RStripNewlines(body);
    assert OnlyNewlines("\n" + r);
    JoinSplit("\n" + r);
    assert ("\n" + r)[1..] == r;
  }

  /** Parsing a printed document gives its fields, normalised, and its body without outer blank lines. */
  lemma SplitRender(d: Document)
    requires GoodKeys(d.meta) && OnlyNewlines(d.body)
    ensures Split(Render(d)) == Success(Document(NormFields(d.meta), LStripNewlines(RStripNewlines(d.body))))
  {
    var middle, rest := FenceLines(d.meta), SplitLines("\n" + RStripNewlines(d.body) + "\n");
    RenderedLines(d);
    ParseRenderedFields(d.meta);
    RenderedFieldsAreLines(d.meta);
    SplitFenced(Render(d), middle, rest);
    TrimBody(d.body);
    EmptyLineIsNoField();
  }

  lemma SplitFenced(text: string, middle: seq<string>, rest: seq<string>)
    requires SplitLines(text) == ["---"] + middle + ["---"] + rest
    requires forall i | 0 <= i < |middle| :: middle[i] != "---"
    ensures Split(text) == Success(Document(ParseFields(middle), LStripNewlines(Join(rest, "\n"))))
  {
    FenceFound(middle, rest);
    FencedParts(middle, rest);
  }

  lemma FencedParts(middle: seq<string>, rest: seq<string>)
    ensures var lines := ["---"] + middle + ["---"] + rest;
            lines[0] == "---" && lines[1..|middle| + 1] == middle && lines[|middle| + 2..] == rest
  {
  }

  lemma EmptyLineIsNoField()
    ensures ParseFields([""]) == []
  {
    assert [""][..0] == [];
    assert ParseLine([], "") == [];
  }
}
