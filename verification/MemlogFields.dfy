/** Fields that read back as they stand, and the documents that a second print leaves unchanged. */
module MemlogFields {
  import opened Common
  import opened PyText
  import opened OrderedDict
  import opened MemlogDocument

  /** Distinct stripped keys without `:` or line breaks, one-line stripped values. */
  ghost predicate Canonical(meta: Fields) {
    Normal(meta, Strip, NormValue) && GoodKeys(meta)
  }

  lemma NormValueFixed(v: string)
    ensures NormValue(NormValue(v)) == NormValue(v) && OneLine(NormValue(v)) == NormValue(v)
  {
    StripNoBreak(OneLine(v));
    StripIdempotent(OneLine(v));
  }

  lemma StripGoodKey(k: string)
    requires GoodKey(k)
    ensures GoodKey(Strip(k)) && Strip(Strip(k)) == Strip(k)
  {
    StripIdempotent(k);
    StripNoBreak(k);
    StripNoChar(k, ':');
  }

  lemma UpdatedFixed()
    ensures GoodKey("updated") && Strip("updated") == "updated"
  {
    StripFixed("updated");
  }

  lemma PutGoodKeys(meta: Fields, key: string, value: string)
    requires GoodKeys(meta) && GoodKey(key)
    ensures GoodKeys(PutField(meta, key, value))
  {
  }

  lemma RemoveGoodKeys(meta: Fields, key: string)
    requires GoodKeys(meta)
    ensures GoodKeys(Remove(meta, key))
  {
  }

  lemma TouchGoodKeys(meta: Fields, now: string)
    requires GoodKeys(meta)
    ensures GoodKeys(Touch(meta, now))
  {
    UpdatedFixed();
    RemoveGoodKeys(meta, "updated");
  }

  /** Whatever is printed reads back as canonical fields. */
  lemma {:induction false} NormIsCanonical(meta: Fields)
    requires GoodKeys(meta)
    ensures Canonical(NormFields(meta))
  {
    forall i | 0 <= i < |meta|
      ensures Strip(Strip(meta[i].key)) == Strip(meta[i].key)
      ensures NormValue(NormValue(meta[i].value)) == NormValue(meta[i].value)
    {
      StripGoodKey(meta[i].key);
      NormValueFixed(meta[i].value);
    }
    NormaliseIsNormal(meta, Strip, NormValue);
    NormGoodKeys(meta);
  }

  lemma {:induction false} NormGoodKeys(meta: Fields)
    requires GoodKeys(meta)
    ensures GoodKeys(NormFields(meta))
  {
    if meta != [] {
      var last := meta[|meta| - 1];
      NormGoodKeys(meta[..|meta| - 1]);
      StripGoodKey(last.key);
      PutGoodKeys(NormFields(meta[..|meta| - 1]), Strip(last.key), NormValue(last.value));
    }
  }

  /** `set` and `touch`, printed and read again: the stripped key holds the normalised value and `updated` is last. */
  lemma SetReadsBack(meta: Fields, key: string, value: string, now: string)
    requires Canonical(meta) && GoodKey(key) && NormValue(now) == now
    ensures NormFields(Touch(PutField(meta, key, value), now))
        == Touch(PutField(meta, Strip(key), NormValue(value)), now)
    ensures Canonical(Touch(PutField(meta, Strip(key), NormValue(value)), now))
  {
    UpdatedFixed();
    StripGoodKey(key);
    NormaliseMoved(meta, key, value, "updated", now, Strip, NormValue);
    PutGoodKeys(meta, key, value);
    TouchGoodKeys(PutField(meta, key, value), now);
    NormIsCanonical(Touch(PutField(meta, key, value), now));
  }

  lemma TouchReadsBack(meta: Fields, now: string)
    requires Canonical(meta) && NormValue(now) == now
    ensures NormFields(Touch(meta, now)) == Touch(meta, now) && Canonical(Touch(meta, now))
  {
    UpdatedFixed();
    TouchGoodKeys(meta, now);
    RemoveKeepsNormal(meta, "updated", Strip, NormValue);
    PutAbsent(Remove(meta, "updated"), "updated", now);
    PutKeepsNormal(Remove(meta, "updated"), "updated", now, Strip, NormValue);
    NormalIsFixed(Touch(meta, now), Strip, NormValue);
  }

  // ---- When a second print changes nothing ----

  /** The fields as printed: values on one line. */
  function Printed(meta: Fields): Fields {
    MapValues(meta, OneLine)
  }

  lemma NormOfOneLine(v: string)
    ensures NormValue(OneLine(v)) == NormValue(v)
  {
  }

  lemma NormOfPrinted(meta: Fields)
    ensures NormFields(Printed(meta)) == NormFields(meta)
    ensures RenderFields(Printed(meta)) == RenderFields(meta)
  {
    forall i | 0 <= i < |meta| ensures NormValue(OneLine(meta[i].value)) == NormValue(meta[i].value) {
      NormOfOneLine(meta[i].value);
    }
    NormaliseMapped(meta, OneLine, Strip, NormValue);
    var r, p := RenderFields(meta), RenderFields(Printed(meta));
    forall i | 0 <= i < |meta| ensures p[i] == r[i] {
      RenderOneLine(meta[i]);
    }
  }

  lemma RenderOneLine(f: Field<string, string>)
    ensures RenderField(Field(f.key, OneLine(f.value))) == RenderField(f)
  {
  }

  lemma SameRenderedField(a: Field<string, string>, b: Field<string, string>)
    requires GoodKey(a.key) && GoodKey(b.key) && RenderField(a) == RenderField(b)
    ensures a.key == b.key && OneLine(a.value) == OneLine(b.value)
  {
    RenderedShape(a);
    RenderedShape(b);
    SplitOnceAt(a.key, ':', [' '] + OneLine(a.value));
    SplitOnceAt(b.key, ':', [' '] + OneLine(b.value));
    assert ([' '] + OneLine(a.value))[1..] == OneLine(a.value);
    assert ([' '] + OneLine(b.value))[1..] == OneLine(b.value);
  }

  /** Equal texts have equal frontmatter lines and equal bodies up to final newlines. */
  lemma RenderInjective(a: Document, b: Document)
    requires GoodKeys(a.meta) && GoodKeys(b.meta) && OnlyNewlines(a.body) && OnlyNewlines(b.body)
    requires Render(a) == Render(b)
    ensures RenderFields(a.meta) == RenderFields(b.meta) && RStripNewlines(a.body) == RStripNewlines(b.body)
  {
    RenderedLines(a);
    RenderedLines(b);
    RenderedFieldsAreLines(a.meta);
    RenderedFieldsAreLines(b.meta);
    var ra, rb := SplitLines("\n" + RStripNewlines(a.body) + "\n"), SplitLines("\n" + RStripNewlines(b.body) + "\n");
    SameFences(FenceLines(a.meta), ra, FenceLines(b.meta), rb);
    SameFenceLines(a.meta, b.meta);
    BodyFromLines(a.body, b.body);
  }

  lemma SameFences(ma: seq<string>, ra: seq<string>, mb: seq<string>, rb: seq<string>)
    requires ["---"] + ma + ["---"] + ra == ["---"] + mb + ["---"] + rb
    requires forall i | 0 <= i < |ma| :: ma[i] != "---"
    requires forall i | 0 <= i < |mb| :: mb[i] != "---"
    ensures ma == mb && ra == rb
  {
    FenceFound(ma, ra);
    FenceFound(mb, rb);
    FencedParts(ma, ra);
    FencedParts(mb, rb);
  }

  lemma SameFenceLines(a: Fields, b: Fields)
    requires GoodKeys(a) && GoodKeys(b) && FenceLines(a) == FenceLines(b)
    ensures RenderFields(a) == RenderFields(b)
  {
    if a != [] { assert RenderFields(a)[0][|a[0].key|] == ':'; }
    if b != [] { assert RenderFields(b)[0][|b[0].key|] == ':'; }
  }

  lemma BodyFromLines(a: string, b: string)
    requires OnlyNewlines(a) && OnlyNewlines(b)
    requires SplitLines("\n" + RStripNewlines(a) + "\n") == SplitLines("\n" + RStripNewlines(b) + "\n")
    ensures RStripNewlines(a) == RStripNewlines(b)
  {
    hide SplitLines, RStripNewlines, Join;
    var x, y := RStripNewlines(a), RStripNewlines(b);
    JoinSplit("\n" + x);
    JoinSplit("\n" + y);
    assert ("\n" + x)[1..] == x && ("\n" + y)[1..] == y;
  }

  lemma {:induction false} LStripKeepsEnd(s: string)
    ensures RStripNewlines(s) == s ==> RStripNewlines(LStripNewlines(s)) == LStripNewlines(s)
    ensures OnlyNewlines(s) ==> OnlyNewlines(LStripNewlines(s))
  {
    if s != [] && s[0] == '\n' {
      LStripKeepsEnd(s[1..]);
      if RStripNewlines(s) == s && |s| > 1 { assert s[1..][|s| - 2] == s[|s| - 1]; }
    }
  }

  lemma RStripOnlyNewlines(s: string)
    requires OnlyNewlines(s)
    ensures OnlyNewlines(RStripNewlines(s)) && RStripNewlines(RStripNewlines(s)) == RStripNewlines(s)
  {
  }

  /** What a caller can check: stripped distinct keys, values without outer white space, no leading blank line. */
  ghost predicate PrintsStably(d: Document) {
    && DistinctKeys(d.meta) && NormalKeys(d.meta, Strip)
    && (forall i | 0 <= i < |d.meta| :: Strip(OneLine(d.meta[i].value)) == OneLine(d.meta[i].value))
    && LStripNewlines(RStripNewlines(d.body)) == RStripNewlines(d.body)
  }

  /** The document that a print and a re-read give. */
  function Reread(d: Document): Document {
    Document(NormFields(d.meta), LStripNewlines(RStripNewlines(d.body)))
  }

  /** Printing, reading and printing again gives the first print exactly for such documents. */
  lemma SecondPrintSameIffStable(d: Document)
    requires GoodKeys(d.meta) && OnlyNewlines(d.body)
    ensures Split(Render(d)) == Success(Reread(d))
    ensures Render(Reread(d)) == Render(d) <==> PrintsStably(d)
  {
    SplitRender(d);
    NormIsCanonical(d.meta);
    RStripOnlyNewlines(d.body);
    LStripKeepsEnd(RStripNewlines(d.body));
    if PrintsStably(d) {
      StableFields(d.meta);
    }
    if Render(Reread(d)) == Render(d) {
      RenderInjective(Reread(d), d);
      FieldsWereStable(d.meta);
    }
  }

  lemma StableFields(meta: Fields)
    requires DistinctKeys(meta) && NormalKeys(meta, Strip)
    requires forall i | 0 <= i < |meta| :: Strip(OneLine(meta[i].value)) == OneLine(meta[i].value)
    ensures RenderFields(NormFields(meta)) == RenderFields(meta)
  {
    NormOfPrinted(meta);
    forall i | 0 <= i < |meta| ensures NormValue(OneLine(meta[i].value)) == OneLine(meta[i].value) {
      NormOfOneLine(meta[i].value);
    }
    MappedIsNormal(meta, OneLine, Strip, NormValue);
    NormalIsFixed(Printed(meta), Strip, NormValue);
  }

  lemma FieldWasStable(n: Field<string, string>, m: Field<string, string>)
    requires GoodKey(n.key) && GoodKey(m.key) && RenderField(n) == RenderField(m) && NormValue(n.value) == n.value
    ensures n.key == m.key && Strip(OneLine(m.value)) == OneLine(m.value)
  {
    SameRenderedField(n, m);
    NormValueFixed(n.value);
  }

  lemma FieldsWereStable(meta: Fields)
    requires GoodKeys(meta) && RenderFields(NormFields(meta)) == RenderFields(meta)
    ensures DistinctKeys(meta) && NormalKeys(meta, Strip)
    ensures forall i | 0 <= i < |meta| :: Strip(OneLine(meta[i].value)) == OneLine(meta[i].value)
  {
    var n := NormFields(meta);
    NormIsCanonical(meta);
    forall i | 0 <= i < |meta|
      ensures n[i].key == meta[i].key && Strip(OneLine(meta[i].value)) == OneLine(meta[i].value)
    {
      assert RenderFields(n)[i] == RenderFields(meta)[i];
      FieldWasStable(n[i], meta[i]);
    }
    SameKeys(meta, n, Strip, NormValue);
  }

  /** One re-read settles a document: after it, printing and reading change nothing any more. */
  lemma RereadSettles(d: Document)
    requires GoodKeys(d.meta) && OnlyNewlines(d.body)
    ensures Reread(Reread(d)) == Reread(d) && PrintsStably(Reread(d))
  {
    NormIsCanonical(d.meta);
    NormalIsFixed(NormFields(d.meta), Strip, NormValue);
    RStripOnlyNewlines(d.body);
    LStripKeepsEnd(RStripNewlines(d.body));
    LStripTwice(RStripNewlines(d.body));
    var n := NormFields(d.meta);
    forall i | 0 <= i < |n| ensures Strip(OneLine(n[i].value)) == OneLine(n[i].value) {
      NormValueFixed(n[i].value);
    }
  }

  lemma LStripTwice(s: string)
    ensures LStripNewlines(LStripNewlines(s)) == LStripNewlines(s)
  {
  }
}
