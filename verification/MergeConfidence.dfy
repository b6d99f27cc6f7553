/** Structural-change pipeline: review category, reference tiers, risk, and the merge-confidence verdict. */
module MergeConfidence {
  import opened Common

  /** Counts that may be absent read as zero. */
  datatype RefTiers = RefTiers(proven: Option<nat>, strong: Option<nat>, anchored: Option<nat>, unknown: Option<nat>)

  datatype Impact = Impact(referenceCount: Option<nat>, testFiles: Option<seq<string>>, refTiers: Option<RefTiers>)

  datatype RawChange = RawChange(change: string, oldSig: Option<string>, newSig: Option<string>, impact: Option<Impact>)

  datatype Category = Breaking | Body | Additive | NonStructural

  datatype Change = Change(category: Category, refCount: nat, refTiers: map<string, nat>, testFiles: seq<string>,
      risk: real)

  datatype Confidence = Low | Medium | High

  function OrZero(n: Option<nat>): nat { if n.Some? then n.value else 0 }

  function Get(tiers: map<string, nat>, tier: string): nat { if tier in tiers then tiers[tier] else 0 }

  // ---- The raw facts, read without the pipeline ----

  function RefCount(c: RawChange): nat {
    if c.impact.Some? then OrZero(c.impact.value.referenceCount) else 0
  }

  function TestFiles(c: RawChange): seq<string> {
    if c.impact.Some? && c.impact.value.testFiles.Some? then c.impact.value.testFiles.value else []
  }

  function Tiers(c: RawChange): RefTiers {
    if c.impact.Some? && c.impact.value.refTiers.Some? then c.impact.value.refTiers.value
    else RefTiers(None, None, None, None)
  }

  /** References that analysis could attribute: proven, strong or anchored. */
  function Known(c: RawChange): nat {
    OrZero(Tiers(c).proven) + OrZero(Tiers(c).strong) + OrZero(Tiers(c).anchored)
  }

  /** References that remain unverified: those reported unknown, or the gap to the reported total if that is larger. */
  function Unverified(c: RawChange): nat {
    var unknown := OrZero(Tiers(c).unknown);
    if RefCount(c) > Known(c) + unknown then RefCount(c) - Known(c) else unknown
  }

  predicate IsBreaking(c: RawChange) {
    || (c.change == "removed" && RefCount(c) > 0)
    || (c.change == "modified" && c.oldSig.Some? && c.newSig.Some? && c.oldSig != c.newSig)
  }

  // ---- The pipeline ----

  function ClassifyCategory(c: RawChange): (r: Category)
    ensures r.Breaking? <==> IsBreaking(c)
    ensures r.Body? <==> c.change == "moved" || (c.change == "modified" && !IsBreaking(c))
    ensures r.Additive? <==> c.change == "added"
    ensures c.change == "removed" && RefCount(c) == 0 ==> r.NonStructural?
  {
    if c.change == "removed" then (if RefCount(c) > 0 then Breaking else NonStructural)
    else if c.change == "modified" then
      if c.oldSig.Some? && c.newSig.Some? && c.oldSig != c.newSig then Breaking else Body
    else if c.change == "added" then Additive
    else if c.change == "moved" then Body
    else NonStructural
  }

  /** The sum of a dictionary of counts over the three labels it may hold. */
  function SumTiers(tiers: map<string, nat>): nat {
    Get(tiers, "verified") + Get(tiers, "inferred") + Get(tiers, "unverified")
  }

  predicate OnlyTierLabels(tiers: map<string, nat>) {
    tiers.Keys <= {"verified", "inferred", "unverified"}
  }

  /** Labels with a zero count are left out; no reference is lost or counted twice. */
  method TranslateRefTiers(raw: RefTiers) returns (result: map<string, nat>)
    ensures OnlyTierLabels(result) && forall tier | tier in result :: result[tier] > 0
    ensures Get(result, "verified") == OrZero(raw.proven)
    ensures Get(result, "inferred") == OrZero(raw.strong) + OrZero(raw.anchored)
    ensures Get(result, "unverified") == OrZero(raw.unknown)
  {
    result := map[];
    var proven, strong, anchored, unknown := OrZero(raw.proven), OrZero(raw.strong), OrZero(raw.anchored),
        OrZero(raw.unknown);
    if proven != 0 { result := result["verified" := proven]; }
    if strong != 0 || anchored != 0 { result := result["inferred" := strong + anchored]; }
    if unknown != 0 { result := result["unverified" := unknown]; }
  }

  function Severity(c: Category): real {
    match c
    case Breaking => 1.0
    case Body => 0.5
    case Additive => 0.1
    case NonStructural => 0.0
  }

  /** The weighted score before rounding. */
  function ComputeRisk(category: Category, tiers: map<string, nat>, testFiles: seq<string>): (risk: real)
    ensures 0.0 <= risk <= 1.0
    ensures risk == 1.0 <==>
      category.Breaking? && testFiles == [] && SumTiers(tiers) > 0 && Get(tiers, "unverified") == SumTiers(tiers)
  {
    var total := SumTiers(tiers);
    var ratio := if total > 0 then UnverifiedShare(Get(tiers, "unverified"), total) else 0.0;
    0.4 * Severity(category) + 0.35 * ratio + 0.25 * (if testFiles == [] then 1.0 else 0.0)
  }

  function UnverifiedShare(part: nat, total: nat): (ratio: real)
    requires part <= total && total > 0
    ensures 0.0 <= ratio <= 1.0 && (ratio == 1.0 <==> part == total)
  {
    var p, t := part as real, total as real;
    assert p / t <= 1.0 by { assert p <= t; }
    p / t
  }

  /** What a category alone adds to the score, in hundredths. */
  function Points(category: Category): real {
    match category
    case Breaking => 40.0
    case Body => 20.0
    case Additive => 4.0
    case NonStructural => 0.0
  }

  /** The score in hundredths: the points of the category, 25 without a test, and of 35 the part that the unverified
      references are of all. */
  lemma RiskAddsUp(category: Category, tiers: map<string, nat>, testFiles: seq<string>)
    ensures var base := 100.0 * ComputeRisk(category, tiers, testFiles) - Points(category)
                        - if testFiles == [] then 25.0 else 0.0;
      && (SumTiers(tiers) == 0 ==> base == 0.0)
      && base * SumTiers(tiers) as real == 35.0 * Get(tiers, "unverified") as real
  {
    if SumTiers(tiers) > 0 { ShareTimes(Get(tiers, "unverified"), SumTiers(tiers)); }
  }

  lemma ShareTimes(part: nat, total: nat)
    requires part <= total && total > 0
    ensures (35.0 * UnverifiedShare(part, total)) * total as real == 35.0 * part as real
  {
    var ratio, t := UnverifiedShare(part, total), total as real;
    assert ratio * t == part as real;
    assert (35.0 * ratio) * t == 35.0 * (ratio * t);
  }

  /** The score never falls when the category becomes more severe, a test is lost, or a larger part is unverified. */
  lemma RiskIsMonotone(c: Category, tiers: map<string, nat>, tests: seq<string>,
                       c': Category, tiers': map<string, nat>, tests': seq<string>)
    requires Points(c) <= Points(c') && (tests == [] ==> tests' == []) && SumTiers(tiers') > 0
    requires Get(tiers, "unverified") * SumTiers(tiers') <= Get(tiers', "unverified") * SumTiers(tiers)
    ensures ComputeRisk(c, tiers, tests) <= ComputeRisk(c', tiers', tests')
    ensures Round2(ComputeRisk(c, tiers, tests)) <= Round2(ComputeRisk(c', tiers', tests'))
  {
    if SumTiers(tiers) > 0 {
      LargerShare(Get(tiers, "unverified"), SumTiers(tiers), Get(tiers', "unverified"), SumTiers(tiers'));
    }
    RoundingIsMonotone(ComputeRisk(c, tiers, tests), ComputeRisk(c', tiers', tests'));
  }

  lemma LargerShare(part: nat, total: nat, part': nat, total': nat)
    requires part <= total && total > 0 && part' <= total' && total' > 0 && part * total' <= part' * total
    ensures UnverifiedShare(part, total) <= UnverifiedShare(part', total')
  {
    var x, y := UnverifiedShare(part, total), UnverifiedShare(part', total');
    var t, t' := total as real, total' as real;
    assert x * t == part as real && y * t' == part' as real;
    assert (y - x) * (t * t') == (y * t') * t - (x * t) * t';
    assert (part' * total) as real == part' as real * t && (part * total') as real == part as real * t';
    assert t * t' > 0.0;
    ProductSign(y - x, t * t');
  }

  lemma RoundingIsMonotone(x: real, y: real)
    requires x <= y
    ensures Round2(x) <= Round2(y)
  {
    var n, m := (x * 100.0).Floor, (y * 100.0).Floor;
    assert n <= m;
  }

  /** The rounded value is a whole number of hundredths, none is nearer, and of two equally near it is the even one. */
  lemma RoundsToNearest(x: real) returns (n: int)
    ensures Round2(x) == n as real / 100.0
    ensures -0.5 <= x * 100.0 - n as real <= 0.5
    ensures x * 100.0 - n as real == 0.5 || x * 100.0 - n as real == -0.5 ==> n % 2 == 0
  {
    var f := (x * 100.0).Floor;
    var rest := x * 100.0 - f as real;
    n := if rest < 0.5 || (rest == 0.5 && f % 2 == 0) then f else f + 1;
  }

  /** `round(x, 2)`: the nearest hundredth, a tie going to the even one. */
  function Round2(x: real): (r: real)
    ensures -0.005 <= r - x <= 0.005
    ensures 0.0 <= x <= 1.0 ==> 0.0 <= r <= 1.0
  {
    var n := (x * 100.0).Floor;
    var rest := x * 100.0 - n as real;
    var m := if rest < 0.5 || (rest == 0.5 && n % 2 == 0) then n else n + 1;
    m as real / 100.0
  }

  lemma RoundsToOne(x: real)
    requires 0.0 <= x <= 1.0
    ensures Round2(x) == 1.0 <==> x >= 0.995
  {
    var n := (x * 100.0).Floor;
    assert n <= 100;
    if n <= 98 { assert Round2(x) <= 0.99; }
  }

  lemma ShareAtLeast(part: nat, total: nat)
    requires part <= total && total > 0
    ensures 0.65 + 0.35 * UnverifiedShare(part, total) >= 0.995 <==> 70 * part >= 69 * total
  {
    var p, t := part as real, total as real;
    var ratio := UnverifiedShare(part, total);
    assert ratio * t == p;
    assert 0.65 + 0.35 * ratio >= 0.995 <==> 70.0 * ratio - 69.0 >= 0.0;
    var gap := 70.0 * ratio - 69.0;
    assert gap * t == 70.0 * (ratio * t) - 69.0 * t == (70 * part - 69 * total) as real;
    ProductSign(gap, t);
  }

  lemma ProductSign(x: real, y: real)
    requires y > 0.0
    ensures x * y >= 0.0 <==> x >= 0.0
  {
  }

  /** The rounded risk is 1 exactly for an untested breaking change of whose references at most one in seventy is
      verified or inferred. */
  lemma RiskIsOneIff(category: Category, tiers: map<string, nat>, testFiles: seq<string>)
    ensures Round2(ComputeRisk(category, tiers, testFiles)) == 1.0 <==>
      && category.Breaking? && testFiles == [] && SumTiers(tiers) > 0
      && 70 * Get(tiers, "unverified") >= 69 * SumTiers(tiers)
  {
    RoundsToOne(ComputeRisk(category, tiers, testFiles));
    if SumTiers(tiers) > 0 { ShareAtLeast(Get(tiers, "unverified"), SumTiers(tiers)); }
  }

  /** What the pipeline promises about one built change, in terms of the raw facts. */
  ghost predicate Describes(ch: Change, c: RawChange) {
    && (ch.category.Breaking? <==> IsBreaking(c))
    && ch.category == ClassifyCategory(c)
    && ch.refCount == RefCount(c)
    && ch.testFiles == TestFiles(c)
    && OnlyTierLabels(ch.refTiers)
    && Get(ch.refTiers, "verified") + Get(ch.refTiers, "inferred") == Known(c)
    && Get(ch.refTiers, "unverified") == Unverified(c)
    && 0.0 <= ch.risk <= 1.0
  }

  /** Every reported reference ends up in some tier. */
  method BuildStructuralChanges(raw: seq<RawChange>) returns (changes: seq<Change>)
    ensures |changes| == |raw|
    ensures forall i | 0 <= i < |raw| :: Describes(changes[i], raw[i])
    ensures forall i | 0 <= i < |raw| :: SumTiers(changes[i].refTiers) >= changes[i].refCount
    ensures forall i | 0 <= i < |raw| ::
      changes[i].risk == Round2(ComputeRisk(changes[i].category, changes[i].refTiers, changes[i].testFiles))
  {
    changes := [];
    for i := 0 to |raw|
      invariant |changes| == i
      invariant forall j | 0 <= j < i :: Describes(changes[j], raw[j])
      invariant forall j | 0 <= j < i :: SumTiers(changes[j].refTiers) >= changes[j].refCount
      invariant forall j | 0 <= j < i ::
        changes[j].risk == Round2(ComputeRisk(changes[j].category, changes[j].refTiers, changes[j].testFiles))
    {
      var change := BuildChange(raw[i]);
      changes := changes + [change];
    }
  }

  method BuildChange(c: RawChange) returns (ch: Change)
    ensures Describes(ch, c)
    ensures SumTiers(ch.refTiers) >= ch.refCount
    ensures ch.risk == Round2(ComputeRisk(ch.category, ch.refTiers, ch.testFiles))
  {
    var category := ClassifyCategory(c);
    var refCount := RefCount(c);
    var testFiles := TestFiles(c);
    var tiers := map[];
    if c.impact.Some? && c.impact.value.refTiers.Some? {
      tiers := TranslateRefTiers(c.impact.value.refTiers.value);
    }
    var classified := SumTiers(tiers);
    if refCount > classified {
      tiers := tiers["unverified" := Get(tiers, "unverified") + (refCount - classified)];
    }
    ch := Change(category, refCount, tiers, testFiles, Round2(ComputeRisk(category, tiers, testFiles)));
  }

  // ---- The verdict ----

  predicate UnverifiedBreaking(ch: Change) { ch.category.Breaking? && Get(ch.refTiers, "unverified") > 0 }
  predicate Uncertain(ch: Change) {
    Get(ch.refTiers, "unverified") > 0 || (ch.category.Breaking? && ch.testFiles == [])
  }

  /** The verdict on a single change. */
  function ChangeConfidence(ch: Change): Confidence {
    if UnverifiedBreaking(ch) then Low else if Uncertain(ch) then Medium else High
  }

  function Min(a: Confidence, b: Confidence): Confidence {
    if a.Low? || b.Low? then Low else if a.Medium? || b.Medium? then Medium else High
  }

  /** The worst verdict of all changes, High when there is none. */
  function Worst(changes: seq<Change>): Confidence {
    if changes == [] then High else Min(Worst(changes[..|changes| - 1]), ChangeConfidence(changes[|changes| - 1]))
  }

  /** The flag loop computes the worst single verdict; a new dependency cycle overrides it. */
  method ComputeMergeConfidence(changes: seq<Change>, hasNewCycles: bool) returns (r: Confidence)
    ensures r == if hasNewCycles then Low else Worst(changes)
  {
    if hasNewCycles { return Low; }
    var hasUnverifiedBreaking, hasUnknownRefs, hasUntestedBreaking := false, false, false;
    for i := 0 to |changes|
      invariant hasUnverifiedBreaking <==> Worst(changes[..i]).Low?
      invariant hasUnverifiedBreaking || ((hasUnknownRefs || hasUntestedBreaking) <==> Worst(changes[..i]).Medium?)
    {
      var ch := changes[i];
      assert changes[..i + 1][..i] == changes[..i];
      if Get(ch.refTiers, "unverified") > 0 {
        hasUnknownRefs := true;
        if ch.category.Breaking? { hasUnverifiedBreaking := true; }
      }
      if ch.category.Breaking? && ch.testFiles == [] { hasUntestedBreaking := true; }
    }
    assert changes[..|changes|] == changes;
    if hasUnverifiedBreaking { return Low; }
    if hasUnknownRefs || hasUntestedBreaking { return Medium; }
    return High;
  }

  lemma {:induction false} WorstConcat(a: seq<Change>, b: seq<Change>)
    ensures Worst(a + b) == Min(Worst(a), Worst(b))
  {
    if b == [] {
      assert a + b == a;
    } else {
      assert (a + b)[..|a + b| - 1] == a + b[..|b| - 1];
      WorstConcat(a, b[..|b| - 1]);
    }
  }

  lemma WorstLast(changes: seq<Change>)
    requires changes != []
    ensures var init, last := changes[..|changes| - 1], changes[|changes| - 1];
      && (Worst(changes).Low? <==> Worst(init).Low? || UnverifiedBreaking(last))
      && (Worst(changes).High? <==> Worst(init).High? && !Uncertain(last))
  {
  }

  lemma {:induction false} WorstBounds(changes: seq<Change>)
    ensures Worst(changes).Low? <==> exists ch :: ch in changes && UnverifiedBreaking(ch)
    ensures Worst(changes).High? <==> forall ch | ch in changes :: !Uncertain(ch)
  {
    if changes != [] {
      var init, last := changes[..|changes| - 1], changes[|changes| - 1];
      hide Worst, Uncertain, UnverifiedBreaking;
      WorstBounds(init);
      assert changes == init + [last];
      assert last in changes;
      WorstLast(changes);
    }
  }

  /** Order and repetition of changes do not matter. */
  lemma WorstIgnoresOrder(a: seq<Change>, b: seq<Change>)
    requires forall ch :: ch in a <==> ch in b
    ensures Worst(a) == Worst(b)
  {
    WorstBounds(a);
    WorstBounds(b);
  }

  /** Adding changes never raises the verdict. */
  lemma MoreChangesNeverRaise(a: seq<Change>, b: seq<Change>)
    ensures Min(Worst(a + b), Worst(a)) == Worst(a + b)
  {
    WorstConcat(a, b);
  }

  ghost predicate Built(raw: seq<RawChange>, changes: seq<Change>) {
    |changes| == |raw| && forall i | 0 <= i < |raw| :: Describes(changes[i], raw[i])
  }

  /** The verdict in terms of the raw analysis: HIGH leaves no unverified reference and no untested breaking change. */
  lemma HighMeansEverythingVerified(raw: seq<RawChange>, changes: seq<Change>, hasNewCycles: bool)
    requires Built(raw, changes)
    ensures (if hasNewCycles then Low else Worst(changes)).High? <==>
      && !hasNewCycles
      && forall i | 0 <= i < |raw| ::
           && RefCount(raw[i]) <= Known(raw[i])
           && OrZero(Tiers(raw[i]).unknown) == 0
           && (IsBreaking(raw[i]) ==> TestFiles(raw[i]) != [])
  {
    WorstBounds(changes);
    forall i | 0 <= i < |raw|
      ensures Uncertain(changes[i]) <==> !(RefCount(raw[i]) <= Known(raw[i]) && OrZero(Tiers(raw[i]).unknown) == 0
                                            && (IsBreaking(raw[i]) ==> TestFiles(raw[i]) != []))
    {
      assert Describes(changes[i], raw[i]);
    }
    assert forall i | 0 <= i < |changes| :: changes[i] in changes;
    assert (forall ch | ch in changes :: !Uncertain(ch)) <==> (forall i | 0 <= i < |changes| :: !Uncertain(changes[i]));
  }

  /** LOW exactly when there is a new cycle or a breaking change with a reference that nothing accounts for. */
  lemma LowMeansUnverifiedBreaking(raw: seq<RawChange>, changes: seq<Change>, hasNewCycles: bool)
    requires Built(raw, changes)
    ensures (if hasNewCycles then Low else Worst(changes)).Low? <==>
      hasNewCycles || exists i :: 0 <= i < |raw| && IsBreaking(raw[i])
                                  && (RefCount(raw[i]) > Known(raw[i]) || OrZero(Tiers(raw[i]).unknown) > 0)
  {
    WorstBounds(changes);
    forall i | 0 <= i < |raw|
      ensures UnverifiedBreaking(changes[i]) <==>
        IsBreaking(raw[i]) && (RefCount(raw[i]) > Known(raw[i]) || OrZero(Tiers(raw[i]).unknown) > 0)
    {
      assert Describes(changes[i], raw[i]);
    }
    if ch :| ch in changes && UnverifiedBreaking(ch) {
      var i :| 0 <= i < |changes| && changes[i] == ch;
    }
    if i :| 0 <= i < |raw| && UnverifiedBreaking(changes[i]) {
      assert changes[i] in changes;
    }
  }

  /** The review story's verdict block: its blockers are non-empty exactly when its confidence is LOW. */
  method Verdict(changes: seq<Change>, hasNewCycles: bool) returns (confidence: Confidence, blockers: seq<string>)
    ensures confidence == if hasNewCycles then Low else Worst(changes)
    ensures blockers != [] <==> confidence.Low?
    ensures "New dependency cycles detected" in blockers <==> hasNewCycles
    ensures "Breaking changes with unverified callers" in blockers <==> exists ch ::
      ch in changes && UnverifiedBreaking(ch)
  {
    confidence := ComputeMergeConfidence(changes, hasNewCycles);
    WorstBounds(changes);
    blockers := [];
    if hasNewCycles { blockers := blockers + ["New dependency cycles detected"]; }
    assert |"New dependency cycles detected"| != |"Breaking changes with unverified callers"|;
    if exists ch :: ch in changes && UnverifiedBreaking(ch) {
      blockers := blockers + ["Breaking changes with unverified callers"];
    }
  }
}
