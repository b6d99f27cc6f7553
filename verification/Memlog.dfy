/** The memory log as a file that commands read, change and write back. */
module Memlog {
  import opened Common
  import opened PyText
  import opened OrderedDict
  import opened MemlogDocument
  import opened MemlogFields
  import opened MemlogEntry

  /** An absent `--type` or `--by` and an empty one mean the same. */
  datatype Command =
    | Init(pairs: seq<string>)
    | Append(text: string, kind: string, author: string)
    | Set(key: string, value: string)

  datatype Outcome = Ack(entries: nat) | AlreadyExists | BadField | NoFile | Unreadable(error: ParseError)

  // ---- The commands on file contents ----

  function EntryCount(body: string): nat {
    CountEntries(SplitLines(body))
  }

  function CountEntries(lines: seq<string>): nat {
    if lines == [] then 0 else CountEntries(lines[..|lines| - 1]) + if IsEntry(lines[|lines| - 1]) then 1 else 0
  }

  /** The number of lines that open with a dash and a blank, other lines of the body apart. */
  lemma {:induction false} CountsEntryLines(lines: seq<string>)
    ensures CountEntries(lines) == |set i | 0 <= i < |lines| && "- " <= lines[i]|
  {
    var positions := set i | 0 <= i < |lines| && "- " <= lines[i];
    if lines != [] {
      var n := |lines| - 1;
      var earlier := set i | 0 <= i < n && "- " <= lines[..n][i];
      CountsEntryLines(lines[..n]);
      assert positions == if IsEntry(lines[n]) then earlier + {n} else earlier;
    }
  }

  /** The fields of `--field key=value` arguments, or nothing if one has no `=`. */
  function InitFields(pairs: seq<string>): Option<Fields> {
    if pairs == [] then Some([])
    else
      var pair, earlier := pairs[|pairs| - 1], InitFields(pairs[..|pairs| - 1]);
      if earlier.None? || '=' !in pair then None
      else
        var (k, v) := SplitOnce(pair, '=');
        Some(PutField(earlier.value, Strip(k), Strip(v)))
  }

  /** The document after `append`, and after `set`. */
  function AppendTo(d: Document, text: string, kind: string, author: string, now: string): Document {
    Document(Touch(d.meta, now), AddEntry(d.body, EntryLine(text, kind, author)))
  }

  function SetIn(d: Document, key: string, value: string, now: string): Document {
    Document(Touch(PutField(d.meta, key, value), now), d.body)
  }

  function Write(d: Document): (Option<string>, Outcome) {
    (Some(Render(d)), Ack(EntryCount(d.body)))
  }

  function Apply(file: Option<string>, c: Command, now: string): (Option<string>, Outcome) {
    match c
    case Init(pairs) =>
      if file.Some? then (file, AlreadyExists)
      else if InitFields(pairs).None? then (file, BadField)
      else Write(Document(Touch(InitFields(pairs).value, now), ""))
    case Append(text, kind, author) =>
      var d := Load(file);
      if d.Failure? then (file, d.error) else Write(AppendTo(d.value, text, kind, author, now))
    case Set(key, value) =>
      var d := Load(file);
      if d.Failure? then (file, d.error) else Write(SetIn(d.value, key, value, now))
  }

  /** Reading the file fails if it is absent or has no complete frontmatter. */
  function Load(file: Option<string>): Result<Document, Outcome> {
    if file.None? then Failure(NoFile)
    else
      match Split(file.value)
      case Success(d) => Success(d)
      case Failure(e) => Failure(Unreadable(e))
  }

  /** The loop over `--field` arguments; the first one without `=` ends it. */
  method ParsePairs(pairs: seq<string>) returns (r: Option<Fields>)
    ensures r == InitFields(pairs)
  {
    var meta: Fields := [];
    for i := 0 to |pairs|
      invariant InitFields(pairs[..i]) == Some(meta)
    {
      TakeOneMore(pairs, i);
      AddPair(pairs[..i], pairs[i]);
      if '=' !in pairs[i] {
        BadPairFails(pairs, i);
        return None;
      }
      var (k, v) := SplitOnce(pairs[i], '=');
      meta := PutField(meta, Strip(k), Strip(v));
    }
    assert pairs[..|pairs|] == pairs;
    return Some(meta);
  }

  lemma AddPair(pairs: seq<string>, pair: string)
    ensures InitFields(pairs + [pair]) ==
      if InitFields(pairs).None? || '=' !in pair then None
      else Some(PutField(InitFields(pairs).value, Strip(SplitOnce(pair, '=').0), Strip(SplitOnce(pair, '=').1)))
  {
    assert (pairs + [pair])[..|pairs|] == pairs;
  }

  /** The argument is a key, its first `=` and a value, up to outer blanks of either. */
  predicate GivesField(pair: string, key: string, value: string) {
    '=' in pair && Strip(SplitOnce(pair, '=').0) == key && Strip(SplitOnce(pair, '=').1) == value
  }

  /** `pairs[i]` is the last argument for this key. */
  ghost predicate LastFor(pairs: seq<string>, i: nat, key: string, value: string) {
    && i < |pairs| && GivesField(pairs[i], key, value)
    && forall j, other | i < j < |pairs| :: !GivesField(pairs[j], key, other)
  }

  /** `init` is refused exactly when some argument has no `=`. */
  lemma {:induction false} InitFailsIff(pairs: seq<string>)
    ensures InitFields(pairs).None? <==> exists j :: 0 <= j < |pairs| && '=' !in pairs[j]
  {
    hide Strip, SplitOnce, PutField;
    if pairs != [] {
      var n := |pairs| - 1;
      var init := pairs[..n];
      InitFailsIff(init);
      if j :| 0 <= j < n && '=' !in init[j] { assert '=' !in pairs[j]; }
      if j :| 0 <= j < |pairs| && '=' !in pairs[j] && j != n { assert '=' !in init[j]; }
    }
  }

  lemma PutGiven(fields: Fields, pair: string, key: string, value: string)
    requires '=' in pair && Lookup(fields, key) == Some(value) && forall other :: !GivesField(pair, key, other)
    ensures Lookup(PutField(fields, Strip(SplitOnce(pair, '=').0), Strip(SplitOnce(pair, '=').1)), key) == Some(value)
  {
    hide Strip, SplitOnce, PutField, Lookup;
    var k, v := Strip(SplitOnce(pair, '=').0), Strip(SplitOnce(pair, '=').1);
    assert GivesField(pair, k, v);
    LookupPut(fields, k, v, key);
  }

  lemma LastForInit(init: seq<string>, pair: string, i: nat, key: string, value: string)
    requires LastFor(init + [pair], i, key, value)
    ensures i < |init| ==> LastFor(init, i, key, value) && forall other :: !GivesField(pair, key, other)
    ensures i == |init| ==> GivesField(pair, key, value)
    ensures i <= |init|
  {
    hide GivesField;
    var pairs := init + [pair];
    assert pairs[|init|] == pair;
    assert forall j | 0 <= j < |init| :: pairs[j] == init[j];
  }

  lemma FieldsMore(init: seq<string>, pair: string)
    requires InitFields(init + [pair]).Some?
    ensures InitFields(init).Some? && '=' in pair
    ensures InitFields(init + [pair]).value
         == PutField(InitFields(init).value, Strip(SplitOnce(pair, '=').0), Strip(SplitOnce(pair, '=').1))
  {
    hide Strip, SplitOnce, PutField;
    AddPair(init, pair);
  }

  lemma GivenPut(fields: Fields, pair: string, key: string, value: string)
    requires GivesField(pair, key, value)
    ensures Lookup(PutField(fields, Strip(SplitOnce(pair, '=').0), Strip(SplitOnce(pair, '=').1)), key) == Some(value)
  {
    LookupPut(fields, key, value, key);
  }

  /** After `init` each key holds the value of its last argument. */
  lemma {:induction false} InitFieldsHold(pairs: seq<string>, i: nat, key: string, value: string)
    requires InitFields(pairs).Some? && LastFor(pairs, i, key, value)
    ensures Lookup(InitFields(pairs).value, key) == Some(value)
  {
    hide InitFields, GivesField, Strip, SplitOnce, PutField, Lookup;
    var init, pair := pairs[..|pairs| - 1], pairs[|pairs| - 1];
    assert pairs == init + [pair];
    FieldsMore(init, pair);
    LastForInit(init, pair, i, key, value);
    hide LastFor;
    if i < |init| {
      InitFieldsHold(init, i, key, value);
      PutGiven(InitFields(init).value, pair, key, value);
    } else {
      GivenPut(InitFields(init).value, pair, key, value);
    }
  }

  // ---- The log object ----

  /** One log file; every command replaces its contents in one step or leaves them alone. */
  class LogFile {
    var contents: Option<string>

    constructor ()
      ensures contents == None
    {
      contents := None;
    }

    method CmdInit(pairs: seq<string>, now: string) returns (r: Outcome)
      modifies this
      ensures (contents, r) == Apply(old(contents), Init(pairs), now)
    {
      hide InitFields, Touch, Render, EntryCount;
      if contents.Some? { return AlreadyExists; }
      var fields := ParsePairs(pairs);
      if fields.None? { return BadField; }
      r := Store(Touch(fields.value, now), "");
    }

    method CmdAppend(text: string, kind: string, author: string, now: string) returns (r: Outcome)
      modifies this
      ensures (contents, r) == Apply(old(contents), Append(text, kind, author), now)
      ensures r.Ack? ==> old(contents).Some? && contents.Some?
      ensures r.Ack? && NoBreak(kind) && NoBreak(author) ==>
        AppendedTo(old(contents).value, contents.value, text, kind, author, now)
    {
      ghost var before := contents;
      if Apply(before, Append(text, kind, author), now).1.Ack? && NoBreak(kind) && NoBreak(author) {
        AppendRecords(before, text, kind, author, now);
      }
      hide AppendedTo;
      hide Load, AppendTo, Render, EntryCount;
      var d := LoadDocument();
      if d.Failure? { return d.error; }
      var after := AppendTo(d.value, text, kind, author, now);
      r := Store(after.meta, after.body);
    }

    method CmdSet(key: string, value: string, now: string) returns (r: Outcome)
      modifies this
      ensures (contents, r) == Apply(old(contents), Set(key, value), now)
    {
      hide Load, Touch, PutField, Render, EntryCount;
      var d := LoadDocument();
      if d.Failure? { return d.error; }
      var meta := PutField(d.value.meta, key, value);
      r := Store(Touch(meta, now), d.value.body);
    }

    method LoadDocument() returns (r: Result<Document, Outcome>)
      ensures r == Load(contents)
    {
      if contents.None? { return Failure(NoFile); }
      var d := Read(contents.value);
      if d.Failure? { return Failure(Unreadable(d.error)); }
      return Success(d.value);
    }

    /** The atomic write and its acknowledgement. */
    method Store(meta: Fields, body: string) returns (r: Outcome)
      modifies this
      ensures (contents, r) == Write(Document(meta, body))
    {
      contents := Some(Render(Document(meta, body)));
      r := Ack(EntryCount(body));
    }
  }

  lemma {:induction false} BadPairFails(pairs: seq<string>, i: nat)
    requires i < |pairs| && '=' !in pairs[i]
    ensures InitFields(pairs).None?
  {
    if i < |pairs| - 1 { BadPairFails(pairs[..|pairs| - 1], i); }
  }

  lemma {:induction false} ParsedKeysAreGood(lines: seq<string>)
    requires forall i | 0 <= i < |lines| :: NoBreak(lines[i])
    ensures GoodKeys(ParseFields(lines))
  {
    if lines != [] {
      var init, line := lines[..|lines| - 1], lines[|lines| - 1];
      ParsedKeysAreGood(init);
      if ':' in line {
        var (k, v) := SplitOnce(line, ':');
        StripGoodKey(k);
        PutGoodKeys(ParseFields(init), Strip(k), Strip(v));
      }
    }
  }

  lemma {:induction false} JoinedBreaksAtNewlines(lines: seq<string>)
    requires forall i | 0 <= i < |lines| :: NoBreak(lines[i])
    ensures OnlyNewlines(Join(lines, "\n"))
  {
    if |lines| > 1 {
      JoinedBreaksAtNewlines(lines[1..]);
    }
  }

  lemma {:induction false} LeadingNewlinesGone(s: string)
    ensures LStripNewlines(LStripNewlines(s)) == LStripNewlines(s)
    ensures OnlyNewlines(s) ==> OnlyNewlines(LStripNewlines(s))
  {
    if s != [] && s[0] == '\n' { LeadingNewlinesGone(s[1..]); }
  }

  /** Whatever a readable file holds, its keys print safely and its body breaks at newlines only. */
  lemma LoadedIsClean(text: string)
    requires Split(text).Success?
    ensures var d := Split(text).value;
      GoodKeys(d.meta) && OnlyNewlines(d.body) && LStripNewlines(d.body) == d.body
  {
    hide ParseFields, Join, LStripNewlines;
    var lines := SplitLines(text);
    var end := ClosingFence(lines, 1);
    var fields, rest := lines[1..end], lines[end + 1..];
    ParsedKeysAreGood(fields);
    JoinedBreaksAtNewlines(rest);
    LeadingNewlinesGone(Join(rest, "\n"));
  }

  lemma AddedReadsBack(d: Document, meta: Fields, line: string)
    requires GoodKeys(meta) && OnlyNewlines(d.body) && LStripNewlines(d.body) == d.body && NoBreak(line) && line != ""
    ensures var r := Split(Render(Document(meta, AddEntry(d.body, line))));
      r.Success? && r.value.meta == NormFields(meta) && SplitLines(r.value.body) == BodyLines(d.body) + [line]
  {
    hide Split, Render, SplitLines, BodyLines, AddEntry, NormFields, LStripNewlines, RStripNewlines;
    AddedIsLastLine(d.body, line);
    SplitRender(Document(meta, AddEntry(d.body, line)));
  }

  lemma AppendOnLoaded(text: string, d: Document, entry: string, kind: string, author: string, now: string)
    requires Split(text) == Success(d)
    ensures Apply(Some(text), Append(entry, kind, author), now).0 == Some(Render(AppendTo(d, entry, kind, author, now)))
  {
    hide Split, Render, EntryLine, AddEntry, Touch;
  }

  lemma AcknowledgedIsLoaded(file: Option<string>, entry: string, kind: string, author: string, now: string)
    requires Apply(file, Append(entry, kind, author), now).1.Ack?
    ensures file.Some? && Split(file.value).Success?
  {
    hide Split, Render, EntryLine, AddEntry, Touch;
  }

  /** What an append to a readable file does, whatever its body holds: the lines of the body stay, one line that records
      the text stands behind them, and the fields stay up to normal form. */
  ghost predicate AppendedTo(before: string, after: string, text: string, kind: string, author: string, now: string) {
    && Split(before).Success? && Split(after).Success?
    && var d, e := Split(before).value, Split(after).value;
       && (exists line :: SplitLines(e.body) == BodyLines(d.body) + [line] && Records(line, text, kind, author))
       && e.meta == NormFields(Touch(d.meta, now))
  }

  lemma AppendRecords(file: Option<string>, text: string, kind: string, author: string, now: string)
    requires NoBreak(kind) && NoBreak(author) && Apply(file, Append(text, kind, author), now).1.Ack?
    ensures var after := Apply(file, Append(text, kind, author), now).0;
      file.Some? && after.Some? && AppendedTo(file.value, after.value, text, kind, author, now)
  {
    hide Apply, Split, Render, SplitLines, EntryLine, BodyLines, AddEntry, NormFields, Touch, EntryCount, Records,
        LStripNewlines, GoodKeys;
    AcknowledgedIsLoaded(file, text, kind, author, now);
    var d, line := Split(file.value).value, EntryLine(text, kind, author);
    AppendOnLoaded(file.value, d, text, kind, author, now);
    LoadedIsClean(file.value);
    EntryRecords(text, kind, author);
    EntryIsOneLine(text, kind, author);
    TouchGoodKeys(d.meta, now);
    AddedReadsBack(d, Touch(d.meta, now), line);
  }

  // ---- What a readable log means ----

  ghost predicate GoodEntries(entries: seq<string>) {
    forall i | 0 <= i < |entries| :: NoBreak(entries[i]) && IsEntry(entries[i])
  }

  /** The file reads back as these fields and as these entries, one line each, in order. */
  ghost predicate Holds(file: Option<string>, fields: Fields, entries: seq<string>) {
    && file.Some?
    && Split(file.value) == Success(Document(fields, Join(entries, "\n")))
    && Canonical(fields) && GoodEntries(entries)
  }

  /** Keys without `:` or line breaks, labels without line breaks; values and texts are free. */
  predicate GoodCommand(c: Command) {
    match c
    case Init(_) => InitFields(c.pairs).Some? ==> GoodKeys(InitFields(c.pairs).value)
    case Append(_, kind, author) => NoBreak(kind) && NoBreak(author)
    case Set(key, _) => GoodKey(key)
  }

  predicate GoodStamp(now: string) { NormValue(now) == now }

  lemma {:induction false} JoinedEntries(entries: seq<string>)
    requires GoodEntries(entries)
    ensures var b := Join(entries, "\n");
      && OnlyNewlines(b)
      && (entries != [] ==> IsEntry(b) && !IsBreak(b[|b| - 1]))
  {
    if |entries| > 1 {
      var rest := Join(entries[1..], "\n");
      JoinedEntries(entries[1..]);
      assert Join(entries, "\n") == entries[0] + "\n" + rest;
    }
  }

  lemma JoinedIsTrimmed(entries: seq<string>)
    requires GoodEntries(entries)
    ensures var b := Join(entries, "\n");
      OnlyNewlines(b) && RStripNewlines(b) == b && LStripNewlines(b) == b && (Strip(b) == "" <==> entries == [])
  {
    JoinedEntries(entries);
    var b := Join(entries, "\n");
    if entries != [] {
      assert b[0] == '-';
      StripKeepsDash(b);
    }
  }

  lemma {:induction false} StripKeepsDash(b: string)
    requires b != "" && b[0] == '-'
    ensures Strip(b) != ""
  {
    if IsSpace(b[|b| - 1]) { StripKeepsDash(b[..|b| - 1]); }
  }

  lemma AddedEntry(entries: seq<string>, entry: string)
    requires GoodEntries(entries) && NoBreak(entry) && IsEntry(entry)
    ensures GoodEntries(entries + [entry])
    ensures AddEntry(Join(entries, "\n"), entry) == Join(entries + [entry], "\n")
  {
    JoinedIsTrimmed(entries);
    if entries != [] { JoinEnd(entries, entry); }
  }

  /** The acknowledged number is the number of entries. */
  lemma CountsAll(entries: seq<string>)
    requires GoodEntries(entries)
    ensures EntryCount(Join(entries, "\n")) == |entries|
  {
    if entries != [] {
      JoinedSplits(entries);
      CountGood(entries);
    }
  }

  lemma JoinedSplits(entries: seq<string>)
    requires GoodEntries(entries) && entries != []
    ensures SplitLines(Join(entries, "\n")) == entries
  {
    var init, last := entries[..|entries| - 1], entries[|entries| - 1];
    assert entries == init + [last];
    SplitOnlyLine(last);
    if init != [] {
      JoinEnd(init, last);
      SplitJoined(init, last);
    }
  }

  lemma {:induction false} CountGood(entries: seq<string>)
    requires GoodEntries(entries)
    ensures CountEntries(entries) == |entries|
  {
    if entries != [] { CountGood(entries[..|entries| - 1]); }
  }

  /** Writing canonical or freshly changed fields with these entries, then reading: the general step. */
  lemma WriteThenRead(meta: Fields, entries: seq<string>)
    requires GoodKeys(meta) && GoodEntries(entries)
    ensures Holds(Some(Render(Document(meta, Join(entries, "\n")))), NormFields(meta), entries)
  {
    JoinedIsTrimmed(entries);
    SplitRender(Document(meta, Join(entries, "\n")));
    NormIsCanonical(meta);
  }

  // ---- Steps ----

  lemma AppendStep(file: Option<string>, fields: Fields, entries: seq<string>, c: Command, now: string)
    requires Holds(file, fields, entries) && c.Append? && GoodCommand(c) && GoodStamp(now)
    ensures Holds(Apply(file, c, now).0, Touch(fields, now), entries + [EntryLine(c.text, c.kind, c.author)])
    ensures Apply(file, c, now).1 == Ack(|entries| + 1)
    ensures Records(EntryLine(c.text, c.kind, c.author), c.text, c.kind, c.author)
  {
    hide Records, EntryLine;
    EntryRecords(c.text, c.kind, c.author);
    var more := entries + [EntryLine(c.text, c.kind, c.author)];
    assert Apply(file, c, now) == Write(Document(Touch(fields, now), Join(more, "\n"))) && GoodEntries(more) by {
      EntryIsOneLine(c.text, c.kind, c.author);
      AddedEntry(entries, EntryLine(c.text, c.kind, c.author));
    }
    WriteStep(fields, Touch(fields, now), Touch(fields, now), more, now);
  }

  /** Writing a document and reading it back, with the acknowledged count. */
  lemma WriteStep(fields: Fields, meta: Fields, norm: Fields, entries: seq<string>, now: string)
    requires Canonical(fields) && GoodEntries(entries) && GoodStamp(now)
    requires (meta == Touch(fields, now) && norm == meta) || (GoodKeys(meta) && norm == NormFields(meta))
    ensures Holds(Write(Document(meta, Join(entries, "\n"))).0, norm, entries)
    ensures Write(Document(meta, Join(entries, "\n"))).1 == Ack(|entries|)
  {
    if meta == Touch(fields, now) && norm == meta {
      TouchReadsBack(fields, now);
      TouchGoodKeys(fields, now);
    }
    WriteThenRead(meta, entries);
    CountsAll(entries);
  }

  /** `set` leaves every entry as it is. */
  lemma SetStep(file: Option<string>, fields: Fields, entries: seq<string>, c: Command, now: string)
    requires Holds(file, fields, entries) && c.Set? && GoodCommand(c) && GoodStamp(now)
    ensures Holds(Apply(file, c, now).0, Touch(PutField(fields, Strip(c.key), NormValue(c.value)), now), entries)
    ensures Apply(file, c, now).1 == Ack(|entries|)
  {
    var meta := Touch(PutField(fields, c.key, c.value), now);
    assert Apply(file, c, now) == Write(Document(meta, Join(entries, "\n")));
    SetReadsBack(fields, c.key, c.value, now);
    PutGoodKeys(fields, c.key, c.value);
    TouchGoodKeys(PutField(fields, c.key, c.value), now);
    WriteStep(fields, meta, NormFields(meta), entries, now);
  }

  lemma InitStep(c: Command, now: string)
    requires c.Init? && InitFields(c.pairs).Some? && GoodCommand(c) && GoodStamp(now)
    ensures Holds(Apply(None, c, now).0, NormFields(Touch(InitFields(c.pairs).value, now)), [])
    ensures Apply(None, c, now).1 == Ack(0)
  {
    TouchGoodKeys(InitFields(c.pairs).value, now);
    WriteThenRead(Touch(InitFields(c.pairs).value, now), []);
    CountsAll([]);
  }

  // ---- Runs ----

  datatype Call = Call(command: Command, now: string)

  function Run(file: Option<string>, calls: seq<Call>): Option<string> {
    if calls == [] then file
    else Apply(Run(file, calls[..|calls| - 1]), calls[|calls| - 1].command, calls[|calls| - 1].now).0
  }

  function AppendedBy(c: Command): (lines: seq<string>)
    ensures if c.Append? then |lines| == 1 && Records(lines[0], c.text, c.kind, c.author) else lines == []
  {
    if c.Append? then EntryRecords(c.text, c.kind, c.author); [EntryLine(c.text, c.kind, c.author)] else []
  }

  /** The entries that a run of commands appends, in order. */
  function Appended(calls: seq<Call>): seq<string> {
    if calls == [] then [] else Appended(calls[..|calls| - 1]) + AppendedBy(calls[|calls| - 1].command)
  }

  /** What one call makes of a field's value. */
  function ValueAfter(before: Option<string>, call: Call, key: string): Option<string> {
    if key == "updated" && !call.command.Init? then Some(call.now)
    else if call.command.Set? && Strip(call.command.key) == key then Some(NormValue(call.command.value))
    else before
  }

  /** The value a field holds after a run: the last `set` of its stripped key, or what it held before. */
  function LastValue(before: Option<string>, calls: seq<Call>, key: string): Option<string> {
    if calls == [] then before else ValueAfter(LastValue(before, calls[..|calls| - 1], key), calls[|calls| - 1], key)
  }

  predicate GoodCalls(calls: seq<Call>) {
    forall i | 0 <= i < |calls| :: GoodCommand(calls[i].command) && GoodStamp(calls[i].now)
  }

  /** The fields that one good command leaves. */
  function FieldsAfter(fields: Fields, call: Call): Fields {
    match call.command
    case Init(_) => fields
    case Append(_, _, _) => Touch(fields, call.now)
    case Set(key, value) => Touch(PutField(fields, Strip(key), NormValue(value)), call.now)
  }

  predicate UpdatedIsLast(fields: Fields) {
    fields != [] && fields[|fields| - 1].key == "updated"
  }

  lemma CallStep(file: Option<string>, fields: Fields, entries: seq<string>, call: Call)
    requires Holds(file, fields, entries) && GoodCommand(call.command) && GoodStamp(call.now)
    ensures Holds(Apply(file, call.command, call.now).0, FieldsAfter(fields, call), entries + AppendedBy(call.command))
  {
    if call.command.Append? {
      AppendStep(file, fields, entries, call.command, call.now);
    } else {
      assert entries + AppendedBy(call.command) == entries;
      if call.command.Set? {
        SetStep(file, fields, entries, call.command, call.now);
      } else {
        assert Apply(file, call.command, call.now).0 == file;
      }
    }
  }

  lemma LookupAfter(fields: Fields, call: Call, key: string)
    requires DistinctKeys(fields)
    ensures Lookup(FieldsAfter(fields, call), key) == ValueAfter(Lookup(fields, key), call, key)
  {
    if call.command.Append? {
      LookupMoved(fields, "updated", call.now, key);
    } else if call.command.Set? {
      LookupAfterSet(fields, Strip(call.command.key), NormValue(call.command.value), call.now, key);
    }
  }

  lemma LookupAfterSet(fields: Fields, k: string, v: string, now: string, key: string)
    requires DistinctKeys(fields)
    ensures Lookup(Touch(PutField(fields, k, v), now), key)
         == if key == "updated" then Some(now) else if key == k then Some(v) else Lookup(fields, key)
  {
    PutDistinct(fields, k, v);
    LookupMoved(PutField(fields, k, v), "updated", now, key);
    LookupPut(fields, k, v, key);
  }

  /** The fields after a run of good commands. */
  function FieldsAfterAll(fields: Fields, calls: seq<Call>): Fields {
    if calls == [] then fields
    else FieldsAfter(FieldsAfterAll(fields, calls[..|calls| - 1]), calls[|calls| - 1])
  }

  /** After any run on a readable log the file reads back as the old entries and then the appended ones, in order. */
  lemma {:induction false} RunKeepsEntries(file: Option<string>, fields: Fields, entries: seq<string>, calls: seq<Call>)
    requires Holds(file, fields, entries) && GoodCalls(calls)
    ensures Holds(Run(file, calls), FieldsAfterAll(fields, calls), entries + Appended(calls))
  {
    if calls == [] {
      assert entries + Appended(calls) == entries;
    } else {
      var earlier, call := calls[..|calls| - 1], calls[|calls| - 1];
      hide Holds, Run, Appended, FieldsAfterAll;
      RunKeepsEntries(file, fields, entries, earlier);
      CallStep(Run(file, earlier), FieldsAfterAll(fields, earlier), entries + Appended(earlier), call);
      RunMore(file, fields, entries, calls);
    }
  }

  lemma RunMore(file: Option<string>, fields: Fields, entries: seq<string>, calls: seq<Call>)
    requires calls != []
    ensures var earlier, call := calls[..|calls| - 1], calls[|calls| - 1];
      && Run(file, calls) == Apply(Run(file, earlier), call.command, call.now).0
      && FieldsAfterAll(fields, calls) == FieldsAfter(FieldsAfterAll(fields, earlier), call)
      && entries + Appended(calls) == entries + Appended(earlier) + AppendedBy(call.command)
  {
    hide Apply, FieldsAfter, AppendedBy;
  }

  lemma FieldsOfLog(file: Option<string>, fields: Fields, entries: seq<string>)
    requires Holds(file, fields, entries)
    ensures DistinctKeys(fields)
  {
  }

  /** Every field holds its last normalised value. */
  lemma {:induction false} RunKeepsFields(file: Option<string>, fields: Fields, entries: seq<string>,
                                          calls: seq<Call>, key: string)
    requires Holds(file, fields, entries) && GoodCalls(calls)
    ensures Lookup(FieldsAfterAll(fields, calls), key) == LastValue(Lookup(fields, key), calls, key)
  {
    if calls != [] {
      var earlier, call := calls[..|calls| - 1], calls[|calls| - 1];
      hide Holds, Run, Appended;
      RunKeepsFields(file, fields, entries, earlier, key);
      assert DistinctKeys(FieldsAfterAll(fields, earlier)) by {
        RunKeepsEntries(file, fields, entries, earlier);
        FieldsOfLog(Run(file, earlier), FieldsAfterAll(fields, earlier), entries + Appended(earlier));
      }
      LookupAfter(FieldsAfterAll(fields, earlier), call, key);
    }
  }

  lemma TouchedLast(fields: Fields, now: string)
    ensures UpdatedIsLast(Touch(fields, now))
  {
  }

  /** `updated` stays the last field. */
  lemma {:induction false} RunKeepsUpdatedLast(fields: Fields, calls: seq<Call>)
    requires UpdatedIsLast(fields)
    ensures UpdatedIsLast(FieldsAfterAll(fields, calls))
  {
    if calls != [] {
      var before, call := FieldsAfterAll(fields, calls[..|calls| - 1]), calls[|calls| - 1];
      RunKeepsUpdatedLast(fields, calls[..|calls| - 1]);
      if call.command.Append? {
        TouchedLast(before, call.now);
      } else if call.command.Set? {
        TouchedLast(PutField(before, Strip(call.command.key), NormValue(call.command.value)), call.now);
      }
    }
  }

  lemma {:induction false} InitKeysStripped(pairs: seq<string>)
    requires InitFields(pairs).Some?
    ensures NormalKeys(InitFields(pairs).value, Strip) && DistinctKeys(InitFields(pairs).value)
  {
    if pairs != [] {
      var pair, earlier := pairs[|pairs| - 1], InitFields(pairs[..|pairs| - 1]);
      InitKeysStripped(pairs[..|pairs| - 1]);
      var (k, v) := SplitOnce(pair, '=');
      StripIdempotent(k);
      PutDistinct(earlier.value, Strip(k), Strip(v));
      PutKeepsNormalKeys(earlier.value, Strip(k), Strip(v), Strip);
    }
  }

  lemma InitUpdatedLast(fields: Fields, now: string)
    requires NormalKeys(fields, Strip) && DistinctKeys(fields) && GoodStamp(now)
    ensures UpdatedIsLast(NormFields(Touch(fields, now)))
  {
    UpdatedFixed();
    var rest := Remove(fields, "updated");
    RemoveParts(fields, "updated");
    NormaliseAppend(rest, Field("updated", now), Strip, NormValue);
    forall i | 0 <= i < |rest| ensures Strip(rest[i].key) != "updated" {
      assert rest[i] in fields;
    }
    NormaliseAbsent(rest, "updated", Strip, NormValue);
    PutAbsent(NormFields(rest), "updated", now);
  }

  /** The whole life of a log: a successful init, then any commands. What was appended is what is read back; the
      fields are those of init and their later settings, and the stamp of the last command stands last. */
  lemma LogAfterInit(pairs: seq<string>, now: string, calls: seq<Call>)
    requires InitFields(pairs).Some? && GoodCommand(Init(pairs)) && GoodStamp(now) && GoodCalls(calls)
    ensures var start := NormFields(Touch(InitFields(pairs).value, now));
            var file := Run(Apply(None, Init(pairs), now).0, calls);
      && file.Some?
      && Split(file.value) == Success(Document(FieldsAfterAll(start, calls), Join(Appended(calls), "\n")))
      && UpdatedIsLast(FieldsAfterAll(start, calls))
      && (Appended(calls) != [] ==> SplitLines(Split(file.value).value.body) == Appended(calls))
  {
    var start := NormFields(Touch(InitFields(pairs).value, now));
    var opened' := Apply(None, Init(pairs), now).0;
    InitStep(Init(pairs), now);
    RunKeepsEntries(opened', start, [], calls);
    InitKeysStripped(pairs);
    InitUpdatedLast(InitFields(pairs).value, now);
    RunKeepsUpdatedLast(start, calls);
    assert [] + Appended(calls) == Appended(calls);
    if Appended(calls) != [] { JoinedSplits(Appended(calls)); }
  }
}
