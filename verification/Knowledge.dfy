/**
The remediation knowledge base (crates/ravn-server/src/knowledge.rs:33-96 and 309-486): one markdown
file per slug of a fault signature, read, edited and printed again on every record.

The directory is a map from file stems to texts. A read may fail and then counts as no entry; a write
happens whole or not at all, thanks to the temporary file and the rename.
*/
module Knowledge {
  import opened Options
  import opened Text
  import opened Decimal
  import opened Frontmatter
  import Actuator
  import RoundTrip
  import opened Slugs

  type Dir = map<string, string>

  function StatusText(s: Actuator.Status): string {
    match s
    case Succeeded => "succeeded"
    case Failed => "failed"
    case Rejected => "rejected"
    case PreconditionFailed => "precondition_failed"
    case Frozen => "frozen"
  }

  /** Recall counts what it means to: distinct outcomes have distinct names, so `succeeded` in a file
      stands for success and nothing else. */
  lemma StatusNamesAreDistinct(a: Actuator.Status, b: Actuator.Status)
    ensures StatusText(a) == StatusText(b) <==> a == b
  {
    StatusInitials(a);
    StatusInitials(b);
  }

  lemma StatusInitials(s: Actuator.Status)
    ensures var t := StatusText(s);
            |t| > 1 && (t[0], t[1]) == match s
                                       case Succeeded => ('s', 'u')
                                       case Failed => ('f', 'a')
                                       case Rejected => ('r', 'e')
                                       case PreconditionFailed => ('p', 'r')
                                       case Frozen => ('f', 'r')
  {
  }

  // ---- entries ----

  datatype Call =
    | RecordOutcome(signature: string, templateId: string, version: nat, params: Params, status: Actuator.Status,
                    ttrS: Option<int>, approver: string, now: int)
    | RecordGap(signature: string, host: string, title: string, now: int)

  function TemplateText(call: Call): string
    requires call.RecordOutcome?
  {
    call.templateId + "@" + Show(call.version)
  }

  function OutcomeOf(call: Call): Outcome
    requires call.RecordOutcome?
  {
    Outcome(call.now, StatusText(call.status), call.ttrS, call.approver)
  }

  function Successes(os: seq<Outcome>): seq<Outcome> {
    if os == [] then []
    else if os[|os| - 1].result == "succeeded" then Successes(os[..|os| - 1]) + [os[|os| - 1]]
    else Successes(os[..|os| - 1])
  }

  function ReflectText(signature: string, template: string, occurrences: nat, successes: nat, total: nat): string {
    "# " + signature + "\n\n**Reflect:** template `" + template + "` has been applied " + Show(occurrences)
    + " time(s) to this fault, succeeding " + Show(successes) + "/" + Show(total)
    + ". Recurrence may indicate an upstream cause worth a deeper look."
  }

  function RetrospectiveBody(signature: string, e: Entry): string {
    ReflectText(signature, e.templateUsed, e.occurrences, |Successes(e.outcomes)|, |e.outcomes|) + "\n"
  }

  function GapText(signature: string, host: string, title: string): string {
    "# " + signature + "\n\n**Gap:** no remediation template matched this fault on `" + host
    + "`. Author a template so the control plane can remediate it next time.\n\nEvent title: " + title
  }

  function GapBody(signature: string, host: string, title: string): string { GapText(signature, host, title) + "\n" }

  /** The entry a call writes, given the one it read. */
  function Updated(base: Option<Entry>, call: Call): Entry {
    match call
    case RecordOutcome(signature, _, _, params, _, _, _, now) =>
      var e := if base.Some? then base.value else Entry(signature, TemplateText(call), params, [], 0, now, "");
      var e' := Entry(e.faultSignature, TemplateText(call), params, e.outcomes + [OutcomeOf(call)], e.occurrences + 1, now, e.body);
      e'.(body := RetrospectiveBody(signature, e'))
    case RecordGap(signature, host, title, now) =>
      var e := if base.Some? then base.value else Entry(signature, "gap", [], [], 0, now, "");
      Entry(e.faultSignature, if e.templateUsed == "" then "gap" else e.templateUsed, e.params, e.outcomes,
            e.occurrences + 1, now, if e.body == "" then GapBody(signature, host, title) else e.body)
  }

  /** `load` from a directory that could be read. */
  function Loaded(c: Codec, files: Dir, stem: string, now: int): Option<Entry> {
    if stem !in files then None
    else
      match FromMarkdown(c, files[stem], now)
      case Err(_) => None
      case Ok(e) => Some(e)
  }

  function Stored(c: Codec, files: Dir, e: Entry): Dir { files[Slug(e.faultSignature) := Markdown(c, e)] }

  datatype Step = Step(call: Call, readable: bool, written: bool)

  function Next(c: Codec, files: Dir, s: Step): Dir {
    var base := if s.readable then Loaded(c, files, Slug(s.call.signature), s.call.now) else None;
    if s.written then Stored(c, files, Updated(base, s.call)) else files
  }

  // ---- recall ----

  function Ttrs(os: seq<Outcome>): seq<int> {
    if os == [] then []
    else if os[|os| - 1].ttrS.Some? then Ttrs(os[..|os| - 1]) + [os[|os| - 1].ttrS.value]
    else Ttrs(os[..|os| - 1])
  }

  function Sum(xs: seq<int>): int { if xs == [] then 0 else Sum(xs[..|xs| - 1]) + xs[|xs| - 1] }

  /** Division of machine integers rounds towards zero. */
  function TruncDiv(a: int, b: int): int
    requires b > 0
  {
    if a < 0 then -((-a) / b) else a / b
  }

  datatype Note = Note(occurrences: nat, template: string, successes: nat, total: nat, average: Option<int>)

  /** The average of what is known, if anything is. */
  function Average(ttrs: seq<int>): Option<int> { if ttrs == [] then None else Some(TruncDiv(Sum(ttrs), |ttrs|)) }

  function NoteFor(occurrences: nat, template: string, os: seq<Outcome>): Note {
    Note(occurrences, template, |Successes(os)|, |os|, Average(Ttrs(Successes(os))))
  }

  function NoteOf(e: Entry): Note { NoteFor(e.occurrences, e.templateUsed, e.outcomes) }

  function NoteText(n: Note): string {
    "Recall: last " + Show(n.occurrences) + " time(s) this fault fired, template " + n.template + " succeeded "
    + Show(n.successes) + "/" + Show(n.total) + (if n.average.Some? then ", avg " + Show(n.average.value) + "s" else "") + "."
  }

  function Recalled(entry: Option<Entry>): Option<string> {
    if entry.None? || entry.value.templateUsed == "gap" || Successes(entry.value.outcomes) == [] then None
    else Some(NoteText(NoteOf(entry.value)))
  }

  // ---- the code ----

  class KnowledgeBase {
    const codec: Codec
    const enabled: bool
    var files: Dir

    constructor (codec: Codec, enabled: bool, files: Dir)
      ensures this.codec == codec && this.enabled == enabled && this.files == files
    {
      this.codec, this.enabled, this.files := codec, enabled, files;
    }

    method Load(signature: string, now: int, readable: bool) returns (e: Option<Entry>)
      ensures e == if enabled && readable then Loaded(codec, files, Slug(signature), now) else None
    {
      if !enabled {
        return None;
      }
      var stem := SlugLoop(signature);
      if !readable || stem !in files {
        return None;
      }
      var parsed := FromMarkdownLoop(codec, files[stem], now);
      e := if parsed.Ok? then Some(parsed.value) else None;
    }

    method Store(entry: Entry, written: bool)
      requires enabled
      modifies this
      ensures files == if written then Stored(codec, old(files), entry) else old(files)
    {
      var stem := SlugLoop(entry.faultSignature);
      var text := ToMarkdown(codec, entry);
      if written {
        files := files[stem := text];
      }
    }

    method Recall(signature: string, now: int, readable: bool) returns (note: Option<string>)
      ensures note == Recalled(if enabled && readable then Loaded(codec, files, Slug(signature), now) else None)
    {
      hide NoteText, NoteOf, Loaded;
      var entry := Load(signature, now, readable);
      if entry.None? {
        return None;
      }
      var e := entry.value;
      if e.templateUsed == "gap" || e.outcomes == [] || Successes(e.outcomes) == [] {
        return None;
      }
      note := Some(NoteText(NoteOf(e)));
    }

    /** `record_outcome`. */
    method RecordOutcome(call: Call, readable: bool, written: bool)
      requires call.RecordOutcome?
      modifies this
      ensures files == if enabled then Next(codec, old(files), Step(call, readable, written)) else old(files)
    {
      hide Loaded, Stored, RetrospectiveBody;
      if !enabled {
        return;
      }
      var template, outcome := TemplateText(call), OutcomeOf(call);
      var found := Load(call.signature, call.now, readable);
      var entry := if found.Some? then found.value
                   else Entry(call.signature, template, call.params, [], 0, call.now, "");
      entry := entry.(templateUsed := template);
      entry := entry.(params := call.params);
      entry := entry.(outcomes := entry.outcomes + [outcome]);
      entry := entry.(occurrences := entry.occurrences + 1);
      entry := entry.(lastSeen := call.now);
      entry := entry.(body := RetrospectiveBody(call.signature, entry));
      Store(entry, written);
    }

    /** `record_gap`. */
    method RecordGap(call: Call, readable: bool, written: bool)
      requires call.RecordGap?
      modifies this
      ensures files == if enabled then Next(codec, old(files), Step(call, readable, written)) else old(files)
    {
      hide Loaded, Stored, GapBody;
      if !enabled {
        return;
      }
      var found := Load(call.signature, call.now, readable);
      var entry := if found.Some? then found.value else Entry(call.signature, "gap", [], [], 0, call.now, "");
      if entry.templateUsed == [] {
        entry := entry.(templateUsed := "gap");
      }
      entry := entry.(occurrences := entry.occurrences + 1);
      entry := entry.(lastSeen := call.now);
      if entry.body == [] {
        entry := entry.(body := GapBody(call.signature, call.host, call.title));
      }
      Store(entry, written);
    }
  }

  // ---- runs ----

  /** The records of a run on an empty directory, latest outermost. */
  datatype Run = Start | Then(before: Run, step: Step)

  function At(c: Codec, r: Run): Dir {
    match r
    case Start => map[]
    case Then(before, s) => Next(c, At(c, before), s)
  }

  /** The entry of a stem as it would be if it were kept in memory and never printed. */
  function InMemory(r: Run, stem: string): Option<Entry> {
    match r
    case Start => None
    case Then(before, s) =>
      if s.written && Slug(s.call.signature) == stem then Some(Updated(InMemory(before, stem), s.call)) else InMemory(before, stem)
  }

  /** How many records of the stem were written. */
  function Count(r: Run, stem: string): nat {
    match r
    case Start => 0
    case Then(before, s) => Count(before, stem) + (if s.written && Slug(s.call.signature) == stem then 1 else 0)
  }

  /** The outcomes written for the stem, in order. */
  function Recorded(r: Run, stem: string): seq<Outcome> {
    match r
    case Start => []
    case Then(before, s) =>
      if s.written && Slug(s.call.signature) == stem && s.call.RecordOutcome?
      then Recorded(before, stem) + [Outcome(s.call.now, StatusText(s.call.status), s.call.ttrS, s.call.approver)]
      else Recorded(before, stem)
  }

  /** The template of the latest outcome, or `gap` while there is none. */
  function LastTemplate(r: Run, stem: string): string {
    match r
    case Start => "gap"
    case Then(before, s) =>
      if s.written && Slug(s.call.signature) == stem && s.call.RecordOutcome? then s.call.templateId + "@" + Show(s.call.version)
      else LastTemplate(before, stem)
  }

  /** The parameters of the latest outcome. */
  function LastParams(r: Run, stem: string): Params {
    match r
    case Start => []
    case Then(before, s) =>
      if s.written && Slug(s.call.signature) == stem && s.call.RecordOutcome? then s.call.params else LastParams(before, stem)
  }

  /** When the latest record was written. */
  function LastTime(r: Run, stem: string): Option<int> {
    match r
    case Start => None
    case Then(before, s) => if s.written && Slug(s.call.signature) == stem then Some(s.call.now) else LastTime(before, stem)
  }

  /** The signature that started the file. */
  function FirstSignature(r: Run, stem: string): Option<string> {
    match r
    case Start => None
    case Then(before, s) =>
      if FirstSignature(before, stem).None? && s.written && Slug(s.call.signature) == stem then Some(s.call.signature)
      else FirstSignature(before, stem)
  }

  lemma {:induction false} MemoryLatest(r: Run, stem: string)
    ensures var m := InMemory(r, stem);
            && (m.None? ==> LastParams(r, stem) == [] && LastTime(r, stem) == None && FirstSignature(r, stem) == None)
            && (m.Some? ==>
                  && m.value.params == LastParams(r, stem) && Some(m.value.lastSeen) == LastTime(r, stem)
                  && Some(m.value.faultSignature) == FirstSignature(r, stem))
  {
    hide RetrospectiveBody, GapBody, TemplateText, OutcomeOf, Slug;
    if r.Then? { MemoryLatest(r.before, stem); }
  }

  ghost predicate PrintableCall(c: Codec, call: Call) {
    && '\n' !in call.signature && RoundTrip.NoQuoteEnds(call.signature)
    && RoundTrip.TimeOk(c, call.now)
    && (call.RecordOutcome? ==>
          && (call.templateId == [] || !IsSpace(call.templateId[0])) && '\n' !in call.templateId
          && RoundTrip.PrintableParams(call.params)
          && (call.ttrS.Some? ==> I64_MIN <= call.ttrS.value <= I64_MAX)
          && '"' !in call.approver && '\n' !in call.approver)
  }

  /** Every call is printable and every existing file could be read. */
  ghost predicate Clean(c: Codec, r: Run) {
    r.Then? ==> Clean(c, r.before) && PrintableCall(c, r.step.call) && r.step.readable
  }

  ghost predicate GoodEntry(c: Codec, e: Entry, stem: string) {
    && RoundTrip.Printable(c, e) && Slug(e.faultSignature) == stem
    && e.body != [] && e.body[|e.body| - 1] == '\n' && e.templateUsed != ""
  }

  lemma TemplateIsPrintable(c: Codec, call: Call)
    requires call.RecordOutcome? && PrintableCall(c, call)
    ensures Trimmed(TemplateText(call)) && '\n' !in TemplateText(call)
    ensures TemplateText(call) != "" && TemplateText(call) != "gap"
  {
    ShowIsPlain(call.version);
    var t := TemplateText(call);
    hide Show;
    assert t[|call.templateId|] == '@';
    assert t[|t| - 1] == Show(call.version)[|Show(call.version)| - 1];
  }

  lemma StatusIsPlain(s: Actuator.Status)
    ensures Trimmed(StatusText(s)) && RoundTrip.Plain(StatusText(s))
  {
  }

  lemma OutcomeIsPrintable(c: Codec, call: Call)
    requires call.RecordOutcome? && PrintableCall(c, call)
    ensures RoundTrip.PrintableOutcome(c, OutcomeOf(call))
  {
    hide RoundTrip.PrintableParams, RoundTrip.TimeOk, RoundTrip.NoQuoteEnds, StatusText, RoundTrip.Plain, Trimmed;
    StatusIsPlain(call.status);
  }

  lemma BodiesEnd(signature: string, e: Entry, host: string, title: string)
    ensures var b := RetrospectiveBody(signature, e); b != [] && b[|b| - 1] == '\n'
    ensures var b := GapBody(signature, host, title); b != [] && b[|b| - 1] == '\n'
  {
    hide ReflectText, GapText, Successes;
  }

  lemma UpdatedIsGood(c: Codec, base: Option<Entry>, call: Call)
    requires PrintableCall(c, call)
    requires base.Some? ==> GoodEntry(c, base.value, Slug(call.signature)) && base.value.occurrences < U64_MAX
    ensures GoodEntry(c, Updated(base, call), Slug(call.signature))
  {
    hide RetrospectiveBody, GapBody, RoundTrip.PrintableParams, RoundTrip.NoQuoteEnds, RoundTrip.TimeOk, RoundTrip.PrintableOutcome, TemplateText, OutcomeOf, Slug;
    if call.RecordOutcome? {
      TemplateIsPrintable(c, call);
      OutcomeIsPrintable(c, call);
      BodiesEnd(call.signature, Updated(base, call).(body := if base.Some? then base.value.body else ""), "", "");
    } else {
      BodiesEnd(call.signature, Updated(base, call), call.host, call.title);
      assert RoundTrip.PrintableParams([]) by { NoParams(); }
    }
  }

  lemma NoParams()
    ensures RoundTrip.PrintableParams([])
  {
  }

  lemma GoodEntryReads(c: Codec, e: Entry, stem: string, now: int)
    requires GoodEntry(c, e, stem)
    ensures FromMarkdown(c, Markdown(c, e), now) == Ok(e)
  {
    hide RoundTrip.Printable, Markdown, FromMarkdown, Slug;
    RoundTrip.MarkdownRoundTrip(c, e, now);
    assert e.(body := WithNewline(e.body)) == e;
  }

  /** The file of a stem mirrors the entry kept in memory. */
  ghost predicate Mirrors(c: Codec, files: Dir, stem: string, mem: Option<Entry>) {
    match mem
    case None => stem !in files
    case Some(e) => stem in files && files[stem] == Markdown(c, e) && GoodEntry(c, e, stem)
  }

  lemma MirrorsLoads(c: Codec, files: Dir, stem: string, mem: Option<Entry>, now: int)
    requires Mirrors(c, files, stem, mem)
    ensures Loaded(c, files, stem, now) == mem
  {
    hide Markdown, FromMarkdown, GoodEntry;
    if mem.Some? { GoodEntryReads(c, mem.value, stem, now); }
  }

  lemma {:induction false} MemoryCounts(r: Run, stem: string)
    ensures InMemory(r, stem).Some? <==> Count(r, stem) > 0
    ensures InMemory(r, stem).Some? ==>
              var e := InMemory(r, stem).value;
              e.outcomes == Recorded(r, stem) && e.occurrences == Count(r, stem)
    ensures InMemory(r, stem).None? ==> Recorded(r, stem) == []
  {
    hide RetrospectiveBody, GapBody, TemplateText, StatusText, Slug;
    if r.Then? { MemoryCounts(r.before, stem); }
  }

  lemma NextIs(c: Codec, files: Dir, s: Step, base: Option<Entry>)
    requires s.readable && Loaded(c, files, Slug(s.call.signature), s.call.now) == base
    ensures Next(c, files, s) == if s.written then Stored(c, files, Updated(base, s.call)) else files
  {
    hide Loaded, Stored, Updated, Slug;
  }

  lemma StoredMirrors(c: Codec, files: Dir, e: Entry, own: string, stem: string, mem: Option<Entry>)
    requires GoodEntry(c, e, own) && Mirrors(c, files, stem, mem)
    ensures Mirrors(c, Stored(c, files, e), stem, if own == stem then Some(e) else mem)
  {
    GoodSlug(c, e, own);
    hide GoodEntry, Markdown, Slug;
  }

  lemma StepMirrors(c: Codec, files: Dir, s: Step, stem: string, own: Option<Entry>, mem: Option<Entry>)
    requires PrintableCall(c, s.call) && s.readable
    requires Mirrors(c, files, Slug(s.call.signature), own) && Mirrors(c, files, stem, mem)
    requires Slug(s.call.signature) == stem ==> own == mem
    requires own.Some? ==> own.value.occurrences < U64_MAX
    ensures Mirrors(c, Next(c, files, s), stem, if s.written && Slug(s.call.signature) == stem then Some(Updated(mem, s.call)) else mem)
  {
    hide *;
    MirrorsLoads(c, files, Slug(s.call.signature), own, s.call.now);
    MirrorsGood(c, files, Slug(s.call.signature), own);
    NextIs(c, files, s, own);
    UpdatedIsGood(c, own, s.call);
    StoredMirrors(c, files, Updated(own, s.call), Slug(s.call.signature), stem, mem);
  }

  lemma MirrorsGood(c: Codec, files: Dir, stem: string, mem: Option<Entry>)
    requires Mirrors(c, files, stem, mem)
    ensures mem.Some? ==> GoodEntry(c, mem.value, stem)
  {
    hide GoodEntry, Markdown;
  }

  lemma GoodSlug(c: Codec, e: Entry, stem: string)
    requires GoodEntry(c, e, stem)
    ensures Slug(e.faultSignature) == stem
  {
    hide Slug, RoundTrip.Printable;
  }

  /** Reading, editing and printing a file again and again is editing an entry in memory: over every
      run of printable records, with any of the writes failing, the stored file is the print of the
      in-memory entry, and reads back as it. */
  lemma {:induction false} FilesMirrorMemory(c: Codec, r: Run, stem: string)
    requires Clean(c, r) && forall s :: Count(r, s) <= U64_MAX
    ensures Mirrors(c, At(c, r), stem, InMemory(r, stem))
  {
    hide Next, Mirrors, Updated, PrintableCall, Slug;
    match r
    case Start => EmptyMirrors(c, stem);
    case Then(before, s) =>
      forall t ensures Count(before, t) <= Count(r, t) <= U64_MAX {}
      var own := Slug(s.call.signature);
      FilesMirrorMemory(c, before, own);
      FilesMirrorMemory(c, before, stem);
      MemoryCounts(before, own);
      if s.written {
        assert Count(r, own) == Count(before, own) + 1;
        StepMirrors(c, At(c, before), s, stem, InMemory(before, own), InMemory(before, stem));
      } else {
        NotWritten(c, At(c, before), s);
      }
  }

  lemma NotWritten(c: Codec, files: Dir, s: Step)
    requires !s.written
    ensures Next(c, files, s) == files
  {
    hide Loaded, Slug;
  }

  lemma EmptyMirrors(c: Codec, stem: string)
    ensures Mirrors(c, map[], stem, None)
  {
  }

  /** What a stored entry says is what happened, for all signatures that share its file: the outcomes
      recorded, in order, the number of records, the latest template, parameters and time. */
  lemma StoredEntryIsHistory(c: Codec, r: Run, signature: string, now: int)
    requires Clean(c, r) && forall s :: Count(r, s) <= U64_MAX
    ensures var (stem, entry) := (Slug(signature), Loaded(c, At(c, r), Slug(signature), now));
            && (entry.Some? <==> Count(r, stem) > 0)
            && (entry.Some? ==>
                  && entry.value.outcomes == Recorded(r, stem) && entry.value.occurrences == Count(r, stem)
                  && entry.value.templateUsed == LastTemplate(r, stem) && entry.value.params == LastParams(r, stem)
                  && Some(entry.value.lastSeen) == LastTime(r, stem)
                  && Some(entry.value.faultSignature) == FirstSignature(r, stem))
  {
    hide *;
    FilesMirrorMemory(c, r, Slug(signature));
    MirrorsLoads(c, At(c, r), Slug(signature), InMemory(r, Slug(signature)), now);
    MemoryCounts(r, Slug(signature));
    MemoryTemplate(c, r, Slug(signature));
    MemoryLatest(r, Slug(signature));
  }

  lemma {:induction false} MemoryTemplate(c: Codec, r: Run, stem: string)
    requires Clean(c, r)
    ensures InMemory(r, stem).Some? ==> InMemory(r, stem).value.templateUsed == LastTemplate(r, stem)
    ensures InMemory(r, stem).None? ==> LastTemplate(r, stem) == "gap"
    ensures LastTemplate(r, stem) != ""
    ensures Recorded(r, stem) != [] ==> LastTemplate(r, stem) != "gap"
  {
    hide RetrospectiveBody, GapBody, OutcomeOf, Slug, PrintableCall, Show;
    if r.Then? {
      MemoryTemplate(c, r.before, stem);
      if r.step.call.RecordOutcome? { TemplateIsPrintable(c, r.step.call); }
    }
  }

  /** Whether a step wrote an outcome for the stem. */
  predicate WritesOutcome(s: Step, stem: string) { s.written && Slug(s.call.signature) == stem && s.call.RecordOutcome? }

  /** How many outcomes were written for the stem, and how many of them with status `Succeeded`. */
  function OutcomeCount(r: Run, stem: string): nat {
    if r.Start? then 0 else OutcomeCount(r.before, stem) + (if WritesOutcome(r.step, stem) then 1 else 0)
  }

  function SuccessCount(r: Run, stem: string): nat {
    if r.Start? then 0
    else SuccessCount(r.before, stem) + (if WritesOutcome(r.step, stem) && r.step.call.status.Succeeded? then 1 else 0)
  }

  /** The recovery times, where known, of those that succeeded. */
  function SuccessTimes(r: Run, stem: string): seq<int> {
    if r.Start? then []
    else if WritesOutcome(r.step, stem) && r.step.call.status.Succeeded? && r.step.call.ttrS.Some?
    then SuccessTimes(r.before, stem) + [r.step.call.ttrS.value]
    else SuccessTimes(r.before, stem)
  }

  lemma OneMoreOutcome(os: seq<Outcome>, o: Outcome)
    ensures Successes(os + [o]) == if o.result == "succeeded" then Successes(os) + [o] else Successes(os)
    ensures Ttrs(os + [o]) == if o.ttrS.Some? then Ttrs(os) + [o.ttrS.value] else Ttrs(os)
  {
    assert (os + [o])[..|os|] == os;
  }

  lemma SucceededIsSuccess(call: Call)
    requires call.RecordOutcome?
    ensures OutcomeOf(call).result == "succeeded" <==> call.status.Succeeded?
    ensures OutcomeOf(call).ttrS == call.ttrS
  {
    StatusNamesAreDistinct(call.status, Actuator.Succeeded);
  }

  /** The texts in the file stand for the statuses that were recorded. */
  lemma {:induction false} TextsAreStatuses(r: Run, stem: string)
    ensures |Recorded(r, stem)| == OutcomeCount(r, stem)
    ensures |Successes(Recorded(r, stem))| == SuccessCount(r, stem)
    ensures Ttrs(Successes(Recorded(r, stem))) == SuccessTimes(r, stem)
  {
    hide Successes, Ttrs, StatusText, Slug;
    if r.Start? {
      NoOutcomes();
    } else {
      TextsAreStatuses(r.before, stem);
      if WritesOutcome(r.step, stem) {
        var os, o := Recorded(r.before, stem), OutcomeOf(r.step.call);
        SucceededIsSuccess(r.step.call);
        OneMoreOutcome(os, o);
        OneMoreOutcome(Successes(os), o);
      }
    }
  }

  lemma NoOutcomes()
    ensures Successes([]) == [] && Ttrs([]) == []
  {
  }

  /** Recall tells the truth: there is a note exactly when some recorded outcome had status `Succeeded`,
      and it carries the true number of records, successes and outcomes, the latest template, and the
      average of the known recovery times of the successes. */
  lemma RecallIsTrue(c: Codec, r: Run, signature: string, now: int)
    requires Clean(c, r) && forall s :: Count(r, s) <= U64_MAX
    ensures var stem := Slug(signature);
            Recalled(Loaded(c, At(c, r), stem, now)) ==
            if SuccessCount(r, stem) == 0 then None
            else
              Some("Recall: last " + Show(Count(r, stem)) + " time(s) this fault fired, template " + LastTemplate(r, stem)
                   + " succeeded " + Show(SuccessCount(r, stem)) + "/" + Show(OutcomeCount(r, stem))
                   + (if SuccessTimes(r, stem) == [] then "" else ", avg " + Show(TruncDiv(Sum(SuccessTimes(r, stem)), |SuccessTimes(r, stem)|)) + "s") + ".")
  {
    hide Slug, NoteText, Loaded, At, InMemory, Clean, Count, Recorded, LastTemplate, Ttrs, Mirrors, Average, Successes,
         SuccessCount, OutcomeCount, SuccessTimes, Show, Sum, TruncDiv;
    NoteReads(Count(r, Slug(signature)), LastTemplate(r, Slug(signature)), SuccessCount(r, Slug(signature)),
              OutcomeCount(r, Slug(signature)), SuccessTimes(r, Slug(signature)));
    var stem := Slug(signature);
    FilesMirrorMemory(c, r, stem);
    MirrorsLoads(c, At(c, r), stem, InMemory(r, stem), now);
    MemoryCounts(r, stem);
    MemoryTemplate(c, r, stem);
    TextsAreStatuses(r, stem);
    NoOutcomes();
  }

  lemma NoteReads(occurrences: nat, template: string, successes: nat, total: nat, ttrs: seq<int>)
    ensures NoteText(Note(occurrences, template, successes, total, Average(ttrs))) ==
            "Recall: last " + Show(occurrences) + " time(s) this fault fired, template " + template
            + " succeeded " + Show(successes) + "/" + Show(total)
            + (if ttrs == [] then "" else ", avg " + Show(TruncDiv(Sum(ttrs), |ttrs|)) + "s") + "."
  {
    hide Show, Sum, TruncDiv;
  }

  /** What the average in it is: the sum of all the times over their number, rounded towards zero. */
  lemma {:induction false} SumAddsUp(xs: seq<int>, ys: seq<int>, x: int)
    ensures Sum([]) == 0 && Sum([x]) == x && Sum(xs + ys) == Sum(xs) + Sum(ys)
  {
    assert [x][..0] == [];
    if ys == [] {
      assert xs + ys == xs;
    } else {
      SumAddsUp(xs, ys[..|ys| - 1], x);
      assert (xs + ys)[..|xs + ys| - 1] == xs + ys[..|ys| - 1];
    }
  }

  lemma TruncDivRoundsToZero(a: int, b: int)
    requires b > 0
    ensures var q := TruncDiv(a, b);
            && (a >= 0 ==> 0 <= q && q * b <= a < (q + 1) * b)
            && (a < 0 ==> q <= 0 && (q - 1) * b < a <= q * b)
  {
    if a < 0 { QuotientIs(-a, b); } else { QuotientIs(a, b); }
  }

  lemma QuotientIs(a: nat, b: int)
    requires b > 0
    ensures var q := a / b; q >= 0 && q * b <= a < (q + 1) * b && (-q) * b == -(q * b) && (-q - 1) * b == -((q + 1) * b)
  {
    assert a == b * (a / b) + a % b;
  }

  /** And what the file tells a reader: after an outcome, the numbers of the whole history with the latest
      template. */
  lemma OutcomeTellsHistory(c: Codec, r: Run, stem: string)
    requires r.Then? && WritesOutcome(r.step, stem) && Clean(c, r)
    ensures InMemory(r, stem).Some?
    ensures InMemory(r, stem).value.body ==
            "# " + r.step.call.signature + "\n\n**Reflect:** template `" + LastTemplate(r, stem) + "` has been applied "
            + Show(Count(r, stem)) + " time(s) to this fault, succeeding " + Show(SuccessCount(r, stem)) + "/"
            + Show(OutcomeCount(r, stem)) + ". Recurrence may indicate an upstream cause worth a deeper look." + "\n"
  {
    hide *;
    MemoryCounts(r, stem);
    MemoryTemplate(c, r, stem);
    TextsAreStatuses(r, stem);
    OutcomeSetsBody(r, stem);
    ReflectReads(r.step.call.signature, LastTemplate(r, stem), Count(r, stem), SuccessCount(r, stem), OutcomeCount(r, stem));
  }

  lemma OutcomeSetsBody(r: Run, stem: string)
    requires r.Then? && WritesOutcome(r.step, stem)
    ensures InMemory(r, stem).Some?
    ensures var e := InMemory(r, stem).value;
            e.body == ReflectText(r.step.call.signature, e.templateUsed, e.occurrences, |Successes(e.outcomes)|, |e.outcomes|) + "\n"
  {
    hide Slug, ReflectText, TemplateText, OutcomeOf, Successes, GapBody;
  }

  lemma ReflectReads(signature: string, template: string, occurrences: nat, successes: nat, total: nat)
    ensures ReflectText(signature, template, occurrences, successes, total) ==
            "# " + signature + "\n\n**Reflect:** template `" + template + "` has been applied "
            + Show(occurrences) + " time(s) to this fault, succeeding " + Show(successes) + "/"
            + Show(total) + ". Recurrence may indicate an upstream cause worth a deeper look."
  {
    hide Show;
  }

  /** The first gap tells its host and title; a later one leaves the text as it was, and the template, the
      parameters and the outcomes with it. */
  lemma GapTellsOnce(c: Codec, r: Run, stem: string)
    requires r.Then? && r.step.written && r.step.call.RecordGap? && Slug(r.step.call.signature) == stem
    requires Clean(c, r) && forall s :: Count(r, s) <= U64_MAX
    ensures InMemory(r, stem).Some?
    ensures InMemory(r.before, stem).None? ==>
              InMemory(r, stem).value.body ==
              "# " + r.step.call.signature + "\n\n**Gap:** no remediation template matched this fault on `" + r.step.call.host
              + "`. Author a template so the control plane can remediate it next time.\n\nEvent title: " + r.step.call.title + "\n"
    ensures InMemory(r.before, stem).Some? ==>
              var (was, now) := (InMemory(r.before, stem).value, InMemory(r, stem).value);
              now.body == was.body && now.templateUsed == was.templateUsed && now.params == was.params && now.outcomes == was.outcomes
  {
    hide *;
    CleanBefore(c, r);
    forall s ensures Count(r.before, s) <= U64_MAX { CountGrows(r, s); }
    FilesMirrorMemory(c, r.before, stem);
    MirrorsGood(c, At(c, r.before), stem, InMemory(r.before, stem));
    GapReads(r.step.call.signature, r.step.call.host, r.step.call.title);
    GapSetsBody(c, r, stem);
  }

  lemma GapSetsBody(c: Codec, r: Run, stem: string)
    requires r.Then? && r.step.written && r.step.call.RecordGap? && Slug(r.step.call.signature) == stem
    requires InMemory(r.before, stem).Some? ==> GoodEntry(c, InMemory(r.before, stem).value, stem)
    ensures InMemory(r, stem).Some?
    ensures InMemory(r.before, stem).None? ==>
              InMemory(r, stem).value.body == GapBody(r.step.call.signature, r.step.call.host, r.step.call.title)
    ensures InMemory(r.before, stem).Some? ==>
              var (was, now) := (InMemory(r.before, stem).value, InMemory(r, stem).value);
              now.body == was.body && now.templateUsed == was.templateUsed && now.params == was.params && now.outcomes == was.outcomes
  {
    hide Slug, GapBody, RoundTrip.Printable, RetrospectiveBody;
  }

  lemma CleanBefore(c: Codec, r: Run)
    requires r.Then? && Clean(c, r)
    ensures Clean(c, r.before)
  {
  }

  lemma CountGrows(r: Run, stem: string)
    requires r.Then?
    ensures Count(r.before, stem) <= Count(r, stem)
  {
    hide Slug;
  }

  lemma GapReads(signature: string, host: string, title: string)
    ensures GapBody(signature, host, title) ==
            "# " + signature + "\n\n**Gap:** no remediation template matched this fault on `" + host
            + "`. Author a template so the control plane can remediate it next time.\n\nEvent title: " + title + "\n"
  {
  }

  /** What is counted when signatures share a stem. A read that fails starts the history over: the
      next record keeps counting exactly when the file could be read. */
  lemma HistoryContinuesExactlyWhenReadable(c: Codec, files: Dir, e: Entry, call: Call, readable: bool, now: int)
    requires Mirrors(c, files, Slug(call.signature), Some(e)) && PrintableCall(c, call) && 0 < e.occurrences < U64_MAX
    ensures var after := Loaded(c, Next(c, files, Step(call, readable, true)), Slug(call.signature), now);
            after.Some? && (after.value.occurrences == e.occurrences + 1 <==> readable)
  {
    hide Markdown, FromMarkdown, Slug, RetrospectiveBody, GapBody, TemplateText, OutcomeOf, PrintableCall;
    var stem := Slug(call.signature);
    MirrorsLoads(c, files, stem, Some(e), call.now);
    MirrorsGood(c, files, stem, Some(e));
    var base := if readable then Some(e) else None;
    UpdatedIsGood(c, base, call);
    GoodSlug(c, Updated(base, call), stem);
    hide GoodEntry;
    GoodEntryReads(c, Updated(base, call), stem, now);
  }
}
