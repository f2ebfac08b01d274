/**
 * `validateMarkdownCard` of `src/app/lib/validators.ts`: a fixed sequence of
 * required-field checks per card kind, each adding one entry either to the
 * errors or to the explanations, then a detection note.
 */
module Validators {
  import opened Wrappers
  import opened Text
  import opened Cards

  datatype Explain = Explain(reason: string)

  /** The tagged union `ValidationResult`: `ok: true` is `Passed`, `ok: false` is `Failed`. */
  datatype ValidationResult =
    | Passed(kind: CardKind, explains: seq<Explain>)
    | Failed(kind: CardKind, errors: seq<string>, explains: seq<Explain>)
  {
    /** The errors reported, none when the card passed. */
    function Errors(): seq<string> {
      if Failed? then errors else []
    }
  }

  // ---- Messages (validators.ts:24-66)

  const LoopGlyph := '\U{1F504}'
  const IdGlyph := '\U{1F194}'
  const CalendarGlyph := '\U{1F4C5}'
  const CheckGlyph := '\U{2705}'

  const CodexLoopError := [LoopGlyph] + " Loop Number is required (per CodexCard template)."
  const CodexTaskRefError := [IdGlyph] + " Task Reference is required (per CodexCard template)."
  const IssuedError := [CalendarGlyph] + " Date Issued is required (per CodexCard template)."
  const CompletedTaskError := [CheckGlyph] + " Completed Task is required (per CompletionCard template)."
  const CompletionLoopError := [LoopGlyph] + " Loop Number is required (per CompletionCard template)."
  const CompletionTaskRefError := [IdGlyph] + " Task Reference is required (per CompletionCard template)."
  const DateCompletedError := [CalendarGlyph] + " Date Completed is required (per CompletionCard template)."

  const IssuedFound := "Date Issued found."
  const CompletedTaskFound := "Completed Task found."
  const DateCompletedFound := "Date Completed found."
  const CodexDetected := "Detected CodexCard via header or required fields."
  const CompletionDetected := "Detected CompletionCard via header or required fields."
  const NoFilingNote := "No \U{1F4C2} Filing Location \U{2014} rules will determine destination."
  const NotACardNote := "Not a recognised Card \U{2014} using filename & structure heuristics."

  function LoopFound(loop: string): string { "Loop Number found: " + loop }
  function TaskRefFound(taskRef: string): string { "Task Reference found: " + taskRef }
  function FilingNote(location: string): string { "Card includes \U{1F4C2} Filing Location: " + location }

  /** Each check has its own error message; the glyph or the kind named tells them apart. */
  lemma ErrorsDistinct()
    ensures CodexLoopError != CodexTaskRefError && CompletionLoopError != CompletionTaskRefError
    ensures IssuedError !in {CodexLoopError, CodexTaskRefError}
    ensures CompletedTaskError !in {CompletionLoopError, CompletionTaskRefError, DateCompletedError}
    ensures DateCompletedError !in {CompletionLoopError, CompletionTaskRefError}
    ensures IssuedError !in {CompletedTaskError, CompletionLoopError, CompletionTaskRefError, DateCompletedError}
    ensures CompletedTaskError !in {CodexLoopError, CodexTaskRefError, IssuedError}
    ensures DateCompletedError !in {CodexLoopError, CodexTaskRefError, IssuedError}
  {
    assert IssuedError[0] == DateCompletedError[0] == CalendarGlyph;
    assert CodexLoopError[0] == CompletionLoopError[0] == LoopGlyph;
    assert CodexTaskRefError[0] == CompletionTaskRefError[0] == IdGlyph;
    assert CompletedTaskError[0] == CheckGlyph;
    assert |IssuedError| != |DateCompletedError|;
  }

  // ---- The traces

  /** The `errors` and `explains` arrays as they are pushed to. */
  datatype Trace = Trace(errors: seq<string>, explains: seq<Explain>)

  /** One required-field check: push the error when the field is missing, the explanation when it is present. */
  function Check(tr: Trace, present: bool, error: string, found: string): (r: Trace)
    ensures |r.errors| + |r.explains| == |tr.errors| + |tr.explains| + 1
    ensures r.errors == tr.errors + (if present then [] else [error])
    ensures r.explains == tr.explains + (if present then [Explain(found)] else [])
  {
    if present then Trace(tr.errors, tr.explains + [Explain(found)])
    else Trace(tr.errors + [error], tr.explains)
  }

  /** `s || ''` on an optional string, as a template literal shows a value that passed a truthiness test. */
  function OrEmpty(s: Option<string>): string {
    if s.Some? then s.value else ""
  }

  function Note(tr: Trace, reason: string): Trace {
    Trace(tr.errors, tr.explains + [Explain(reason)])
  }

  /**
   * The errors of a run of required-field checks, each given as whether its
   * field is present and the error it reports otherwise: the errors of the
   * failing checks, in check order.
   */
  function Missing<E>(checks: seq<(bool, E)>): (errs: seq<E>)
    ensures |errs| <= |checks|
  {
    if checks == [] then []
    else (if checks[0].0 then [] else [checks[0].1]) + Missing(checks[1..])
  }

  /** An error no check reports is never in the list. */
  lemma {:induction false} MissingOnlyReported<E>(checks: seq<(bool, E)>, e: E)
    requires forall j | 0 <= j < |checks| :: checks[j].1 != e
    ensures e !in Missing(checks)
    decreases |checks|
  {
    if checks != [] {
      assert forall j | 0 <= j < |checks| - 1 :: checks[1..][j] == checks[j + 1];
      MissingOnlyReported(checks[1..], e);
    }
  }

  /** When the checks report distinct errors, the `i`-th error is listed exactly when the `i`-th check fails. */
  lemma {:induction false} MissingReports<E>(checks: seq<(bool, E)>, i: nat)
    requires i < |checks|
    requires forall j, k | 0 <= j < k < |checks| :: checks[j].1 != checks[k].1
    ensures checks[i].1 in Missing(checks) <==> !checks[i].0
    decreases |checks|
  {
    var rest := checks[1..];
    assert forall j | 0 <= j < |rest| :: rest[j] == checks[j + 1];
    if i == 0 {
      MissingOnlyReported(rest, checks[0].1);
    } else {
      MissingReports(rest, i - 1);
      assert checks[i].1 != checks[0].1;
    }
  }

  lemma Missing3<E>(a: (bool, E), b: (bool, E), c: (bool, E))
    ensures Missing([a, b, c]) == (if a.0 then [] else [a.1]) + (if b.0 then [] else [b.1]) + (if c.0 then [] else [c.1])
  {
    assert [c][1..] == [];
    assert Missing([c]) == (if c.0 then [] else [c.1]);
    assert [b, c][1..] == [c];
    assert Missing([b, c]) == (if b.0 then [] else [b.1]) + Missing([c]);
    assert [a, b, c][1..] == [b, c];
  }

  lemma Missing4<E>(a: (bool, E), b: (bool, E), c: (bool, E), d: (bool, E))
    ensures Missing([a, b, c, d]) == (if a.0 then [] else [a.1]) + (if b.0 then [] else [b.1]) + (if c.0 then [] else [c.1]) + (if d.0 then [] else [d.1])
  {
    Missing3(b, c, d);
    assert [a, b, c, d][1..] == [b, c, d];
  }

  lemma MissingWithin3<E>(a: (bool, E), b: (bool, E), c: (bool, E))
    ensures forall e | e in Missing([a, b, c]) :: e in {a.1, b.1, c.1}
  {
    Missing3(a, b, c);
  }

  lemma MissingWithin4<E>(a: (bool, E), b: (bool, E), c: (bool, E), d: (bool, E))
    ensures forall e | e in Missing([a, b, c, d]) :: e in {a.1, b.1, c.1, d.1}
  {
    Missing4(a, b, c, d);
  }

  /** The CodexCard checks in the order validators.ts:24-32 runs them. */
  function CodexRequired(t: string, card: ParsedCard): seq<(bool, string)> {
    [(Truthy(card.loop), CodexLoopError), (Truthy(card.taskRef), CodexTaskRefError), (HasField(t, DateIssued), IssuedError)]
  }

  /** The CompletionCard checks in the order validators.ts:41-53 runs them. */
  function CompletionRequired(t: string, card: ParsedCard): seq<(bool, string)> {
    [ (HasField(t, CompletedTask), CompletedTaskError), (Truthy(card.loop), CompletionLoopError)
    , (Truthy(card.taskRef), CompletionTaskRefError), (HasField(t, DateCompleted), DateCompletedError) ]
  }

  /** validators.ts:24-34. */
  function CodexTrace(t: string, card: ParsedCard): (tr: Trace)
    ensures |tr.errors| + |tr.explains| == 4 && |tr.explains| > 0 && tr.explains[|tr.explains| - 1] == Explain(CodexDetected)
    ensures forall e | e in tr.errors :: e in {CodexLoopError, CodexTaskRefError, IssuedError}
    ensures IssuedError in tr.errors <==> !HasField(t, DateIssued)
    ensures tr.errors == Missing(CodexRequired(t, card))
  {
    var tr := Check(Trace([], []), Truthy(card.loop), CodexLoopError, LoopFound(OrEmpty(card.loop)));
    var tr := Check(tr, Truthy(card.taskRef), CodexTaskRefError, TaskRefFound(OrEmpty(card.taskRef)));
    var tr := Check(tr, HasField(t, DateIssued), IssuedError, IssuedFound);
    CodexInOrder(t, card, tr);
    Note(tr, CodexDetected)
  }

  /** The four required-field checks of a CompletionCard (validators.ts:41-53). */
  function CompletionChecks(t: string, card: ParsedCard): (tr: Trace)
    ensures |tr.errors| + |tr.explains| == 4
    ensures forall e | e in tr.errors :: e in {CompletedTaskError, CompletionLoopError, CompletionTaskRefError, DateCompletedError}
    ensures CompletedTaskError in tr.errors <==> !HasField(t, CompletedTask)
    ensures DateCompletedError in tr.errors <==> !HasField(t, DateCompleted)
    ensures tr.errors == Missing(CompletionRequired(t, card))
  {
    var tr1 := Check(Trace([], []), HasField(t, CompletedTask), CompletedTaskError, CompletedTaskFound);
    var tr2 := Check(tr1, Truthy(card.loop), CompletionLoopError, LoopFound(OrEmpty(card.loop)));
    var tr3 := Check(tr2, Truthy(card.taskRef), CompletionTaskRefError, TaskRefFound(OrEmpty(card.taskRef)));
    var tr4 := Check(tr3, HasField(t, DateCompleted), DateCompletedError, DateCompletedFound);
    CompletionInOrder(t, card, tr4);
    tr4
  }

  /** The three checks' trace, with the detection note, holds the failing checks' errors in check order. */
  lemma CodexInOrder(t: string, card: ParsedCard, tr: Trace)
    requires |tr.errors| + |tr.explains| == 3
    requires tr.errors == (if Truthy(card.loop) then [] else [CodexLoopError])
      + (if Truthy(card.taskRef) then [] else [CodexTaskRefError])
      + (if HasField(t, DateIssued) then [] else [IssuedError])
    ensures var r := Note(tr, CodexDetected);
      && |r.errors| + |r.explains| == 4 && |r.explains| > 0 && r.explains[|r.explains| - 1] == Explain(CodexDetected)
      && (forall e | e in r.errors :: e in {CodexLoopError, CodexTaskRefError, IssuedError})
      && (IssuedError in r.errors <==> !HasField(t, DateIssued))
      && r.errors == Missing(CodexRequired(t, card))
  {
    ErrorsDistinct();
    var cs := CodexRequired(t, card);
    MissingWithin3(cs[0], cs[1], cs[2]);
    assert cs == [cs[0], cs[1], cs[2]];
    MissingReports(cs, 2);
    Missing3(cs[0], cs[1], cs[2]);
  }

  /** The four checks' trace holds the failing checks' errors in check order. */
  lemma CompletionInOrder(t: string, card: ParsedCard, tr: Trace)
    requires tr.errors == (if HasField(t, CompletedTask) then [] else [CompletedTaskError])
      + (if Truthy(card.loop) then [] else [CompletionLoopError])
      + (if Truthy(card.taskRef) then [] else [CompletionTaskRefError])
      + (if HasField(t, DateCompleted) then [] else [DateCompletedError])
    ensures forall e | e in tr.errors :: e in {CompletedTaskError, CompletionLoopError, CompletionTaskRefError, DateCompletedError}
    ensures CompletedTaskError in tr.errors <==> !HasField(t, CompletedTask)
    ensures DateCompletedError in tr.errors <==> !HasField(t, DateCompleted)
    ensures tr.errors == Missing(CompletionRequired(t, card))
  {
    ErrorsDistinct();
    var cs := CompletionRequired(t, card);
    Missing4(cs[0], cs[1], cs[2], cs[3]);
    MissingWithin4(cs[0], cs[1], cs[2], cs[3]);
    assert cs == [cs[0], cs[1], cs[2], cs[3]];
    MissingReports(cs, 0);
    MissingReports(cs, 3);
  }


  /** Each CodexCard error appears exactly when its own check fails (validators.ts:24-32). */
  lemma CodexErrorsExplained(t: string, card: ParsedCard)
    ensures CodexLoopError in CodexTrace(t, card).errors <==> !Truthy(card.loop)
    ensures CodexTaskRefError in CodexTrace(t, card).errors <==> !Truthy(card.taskRef)
    ensures IssuedError in CodexTrace(t, card).errors <==> !HasField(t, DateIssued)
  {
    ErrorsDistinct();
    var cs := CodexRequired(t, card);
    MissingReports(cs, 0);
    MissingReports(cs, 1);
    MissingReports(cs, 2);
  }

  /** Each CompletionCard error appears exactly when its own check fails (validators.ts:41-53). */
  lemma CompletionErrorsExplained(t: string, card: ParsedCard)
    ensures CompletedTaskError in CompletionChecks(t, card).errors <==> !HasField(t, CompletedTask)
    ensures CompletionLoopError in CompletionChecks(t, card).errors <==> !Truthy(card.loop)
    ensures CompletionTaskRefError in CompletionChecks(t, card).errors <==> !Truthy(card.taskRef)
    ensures DateCompletedError in CompletionChecks(t, card).errors <==> !HasField(t, DateCompleted)
  {
    ErrorsDistinct();
    var cs := CompletionRequired(t, card);
    MissingReports(cs, 0);
    MissingReports(cs, 1);
    MissingReports(cs, 2);
    MissingReports(cs, 3);
  }

  /** validators.ts:41-61: the checks, the Filing Location note and the detection note. */
  function CompletionTrace(t: string, card: ParsedCard): (tr: Trace)
    ensures |tr.errors| + |tr.explains| == 6 && |tr.explains| > 0 && tr.explains[|tr.explains| - 1] == Explain(CompletionDetected)
    ensures tr.errors == CompletionChecks(t, card).errors
    ensures !Truthy(card.filingLocation) ==> Explain(NoFilingNote) in tr.explains
  {
    var tr := CompletionChecks(t, card);
    var tr := Note(tr, if Truthy(card.filingLocation) then FilingNote(OrEmpty(card.filingLocation)) else NoFilingNote);
    Note(tr, CompletionDetected)
  }

  /** `ok` is false exactly when some error was pushed. */
  function Finish(kind: CardKind, tr: Trace): ValidationResult {
    if |tr.errors| > 0 then Failed(kind, tr.errors, tr.explains) else Passed(kind, tr.explains)
  }

  /** The branch on the detected kind, given the kind and the parsed card. */
  function Validate(t: string, kind: CardKind, card: ParsedCard): (r: ValidationResult)
    ensures r.kind == kind
    ensures r.Failed? <==> kind != Unknown && |r.Errors()| > 0
    ensures kind == Unknown ==> r == Passed(Unknown, [Explain(NotACardNote)])
    ensures kind == CodexCard ==> |r.Errors()| + |r.explains| == 4 && |r.explains| > 0 && r.explains[|r.explains| - 1] == Explain(CodexDetected)
    ensures kind == CompletionCard ==> |r.Errors()| + |r.explains| == 6 && |r.explains| > 0 && r.explains[|r.explains| - 1] == Explain(CompletionDetected)
    ensures kind == CodexCard ==> r.Errors() == CodexTrace(t, card).errors && r.explains == CodexTrace(t, card).explains
    ensures kind == CompletionCard ==> r.Errors() == CompletionTrace(t, card).errors && r.explains == CompletionTrace(t, card).explains
  {
    match kind
    case CodexCard => Finish(kind, CodexTrace(t, card))
    case CompletionCard => Finish(kind, CompletionTrace(t, card))
    case Unknown => Passed(Unknown, [Explain(NotACardNote)])
  }

  /** `validateMarkdownCard` (validators.ts:16-68). */
  function ValidateMarkdownCard(t: string): (r: ValidationResult)
    ensures r.kind == DetectCardKind(t)
    ensures r.Failed? <==> r.kind != Unknown && |r.Errors()| > 0
    ensures r.kind == Unknown ==> r == Passed(Unknown, [Explain(NotACardNote)])
    ensures r.kind == CodexCard ==> |r.Errors()| + |r.explains| == 4 && |r.explains| > 0 && r.explains[|r.explains| - 1] == Explain(CodexDetected)
    ensures r.kind == CompletionCard ==> |r.Errors()| + |r.explains| == 6 && |r.explains| > 0 && r.explains[|r.explains| - 1] == Explain(CompletionDetected)
  {
    Validate(t, DetectCardKind(t), ParseCard(t))
  }

  /** A CodexCard header with none of the fields present fails with the three errors in check order. */
  lemma HeaderOnlyCodexCard(t: string)
    requires HasHeader(t, CodexHeader)
    requires ParseCard(t).loop.None? && ParseCard(t).taskRef.None? && !HasField(t, DateIssued)
    ensures ValidateMarkdownCard(t) == Failed(CodexCard, [CodexLoopError, CodexTaskRefError, IssuedError], [Explain(CodexDetected)])
  {
    var card := ParseCard(t);
    CodexAllMissing(t, card);
    assert ValidateMarkdownCard(t) == Validate(t, CodexCard, card);
  }

  /** The CodexCard branch with all three fields missing. */
  lemma CodexAllMissing(t: string, card: ParsedCard)
    requires card.loop.None? && card.taskRef.None? && !HasField(t, DateIssued)
    ensures Validate(t, CodexCard, card) == Failed(CodexCard, [CodexLoopError, CodexTaskRefError, IssuedError], [Explain(CodexDetected)])
  {
    var tr := CodexTrace(t, card);
    assert tr == Trace([CodexLoopError, CodexTaskRefError, IssuedError], [Explain(CodexDetected)]);
  }

  /**
   * Date Issued, Completed Task and Date Completed are checked with the
   * detection patterns themselves, so a card recognised by its fields
   * (without a header) never fails those checks.
   */
  lemma FieldDetectedPassesRawChecks(t: string)
    requires !HasHeader(t, CodexHeader) && !HasHeader(t, CompletionHeader)
    ensures IssuedError !in ValidateMarkdownCard(t).Errors()
    ensures CompletedTaskError !in ValidateMarkdownCard(t).Errors()
    ensures DateCompletedError !in ValidateMarkdownCard(t).Errors()
  {
    var kind := DetectCardKind(t);
    var card := ParseCard(t);
    var r := Validate(t, kind, card);
    assert ValidateMarkdownCard(t) == r;
    ErrorsDistinct();
    if kind == CodexCard {
      assert HasField(t, DateIssued);
      assert r.Errors() == CodexTrace(t, card).errors;
    } else if kind == CompletionCard {
      assert HasField(t, CompletedTask) && HasField(t, DateCompleted);
      assert r.Errors() == CompletionChecks(t, card).errors;
    }
  }

  /** The Loop check reads the parsed value, so a Loop Number line whose value cleans to "" (as `[]` does) is reported missing. */
  lemma EmptyLoopIsMissing(t: string)
    requires DetectCardKind(t) == CodexCard && ParseCard(t).loop == Some("")
    ensures ValidateMarkdownCard(t).Failed? && ValidateMarkdownCard(t).errors[0] == CodexLoopError
  {
    var card := ParseCard(t);
    assert CodexTrace(t, card).errors[0] == CodexLoopError;
    assert ValidateMarkdownCard(t) == Validate(t, CodexCard, card);
  }

  /**
   * On a CompletionCard the Filing Location is advisory: every error names
   * one of the four required fields, and a card without one is told that
   * the rules will decide.
   */
  lemma FilingLocationAdvisory(t: string)
    requires DetectCardKind(t) == CompletionCard
    ensures forall e | e in ValidateMarkdownCard(t).Errors() ::
      e in {CompletedTaskError, CompletionLoopError, CompletionTaskRefError, DateCompletedError}
    ensures !Truthy(ParseCard(t).filingLocation) ==> Explain(NoFilingNote) in ValidateMarkdownCard(t).explains
  {
    var card := ParseCard(t);
    assert ValidateMarkdownCard(t) == Validate(t, CompletionCard, card);
    assert ValidateMarkdownCard(t).Errors() == CompletionChecks(t, card).errors;
  }
}
