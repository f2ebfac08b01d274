# Command Vault routing engine

A Dafny model of the routing engine in `src/app/lib` of the Command Vault
uploader. The engine has four parts:

- **Path rules** (`rules.dfy`, module `Rules`).
  - `sanitize` cleans a filename.
  - `inferDocType` classifies a filename with a first-match keyword table.
  - `computePath` builds the dated destination path, the warnings and the
    suggestions for each target: Operation Harmony, runtime CODEX, config
    codex, or an unrecognised target.
  - `rethinkAllTargets` runs `computePath` for all three targets and ranks
    the results.
- **Card reader** (`cards.dfy`, module `Cards`).
  - `detectCardKindFromContent` tells a CodexCard from a CompletionCard. It
    looks at a `#` header line first and at the labelled fields second.
  - `clean` strips the backtick and bracket wrappers.
  - `parseCard` reads Loop Number, Task Reference, the two dates and the
    Filing Location. The Filing Location comes from one of three tiers:
    fenced block, inline backticks, plain line.
- **Card validator** (`validators.dfy`, module `Validators`).
  `validateMarkdownCard` runs a fixed sequence of required-field checks. Each
  check adds one entry to the errors or to the explanations.
- **Path clamp** (`structure.dfy`, module `Structure`).
  - `loadAllowedPrefixes` builds the set of allowed prefixes from the text of
    the vault structure document.
  - `clampToAllowed` snaps a path to its longest allowed ancestor, or to
    `Command Vault/` when there is none. It is a method with a `while` loop,
    proved equal to a recursive specification function.

`governance.dfy` (module `Governance`) relates the two halves. It says what
a caller gets when it clamps the paths `computePath` builds.

`text.dfy` (module `Text`) and `wrappers.dfy` (module `Wrappers`) hold shared
definitions: the JavaScript whitespace and line-terminator sets,
`String.prototype.trim`, `split`, `join`, single-character `replace` and an
`Option` type.

### How the regular expressions are read

Each JavaScript pattern is a hand-written predicate over `seq<char>`. The
text is taken to be well-formed UTF-16, with each code point one `char`.

- **Whitespace.** `\s` is the ECMAScript set (`Text.IsSpace`). The line
  terminators are LF, CR, U+2028 and U+2029.
- **Case.** The `i` flag and `toLowerCase` fold ASCII letters only.
- **Emoji quantifiers.** None of the patterns carries the `u` flag, so a
  quantifier after an emoji applies to its last UTF-16 code unit only.
  - `🗂️?` makes only the variation selector U+FE0F optional; the folder
    glyph U+1F5C2 is required.
  - In `📂?` the high surrogate is required. In well-formed text this means
    the glyph U+1F4C2 itself is required.
- **Filing Location groups.** The second fence pattern and the second
  inline pattern return group 1 as `""` or `"\n"`. This is modelled exactly,
  including the case where a truthy `"\n"` hides group 2.

## Model

| member | source | states |
|---|---|---|
| Rules.Sanitize | src/app/lib/rules.ts:32-34 | The sanitised name has no `/`, no `\`, no `..` and no whitespace at either end. |
| Rules.Neutralised | src/app/lib/rules.ts:33 | After both separators and every `..` pair are replaced by `_`, the name has no `/`, no `\` and no adjacent pair of dots. |
| Rules.TrimmedNeutral | src/app/lib/rules.ts:33-34 | Trimming keeps such a name free of separators and of `..`. |
| Rules.OccurrenceMeansDoubleDot | src/app/lib/rules.ts:33 | Any two adjacent dots are an occurrence of `..`, so a name in which `..` does not occur has no such pair. |
| Rules.SanitizeCleanName | src/app/lib/rules.ts:32-34 | A name with no separator and no `..` is only trimmed. |
| Rules.SanitizeIdempotent | src/app/lib/rules.ts:32-34 | Sanitising twice gives the same name as sanitising once. |
| Rules.ReplaceDoubleDots | src/app/lib/rules.ts:33 | The left-to-right replacement of `..` by `_` leaves no `..` pair, adds only `_` and keeps the string empty exactly when it was empty. |
| Rules.ReplaceDoubleDotsIdentity | src/app/lib/rules.ts:33 | With no `..` pair the replacement changes nothing. |
| Rules.InferDocType | src/app/lib/rules.ts:47-71 | Never Archive. Operations only on Operation Harmony. Generic never on Operation Harmony or runtime CODEX. A name with an SOP cue is SOP for every target. With no cue, the default chosen by target. |
| Rules.DeadCuesNeverDecide | src/app/lib/rules.ts:51-63 | Removing `policy` from the people test and `sop` from the operations test changes no result: the first test already claims every such name. |
| Rules.SystemCuesOutrankBusinessCues | src/app/lib/rules.ts:51-64 | A system cue anywhere in the name gives a system doc type, whatever business cues it also holds. |
| Rules.Dated | src/app/lib/rules.ts:122 | Every path starts with its area and a `/`, and ends with `/` + date + `/` + file name. |
| Rules.BrandPrefix | src/app/lib/rules.ts:99-100 | The brand folder, or `UNSPECIFIED_BRAND` when the brand is falsy, lies under `Command Vault/Operation Harmony/`. |
| Rules.HarmonyArea | src/app/lib/rules.ts:103-121 | `areaByType` sends system types under `Command Vault/CODEX/` and every other type under the brand folder. |
| Rules.HarmonyFolder | src/app/lib/rules.ts:103-119 | Every folder in `areaByType` is non-empty, and a system type's folder is a single path segment (no `/`) directly under `CODEX/`. |
| Rules.HarmonyFoldersDistinct | src/app/lib/rules.ts:103-119 | Two doc types share a folder exactly when they are equal or are Operations and Generic, the one alias in the table. |
| Rules.SopFolder | src/app/lib/rules.ts:156-162 | Every SOP folder lies inside `Standards & SOPs/`, the folder Operation Harmony gives SOPs. |
| Rules.SopFoldersDistinct | src/app/lib/rules.ts:156-162 | Two statuses share a folder exactly when they are equal. |
| Rules.CodexFolder | src/app/lib/rules.ts:144-189 | A system type's runtime folder lies inside that type's `areaByType` folder. Every other type falls back to a folder inside `Ops Intelligence/`. |
| Rules.SuggestionCoversRuntimeFolder | src/app/lib/rules.ts:103-185 | For a system type, the area Operation Harmony suggests (with its trailing `/`) is a prefix of the runtime CODEX folder for that type, whatever the loop and status. |
| Rules.EffectiveStatus | src/app/lib/rules.ts:90-93 | An SOP always has a status. A given status is kept, and a non-SOP keeps exactly the status it was given. The only status ever supplied is Draft. |
| Rules.EffectiveLoop | src/app/lib/rules.ts:91-94 | A loop task always has a non-empty loop. A non-empty loop is kept, and a non-loop-task keeps exactly the loop it was given. The only loop ever supplied is `Genesis_01`. |
| Rules.HarmonyRoute | src/app/lib/rules.ts:97-138 | The Operation Harmony branch. Its path starts with the area's root and ends with the dated file name. It has one brand warning exactly when the brand is falsy and one suggestion exactly for a system type. It reports the defaulted SOP status and loop. |
| Rules.CodexRoute | src/app/lib/rules.ts:141-190 | The runtime CODEX branch. Its path lies under `Command Vault/CODEX/` and ends with the dated file name, with no warnings and no suggestions. |
| Rules.ConfigRoute | src/app/lib/rules.ts:193-196 | The config codex branch. Its path lies under `codex/Schema Incoming/`, typed Generic, with no warnings and no suggestions. |
| Rules.UnroutedRoute | src/app/lib/rules.ts:199-204 | The fallback. Its path lies under the vault root with the single fallback warning, typed Generic. |
| Rules.ComputePath | src/app/lib/rules.ts:80-205 | See the ComputePath note below the table. |
| Rules.CodexSopByStatus | src/app/lib/rules.ts:90-93 | On runtime CODEX an SOP goes to `SOP Library` when Final, `Superseded & Archive` when Superseded and `Drafts Under Review` otherwise. A missing status is reported as Draft. |
| Rules.CodexLoopTaskByLoop | src/app/lib/rules.ts:91-94 | On runtime CODEX a loop task goes to `Loops/<loop>/Active Tasks`. An absent or empty loop becomes `Genesis_01`, which is reported. |
| Rules.ConfigCodexFixedFolder | src/app/lib/rules.ts:193-196 | Config codex always files under `codex/Schema Incoming/<date>/`, typed Generic, with no warnings and no suggestions. |
| Rules.UnrecognizedTargetFallback | src/app/lib/rules.ts:198-204 | Any other target files under `UNROUTED/<date>/` with the single warning `Unrecognized target; using fallback.` |
| Rules.HarmonySystemDocSuggestion | src/app/lib/rules.ts:121-130 | On Operation Harmony a system type gets exactly one suggestion: its area with a trailing slash and the system-doc reason. The primary path extends it. |
| Rules.HarmonySuggestionLeadsToCodexRoute | src/app/lib/rules.ts:124-185 | Following the suggestion works: the same request routed to runtime CODEX lands inside the suggested folder. |
| Rules.HarmonyBusinessDocUnderBrand | src/app/lib/rules.ts:97-122 | On Operation Harmony a business type files under the brand folder (`UNSPECIFIED_BRAND` when the brand is falsy), with no suggestion. |
| Rules.Alternates | src/app/lib/rules.ts:219 | The alternates are each candidate's primary path, in order, with the reason `Alternate target`. |
| Rules.RethinkAllTargets | src/app/lib/rules.ts:211-221 | The primary is the runtime CODEX result. There are exactly two alternates: the Operation Harmony path, then the config codex path. |
| Rules.RethinkBrandOnlyReachesHarmony | src/app/lib/rules.ts:212-216 | The brand changes neither the primary nor the config codex alternate. |
| Rules.RethinkRoots | src/app/lib/rules.ts:211-221 | The primary lies under `CODEX/`, the first alternate under the vault root, the second under `codex/Schema Incoming/`. |
| Cards.LabelEnd | src/app/lib/cards.ts:26-31 | A matched two-word label ends after its start, within the text. |
| Cards.LabelColon | src/app/lib/cards.ts:26-31 | The colon after a label is a `:` inside the text. |
| Cards.HasHeader | src/app/lib/cards.ts:23-24 | A header test passes only when some line starts with `#` and the folder glyph follows it: `🗂️?` leaves only the variation selector optional. |
| Cards.HasField | src/app/lib/cards.ts:26-31 | A field test passes only when some colon in the text is followed by a character that is not a line terminator, the `.+` after `:\s*`. |
| Cards.DetectCardKind | src/app/lib/cards.ts:21-36 | A CodexCard header wins, then a CompletionCard header. Without either header, the kind is CodexCard exactly when all three codex fields are present. Unknown exactly when neither header nor either full field set is present. A CompletionCard without its header has all four completion fields and not all three codex fields. |
| Cards.AllFiveFieldsIsCodexCard | src/app/lib/cards.ts:33-34 | Without a CompletionCard header, a text holding all five labelled fields is a CodexCard. |
| Cards.FieldDetectedKindHasItsFields | src/app/lib/cards.ts:26-35 | A kind inferred from fields has its Date Issued, or its Completed Task and Date Completed, presence test passing. |
| Cards.HeaderNeedsGlyph | src/app/lib/cards.ts:23 | `# CodexCard` without the folder glyph is not a header. `# 🗂️ CodexCard` is one. |
| Cards.Clean | src/app/lib/cards.ts:39 | The cleaned value has no whitespace at either end and uses only characters of its input. |
| Cards.CleanUnwraps | src/app/lib/cards.ts:39 | `[x]` and `` `[x]` `` both clean to `x` trimmed. |
| Cards.CleanEdgeCases | src/app/lib/cards.ts:39 | `[]` and `""` clean to `""`. A lone `]` survives, because the empty first match moves the scan past index 0. |
| Cards.CleanPlain | src/app/lib/cards.ts:39 | A value that neither starts with a backtick or `[` nor ends with `]` or a backtick cleans to its trim, and so does that value wrapped in a single backtick on each side. |
| Cards.NextCrLf | src/app/lib/cards.ts:50 | `[^\r\n]+` runs to the first CR or LF, or to the end of the text. |
| Cards.LastNonCrLfEnd | src/app/lib/cards.ts:50 | When only whitespace follows the colon, backtracking `\s*` gives back up to the last character that is not CR or LF. |
| Cards.ValueEnd | src/app/lib/cards.ts:50 | The captured value ends after the colon and within the text. |
| Cards.LabelLineEnd | src/app/lib/cards.ts:50 | A match at a word boundary ends after the label start. |
| Cards.LineMatchFrom | src/app/lib/cards.ts:50 | The lazy search along one line ends after where it started. |
| Cards.FirstLabelLine | src/app/lib/cards.ts:50 | A match found from line start `s` on lies within the text, after `s`, and the label line pattern holds at the line start it reports. |
| Cards.FirstWhere | src/app/lib/cards.ts:50-77 | The left-to-right search a regular expression makes: the position found satisfies the test and no earlier one does, and when none is found no position does. |
| Cards.FirstLabelLineLeftmost | src/app/lib/cards.ts:50 | The match found is the leftmost one: no earlier line start from `s` on matches. |
| Cards.FirstLabelLineNone | src/app/lib/cards.ts:50 | When no match is found, no line start from `s` to the end of the text matches. |
| Cards.NoLineMatchAtEnd | src/app/lib/cards.ts:50 | No label line matches at the end of the text, where no character is left for the label. |
| Cards.FirstColon | src/app/lib/cards.ts:51 | A colon found is a `:`, and no `:` and no line terminator comes before it. When none is found, every `:` after the start has a line terminator before it. |
| Cards.LabelledValue | src/app/lib/cards.ts:50-63 | A field is set exactly when some line matches its pattern. |
| Cards.TickedAfter | src/app/lib/cards.ts:76-77 | The value comes from the first position at or after the label that opens an inline value: a backtick, then a character that is not one, with a backtick somewhere later. No earlier position opens one. The value runs from after that backtick up to the next backtick, so it is non-empty and holds no backtick. There is no value exactly when no position from the label on opens one. |
| Cards.TickClose | src/app/lib/cards.ts:76-77 | After a backtick followed by a character that is not one, a closing backtick is found exactly when the position opens an inline value, and no backtick lies before the one found. |
| Cards.FencedAfter | src/app/lib/cards.ts:68-69 | The value lies between the first ```` ``` ```` at or after the label and the first ```` ``` ```` that begins after it (both lazy `[\s\S]*?` stop at the first fence), so it holds no ```` ``` ```` itself. When there is no value, no fence from the label on is followed by a second one. |
| Cards.FenceContentPlain | src/app/lib/cards.ts:68-69 | The text up to the first closing fence holds no fence. |
| Cards.FirstBlock | src/app/lib/cards.ts:68-77 | The left-to-right search for `<mark>\s*Filing\s*Location…`: a block found is the one after the first position from the search start that holds the mark and has a block after it, and no earlier mark has one. When none is found, no mark from the start on has a block after it. `MarkedBlock` (and through it `GlyphBlock`) applies this search to the labelled pattern, and `BlocksOfAt` says that what it reads after each position is `LabelledBlock`. |
| Cards.BlocksOfAt | src/app/lib/cards.ts:68-77 | The block read after a position inside the text is what the label-then-block pattern matches there. |
| Cards.AnchoredBlock | src/app/lib/cards.ts:69-77 | Group 1 is `""` exactly when the search starts at index 0 and the label pattern matches at the very start of the text, and group 2 is then that block. Otherwise group 1 is `"\n"` and group 2 is the block after the leftmost line feed that the pattern matches after. There is no match exactly when neither happens. |
| Cards.FenceTierWins | src/app/lib/cards.ts:67-72 | When a fence pattern matches, the Filing Location is the first line of the trimmed fence content, cleaned, or unset when that content is empty. It never holds a line feed. |
| Cards.NewlineGroupHidesFence | src/app/lib/cards.ts:69-72 | Suppose the glyph pattern finds no fence, the label does not begin the text, and the anchored pattern finds a fence. Then group 1 is the `"\n"` it matched, which is truthy and wins the `\|\|`. The Filing Location stays unset even when a lower tier would have found one. |
| Cards.NewlineGroupEmptiesInline | src/app/lib/cards.ts:73-78 | In the inline tier, with no fence, no glyph match and the label not at the start of the text, an anchored match has group 1 `"\n"`. That sets the Filing Location to the empty string. |
| Cards.FilingLocation | src/app/lib/cards.ts:65-84 | The Filing Location is unset exactly when a fence matched with empty trimmed content, or when no fence, no inline value and no plain line matched. A value that is set has no whitespace at either end. |
| Cards.InlineTierBeforePlain | src/app/lib/cards.ts:73-79 | With no fence, an inline backtick value decides the Filing Location whatever the plain line says. The glyph pattern is tried first, then the anchored one with its `"\n"` group. |
| Cards.PlainTierLast | src/app/lib/cards.ts:79-83 | When no fence and no inline pattern matches, the Filing Location is the plain `Filing Location: value` line's value, or unset when there is none. |
| Cards.LoopHeadColon | src/app/lib/cards.ts:50 | In a line starting `Loop Number: [` the label's colon is at index 11 and the value starts at index 13. |
| Cards.LoopHeadMatch | src/app/lib/cards.ts:50 | Such a line, with no CR or LF after the bracket, matches from its start to its end. |
| Cards.LoopHeadFrom | src/app/lib/cards.ts:50 | Tried at the first character of such a line, the pattern needs no leading space and runs to the end of the line. |
| Cards.LoopHeadAfterColon | src/app/lib/cards.ts:51 | Stripping up to the first colon leaves the bracketed value. |
| Cards.TemplateLoopLine | src/app/lib/cards.ts:50-51 | The template line `Loop Number: [x]` parses to `x` trimmed, for every single-line `x`. |
| Cards.ParseCard | src/app/lib/cards.ts:45-87 | The kind is the detector's verdict. Each of loop, task reference and the two dates is set exactly when its line pattern matches. The Filing Location comes from the three-tier chain. |
| Validators.Check | src/app/lib/validators.ts:24-25 | One check adds exactly one entry: the error when the field is missing, the explanation when it is present. |
| Validators.MissingOnlyReported | src/app/lib/validators.ts:22-31 | An error that no check reports never appears in the list. |
| Validators.MissingReports | src/app/lib/validators.ts:22-31 | When the checks report distinct errors, each check's error is in the list exactly when that check fails. |
| Validators.CodexTrace | src/app/lib/validators.ts:24-34 | The three CodexCard checks plus the detection note give four entries in all, with the note last. The errors are exactly the failing checks' messages, in check order: Loop Number, Task Reference, Date Issued. |
| Validators.CompletionChecks | src/app/lib/validators.ts:41-53 | The four CompletionCard checks give four entries. The errors are exactly the failing checks' messages, in check order: Completed Task, Loop Number, Task Reference, Date Completed. |
| Validators.CodexInOrder | src/app/lib/validators.ts:24-34 | The errors pushed by the three CodexCard checks are the failing checks' messages in check order, and the detection note comes last. |
| Validators.CompletionInOrder | src/app/lib/validators.ts:41-53 | The errors pushed by the four CompletionCard checks are the failing checks' messages in check order. |
| Validators.CodexErrorsExplained | src/app/lib/validators.ts:24-32 | The Loop Number, Task Reference and Date Issued errors each appear exactly when their own check fails. |
| Validators.CompletionErrorsExplained | src/app/lib/validators.ts:41-53 | The Completed Task, Loop Number, Task Reference and Date Completed errors each appear exactly when their own check fails. |
| Validators.CompletionTrace | src/app/lib/validators.ts:41-61 | The checks, one Filing Location note and the detection note give six entries, with the note last. The Filing Location adds no error, only the "rules will determine" note when it is missing. |
| Validators.Validate | src/app/lib/validators.ts:21-67 | The branch on the kind. Failed exactly when the kind is a card and some error was pushed. Unknown passes with the single not-a-card note. The traces are those of the kind's checks. |
| Validators.ValidateMarkdownCard | src/app/lib/validators.ts:16-68 | The kind is the detector's. `ok:false` only for a card, and exactly when errors is non-empty. Unknown passes with one explanation. The entries number 4 for a CodexCard and 6 for a CompletionCard, with the detection note last. |
| Validators.HeaderOnlyCodexCard | src/app/lib/validators.ts:24-35 | A CodexCard header with none of its fields fails with exactly the Loop, Task Reference and Date Issued errors, in that order. |
| Validators.CodexAllMissing | src/app/lib/validators.ts:24-35 | With all three CodexCard fields missing, the result fails with the three errors in order and only the detection note. |
| Validators.FieldDetectedPassesRawChecks | src/app/lib/validators.ts:30-31 | A card recognised by its fields never fails the Date Issued, Completed Task or Date Completed checks: they reuse the detection patterns. |
| Validators.EmptyLoopIsMissing | src/app/lib/validators.ts:24 | A Loop Number line whose value cleans to `""` is reported missing, first among the errors. |
| Validators.FilingLocationAdvisory | src/app/lib/validators.ts:41-61 | On a CompletionCard every error names one of the four required fields. A card without a Filing Location gets the "rules will determine" note. |
| Structure.Add | src/app/lib/structure.ts:11 | `Set.add` keeps every member and adds the new one. |
| Structure.AddAll | src/app/lib/structure.ts:13-17 | Adding each root in turn gives exactly the old members and the roots. |
| Structure.AddAllKeepsNoDuplicates | src/app/lib/structure.ts:10-17 | Adding through the set never creates a duplicate. |
| Structure.RootsDistinct | src/app/lib/structure.ts:11-17 | The master root and the three fixed roots are four different strings. |
| Structure.MentionsVaultRoot | src/app/lib/structure.ts:11 | A document starting with `Command Vault/`, or with it right after a line terminator, mentions the root. A document that mentions it contains `Command Vault/`. |
| Structure.AllowedPrefixesShape | src/app/lib/structure.ts:10-18 | The list is the master root when some line starts with it, then the CODEX, OPERATION HARMONY and codex roots. It holds the master root exactly when the document mentions it, and it has no duplicates. |
| Structure.LoadAllowedPrefixes | src/app/lib/structure.ts:7-19 | The method's loop over the fixed roots returns that list. |
| Structure.NormalizeSlashes | src/app/lib/structure.ts:23 | The normalised path holds no backslash. |
| Structure.Segments | src/app/lib/structure.ts:27 | Segments are non-empty and made of characters of the path. |
| Structure.WalkUp | src/app/lib/structure.ts:27-33 | The walk-up returns the ancestor of the longest allowed segment prefix, or the master root when no ancestor is allowed. |
| Structure.Clamp | src/app/lib/structure.ts:22-34 | A normalised path with an allowed prefix comes back unchanged. Otherwise the result is allowed or the master root. An empty allowed list always gives the master root. |
| Structure.ClampHasNoBackslash | src/app/lib/structure.ts:23-33 | The clamped path never holds a backslash. |
| Structure.ClampWalksUp | src/app/lib/structure.ts:27-33 | Off the fast path, the result is the longest allowed ancestor, or the master root when there is none. |
| Structure.MasterRootIsFixed | src/app/lib/structure.ts:33 | The master root clamps to itself under every allowed list. |
| Structure.ClampIdempotent | src/app/lib/structure.ts:22-34 | Clamping twice gives the same result as clamping once. |
| Structure.SomeStartsWith | src/app/lib/structure.ts:24 | The loop for `allowed.some(p => s.startsWith(p))` answers exactly whether some prefix starts the string. |
| Structure.ClampToAllowed | src/app/lib/structure.ts:22-34 | The method that pops the segment list returns the value of `Clamp`. |
| Governance.RootsAgree | src/app/lib/structure.ts:14-16 | The vault, CODEX and codex roots are spelled the same way in both files. |
| Governance.NormalizeKeepsPrefix | src/app/lib/structure.ts:23 | Normalising slashes keeps a prefix that holds no backslash. |
| Governance.UnderFixedRootKept | src/app/lib/structure.ts:22-34 | A path under one of the fixed roots always passes the clamp, whatever the structure document says; only its backslashes become slashes. |
| Governance.SystemPathsStayPut | src/app/lib/rules.ts:141-196 | Runtime CODEX paths, config codex paths and Operation Harmony system-type paths only have their slashes normalised by the clamp, whatever the structure document says. |
| Governance.HarmonyOutsideFixedRoots | src/app/lib/structure.ts:15 | No fixed root starts a path under `Command Vault/Operation Harmony/`: the fixed root spells it in capitals. |
| Governance.HarmonyPathKept | src/app/lib/structure.ts:24 | With the master root allowed, a path under `Operation Harmony` only has its slashes normalised. |
| Governance.HarmonyPathCollapses | src/app/lib/structure.ts:27-33 | With only the fixed roots, a path under `Operation Harmony` has no allowed ancestor and clamps to the master root. |
| Governance.HarmonyBusinessPathsNeedVaultRoot | src/app/lib/rules.ts:97-122 | An Operation Harmony business path survives the clamp, with slashes normalised, exactly when the structure document mentions `Command Vault/`. Otherwise it collapses to `Command Vault/`. |

**Rules.ComputePath.** The contract states the following.

- **Every branch.**
  - The path starts with `Command Vault/` and ends with `/<date>/<sanitised name>`.
  - The doc type is never Archive.
  - Only Operation Harmony adds suggestions.
- **Operation Harmony.**
  - Warnings are empty exactly when the brand is truthy, and are otherwise exactly the brand warning.
  - There is at most one suggestion, and one exactly for a system type.
  - The path starts under `CODEX/` for a system type, otherwise under the brand folder.
- **Runtime CODEX.** No warnings; the path starts under `CODEX/`.
- **Config codex.** No warnings; the path starts under `codex/Schema Incoming/`.
- **Unrecognised target.** Only the fallback warning.

## Left out

- The clock: `ymd()` reads the current date (src/app/lib/rules.ts:36-38). Here the date string is a parameter of `ComputePath` and `RethinkAllTargets`, and its format is not constrained. `rethinkAllTargets` reads the clock three times; the model uses one date for all three calls, so a run across midnight is not modelled.
- The file read: `fs.readFileSync` in `loadAllowedPrefixes` (src/app/lib/structure.ts:5,9). Here the document's text is a parameter.
- The React pages, the PIN override and the `preview` and `rethink` API routes. They are UI and HTTP glue around the modelled functions.
- A general JavaScript regular-expression engine. Each pattern in the four files is encoded as its own predicate.
- Unicode case mapping beyond ASCII. `toLowerCase` and the `i` flag are modelled on ASCII letters only, so non-ASCII characters whose lower case is ASCII (such as the Kelvin sign) are not folded.
- Ill-formed UTF-16. Lone surrogates are not representable, and the optional low surrogate of `📂?` is modelled as the whole glyph.
- `clean(undefined)`. No call site passes `undefined`: every value handed to `clean` comes from a match that took place.
- Cards.LabelledValue: the contract says when a field is set; the value itself is the definition (the first matching line, cut after its first colon, cleaned). `TemplateLoopLine` pins the value for the card template's line.
- Cards.ValueEnd: states only where the captured value ends; what the whole line pattern captures is stated by `FirstLabelLine`, `FirstLabelLineLeftmost`, `FirstLabelLineNone` and, for the template line, `LoopHeadMatch`.
- Cards.LabelLineEnd: states only that a match ends after the label start, for the same reason.
- Cards.LineMatchFrom: states only that the lazy search ends after where it started, for the same reason.
- Cards.ParseCard: the same holds for each field's value, which is `LabelledValue` of its label.
- Behaviour described for the system but absent from the code is not modelled, following the code:
  - card-aware routing and a `preferFiling` flag (`RuleInput` has no such field);
  - clamping inside `computePath`;
  - year and month buckets for finance documents;
  - a server-side override.
- `rethinkAllTargets` returns `{ primary, others }` with the whole runtime CODEX result as `primary`. The model keeps that shape; any caller expecting other fields is outside this model.
