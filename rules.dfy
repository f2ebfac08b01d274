/**
 * The filename classifier and path builder of `src/app/lib/rules.ts`:
 * `sanitize`, the first-match keyword table of `inferDocType`, the
 * per-target path rules of `computePath`, and `rethinkAllTargets`.
 * The clock read by `ymd()` is the `date` parameter.
 */
module Rules {
  import opened Wrappers
  import opened Text

  datatype Target = OperationHarmony | RuntimeCodex | ConfigCodex
    /** Any other `target` value a request may carry. */
    | Unrecognized

  datatype DocType =
    | LoopTask | SOP | OpsIntel | SystemHealth | ControlDeck
    | Operations | Marketing | PeopleHR | AIAutomation | Finance
    | Strategy | ContentCreative | Archive | Generic

  datatype SopStatus = Draft | Final | Superseded

  datatype RuleInput = RuleInput(
    target: Target,
    filename: string,
    brand: Option<string>,
    loopName: Option<string>,
    sopStatus: Option<SopStatus>)

  datatype Suggestion = Suggestion(path: string, reason: string)

  datatype Detected = Detected(docType: DocType, sopStatus: Option<SopStatus>, loopName: Option<string>)

  datatype RuleResult = RuleResult(
    primaryPath: string,
    suggestions: seq<Suggestion>,
    warnings: seq<string>,
    detected: Detected)

  const VaultRoot := "Command Vault"
  const HarmonyRoot := "Operation Harmony"
  const CodexRoot := "CODEX"
  const ConfigRoot := "codex"
  const DefaultLoop := "Genesis_01"
  const UnspecifiedBrand := "UNSPECIFIED_BRAND"
  const BrandWarning := "Brand is required for Operation Harmony."
  const UnroutedWarning := "Unrecognized target; using fallback."

  // ---- sanitize

  predicate NoDoubleDot(s: string) {
    forall i | 0 <= i < |s| - 1 :: !(s[i] == '.' && s[i + 1] == '.')
  }

  /** `s.replace(/\.\./g, '_')`: non-overlapping, left to right. */
  function ReplaceDoubleDots(s: string): (r: string)
    ensures |r| == 0 <==> |s| == 0
    ensures r != [] ==> r[0] == (if StartsWith(s, "..") then '_' else s[0])
    ensures forall c :: c in r ==> c in s || c == '_'
    ensures NoDoubleDot(r)
    decreases |s|
  {
    if |s| >= 2 && s[0] == '.' && s[1] == '.' then "_" + ReplaceDoubleDots(s[2..])
    else if |s| == 0 then ""
    else [s[0]] + ReplaceDoubleDots(s[1..])
  }

  lemma NoDoubleDotSlice(s: string, a: int, b: int)
    requires 0 <= a <= b <= |s| && NoDoubleDot(s)
    ensures NoDoubleDot(s[a..b])
  {
    forall i | 0 <= i < b - a - 1 ensures !(s[a..b][i] == '.' && s[a..b][i + 1] == '.') {
      assert s[a..b][i] == s[a + i] && s[a..b][i + 1] == s[a + i + 1];
    }
  }

  lemma NoDoubleDotMeansNoOccurrence(s: string)
    requires NoDoubleDot(s)
    ensures !Contains(s, "..")
  {
    forall i | 0 <= i <= |s| ensures !OccursAt(s, "..", i) {
      if i <= |s| - 2 {
        var pair := s[i..i + 2];
        assert pair[0] == s[i] && pair[1] == s[i + 1];
        assert pair != "..";
      }
    }
  }

  /** A `..` pair, wherever it stands, is an occurrence of `..`. */
  lemma OccurrenceMeansDoubleDot(s: string)
    ensures Contains(s, "..") || NoDoubleDot(s)
  {
    if !NoDoubleDot(s) {
      var i :| 0 <= i < |s| - 1 && s[i] == '.' && s[i + 1] == '.';
      assert s[i..i + 2] == "..";
      assert OccursAt(s, "..", i);
    }
  }

  /** Without a `..` pair there is nothing for `replace(/\.\./g, '_')` to change. */
  lemma {:induction false} ReplaceDoubleDotsIdentity(s: string)
    requires NoDoubleDot(s)
    ensures ReplaceDoubleDots(s) == s
    decreases |s|
  {
    if |s| > 0 {
      assert NoDoubleDot(s[1..]) by { NoDoubleDotSlice(s, 1, |s|); }
      ReplaceDoubleDotsIdentity(s[1..]);
    }
  }

  /** `sanitize` (rules.ts:32-34): the name with path separators and `..` neutralised, trimmed. */
  function Sanitize(name: string): (r: string)
    ensures '/' !in r && '\\' !in r
    ensures !Contains(r, "..")
    ensures r == [] || (!IsSpace(r[0]) && !IsSpace(r[|r| - 1]))
  {
    var dots := Neutralised(name);
    TrimmedNeutral(dots);
    Trim(dots)
  }

  /** The name with both separators and every `..` pair replaced by `_`, before trimming. */
  function Neutralised(name: string): (r: string)
    ensures '/' !in r && '\\' !in r && NoDoubleDot(r)
  {
    var slashes := ReplaceChar(ReplaceChar(name, '/', '_'), '\\', '_');
    assert '/' !in slashes && '\\' !in slashes;
    ReplaceDoubleDots(slashes)
  }

  /** Trimming keeps a string free of separators and of `..`. */
  lemma TrimmedNeutral(s: string)
    requires '/' !in s && '\\' !in s && NoDoubleDot(s)
    ensures '/' !in Trim(s) && '\\' !in Trim(s) && !Contains(Trim(s), "..")
  {
    TrimChars(s);
    var a, b :| 0 <= a <= b <= |s| && Trim(s) == s[a..b];
    NoDoubleDotSlice(s, a, b);
    NoDoubleDotMeansNoOccurrence(Trim(s));
  }

  /** A name that is already free of separators and `..` only loses its surrounding whitespace. */
  lemma SanitizeCleanName(name: string)
    requires '/' !in name && '\\' !in name && !Contains(name, "..")
    ensures Sanitize(name) == Trim(name)
  {
    OccurrenceMeansDoubleDot(name);
    ReplaceDoubleDotsIdentity(name);
  }

  lemma SanitizeIdempotent(name: string)
    ensures Sanitize(Sanitize(name)) == Sanitize(name)
  {
    var once := Sanitize(name);
    SanitizeCleanName(once);
    TrimIdentity(once);
  }

  // ---- inferDocType

  predicate ContainsAny(name: string, cues: seq<string>) {
    exists i | 0 <= i < |cues| :: Contains(name, cues[i])
  }

  const SopCues := ["sop", "standard", "policy", "procedure"]
  const LoopCues := ["loop", "codexcard", "task", "ticket"]
  /** `how[- ]?to` spelled out as its three literals. */
  const IntelCues := ["intel", "guide", "training", "howto", "how-to", "how to", "playbook"]
  const HealthCues := ["health", "log", "audit", "report"]
  const ControlCues := ["directive", "governance", "admin", "rule"]
  const MarketingCues := ["campaign", "asset", "brand", "creative", "logo", "ad", "social"]
  const FinanceCues := ["invoice", "bill", "budget", "forecast", "p&l", "profit", "loss", "balance"]
  const PeopleCues := ["hiring", "onboard", "policy", "manager", "hr"]
  const AutomationCues := ["prompt", "automation", "script", "workflow"]
  const StrategyCues := ["okr", "strategy", "plan", "review", "decision"]
  const OperationsCues := ["form", "checklist", "process", "sop"]
  const ContentCues := ["content", "video", "blog", "copy"]

  predicate IsSystemDocType(d: DocType) {
    d == LoopTask || d == SOP || d == OpsIntel || d == SystemHealth || d == ControlDeck
  }

  /** The bucket used when no cue matches (rules.ts:66-70). */
  function DefaultDocType(target: Target): DocType {
    if target == RuntimeCodex then OpsIntel
    else if target == OperationHarmony then Operations
    else Generic
  }

  /** Some test of the table fires on the lower-cased name. */
  predicate MatchesSomeCue(name: string, target: Target) {
    || ContainsAny(name, SopCues) || ContainsAny(name, LoopCues) || ContainsAny(name, IntelCues)
    || ContainsAny(name, HealthCues) || ContainsAny(name, ControlCues)
    || ContainsAny(name, MarketingCues) || ContainsAny(name, FinanceCues)
    || ContainsAny(name, PeopleCues) || ContainsAny(name, AutomationCues)
    || ContainsAny(name, StrategyCues)
    || (ContainsAny(name, OperationsCues) && target == OperationHarmony)
    || ContainsAny(name, ContentCues)
  }

  /** `inferDocType` (rules.ts:47-71): the first test that fires, in table order, decides. */
  function InferDocType(filename: string, target: Target): (d: DocType)
    ensures d != Archive
    ensures d == Operations ==> target == OperationHarmony
    ensures d == Generic ==> target != OperationHarmony && target != RuntimeCodex
    ensures ContainsAny(Lower(filename), SopCues) ==> d == SOP
    ensures !MatchesSomeCue(Lower(filename), target) ==> d == DefaultDocType(target)
  {
    var name := Lower(filename);
    if ContainsAny(name, SopCues) then SOP
    else if ContainsAny(name, LoopCues) then LoopTask
    else if ContainsAny(name, IntelCues) then OpsIntel
    else if ContainsAny(name, HealthCues) then SystemHealth
    else if ContainsAny(name, ControlCues) then ControlDeck
    else if ContainsAny(name, MarketingCues) then Marketing
    else if ContainsAny(name, FinanceCues) then Finance
    else if ContainsAny(name, PeopleCues) then PeopleHR
    else if ContainsAny(name, AutomationCues) then AIAutomation
    else if ContainsAny(name, StrategyCues) then Strategy
    else if ContainsAny(name, OperationsCues) && target == OperationHarmony then Operations
    else if ContainsAny(name, ContentCues) then ContentCreative
    else DefaultDocType(target)
  }

  /**
   * The same table with its two dead cues removed: "policy" in the people
   * test and "sop" in the operations test can never decide, because the
   * first test already claims every name containing either.
   */
  function InferDocTypeWithoutDeadCues(filename: string, target: Target): DocType {
    var name := Lower(filename);
    if ContainsAny(name, SopCues) then SOP
    else if ContainsAny(name, LoopCues) then LoopTask
    else if ContainsAny(name, IntelCues) then OpsIntel
    else if ContainsAny(name, HealthCues) then SystemHealth
    else if ContainsAny(name, ControlCues) then ControlDeck
    else if ContainsAny(name, MarketingCues) then Marketing
    else if ContainsAny(name, FinanceCues) then Finance
    else if ContainsAny(name, ["hiring", "onboard", "manager", "hr"]) then PeopleHR
    else if ContainsAny(name, AutomationCues) then AIAutomation
    else if ContainsAny(name, StrategyCues) then Strategy
    else if ContainsAny(name, ["form", "checklist", "process"]) && target == OperationHarmony then Operations
    else if ContainsAny(name, ContentCues) then ContentCreative
    else DefaultDocType(target)
  }

  lemma DeadCuesNeverDecide(filename: string, target: Target)
    ensures InferDocType(filename, target) == InferDocTypeWithoutDeadCues(filename, target)
  {
    var name := Lower(filename);
    if !ContainsAny(name, SopCues) {
      assert !Contains(name, SopCues[2]) && !Contains(name, SopCues[0]);
      assert ContainsAny(name, PeopleCues) <==> ContainsAny(name, ["hiring", "onboard", "manager", "hr"]) by {
        if ContainsAny(name, PeopleCues) {
          var i :| 0 <= i < |PeopleCues| && Contains(name, PeopleCues[i]);
          var j := if i < 2 then i else i - 1;
          assert ["hiring", "onboard", "manager", "hr"][j] == PeopleCues[i];
        }
        if ContainsAny(name, ["hiring", "onboard", "manager", "hr"]) {
          var j :| 0 <= j < 4 && Contains(name, ["hiring", "onboard", "manager", "hr"][j]);
          var i := if j < 2 then j else j + 1;
          assert PeopleCues[i] == ["hiring", "onboard", "manager", "hr"][j];
        }
      }
      assert ContainsAny(name, OperationsCues) <==> ContainsAny(name, ["form", "checklist", "process"]) by {
        if ContainsAny(name, OperationsCues) {
          var i :| 0 <= i < |OperationsCues| && Contains(name, OperationsCues[i]);
          assert i < 3;
          assert ["form", "checklist", "process"][i] == OperationsCues[i];
        }
        if ContainsAny(name, ["form", "checklist", "process"]) {
          var j :| 0 <= j < 3 && Contains(name, ["form", "checklist", "process"][j]);
          assert OperationsCues[j] == ["form", "checklist", "process"][j];
        }
      }
    }
  }

  /** A system cue anywhere in the name outranks every business cue. */
  lemma SystemCuesOutrankBusinessCues(filename: string, target: Target)
    requires var name := Lower(filename);
      || ContainsAny(name, SopCues) || ContainsAny(name, LoopCues) || ContainsAny(name, IntelCues)
      || ContainsAny(name, HealthCues) || ContainsAny(name, ControlCues)
    ensures IsSystemDocType(InferDocType(filename, target))
  {
  }

  // ---- computePath

  const VaultPrefix := VaultRoot + "/"
  const HarmonyPrefix := VaultPrefix + HarmonyRoot + "/"
  const CodexPrefix := VaultPrefix + CodexRoot + "/"
  const ConfigPrefix := VaultPrefix + ConfigRoot + "/"

  lemma RootPrefixes()
    ensures StartsWith(HarmonyPrefix, VaultPrefix)
    ensures StartsWith(CodexPrefix, VaultPrefix)
    ensures StartsWith(ConfigPrefix, VaultPrefix)
  {
    PrefixOfAppend(VaultPrefix, HarmonyRoot + "/");
    PrefixOfAppend(VaultPrefix, CodexRoot + "/");
    PrefixOfAppend(VaultPrefix, ConfigRoot + "/");
    assert HarmonyPrefix == VaultPrefix + (HarmonyRoot + "/");
    assert CodexPrefix == VaultPrefix + (CodexRoot + "/");
    assert ConfigPrefix == VaultPrefix + (ConfigRoot + "/");
  }

  /** `${area}/${date}/${fn}`: every branch files under a folder for the day. */
  function Dated(area: string, date: string, fn: string): (p: string)
    ensures StartsWith(p, area) && StartsWith(p, area + "/")
    ensures EndsWith(p, "/" + date + "/" + fn)
  {
    var p := area + ("/" + date + "/" + fn);
    PrefixOfAppend(area, "/" + date + "/" + fn);
    assert p == (area + "/") + (date + "/" + fn);
    PrefixOfAppend(area + "/", date + "/" + fn);
    EndsWithAppend(area, "/" + date + "/" + fn);
    assert area + "/" + date + "/" + fn == p;
    p
  }

  /** The brand folder: `input.brand || 'UNSPECIFIED_BRAND'`. */
  function BrandOrPlaceholder(brand: Option<string>): string {
    if Truthy(brand) then brand.value else UnspecifiedBrand
  }

  /** `${VAULT_ROOT}/${OH_ROOT}/${brand}/` */
  function BrandPrefix(brand: Option<string>): (p: string)
    ensures StartsWith(p, HarmonyPrefix)
  {
    PrefixOfAppend(HarmonyPrefix, BrandOrPlaceholder(brand) + "/");
    HarmonyPrefix + BrandOrPlaceholder(brand) + "/"
  }

  /** The folder below the brand (business types) or below `CODEX` (system types) in `areaByType` (rules.ts:103-119). */
  function HarmonyFolder(d: DocType): (f: string)
    ensures IsSystemDocType(d) ==> f != "" && '/' !in f
    ensures !IsSystemDocType(d) ==> f != ""
  {
    match d
    case Operations => "Operations/Processes & Forms"
    case Marketing => "Marketing & Branding/Assets"
    case PeopleHR => "People & HR/Hiring & Onboarding"
    case AIAutomation => "AI & Automation/Prompts & Playbooks"
    case Finance => "Finance/Reports"
    case Strategy => "Strategy & Leadership/Plans & OKRs"
    case ContentCreative => "Content & Creative"
    case Archive => "Archive"
    case LoopTask => "Loops"
    case SOP => "Standards & SOPs"
    case OpsIntel => "Ops Intelligence"
    case SystemHealth => "System Health"
    case ControlDeck => "Control Deck"
    case Generic => "Operations/Processes & Forms"
  }

  /** `areaByType[d]` for the given brand: system types point into `CODEX`, the rest into the brand folder. */
  function HarmonyArea(d: DocType, brand: Option<string>): (area: string)
    ensures IsSystemDocType(d) ==> StartsWith(area, CodexPrefix)
    ensures !IsSystemDocType(d) ==> StartsWith(area, BrandPrefix(brand))
  {
    if IsSystemDocType(d) then
      PrefixOfAppend(CodexPrefix, HarmonyFolder(d));
      CodexPrefix + HarmonyFolder(d)
    else
      PrefixOfAppend(BrandPrefix(brand), HarmonyFolder(d));
      BrandPrefix(brand) + HarmonyFolder(d)
  }

  /** Each doc type has a folder of its own, except that `Generic` shares the `Operations` one. */
  lemma HarmonyFoldersDistinct(d: DocType, e: DocType)
    ensures HarmonyFolder(d) == HarmonyFolder(e) <==>
      d == e || (d in {Operations, Generic} && e in {Operations, Generic})
  {
    if HarmonyFolder(d) == HarmonyFolder(e) && d != e {
      assert HarmonyFolder(d)[0] == HarmonyFolder(e)[0];
      assert |HarmonyFolder(d)| == |HarmonyFolder(e)|;
    }
  }

  function DocTypeName(d: DocType): string {
    match d
    case LoopTask => "LoopTask"
    case SOP => "SOP"
    case OpsIntel => "OpsIntel"
    case SystemHealth => "SystemHealth"
    case ControlDeck => "ControlDeck"
    case Operations => "Operations"
    case Marketing => "Marketing"
    case PeopleHR => "PeopleHR"
    case AIAutomation => "AIAutomation"
    case Finance => "Finance"
    case Strategy => "Strategy"
    case ContentCreative => "ContentCreative"
    case Archive => "Archive"
    case Generic => "Generic"
  }

  /** The folder under `Standards & SOPs` an SOP of this status goes to (rules.ts:156-162). */
  function SopFolder(status: SopStatus): (f: string)
    ensures StartsWith(f, HarmonyFolder(SOP) + "/")
  {
    var f := if status == Final then "Standards & SOPs/SOP Library"
      else if status == Superseded then "Standards & SOPs/Superseded & Archive"
      else "Standards & SOPs/Drafts Under Review";
    assert f[..|"Standards & SOPs/"|] == "Standards & SOPs/";
    f
  }

  /** The three statuses file into three different folders. */
  lemma SopFoldersDistinct(a: SopStatus, b: SopStatus)
    ensures SopFolder(a) == SopFolder(b) <==> a == b
  {
  }

  /** The runtime `CODEX` folder, before the date, for a doc type (rules.ts:141-189). */
  function CodexFolder(d: DocType, loop: string, status: SopStatus): (f: string)
    ensures IsSystemDocType(d) ==> StartsWith(f, HarmonyFolder(d) + "/")
    ensures !IsSystemDocType(d) ==> StartsWith(f, HarmonyFolder(OpsIntel) + "/")
  {
    if d == LoopTask then
      PrefixOfAppend("Loops/", loop + "/Active Tasks");
      assert "Loops/" + loop + "/Active Tasks" == "Loops/" + (loop + "/Active Tasks");
      "Loops/" + loop + "/Active Tasks"
    else if d == SOP then SopFolder(status)
    else if d == SystemHealth then
      assert "System Health/Automation Logs"[..|"System Health/"|] == "System Health/";
      "System Health/Automation Logs"
    else if d == ControlDeck then
      assert "Control Deck/Admin Directives"[..|"Control Deck/"|] == "Control Deck/";
      "Control Deck/Admin Directives"
    else
      assert "Ops Intelligence/Training & Guides"[..|"Ops Intelligence/"|] == "Ops Intelligence/";
      "Ops Intelligence/Training & Guides"
  }

  /**
   * The CODEX area Operation Harmony suggests for a system doc type is a
   * folder that the runtime CODEX route files the same type under.
   */
  lemma SuggestionCoversRuntimeFolder(d: DocType, brand: Option<string>, loop: string, status: SopStatus)
    requires IsSystemDocType(d)
    ensures StartsWith(CodexPrefix + CodexFolder(d, loop, status), HarmonyArea(d, brand) + "/")
  {
    var folder := HarmonyFolder(d);
    StartsWithPrepend(CodexPrefix, CodexFolder(d, loop, status), folder + "/");
    assert HarmonyArea(d, brand) == CodexPrefix + folder;
    AppendAssoc(CodexPrefix, folder, "/");
  }

  /** The status an SOP is filed under: the given one, else `Draft` (rules.ts:90,93). */
  function EffectiveStatus(input: RuleInput, d: DocType): (s: Option<SopStatus>)
    ensures d == SOP ==> s.Some?
    ensures d != SOP || input.sopStatus.Some? ==> s == input.sopStatus
    ensures s != input.sopStatus ==> s == Some(Draft)
  {
    if d == SOP && input.sopStatus.None? then Some(Draft) else input.sopStatus
  }

  /** The loop a loop task is filed under: the given one when non-empty, else `Genesis_01` (rules.ts:91,94). */
  function EffectiveLoop(input: RuleInput, d: DocType): (l: Option<string>)
    ensures d == LoopTask ==> Truthy(l)
    ensures d != LoopTask || Truthy(input.loopName) ==> l == input.loopName
    ensures l != input.loopName ==> l == Some(DefaultLoop)
  {
    if d == LoopTask && !Truthy(input.loopName) then Some(DefaultLoop) else input.loopName
  }

  function SystemDocReason(d: DocType): string {
    "Detected a system doc (\U{201C}" + DocTypeName(d) + "\U{201D}). Consider routing to CODEX."
  }

  /** The `operationHarmony` branch (rules.ts:97-138). */
  function HarmonyRoute(input: RuleInput, date: string, d: DocType): (r: RuleResult)
    ensures StartsWith(r.primaryPath, if IsSystemDocType(d) then CodexPrefix else BrandPrefix(input.brand))
    ensures StartsWith(r.primaryPath, VaultPrefix)
    ensures EndsWith(r.primaryPath, "/" + date + "/" + Sanitize(input.filename))
    ensures r.warnings == (if Truthy(input.brand) then [] else [BrandWarning])
    ensures |r.suggestions| == (if IsSystemDocType(d) then 1 else 0)
    ensures r.detected == Detected(d, EffectiveStatus(input, d), EffectiveLoop(input, d))
  {
    var warnings := if Truthy(input.brand) then [] else [BrandWarning];
    var area := HarmonyArea(d, input.brand);
    var suggestions := if IsSystemDocType(d) then [Suggestion(area + "/", SystemDocReason(d))] else [];
    var path := Dated(area, date, Sanitize(input.filename));
    StartsWithTrans(path, area, if IsSystemDocType(d) then CodexPrefix else BrandPrefix(input.brand));
    RootPrefixes();
    StartsWithTrans(BrandPrefix(input.brand), HarmonyPrefix, VaultPrefix);
    StartsWithTrans(path, if IsSystemDocType(d) then CodexPrefix else BrandPrefix(input.brand), VaultPrefix);
    RuleResult(path, suggestions, warnings, Detected(d, EffectiveStatus(input, d), EffectiveLoop(input, d)))
  }

  /** The `runtimeCodex` branch (rules.ts:141-190). */
  function CodexRoute(input: RuleInput, date: string, d: DocType): (r: RuleResult)
    ensures StartsWith(r.primaryPath, CodexPrefix) && StartsWith(r.primaryPath, VaultPrefix)
    ensures EndsWith(r.primaryPath, "/" + date + "/" + Sanitize(input.filename))
    ensures r.suggestions == [] && r.warnings == []
    ensures r.detected.docType == d
  {
    var loop := if d == LoopTask then EffectiveLoop(input, d).value else "";
    var status := if d == SOP then EffectiveStatus(input, d).value else Draft;
    var area := CodexPrefix + CodexFolder(d, loop, status);
    var path := Dated(area, date, Sanitize(input.filename));
    PrefixOfAppend(CodexPrefix, CodexFolder(d, loop, status));
    StartsWithTrans(path, area, CodexPrefix);
    RootPrefixes();
    StartsWithTrans(path, CodexPrefix, VaultPrefix);
    var detected :=
      if d == LoopTask then Detected(d, None, Some(loop))
      else if d == SOP then Detected(d, Some(status), None)
      else Detected(d, None, None);
    RuleResult(path, [], [], detected)
  }

  /** The schema staging folder config codex files everything under. */
  const SchemaArea := ConfigPrefix + "Schema Incoming"

  /** The `configCodex` branch (rules.ts:193-196): the schema staging folder, whatever the document. */
  function ConfigRoute(input: RuleInput, date: string): (r: RuleResult)
    ensures StartsWith(r.primaryPath, SchemaArea + "/") && StartsWith(r.primaryPath, VaultPrefix)
    ensures EndsWith(r.primaryPath, "/" + date + "/" + Sanitize(input.filename))
    ensures r.suggestions == [] && r.warnings == [] && r.detected.docType == Generic
  {
    var path := Dated(SchemaArea, date, Sanitize(input.filename));
    PrefixOfAppend(ConfigPrefix, "Schema Incoming");
    StartsWithTrans(path, SchemaArea, ConfigPrefix);
    RootPrefixes();
    StartsWithTrans(path, ConfigPrefix, VaultPrefix);
    RuleResult(path, [], [], Detected(Generic, None, None))
  }

  /** The fallback for any other target (rules.ts:199-204). */
  function UnroutedRoute(input: RuleInput, date: string): (r: RuleResult)
    ensures StartsWith(r.primaryPath, VaultPrefix)
    ensures EndsWith(r.primaryPath, "/" + date + "/" + Sanitize(input.filename))
    ensures r.suggestions == [] && r.warnings == [UnroutedWarning] && r.detected.docType == Generic
  {
    var path := Dated(VaultPrefix + "UNROUTED", date, Sanitize(input.filename));
    PrefixOfAppend(VaultPrefix, "UNROUTED");
    StartsWithTrans(path, VaultPrefix + "UNROUTED", VaultPrefix);
    RuleResult(path, [], [UnroutedWarning], Detected(Generic, None, None))
  }

  /** `computePath` (rules.ts:80-205), with the day passed in as `date`. */
  function ComputePath(input: RuleInput, date: string): (r: RuleResult)
    ensures StartsWith(r.primaryPath, VaultPrefix)
    ensures EndsWith(r.primaryPath, "/" + date + "/" + Sanitize(input.filename))
    ensures r.detected.docType != Archive
    ensures input.target != OperationHarmony ==> r.suggestions == []
    ensures input.target == OperationHarmony ==>
      && (r.warnings == [] <==> Truthy(input.brand))
      && (!Truthy(input.brand) ==> r.warnings == [BrandWarning])
    ensures input.target == OperationHarmony ==>
      && |r.suggestions| <= 1
      && (|r.suggestions| == 1 <==> IsSystemDocType(r.detected.docType))
    ensures input.target == RuntimeCodex || input.target == ConfigCodex ==> r.warnings == []
    ensures input.target == Unrecognized ==> r.warnings == [UnroutedWarning]
    ensures input.target == RuntimeCodex ==> StartsWith(r.primaryPath, CodexPrefix)
    ensures input.target == ConfigCodex ==> StartsWith(r.primaryPath, SchemaArea + "/")
    ensures input.target == OperationHarmony ==>
      StartsWith(r.primaryPath, if IsSystemDocType(r.detected.docType) then CodexPrefix else BrandPrefix(input.brand))
  {
    var d := InferDocType(input.filename, input.target);
    match input.target
    case OperationHarmony => HarmonyRoute(input, date, d)
    case RuntimeCodex => CodexRoute(input, date, d)
    case ConfigCodex => ConfigRoute(input, date)
    case Unrecognized => UnroutedRoute(input, date)
  }

  // ---- What each target's branch produces

  /** On `runtimeCodex` an SOP goes to the library when Final, to the archive when Superseded, else to drafts; no status means Draft. */
  lemma CodexSopByStatus(input: RuleInput, date: string)
    requires input.target == RuntimeCodex && InferDocType(input.filename, RuntimeCodex) == SOP
    ensures var status := if input.sopStatus.Some? then input.sopStatus.value else Draft;
      var r := ComputePath(input, date);
      && r.primaryPath == Dated(CodexPrefix + SopFolder(status), date, Sanitize(input.filename))
      && r.detected == Detected(SOP, Some(status), None)
  {
  }

  /** On `runtimeCodex` a loop task goes to its loop's active tasks; an absent or empty loop name means `Genesis_01`. */
  lemma CodexLoopTaskByLoop(input: RuleInput, date: string)
    requires input.target == RuntimeCodex && InferDocType(input.filename, RuntimeCodex) == LoopTask
    ensures var loop := if Truthy(input.loopName) then input.loopName.value else DefaultLoop;
      var r := ComputePath(input, date);
      && r.primaryPath == Dated(CodexPrefix + CodexFolder(LoopTask, loop, Draft), date, Sanitize(input.filename))
      && r.detected == Detected(LoopTask, None, Some(loop))
  {
  }

  /** `configCodex` ignores the classification: always the schema staging folder, typed Generic, no warnings. */
  lemma ConfigCodexFixedFolder(input: RuleInput, date: string)
    requires input.target == ConfigCodex
    ensures var r := ComputePath(input, date);
      && r.primaryPath == Dated(SchemaArea, date, Sanitize(input.filename))
      && r.detected == Detected(Generic, None, None)
      && r.warnings == [] && r.suggestions == []
  {
  }

  /** Any other target falls back to `UNROUTED` with the single fallback warning. */
  lemma UnrecognizedTargetFallback(input: RuleInput, date: string)
    requires input.target == Unrecognized
    ensures var r := ComputePath(input, date);
      && r.primaryPath == Dated(VaultPrefix + "UNROUTED", date, Sanitize(input.filename))
      && r.detected == Detected(Generic, None, None)
      && r.warnings == [UnroutedWarning]
  {
  }

  /**
   * On `operationHarmony` a system doc type is filed under `CODEX` and gets
   * exactly one suggestion: its area with a trailing slash, which the
   * primary path extends.
   */
  lemma HarmonySystemDocSuggestion(input: RuleInput, date: string)
    requires input.target == OperationHarmony
    requires IsSystemDocType(InferDocType(input.filename, OperationHarmony))
    ensures var d := InferDocType(input.filename, OperationHarmony);
      var r := ComputePath(input, date);
      && r.suggestions == [Suggestion(HarmonyArea(d, input.brand) + "/", SystemDocReason(d))]
      && StartsWith(r.primaryPath, r.suggestions[0].path)
  {
    var d := InferDocType(input.filename, OperationHarmony);
    var area := HarmonyArea(d, input.brand);
    var r := HarmonyRoute(input, date, d);
    assert ComputePath(input, date) == r;
  }

  /**
   * Following the suggestion works: routing the same request to
   * `runtimeCodex` files it inside the suggested folder.
   */
  lemma HarmonySuggestionLeadsToCodexRoute(input: RuleInput, date: string)
    requires input.target == OperationHarmony
    requires IsSystemDocType(InferDocType(input.filename, OperationHarmony))
    ensures var r := ComputePath(input, date);
      |r.suggestions| == 1 &&
      StartsWith(ComputePath(input.(target := RuntimeCodex), date).primaryPath, r.suggestions[0].path)
  {
    var d := InferDocType(input.filename, OperationHarmony);
    assert InferDocType(input.filename, RuntimeCodex) == d;
    HarmonySystemDocSuggestion(input, date);
    var runtime := input.(target := RuntimeCodex);
    var loop := if d == LoopTask then EffectiveLoop(runtime, d).value else "";
    var status := if d == SOP then EffectiveStatus(runtime, d).value else Draft;
    var area := CodexPrefix + CodexFolder(d, loop, status);
    var path := Dated(area, date, Sanitize(input.filename));
    assert ComputePath(runtime, date).primaryPath == path;
    SuggestionCoversRuntimeFolder(d, input.brand, loop, status);
    StartsWithTrans(path, area, HarmonyArea(d, input.brand) + "/");
  }

  /**
   * On `operationHarmony` a business doc type is filed under the brand
   * folder, `UNSPECIFIED_BRAND` when the brand is absent or empty, with no suggestion.
   */
  lemma HarmonyBusinessDocUnderBrand(input: RuleInput, date: string)
    requires input.target == OperationHarmony
    requires !IsSystemDocType(InferDocType(input.filename, OperationHarmony))
    ensures var r := ComputePath(input, date);
      && StartsWith(r.primaryPath, HarmonyPrefix + (if Truthy(input.brand) then input.brand.value else UnspecifiedBrand) + "/")
      && r.suggestions == []
  {
    var d := InferDocType(input.filename, OperationHarmony);
    assert ComputePath(input, date) == HarmonyRoute(input, date, d);
  }

  // ---- rethinkAllTargets

  const AlternateReason := "Alternate target"

  datatype Alternate = Alternate(path: string, reason: string)

  datatype Rethink = Rethink(primary: RuleResult, others: seq<Alternate>)

  /** `candidates.map((c) => ({ path: c.primaryPath, reason: 'Alternate target' }))` */
  function Alternates(candidates: seq<RuleResult>): (alts: seq<Alternate>)
    ensures |alts| == |candidates|
    ensures forall i | 0 <= i < |alts| :: alts[i] == Alternate(candidates[i].primaryPath, AlternateReason)
  {
    seq(|candidates|, i requires 0 <= i < |candidates| => Alternate(candidates[i].primaryPath, AlternateReason))
  }

  /**
   * `rethinkAllTargets` (rules.ts:211-221): runtime CODEX first as the
   * primary, then Operation Harmony and config codex as alternates. Only
   * the Operation Harmony candidate sees the brand.
   */
  function RethinkAllTargets(filename: string, brand: Option<string>, date: string): (r: Rethink)
    ensures r.primary == ComputePath(RuleInput(RuntimeCodex, filename, None, None, None), date)
    ensures |r.others| == 2
    ensures r.others[0] == Alternate(ComputePath(RuleInput(OperationHarmony, filename, brand, None, None), date).primaryPath, AlternateReason)
    ensures r.others[1] == Alternate(ComputePath(RuleInput(ConfigCodex, filename, None, None, None), date).primaryPath, AlternateReason)
  {
    var candidates := [
      ComputePath(RuleInput(RuntimeCodex, filename, None, None, None), date),
      ComputePath(RuleInput(OperationHarmony, filename, brand, None, None), date),
      ComputePath(RuleInput(ConfigCodex, filename, None, None, None), date)
    ];
    Rethink(candidates[0], Alternates(candidates[1..]))
  }

  /** The brand changes nothing but the Operation Harmony alternate. */
  lemma RethinkBrandOnlyReachesHarmony(filename: string, b1: Option<string>, b2: Option<string>, date: string)
    ensures RethinkAllTargets(filename, b1, date).primary == RethinkAllTargets(filename, b2, date).primary
    ensures RethinkAllTargets(filename, b1, date).others[1] == RethinkAllTargets(filename, b2, date).others[1]
  {
  }

  /** The primary is always under `CODEX/`, the second alternate under `codex/Schema Incoming/`. */
  lemma RethinkRoots(filename: string, brand: Option<string>, date: string)
    ensures var r := RethinkAllTargets(filename, brand, date);
      && StartsWith(r.primary.primaryPath, CodexPrefix)
      && StartsWith(r.others[0].path, VaultPrefix)
      && StartsWith(r.others[1].path, SchemaArea + "/")
  {
  }
}
