/**
 * The card detector and parser of `src/app/lib/cards.ts`.
 *
 * Each regular expression of the source is written out as the scan it
 * performs: the positions where it may start, the pieces it matches there,
 * and, where the source reads a capture group, the leftmost match the
 * backtracking engine returns. Text is a sequence of Unicode scalar values
 * (well-formed UTF-16 as JavaScript holds it); the two glyphs the patterns
 * name are single characters here.
 */
module Cards {
  import opened Wrappers
  import opened Text

  datatype CardKind = CodexCard | CompletionCard | Unknown

  /** `ParsedCard` (cards.ts:5-12): absent fields are `None`. */
  datatype ParsedCard = ParsedCard(
    kind: CardKind,
    loop: Option<string>,
    taskRef: Option<string>,
    dateIssued: Option<string>,
    dateCompleted: Option<string>,
    filingLocation: Option<string>)

  /**
   * U+1F5C2, the card-index-dividers glyph of a card header. The source's
   * `🗂️?` has no `u` flag, so `?` applies to the following U+FE0F only and
   * the glyph itself is required.
   */
  const HeaderGlyph: char := '\U{1F5C2}'
  const VariationSelector: char := '\U{FE0F}'
  /**
   * U+1F4C2, the open-folder glyph before "Filing Location". In `📂?` the `?`
   * applies to the low surrogate only; the high surrogate is required, and in
   * well-formed text the only way to continue the match is the whole glyph.
   */
  const FolderGlyph: char := '\U{1F4C2}'

  // ---- Header lines: /^#\s*🗂️?\s*<Name>\b/im

  /** `\b` just after a word whose last character is a word character. */
  predicate WordEnds(t: string, e: int) {
    0 <= e <= |t| && (e == |t| || !IsWordChar(t[e]))
  }

  /** `#\s*🗂️?\s*<name>\b` matches at `i`; `name` is given in lower case. */
  predicate HeaderAt(t: string, i: int, name: string) {
    && 0 <= i < |t| && t[i] == '#'
    && var g := SkipSpace(t, i + 1);
    && g < |t| && t[g] == HeaderGlyph
    && var v := if g + 1 < |t| && t[g + 1] == VariationSelector then g + 2 else g + 1;
    && var w := SkipSpace(t, v);
    && WordAt(t, w, name) && WordEnds(t, w + |name|)
  }

  /** `/^#\s*🗂️?\s*<Name>\b/im.test(t)` (cards.ts:23-24): the header may stand on any line. */
  predicate HasHeader(t: string, name: string): (b: bool)
    ensures b ==> exists i, g | 0 <= i < g < |t| :: LineStart(t, i) && t[i] == '#' && t[g] == HeaderGlyph
  {
    exists i | 0 <= i < |t| :: LineStart(t, i) && HeaderAt(t, i, name)
  }

  const CodexHeader := "codexcard"
  const CompletionHeader := "completioncard"

  // ---- Labels: <W1>\s*<W2>, case-insensitive

  datatype Label = Label(first: string, second: string)

  const LoopNumber := Label("loop", "number")
  const TaskReference := Label("task", "reference")
  const DateIssued := Label("date", "issued")
  const CompletedTask := Label("completed", "task")
  const DateCompleted := Label("date", "completed")
  const FilingLocationLabel := Label("filing", "location")

  /** `<W1>\s*<W2>` at `p`: the index just past the label. */
  function LabelEnd(t: string, p: nat, key: Label): (e: Option<nat>)
    ensures e.Some? ==> p < e.value <= |t| || (p <= e.value <= |t| && key.first + key.second == "")
  {
    if WordAt(t, p, key.first) then
      var j := SkipSpace(t, p + |key.first|);
      if WordAt(t, j, key.second) then Some(j + |key.second|) else None
    else None
  }

  /** `<W1>\s*<W2>\s*:` at `p`: the index of the colon. */
  function LabelColon(t: string, p: nat, key: Label): (c: Option<nat>)
    ensures c.Some? ==> p <= c.value < |t| && t[c.value] == ':'
  {
    match LabelEnd(t, p, key)
    case None => None
    case Some(e) =>
      var k := SkipSpace(t, e);
      if k < |t| && t[k] == ':' then Some(k) else None
  }

  // ---- Field presence: /(^|\n)\s*.*?<W1>\s*<W2>\s*:\s*.+/i (no multiline flag)

  /** `(^|\n)` without the multiline flag: the start of the text or just after a line feed. */
  predicate Anchor(t: string, a: int) {
    0 <= a <= |t| && (a == 0 || t[a - 1] == '\n')
  }

  /** The strings `\s*.*?` matches: whitespace, then a stretch without line terminators. */
  predicate SpaceThenLine(u: string) {
    NoLineTerminator(u[SkipSpace(u, 0)..])
  }

  /**
   * `:\s*.+` after the colon at `c`. Since every line terminator is
   * whitespace, this holds exactly when some character after the colon,
   * on this line or a later one, is not a line terminator.
   */
  predicate ValueFollows(t: string, c: int) {
    exists k | 0 <= c < k < |t| :: !IsLineTerminator(t[k])
  }

  predicate FieldAt(t: string, a: int, p: int, key: Label) {
    && Anchor(t, a) && a <= p <= |t| && SpaceThenLine(t[a..p])
    && var c := LabelColon(t, p, key);
    && c.Some? && ValueFollows(t, c.value)
  }

  /** The presence test `/(^|\n)\s*.*?<Label>\s*:\s*.+/i.test(t)` (cards.ts:26-31). */
  predicate HasField(t: string, key: Label): (b: bool)
    ensures b ==> exists c | 0 <= c < |t| :: t[c] == ':' && ValueFollows(t, c)
  {
    exists a, p | 0 <= a <= p <= |t| :: FieldAt(t, a, p, key)
  }

  predicate HasCodexFields(t: string) {
    HasField(t, LoopNumber) && HasField(t, TaskReference) && HasField(t, DateIssued)
  }

  predicate HasCompletionFields(t: string) {
    HasField(t, CompletedTask) && HasField(t, LoopNumber) && HasField(t, TaskReference) && HasField(t, DateCompleted)
  }

  /** `detectCardKindFromContent` (cards.ts:21-36). */
  function DetectCardKind(t: string): (k: CardKind)
    ensures HasHeader(t, CodexHeader) ==> k == CodexCard
    ensures !HasHeader(t, CodexHeader) && HasHeader(t, CompletionHeader) ==> k == CompletionCard
    ensures !HasHeader(t, CodexHeader) && !HasHeader(t, CompletionHeader) ==> (k == CodexCard <==> HasCodexFields(t))
    ensures k == Unknown <==>
      !HasHeader(t, CodexHeader) && !HasHeader(t, CompletionHeader) && !HasCodexFields(t) && !HasCompletionFields(t)
    ensures k == CompletionCard && !HasHeader(t, CompletionHeader) ==> HasCompletionFields(t) && !HasCodexFields(t)
  {
    if HasHeader(t, CodexHeader) then CodexCard
    else if HasHeader(t, CompletionHeader) then CompletionCard
    else if HasCodexFields(t) then CodexCard
    else if HasCompletionFields(t) then CompletionCard
    else Unknown
  }

  /** Without a header, a text carrying all five labelled fields is a CodexCard: its test comes first. */
  lemma AllFiveFieldsIsCodexCard(t: string)
    requires !HasHeader(t, CompletionHeader)
    requires HasField(t, LoopNumber) && HasField(t, TaskReference) && HasField(t, DateIssued)
    requires HasField(t, CompletedTask) && HasField(t, DateCompleted)
    ensures DetectCardKind(t) == CodexCard
  {
  }

  /** A kind that came from field presence rather than a header has all of that kind's presence tests passing. */
  lemma FieldDetectedKindHasItsFields(t: string)
    requires !HasHeader(t, CodexHeader) && !HasHeader(t, CompletionHeader)
    ensures DetectCardKind(t) == CodexCard ==> HasField(t, DateIssued)
    ensures DetectCardKind(t) == CompletionCard ==> HasField(t, CompletedTask) && HasField(t, DateCompleted)
  {
  }

  // ---- clean (cards.ts:39)

  /**
   * `clean`: `(v || '').replace(/^`?\[?|\]?`?$/g, '').trim()`.
   * The global replace first matches `^`?\[?` at index 0, perhaps emptily;
   * after an empty match the scan resumes at index 1, so a character at
   * index 0 is never taken as the closing wrapper. The second alternative
   * then removes the longest of "]`", "]" or "`" that ends the string and
   * starts where the scan has got to.
   */
  function Clean(v: string): (r: string)
    ensures r == [] || (!IsSpace(r[0]) && !IsSpace(r[|r| - 1]))
    ensures forall c :: c in r ==> c in v
  {
    var tick := if |v| > 0 && v[0] == '`' then 1 else 0;
    var open := if tick < |v| && v[tick] == '[' then tick + 1 else tick;
    var resume := if open == 0 && |v| > 0 then 1 else open;
    var close :=
      if |v| >= 2 && v[|v| - 2] == ']' && v[|v| - 1] == '`' && |v| - 2 >= resume then |v| - 2
      else if |v| >= 1 && (v[|v| - 1] == ']' || v[|v| - 1] == '`') && |v| - 1 >= resume then |v| - 1
      else |v|;
    TrimChars(v[open..close]);
    SliceChars(v, open, close);
    Trim(v[open..close])
  }

  /** The wrappers cards are written with come off: `[x]` and `` `[x]` `` both clean to `x` trimmed. */
  lemma CleanUnwraps(x: string)
    ensures Clean("[" + x + "]") == Trim(x)
    ensures Clean("`[" + x + "]`") == Trim(x)
  {
    CleanBracketed(x);
    CleanTicked(x);
  }

  /** A value with no wrapper, or wrapped in backticks only, cleans to its trim. */
  lemma CleanPlain(x: string)
    requires |x| > 0 && x[0] !in "`[" && x[|x| - 1] !in "]`"
    ensures Clean(x) == Trim(x)
    ensures Clean("`" + x + "`") == Trim(x)
  {
    assert x[0] != '`' && x[0] != '[' && x[|x| - 1] != ']' && x[|x| - 1] != '`';
    assert Clean(x) == Trim(x) by {
      assert x[0..|x|] == x;
    }
    var w := "`" + x + "`";
    assert Clean(w) == Trim(x) by {
      assert w[0] == '`' && w[1] == x[0] && w[|w| - 2] == x[|x| - 1] && w[|w| - 1] == '`';
      assert w[1..|w| - 1] == x;
    }
  }

  lemma CleanBracketed(x: string)
    ensures Clean("[" + x + "]") == Trim(x)
  {
    var v := "[" + x + "]";
    assert v[0] == '[' && v[|v| - 1] == ']';
    assert v[1..|v| - 1] == x;
  }

  lemma CleanTicked(x: string)
    ensures Clean("`[" + x + "]`") == Trim(x)
  {
    var w := "`[" + x + "]`";
    assert w[0] == '`' && w[1] == '[' && w[|w| - 2] == ']' && w[|w| - 1] == '`';
    assert w[2..|w| - 2] == x;
  }

  /** An empty bracket pair cleans to "", while a lone `]` survives: the empty first match skips index 0. */
  lemma CleanEdgeCases()
    ensures Clean("[]") == ""
    ensures Clean("]") == "]"
    ensures Clean("") == ""
  {
    CleanEmptyBrackets();
    CleanLoneBracket();
  }

  lemma CleanEmptyBrackets()
    ensures Clean("[]") == ""
  {
    assert "[]"[1..1] == "";
  }

  lemma CleanLoneBracket()
    ensures Clean("]") == "]"
  {
    assert "]"[0..1] == "]";
    TrimIdentity("]");
  }

  // ---- Labelled lines: /^[^\S\r\n]*.*?\b<W1>\s*<W2>\s*:\s*([^\r\n]+)/gmi

  predicate IsCrLf(c: char) {
    c == '\r' || c == '\n'
  }

  /** The first carriage return or line feed at or after `i`, or the end of the text. */
  function NextCrLf(t: string, i: nat): (j: nat)
    requires i <= |t|
    ensures i <= j <= |t|
    ensures forall k | i <= k < j :: !IsCrLf(t[k])
    ensures j == |t| || IsCrLf(t[j])
    decreases |t| - i
  {
    if i == |t| || IsCrLf(t[i]) then i else NextCrLf(t, i + 1)
  }

  /** Backtracking `\s*`: one past the last character in `(c, b)` that is not CR or LF. */
  function LastNonCrLfEnd(t: string, c: nat, b: nat): (e: Option<nat>)
    requires c < b <= |t|
    ensures e.Some? ==> c + 1 < e.value <= b && !IsCrLf(t[e.value - 1])
    ensures e.Some? ==> forall k | e.value <= k < b :: IsCrLf(t[k])
    ensures e.None? ==> forall k | c < k < b :: IsCrLf(t[k])
    decreases b
  {
    if b == c + 1 then None
    else if !IsCrLf(t[b - 1]) then Some(b)
    else LastNonCrLfEnd(t, c, b - 1)
  }

  /**
   * The end of `\s*([^\r\n]+)` after the colon at `c`. Greedy `\s*` runs to
   * the first non-whitespace character and the value runs from there to the
   * next CR or LF; when only whitespace follows, `\s*` gives characters back
   * until the value can take one that is not CR or LF.
   */
  function ValueEnd(t: string, c: nat): (e: Option<nat>)
    requires c < |t|
    ensures e.Some? ==> c < e.value <= |t|
  {
    var w := SkipSpace(t, c + 1);
    if w < |t| then Some(NextCrLf(t, w)) else LastNonCrLfEnd(t, c, |t|)
  }

  /** `\b<W1>\s*<W2>\s*:\s*([^\r\n]+)` at `p`: the end of the match. */
  function LabelLineEnd(t: string, p: nat, key: Label): (e: Option<nat>)
    requires p <= |t|
    ensures e.Some? ==> p < e.value <= |t|
  {
    if p > 0 && IsWordChar(t[p - 1]) then None
    else match LabelColon(t, p, key)
      case None => None
      case Some(c) => ValueEnd(t, c)
  }

  /** Lazy `.*?`: the label is tried at `p`, `p + 1`, ... up to the next line terminator. */
  function LineMatchFrom(t: string, p: nat, key: Label): (e: Option<nat>)
    requires p <= |t|
    ensures e.Some? ==> p < e.value <= |t|
    decreases |t| - p
  {
    if p == |t| || IsLineTerminator(t[p]) then None
    else match LabelLineEnd(t, p, key)
      case Some(e) => Some(e)
      case None => LineMatchFrom(t, p + 1, key)
  }

  /** The pattern matches at the line start `k`: inline whitespace, then the label somewhere on the line. */
  predicate LineMatches(t: string, k: int, key: Label) {
    0 <= k <= |t| && LineStart(t, k) && LineMatchFrom(t, SkipInlineSpace(t, k), key).Some?
  }

  /** The leftmost index in `s..n` that satisfies `p`, as a scan from `s` finds it. */
  function FirstWhere(p: nat -> bool, s: nat, n: nat): (r: Option<nat>)
    requires s <= n
    ensures r.Some? ==> s <= r.value < n && p(r.value)
    ensures r.Some? ==> forall k | s <= k < r.value :: !p(k)
    ensures r.None? ==> forall k | s <= k < n :: !p(k)
    decreases n - s
  {
    if s == n then None
    else if p(s) then Some(s)
    else FirstWhere(p, s + 1, n)
  }

  /** `LineMatches` as a test on line starts, for the scan. */
  function MatchesAt(t: string, key: Label): nat -> bool {
    (k: nat) => LineMatches(t, k, key)
  }

  /** The first line start from `s` on where the pattern matches, with the match's end. */
  function FirstLabelLine(t: string, s: nat, key: Label): (m: Option<(nat, nat)>)
    requires s <= |t|
    ensures m.Some? ==> s <= m.value.0 < m.value.1 <= |t| && LineMatches(t, m.value.0, key)
  {
    match FirstWhere(MatchesAt(t, key), s, |t|)
    case None => None
    case Some(k) => Some((k, LineMatchFrom(t, SkipInlineSpace(t, k), key).value))
  }

  /** The match `FirstLabelLine` finds is the leftmost one: no earlier line start matches. */
  lemma FirstLabelLineLeftmost(t: string, s: nat, key: Label)
    requires s <= |t| && FirstLabelLine(t, s, key).Some?
    ensures forall k | s <= k < FirstLabelLine(t, s, key).value.0 :: !LineMatches(t, k, key)
  {
    var p := MatchesAt(t, key);
    assert FirstLabelLine(t, s, key).value.0 == FirstWhere(p, s, |t|).value;
    forall k | s <= k < FirstLabelLine(t, s, key).value.0 ensures !LineMatches(t, k, key) {
      assert !p(k);
    }
  }

  /** When `FirstLabelLine` finds nothing, no line start from `s` on matches. */
  lemma FirstLabelLineNone(t: string, s: nat, key: Label)
    requires s <= |t| && FirstLabelLine(t, s, key).None?
    ensures forall k | s <= k <= |t| :: !LineMatches(t, k, key)
  {
    var p := MatchesAt(t, key);
    assert FirstWhere(p, s, |t|).None?;
    NoLineMatchAtEnd(t, key);
    forall k | s <= k < |t| ensures !LineMatches(t, k, key) {
      assert !p(k);
    }
  }

  /** The end of the text is no matching line: nothing is left to hold a label. */
  lemma NoLineMatchAtEnd(t: string, key: Label)
    ensures !LineMatches(t, |t|, key)
  {
    assert SkipInlineSpace(t, |t|) == |t|;
    assert LineMatchFrom(t, |t|, key).None?;
  }

  /** The first colon of `m` with no line terminator before it. */
  function FirstColon(m: string, i: nat): (c: Option<nat>)
    requires i <= |m|
    ensures c.Some? ==> i <= c.value < |m| && m[c.value] == ':'
    ensures c.Some? ==> forall k | i <= k < c.value :: m[k] != ':' && !IsLineTerminator(m[k])
    ensures c.None? ==> forall k | i <= k < |m| && m[k] == ':' :: exists j | i <= j < k :: IsLineTerminator(m[j])
    decreases |m| - i
  {
    if i == |m| || IsLineTerminator(m[i]) then None
    else if m[i] == ':' then Some(i)
    else FirstColon(m, i + 1)
  }

  /** The `replace` at cards.ts:51 (lazy `.*?` up to a colon, then `\s*`, replaced by nothing): drop the text up to the first colon and the whitespace after it. */
  function AfterFirstColon(m: string): string {
    match FirstColon(m, 0)
    case None => m
    case Some(c) => m[SkipSpace(m, c + 1)..]
  }

  /** How `parseCard` reads a labelled field (cards.ts:50-63, 81-82): `clean` of the first matching line after its first colon. */
  function LabelledValue(t: string, key: Label): (v: Option<string>)
    ensures v.Some? <==> FirstLabelLine(t, 0, key).Some?
  {
    match FirstLabelLine(t, 0, key)
    case None => None
    case Some((s, e)) => Some(Clean(AfterFirstColon(t[s..e])))
  }

  // ---- Filing Location blocks

  datatype Form =
    /** ```` [\s\S]*?```([\s\S]*?)``` ````: the content of the first fenced block after the label. */
    | Fenced
    /** `` [\s\S]*?`([^`]+)` ``: the first non-empty backtick span after the label. */
    | Ticked

  /**
   * The content of the first fenced block starting at or after `l`: the lazy
   * `[\s\S]*?` stops at the first fence, the lazy content at the next one.
   */
  function FencedAfter(t: string, l: nat): (v: Option<string>)
    requires l <= |t|
    ensures v.Some? ==> exists o | l <= o && o + 3 + |v.value| <= |t| ::
      && FirstFence(t, l, o) && FirstFence(t, o + 3, o + 3 + |v.value|)
      && v.value == t[o + 3..o + 3 + |v.value|]
    ensures v.Some? ==> !Contains(v.value, "```")
    ensures v.None? ==> forall a, b | l <= a && a + 3 <= b <= |t| && OccursAt(t, "```", a) :: !OccursAt(t, "```", b)
  {
    match FindFrom(t, "```", l)
    case None => None
    case Some(f) =>
      match FindFrom(t, "```", f + 3)
      case None =>
        assert forall a, b | l <= a && a + 3 <= b <= |t| && OccursAt(t, "```", a) :: !OccursAt(t, "```", b) by {
          forall a, b | l <= a && a + 3 <= b <= |t| && OccursAt(t, "```", a) ensures !OccursAt(t, "```", b) {
            assert f <= a;
          }
        }
        None
      case Some(g) =>
        FenceContentPlain(t, f + 3, g);
        assert FirstFence(t, l, f) && FirstFence(t, f + 3, g);
        Some(t[f + 3..g])
  }

  /** `o` is the first position at or after `a` where a fence begins. */
  predicate FirstFence(t: string, a: nat, o: nat) {
    a <= o && OccursAt(t, "```", o) && forall k | a <= k < o :: !OccursAt(t, "```", k)
  }

  /** Text that runs up to the first fence from `a` holds no fence. */
  lemma FenceContentPlain(t: string, a: nat, g: nat)
    requires a <= g <= |t| && forall k | a <= k < g :: !OccursAt(t, "```", k)
    ensures !Contains(t[a..g], "```")
  {
    var v := t[a..g];
    forall k | 0 <= k <= |v| ensures !OccursAt(v, "```", k) {
      if k + 3 <= |v| {
        var w, x := v[k..k + 3], t[a + k..a + k + 3];
        assert w[0] == v[k] == t[a + k] == x[0];
        assert w[1] == v[k + 1] == t[a + k + 1] == x[1];
        assert w[2] == v[k + 2] == t[a + k + 2] == x[2];
        assert w == x;
        assert !OccursAt(t, "```", a + k);
      }
    }
  }

  /** A backtick at `q` that opens `` `([^`]+)` ``: a non-backtick next, and a later backtick to close it. */
  predicate TickOpens(t: string, q: nat) {
    q + 1 < |t| && t[q] == '`' && t[q + 1] != '`' && exists g | q + 1 < g < |t| :: t[g] == '`'
  }

  /** `TickOpens` as a test on positions, for the scan. */
  function TickHit(t: string): nat -> bool {
    (k: nat) => TickOpens(t, k)
  }

  /** Where the span opened at `q` closes: the first backtick after the opening one. */
  lemma TickClose(t: string, q: nat)
    requires q + 1 < |t| && t[q] == '`' && t[q + 1] != '`'
    ensures FindFrom(t, "`", q + 1).Some? <==> TickOpens(t, q)
    ensures FindFrom(t, "`", q + 1).Some? ==>
      var g := FindFrom(t, "`", q + 1).value;
      q + 1 < g < |t| && t[g] == '`' && forall k | q + 1 <= k < g :: t[k] != '`'
  {
    match FindFrom(t, "`", q + 1)
    case Some(g) =>
      assert t[g..g + 1] == [t[g]];
      forall k | q + 1 <= k < g ensures t[k] != '`' {
        assert !OccursAt(t, "`", k);
        assert t[k..k + 1] == [t[k]];
      }
    case None =>
      forall g | q + 1 < g < |t| ensures t[g] != '`' {
        assert !OccursAt(t, "`", g);
        assert t[g..g + 1] == [t[g]];
      }
  }

  /**
   * `` [\s\S]*?`([^`]+)` `` from `l`: the lazy prefix stops at the first
   * backtick that opens a span, and the span runs to the next backtick.
   */
  function TickedAfter(t: string, l: nat): (v: Option<string>)
    requires l <= |t|
    ensures v.Some? ==> exists q | l <= q && q + 2 + |v.value| <= |t| ::
      && (forall k | l <= k < q :: !TickOpens(t, k))
      && TickOpens(t, q) && t[q + 1 + |v.value|] == '`' && v.value == t[q + 1..q + 1 + |v.value|]
    ensures v.Some? ==> v.value != "" && '`' !in v.value
    ensures v.None? ==> forall k | l <= k < |t| :: !TickOpens(t, k)
  {
    var p := TickHit(t);
    match FirstWhere(p, l, |t|)
    case None =>
      assert forall k | l <= k < |t| :: !TickOpens(t, k) by {
        forall k | l <= k < |t| ensures !TickOpens(t, k) {
          assert !p(k);
        }
      }
      None
    case Some(q) =>
      assert p(q);
      TickClose(t, q);
      var g := FindFrom(t, "`", q + 1).value;
      assert forall k | l <= k < q :: !TickOpens(t, k) by {
        forall k | l <= k < q ensures !TickOpens(t, k) {
          assert !p(k);
        }
      }
      var v := t[q + 1..g];
      assert forall i | 0 <= i < |v| :: v[i] == t[q + 1 + i];
      Some(v)
  }

  function FormAfter(t: string, l: nat, form: Form): Option<string>
    requires l <= |t|
  {
    if form == Fenced then FencedAfter(t, l) else TickedAfter(t, l)
  }

  /** `\s*Filing\s*Location` then the block, from `j`. */
  function LabelledBlock(t: string, j: nat, form: Form): Option<string>
    requires j <= |t|
  {
    match LabelEnd(t, SkipSpace(t, j), FilingLocationLabel)
    case None => None
    case Some(l) => FormAfter(t, l, form)
  }

  /** The block the labelled pattern reads from each position of `t`; none past the end. */
  function BlocksOf(t: string, form: Form): nat -> Option<string>
  {
    (k: nat) => if k <= |t| then LabelledBlock(t, k, form) else None
  }

  /** What `BlocksOf` gives at one position. */
  lemma BlocksOfAt(t: string, form: Form, k: nat)
    requires k <= |t|
    ensures BlocksOf(t, form)(k) == LabelledBlock(t, k, form)
  {
  }

  /** The block after the first position from `i` on that holds `mark` and has a block after it. */
  function FirstBlock(t: string, mark: char, block: nat -> Option<string>, i: nat): (v: Option<string>)
    requires i <= |t|
    ensures v.Some? ==> exists j | i <= j < |t| ::
      && t[j] == mark && block(j + 1) == v
      && forall k | i <= k < j && t[k] == mark :: block(k + 1).None?
    ensures v.None? ==> forall j | i <= j < |t| && t[j] == mark :: block(j + 1).None?
    decreases |t| - i
  {
    if i == |t| then None
    else if t[i] == mark && block(i + 1).Some? then block(i + 1)
    else FirstBlock(t, mark, block, i + 1)
  }

  /**
   * The leftmost `<mark>\s*Filing\s*Location…` from `i` on, and its block:
   * the first position holding `mark` that the rest of the pattern matches after.
   */
  function MarkedBlock(t: string, mark: char, i: nat, form: Form): Option<string>
    requires i <= |t|
  {
    FirstBlock(t, mark, BlocksOf(t, form), i)
  }

  /** `/📂?\s*Filing\s*Location…/i` (cards.ts:68, 76): the match needs the folder glyph; its group 1. */
  function GlyphBlock(t: string, i: nat, form: Form): Option<string>
    requires i <= |t|
  {
    MarkedBlock(t, FolderGlyph, i, form)
  }

  /**
   * `/(^|\n)\s*Filing\s*Location…/i` (cards.ts:69, 77): the leftmost match
   * from `i` on, with group 1 (`""` when `^` matched, `"\n"` otherwise) and
   * group 2. `^` can only match at index 0, before any `\n` alternative.
   */
  function AnchoredBlock(t: string, i: nat, form: Form): (m: Option<(string, string)>)
    requires i <= |t|
    ensures m.Some? ==> m.value.0 == "" || m.value.0 == "\n"
    ensures m.Some? ==> (m.value.0 == "" <==> i == 0 && LabelledBlock(t, 0, form).Some?)
    ensures m.Some? && m.value.0 == "" ==> LabelledBlock(t, 0, form) == Some(m.value.1)
    ensures m.Some? && m.value.0 == "\n" ==> MarkedBlock(t, '\n', i, form) == Some(m.value.1)
    ensures m.None? <==> !(i == 0 && LabelledBlock(t, 0, form).Some?) && MarkedBlock(t, '\n', i, form).None?
  {
    if i == 0 && LabelledBlock(t, 0, form).Some? then Some(("", LabelledBlock(t, 0, form).value))
    else
      match MarkedBlock(t, '\n', i, form)
      case None => None
      case Some(block) => Some(("\n", block))
  }

  /** JavaScript `a || b` on strings. */
  function Or(a: string, b: string): string {
    if a != "" then a else b
  }

  predicate FenceMatches(t: string) {
    GlyphBlock(t, 0, Fenced).Some? || AnchoredBlock(t, 0, Fenced).Some?
  }

  /** `(fence[1] || fence[2] || '').trim()` for whichever fence pattern matched first. */
  function FenceRaw(t: string): string
    requires FenceMatches(t)
  {
    match GlyphBlock(t, 0, Fenced)
    case Some(content) => Trim(content)
    case None =>
      var groups := AnchoredBlock(t, 0, Fenced).value;
      Trim(Or(groups.0, groups.1))
  }

  /**
   * The Filing Location (cards.ts:65-84): a fenced block if either fence
   * pattern matches (only the first line of its trimmed content), else an
   * inline backtick value, else a plain `Filing Location: value` line.
   */
  function FilingLocation(t: string): (v: Option<string>)
    ensures v.None? <==>
      || (FenceMatches(t) && FenceRaw(t) == "")
      || (!FenceMatches(t) && GlyphBlock(t, 0, Ticked).None? && AnchoredBlock(t, 0, Ticked).None?
          && FirstLabelLine(t, 0, FilingLocationLabel).None?)
    ensures v.Some? ==> v.value == [] || (!IsSpace(v.value[0]) && !IsSpace(v.value[|v.value| - 1]))
  {
    if FenceMatches(t) then
      var raw := FenceRaw(t);
      if raw != "" then Some(Clean(SplitOn(raw, '\n')[0])) else None
    else
      match GlyphBlock(t, 0, Ticked)
      case Some(value) => Some(Clean(value))
      case None =>
        match AnchoredBlock(t, 0, Ticked)
        case Some(groups) => Some(Clean(Or(groups.0, groups.1)))
        case None => LabelledValue(t, FilingLocationLabel)
  }

  /** Whenever a fence pattern matches, the lower tiers are never consulted and only one line of the block is kept. */
  lemma FenceTierWins(t: string)
    requires FenceMatches(t)
    ensures FilingLocation(t) == (if FenceRaw(t) != "" then Some(Clean(SplitOn(FenceRaw(t), '\n')[0])) else None)
    ensures FilingLocation(t).Some? ==> '\n' !in FilingLocation(t).value
  {
  }

  /**
   * When only the pattern without the glyph matches a fence and the label is
   * not at the very start of the text, group 1 is "\n", which is truthy: the
   * raw value trims to "", no Filing Location is set, and the inline and
   * plain tiers are skipped even when they would have found one.
   */
  lemma NewlineGroupHidesFence(t: string)
    requires GlyphBlock(t, 0, Fenced).None? && AnchoredBlock(t, 0, Fenced).Some?
    requires LabelledBlock(t, 0, Fenced).None?
    ensures AnchoredBlock(t, 0, Fenced).value.0 == "\n"
    ensures FilingLocation(t).None?
  {
    var groups := AnchoredBlock(t, 0, Fenced).value;
    assert groups.0 == "\n";
    NewlineTrimsEmpty();
  }

  /** The same "\n" group in the inline tier sets the Filing Location to the empty string. */
  lemma NewlineGroupEmptiesInline(t: string)
    requires !FenceMatches(t) && GlyphBlock(t, 0, Ticked).None? && AnchoredBlock(t, 0, Ticked).Some?
    requires LabelledBlock(t, 0, Ticked).None?
    ensures AnchoredBlock(t, 0, Ticked).value.0 == "\n"
    ensures FilingLocation(t) == Some("")
  {
    var groups := AnchoredBlock(t, 0, Ticked).value;
    assert groups.0 == "\n";
    assert Or(groups.0, groups.1) == "\n";
    NewlineTrimsEmpty();
  }

  /** A lone line break is only white space: it trims and cleans to nothing. */
  lemma NewlineTrimsEmpty()
    ensures Trim("\n") == ""
    ensures Clean("\n") == ""
  {
    assert SkipSpace("\n", 0) == 1;
    assert Clean("\n") == Trim("\n"[0..1]);
  }

  /** When no fence and no inline pattern matches, the plain `Filing Location: value` line decides. */
  lemma PlainTierLast(t: string)
    requires !FenceMatches(t)
    requires GlyphBlock(t, 0, Ticked).None? && AnchoredBlock(t, 0, Ticked).None?
    ensures FilingLocation(t) == LabelledValue(t, FilingLocationLabel)
  {
  }

  /** An inline backtick value outranks the plain line: whatever that line says, the inline value is taken. */
  lemma InlineTierBeforePlain(t: string)
    requires !FenceMatches(t)
    requires GlyphBlock(t, 0, Ticked).Some? || AnchoredBlock(t, 0, Ticked).Some?
    ensures GlyphBlock(t, 0, Ticked).Some? ==> FilingLocation(t) == Some(Clean(GlyphBlock(t, 0, Ticked).value))
    ensures GlyphBlock(t, 0, Ticked).None? ==>
      var groups := AnchoredBlock(t, 0, Ticked).value;
      FilingLocation(t) == Some(Clean(Or(groups.0, groups.1)))
  {
  }

  /** A `#` header needs the folder glyph: `# CodexCard` alone is not a header, `# 🗂️ CodexCard` is. */
  lemma HeaderNeedsGlyph()
    ensures !HasHeader("# CodexCard", CodexHeader)
    ensures HasHeader("# " + [HeaderGlyph, VariationSelector] + " CodexCard", CodexHeader)
  {
    BareHeaderRejected();
    GlyphHeaderAccepted();
  }

  lemma BareHeaderRejected()
    ensures !HasHeader("# CodexCard", CodexHeader)
  {
    var bare := "# CodexCard";
    assert forall i | 0 < i < |bare| :: bare[i] != '#';
    assert bare[1] == ' ' && bare[2] == 'C';
    assert SkipSpace(bare, 1) == 2;
    assert !HeaderAt(bare, 0, CodexHeader);
  }

  lemma GlyphHeaderAccepted()
    ensures HasHeader("# " + [HeaderGlyph, VariationSelector] + " CodexCard", CodexHeader)
  {
    var t := "# " + [HeaderGlyph, VariationSelector] + " CodexCard";
    assert t[0] == '#' && t[1] == ' ' && t[2] == HeaderGlyph && t[3] == VariationSelector && t[4] == ' ' && t[5] == 'C';
    assert SkipSpace(t, 2) == 2 && SkipSpace(t, 1) == 2;
    assert SkipSpace(t, 5) == 5 && SkipSpace(t, 4) == 5;
    assert t[5..14] == "CodexCard";
    assert Lower("CodexCard") == CodexHeader;
    assert HeaderAt(t, 0, CodexHeader);
  }

  const LoopHead := "Loop Number: ["

  lemma LoopHeadColon(t: string)
    requires StartsWith(t, LoopHead)
    ensures LabelColon(t, 0, LoopNumber) == Some(11)
    ensures SkipSpace(t, 12) == 13
  {
    assert forall k | 0 <= k < 14 :: t[k] == LoopHead[k];
    assert t[0..4] == "Loop" && t[5..11] == "Number";
    assert Lower("Loop") == "loop" && Lower("Number") == "number";
    assert SkipSpace(t, 5) == 5 && SkipSpace(t, 4) == 5;
    assert SkipSpace(t, 11) == 11;
    assert SkipSpace(t, 13) == 13;
  }

  /** `[^\r\n]+` runs to the end of a text with no CR or LF from `i` on. */
  lemma {:induction false} NextCrLfAtEnd(t: string, i: nat)
    requires i <= |t|
    requires forall k | i <= k < |t| :: !IsCrLf(t[k])
    ensures NextCrLf(t, i) == |t|
    decreases |t| - i
  {
    if i < |t| {
      NextCrLfAtEnd(t, i + 1);
    }
  }

  /** The label line pattern, tried at index 0 of such a line, runs to its end. */
  lemma LoopHeadLineEnd(t: string)
    requires StartsWith(t, LoopHead)
    requires forall k | 13 <= k < |t| :: !IsCrLf(t[k])
    ensures LabelLineEnd(t, 0, LoopNumber) == Some(|t|)
  {
    LoopHeadColon(t);
    assert t[13] == '[' && !IsSpace(t[13]);
    NextCrLfAtEnd(t, 13);
    assert ValueEnd(t, 11) == Some(|t|);
  }

  lemma LoopHeadMatch(t: string)
    requires StartsWith(t, LoopHead)
    requires forall k | 13 <= k < |t| :: !IsCrLf(t[k])
    ensures FirstLabelLine(t, 0, LoopNumber) == Some((0, |t|))
  {
    LoopHeadFrom(t);
    assert LineMatches(t, 0, LoopNumber);
  }

  /** Tried from the first character, the label line pattern matches the whole loop head line. */
  lemma LoopHeadFrom(t: string)
    requires StartsWith(t, LoopHead)
    requires forall k | 13 <= k < |t| :: !IsCrLf(t[k])
    ensures SkipInlineSpace(t, 0) == 0 && LineMatchFrom(t, 0, LoopNumber) == Some(|t|)
  {
    assert t[0] == 'L';
    LoopHeadLineEnd(t);
  }

  lemma LoopHeadAfterColon(t: string)
    requires StartsWith(t, LoopHead)
    ensures AfterFirstColon(t) == t[13..]
  {
    LoopHeadColon(t);
    assert forall k | 0 <= k < 14 :: t[k] == LoopHead[k];
    assert forall k | 0 <= k < 11 :: t[k] != ':' && !IsLineTerminator(t[k]);
    FirstColonSkips(t, 0, 11);
  }

  /** The template line is the loop head, then `x` and the closing bracket, on one line. */
  lemma TemplateLineShape(x: string, t: string)
    requires forall c | c in x :: !IsCrLf(c)
    requires t == LoopHead + x + "]"
    ensures StartsWith(t, LoopHead)
    ensures forall k | 13 <= k < |t| :: !IsCrLf(t[k])
    ensures t[13..] == "[" + x + "]"
  {
    assert t == LoopHead + (x + "]");
    PrefixOfAppend(LoopHead, x + "]");
    forall k | 13 <= k < |t| ensures !IsCrLf(t[k]) {
      if 14 <= k < |t| - 1 {
        assert t[k] == x[k - 14];
      }
    }
  }

  /** The template line `Loop Number: [x]` parses to `x` trimmed, for any `x` on one line. */
  lemma TemplateLoopLine(x: string)
    requires forall c | c in x :: !IsCrLf(c)
    ensures LabelledValue(LoopHead + x + "]", LoopNumber) == Some(Trim(x))
  {
    var t := LoopHead + x + "]";
    TemplateLineShape(x, t);
    LoopHeadMatch(t);
    LoopHeadAfterColon(t);
    assert t[0..|t|] == t;
    assert LabelledValue(t, LoopNumber) == Some(Clean(AfterFirstColon(t)));
    CleanUnwraps(x);
  }

  /** `FirstColon` passes over a stretch with no colon and no line terminator. */
  lemma {:induction false} FirstColonSkips(m: string, i: nat, j: nat)
    requires i <= j <= |m|
    requires forall k | i <= k < j :: m[k] != ':' && !IsLineTerminator(m[k])
    ensures FirstColon(m, i) == FirstColon(m, j)
    decreases j - i
  {
    if i < j {
      FirstColonSkips(m, i + 1, j);
    }
  }

  // ---- parseCard

  /** `parseCard` (cards.ts:45-87): never fails; fields whose pattern does not match stay unset. */
  function ParseCard(t: string): (c: ParsedCard)
    ensures c.kind == DetectCardKind(t)
    ensures c.loop.Some? <==> FirstLabelLine(t, 0, LoopNumber).Some?
    ensures c.taskRef.Some? <==> FirstLabelLine(t, 0, TaskReference).Some?
    ensures c.dateIssued.Some? <==> FirstLabelLine(t, 0, DateIssued).Some?
    ensures c.dateCompleted.Some? <==> FirstLabelLine(t, 0, DateCompleted).Some?
    ensures c.filingLocation == FilingLocation(t)
  {
    ParsedCard(
      DetectCardKind(t),
      LabelledValue(t, LoopNumber),
      LabelledValue(t, TaskReference),
      LabelledValue(t, DateIssued),
      LabelledValue(t, DateCompleted),
      FilingLocation(t))
  }
}
