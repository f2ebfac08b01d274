/**
 * `src/app/lib/structure.ts`: the set of allowed path prefixes taken from the
 * vault structure document, and the clamp that keeps a proposed path inside
 * one of them. The document is read from disk in the source; here its text
 * is a parameter.
 */
module Structure {
  import opened Text

  const VaultName := "Command Vault"
  /** The master root every clamp falls back to. */
  const MasterRoot := VaultName + "/"
  const CodexRoot := MasterRoot + "CODEX" + "/"
  const HarmonyRoot := MasterRoot + "OPERATION HARMONY" + "/"
  const ConfigRoot := MasterRoot + "codex" + "/"

  /** The roots always added, in the order they are added (structure.ts:13-17). */
  const FixedRoots := [CodexRoot, HarmonyRoot, ConfigRoot]

  // ---- loadAllowedPrefixes

  /** `/^\s*Command Vault\//m.test(txt)`: some line starts with whitespace (which may span lines) and then the master root. */
  predicate MentionsVaultRoot(txt: string): (b: bool)
    ensures b ==> Contains(txt, MasterRoot)
    ensures StartsWith(txt, MasterRoot) ==> b
    ensures forall k | 0 <= k < |txt| && IsLineTerminator(txt[k]) && OccursAt(txt, MasterRoot, k + 1) :: b
  {
    var b := exists i, j | 0 <= i <= j <= |txt| :: LineStart(txt, i) && AllSpace(txt[i..j]) && OccursAt(txt, MasterRoot, j);
    assert StartsWith(txt, MasterRoot) ==> b by {
      if StartsWith(txt, MasterRoot) {
        assert LineStart(txt, 0) && AllSpace(txt[0..0]) && OccursAt(txt, MasterRoot, 0);
      }
    }
    assert forall k | 0 <= k < |txt| && IsLineTerminator(txt[k]) && OccursAt(txt, MasterRoot, k + 1) :: b by {
      forall k | 0 <= k < |txt| && IsLineTerminator(txt[k]) && OccursAt(txt, MasterRoot, k + 1) ensures b {
        assert LineStart(txt, k + 1) && AllSpace(txt[k + 1..k + 1]);
      }
    }
    b
  }

  /** `Set.prototype.add` on a set kept in insertion order. */
  function Add(s: seq<string>, x: string): (r: seq<string>)
    ensures x in r
    ensures forall y :: y in r <==> y in s || y == x
  {
    if x in s then s else s + [x]
  }

  /** Adding each item in turn. */
  function AddAll(s: seq<string>, xs: seq<string>): (r: seq<string>)
    ensures forall y :: y in r <==> y in s || y in xs
    decreases |xs|
  {
    if xs == [] then s else AddAll(Add(s, xs[0]), xs[1..])
  }

  predicate NoDuplicates(s: seq<string>) {
    forall i, j | 0 <= i < j < |s| :: s[i] != s[j]
  }

  lemma {:induction false} AddAllKeepsNoDuplicates(s: seq<string>, xs: seq<string>)
    requires NoDuplicates(s)
    ensures NoDuplicates(AddAll(s, xs))
    decreases |xs|
  {
    if xs != [] {
      var s' := Add(s, xs[0]);
      assert NoDuplicates(s');
      AddAllKeepsNoDuplicates(s', xs[1..]);
    }
  }

  /** The prefix list `loadAllowedPrefixes` returns for the document text `txt`. */
  function AllowedPrefixes(txt: string): seq<string> {
    AddAll(if MentionsVaultRoot(txt) then [MasterRoot] else [], FixedRoots)
  }

  /** The three fixed roots and the master root are four different strings. */
  lemma RootsDistinct()
    ensures MasterRoot !in FixedRoots
    ensures CodexRoot != HarmonyRoot && CodexRoot != ConfigRoot && HarmonyRoot != ConfigRoot
    ensures NoDuplicates(FixedRoots)
  {
    assert |MasterRoot| == 14 && |CodexRoot| == 20 && |HarmonyRoot| == 32 && |ConfigRoot| == 20;
    assert CodexRoot[14] == "CODEX"[0] != "codex"[0] == ConfigRoot[14];
  }

  /**
   * The prefix set holds the three fixed roots, holds the master root exactly
   * when the document has a line starting with it, has no duplicates, and
   * lists the master root first when it is there.
   */
  lemma AllowedPrefixesShape(txt: string)
    ensures AllowedPrefixes(txt) == (if MentionsVaultRoot(txt) then [MasterRoot] else []) + FixedRoots
    ensures CodexRoot in AllowedPrefixes(txt) && HarmonyRoot in AllowedPrefixes(txt) && ConfigRoot in AllowedPrefixes(txt)
    ensures MasterRoot in AllowedPrefixes(txt) <==> MentionsVaultRoot(txt)
    ensures NoDuplicates(AllowedPrefixes(txt))
  {
    RootsDistinct();
    var s0: seq<string> := if MentionsVaultRoot(txt) then [MasterRoot] else [];
    var s1 := Add(s0, CodexRoot);
    assert s1 == s0 + [CodexRoot];
    var s2 := Add(s1, HarmonyRoot);
    assert s2 == s0 + [CodexRoot, HarmonyRoot];
    var s3 := Add(s2, ConfigRoot);
    assert s3 == s0 + [CodexRoot, HarmonyRoot] + [ConfigRoot];
    assert s3 == s0 + FixedRoots;
    assert AllowedPrefixes(txt) == AddAll(s1, FixedRoots[1..]);
    assert AddAll(s1, FixedRoots[1..]) == AddAll(s2, FixedRoots[2..]);
    assert AddAll(s2, FixedRoots[2..]) == AddAll(s3, []);
    AddAllKeepsNoDuplicates(s0, FixedRoots);
  }

  /** `loadAllowedPrefixes` (structure.ts:7-19) with the file's text given. */
  method LoadAllowedPrefixes(txt: string) returns (prefixes: seq<string>)
    ensures prefixes == AllowedPrefixes(txt)
  {
    prefixes := [];
    if MentionsVaultRoot(txt) {
      prefixes := Add(prefixes, MasterRoot);
      assert prefixes == [MasterRoot];
    }
    var roots := FixedRoots;
    assert roots[0..] == roots;
    for i := 0 to |roots|
      invariant AddAll(prefixes, roots[i..]) == AllowedPrefixes(txt)
    {
      assert roots[i..][1..] == roots[i + 1..];
      prefixes := Add(prefixes, roots[i]);
    }
  }

  // ---- clampToAllowed

  /** `proposed.replace(/\\/g, '/')`. */
  function NormalizeSlashes(p: string): (r: string)
    ensures '\\' !in r
  {
    ReplaceChar(p, '\\', '/')
  }

  /** `allowed.some(p => s.startsWith(p))`. */
  predicate Allowed(allowed: seq<string>, s: string) {
    exists q | q in allowed :: StartsWith(s, q)
  }

  /** `clean.split('/').filter(Boolean)`. */
  function Segments(clean: string): (parts: seq<string>)
    ensures forall x | x in parts :: x != "" && forall c | c in x :: c in clean
  {
    SplitChars(clean, '/');
    NonEmpty(SplitOn(clean, '/'))
  }

  /** The ancestor made of the first `k` segments, with its trailing slash. */
  function Ancestor(parts: seq<string>, k: nat): string
    requires k <= |parts|
  {
    Join(parts[..k], "/") + "/"
  }

  /** The ancestor of `k` segments is the longest allowed one. */
  predicate Longest(parts: seq<string>, allowed: seq<string>, k: nat) {
    && 1 <= k <= |parts| && Allowed(allowed, Ancestor(parts, k))
    && forall j | k < j <= |parts| :: !Allowed(allowed, Ancestor(parts, j))
  }

  /**
   * The walk-up of structure.ts:27-33 on the segment list: the whole list is
   * tried first, then ever shorter prefixes; the master root if none is allowed.
   */
  function WalkUp(parts: seq<string>, allowed: seq<string>): (r: string)
    ensures
      || (r == MasterRoot && forall k | 1 <= k <= |parts| :: !Allowed(allowed, Ancestor(parts, k)))
      || (exists k :: Longest(parts, allowed, k) && r == Ancestor(parts, k))
    decreases |parts|
  {
    if parts == [] then MasterRoot
    else
      var test := Join(parts, "/") + "/";
      assert parts[..|parts|] == parts;
      if Allowed(allowed, test) then
        assert Longest(parts, allowed, |parts|);
        test
      else
        var init := parts[..|parts| - 1];
        assert forall k | 1 <= k <= |init| :: Ancestor(init, k) == Ancestor(parts, k) by {
          forall k | 1 <= k <= |init| ensures Ancestor(init, k) == Ancestor(parts, k) {
            assert init[..k] == parts[..k];
          }
        }
        WalkUp(init, allowed)
  }

  /** `clampToAllowed` (structure.ts:22-34) as a function. */
  function Clamp(proposed: string, allowed: seq<string>): (r: string)
    ensures Allowed(allowed, NormalizeSlashes(proposed)) ==> r == NormalizeSlashes(proposed)
    ensures r == MasterRoot || Allowed(allowed, r)
    ensures allowed == [] ==> r == MasterRoot
  {
    var clean := NormalizeSlashes(proposed);
    if Allowed(allowed, clean) then clean else WalkUp(Segments(clean), allowed)
  }

  /** The result never holds a backslash. */
  lemma ClampHasNoBackslash(proposed: string, allowed: seq<string>)
    ensures '\\' !in Clamp(proposed, allowed)
  {
    var clean := NormalizeSlashes(proposed);
    if !Allowed(allowed, clean) {
      var parts := Segments(clean);
      var r := WalkUp(parts, allowed);
      assert '\\' !in VaultName + "/";
      if r != MasterRoot {
        var k: nat :| Longest(parts, allowed, k) && r == Ancestor(parts, k);
        forall x | x in parts[..k] ensures '\\' !in x {
          assert x in parts;
        }
        JoinAvoids(parts[..k], "/", '\\');
      }
    }
  }

  /** Off the fast path, the result is the longest allowed ancestor, or the master root when there is none. */
  lemma ClampWalksUp(proposed: string, allowed: seq<string>)
    requires !Allowed(allowed, NormalizeSlashes(proposed))
    ensures var parts := Segments(NormalizeSlashes(proposed));
      || (Clamp(proposed, allowed) == MasterRoot && forall k | 1 <= k <= |parts| :: !Allowed(allowed, Ancestor(parts, k)))
      || (exists k :: Longest(parts, allowed, k) && Clamp(proposed, allowed) == Ancestor(parts, k))
  {
  }

  /** The master root clamps to itself whatever the allowed list. */
  lemma MasterRootIsFixed(allowed: seq<string>)
    ensures Clamp(MasterRoot, allowed) == MasterRoot
  {
    assert '\\' !in VaultName && '/' !in VaultName;
    assert NormalizeSlashes(MasterRoot) == MasterRoot;
    if !Allowed(allowed, MasterRoot) {
      SplitTrailingSeparator(VaultName, '/');
      assert SplitOn(MasterRoot, '/') == [VaultName, ""];
      assert [VaultName, ""][1..] == [""] && [""][1..] == [];
      assert NonEmpty([""]) == [];
      assert Segments(MasterRoot) == [VaultName];
      assert Join([VaultName], "/") + "/" == MasterRoot;
      assert WalkUp([VaultName], allowed) == WalkUp([], allowed);
    }
  }

  /** Clamping twice is clamping once (structure.ts:22-34). */
  lemma ClampIdempotent(proposed: string, allowed: seq<string>)
    ensures Clamp(Clamp(proposed, allowed), allowed) == Clamp(proposed, allowed)
  {
    var r := Clamp(proposed, allowed);
    ClampHasNoBackslash(proposed, allowed);
    assert NormalizeSlashes(r) == r;
    if !Allowed(allowed, r) {
      MasterRootIsFixed(allowed);
    }
  }

  /** `allowed.some(...)` as the loop the runtime runs. */
  method SomeStartsWith(allowed: seq<string>, s: string) returns (found: bool)
    ensures found == Allowed(allowed, s)
  {
    for i := 0 to |allowed|
      invariant forall j | 0 <= j < i :: !StartsWith(s, allowed[j])
    {
      if StartsWith(s, allowed[i]) {
        return true;
      }
    }
    return false;
  }

  /** `clampToAllowed` (structure.ts:22-34): pops the segment list until an ancestor is allowed. */
  method ClampToAllowed(proposed: string, allowed: seq<string>) returns (r: string)
    ensures r == Clamp(proposed, allowed)
  {
    var clean := NormalizeSlashes(proposed);
    var hit := SomeStartsWith(allowed, clean);
    if hit {
      return clean;
    }
    var parts := Segments(clean);
    ghost var all := parts;
    while |parts| > 0
      invariant WalkUp(parts, allowed) == WalkUp(all, allowed)
      decreases |parts|
    {
      var test := Join(parts, "/") + "/";
      hit := SomeStartsWith(allowed, test);
      if hit {
        return test;
      }
      parts := parts[..|parts| - 1];
    }
    return MasterRoot;
  }
}
