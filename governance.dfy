/**
 * How the paths `computePath` builds (src/app/lib/rules.ts) fare under
 * `clampToAllowed` with the prefix set `loadAllowedPrefixes` builds
 * (src/app/lib/structure.ts). `computePath` never clamps; these lemmas say
 * what a caller that does clamp gets back.
 */
module Governance {
  import opened Text
  import R = Rules
  import S = Structure

  /** Both files spell the vault, runtime CODEX and config codex roots the same way. */
  lemma RootsAgree()
    ensures R.VaultPrefix == S.MasterRoot
    ensures R.CodexPrefix == S.CodexRoot
    ensures R.ConfigPrefix == S.ConfigRoot
  {
  }

  /** Replacing backslashes keeps a prefix that holds none. */
  lemma NormalizeKeepsPrefix(p: string, q: string)
    requires StartsWith(p, q) && '\\' !in q
    ensures StartsWith(S.NormalizeSlashes(p), q)
  {
    var n := S.NormalizeSlashes(p);
    forall k | 0 <= k < |q| ensures n[k] == q[k] {
      assert p[k] == q[k];
    }
    assert n[..|q|] == q;
  }

  /**
   * Runtime CODEX paths, config codex paths and the system-type paths of
   * Operation Harmony lie under a fixed root, so clamping them only turns
   * backslashes into slashes, whatever the structure document says.
   */
  lemma SystemPathsStayPut(input: R.RuleInput, date: string, txt: string)
    requires
      || input.target == R.RuntimeCodex
      || input.target == R.ConfigCodex
      || (input.target == R.OperationHarmony && R.IsSystemDocType(R.ComputePath(input, date).detected.docType))
    ensures var p := R.ComputePath(input, date).primaryPath;
      S.Clamp(p, S.AllowedPrefixes(txt)) == S.NormalizeSlashes(p)
  {
    var p := R.ComputePath(input, date).primaryPath;
    RootsAgree();
    if input.target == R.ConfigCodex {
      PrefixOfAppend(R.SchemaArea, "/");
      StartsWithTrans(p, R.SchemaArea + "/", R.SchemaArea);
      PrefixOfAppend(R.ConfigPrefix, "Schema Incoming");
      StartsWithTrans(p, R.SchemaArea, R.ConfigPrefix);
      UnderFixedRootKept(p, S.ConfigRoot, txt);
    } else {
      UnderFixedRootKept(p, S.CodexRoot, txt);
    }
  }

  /** A path under a fixed root keeps its place: only its backslashes change. */
  lemma UnderFixedRootKept(p: string, root: string, txt: string)
    requires root in S.FixedRoots && StartsWith(p, root)
    ensures S.Clamp(p, S.AllowedPrefixes(txt)) == S.NormalizeSlashes(p)
  {
    S.AllowedPrefixesShape(txt);
    FixedRootsPlain();
    NormalizeKeepsPrefix(p, root);
    assert S.Allowed(S.AllowedPrefixes(txt), S.NormalizeSlashes(p));
  }

  /** No fixed root holds a backslash. */
  lemma FixedRootsPlain()
    ensures forall q | q in S.FixedRoots :: '\\' !in q
  {
    assert '\\' !in S.VaultName && '\\' !in "CODEX" && '\\' !in "codex" && '\\' !in "OPERATION HARMONY";
  }

  /** No fixed root is a prefix of a path under `Command Vault/Operation Harmony/`: the fixed root spells it in capitals. */
  lemma HarmonyOutsideFixedRoots(s: string)
    requires StartsWith(s, R.HarmonyPrefix)
    ensures !S.Allowed(S.FixedRoots, s)
  {
    assert |R.HarmonyPrefix| == 32 && R.HarmonyPrefix[14] == 'O' && R.HarmonyPrefix[15] == 'p';
    assert s[14] == 'O' && s[15] == 'p';
    assert S.CodexRoot[14] == 'C' && S.ConfigRoot[14] == 'c' && S.HarmonyRoot[15] == 'P';
    forall q | q in S.FixedRoots ensures !StartsWith(s, q) {
      assert |q| >= 20;
    }
  }

  /** A joined path of at least one segment, starting with `first`, begins with `first + "/"` once the slash is added. */
  lemma JoinedStartsWith(first: string, rest: seq<string>)
    ensures StartsWith(Join([first] + rest, "/") + "/", first + "/")
  {
    if rest == [] {
      assert [first] + rest == [first];
    } else {
      assert ([first] + rest)[1..] == rest;
      var tail := Join(rest, "/") + "/";
      assert Join([first] + rest, "/") + "/" == (first + "/") + tail;
      PrefixOfAppend(first + "/", tail);
    }
  }

  /** A path under `Command Vault/Operation Harmony/`, written out around its first two separators. */
  lemma HarmonySpelledOut(n: string)
    requires StartsWith(n, R.HarmonyPrefix)
    ensures n == S.VaultName + ['/'] + (R.HarmonyRoot + ['/'] + n[|R.HarmonyPrefix|..])
  {
    var x := n[|R.HarmonyPrefix|..];
    assert R.HarmonyPrefix == S.VaultName + ['/'] + R.HarmonyRoot + ['/'];
    assert n == R.HarmonyPrefix + x;
  }

  lemma HarmonySplit(n: string)
    requires StartsWith(n, R.HarmonyPrefix)
    ensures SplitOn(n, '/') == [S.VaultName, R.HarmonyRoot] + SplitOn(n[|R.HarmonyPrefix|..], '/')
  {
    var x := n[|R.HarmonyPrefix|..];
    HarmonySpelledOut(n);
    assert '/' !in S.VaultName && '/' !in R.HarmonyRoot;
    SplitAroundSeparator(S.VaultName, R.HarmonyRoot + ['/'] + x, '/');
    SplitAroundSeparator(R.HarmonyRoot, x, '/');
    SplitWithoutSeparator(S.VaultName, '/');
    SplitWithoutSeparator(R.HarmonyRoot, '/');
  }

  /** The segments of a path under `Command Vault/Operation Harmony/` start with those two names. */
  lemma HarmonySegments(n: string) returns (rest: seq<string>)
    requires StartsWith(n, R.HarmonyPrefix)
    ensures S.Segments(n) == [S.VaultName, R.HarmonyRoot] + rest
  {
    var x := n[|R.HarmonyPrefix|..];
    HarmonySplit(n);
    NonEmptyAppend([S.VaultName, R.HarmonyRoot], SplitOn(x, '/'));
    assert [S.VaultName, R.HarmonyRoot][1..] == [R.HarmonyRoot] && [R.HarmonyRoot][1..] == [];
    assert NonEmpty([S.VaultName, R.HarmonyRoot]) == [S.VaultName, R.HarmonyRoot];
    rest := NonEmpty(SplitOn(x, '/'));
  }

  /** Every ancestor of such a segment list lies outside the fixed roots: the first is the bare master root, the others are under `Operation Harmony`. */
  lemma HarmonyAncestorsOutside(rest: seq<string>, k: nat)
    requires 1 <= k <= 2 + |rest|
    ensures !S.Allowed(S.FixedRoots, S.Ancestor([S.VaultName, R.HarmonyRoot] + rest, k))
  {
    var parts := [S.VaultName, R.HarmonyRoot] + rest;
    if k == 1 {
      assert parts[..1] == [S.VaultName];
      assert S.Ancestor(parts, 1) == S.MasterRoot;
      assert forall q | q in S.FixedRoots :: |q| > |S.MasterRoot|;
    } else {
      var tail := parts[1..k];
      assert parts[..k] == [S.VaultName] + tail && tail == [R.HarmonyRoot] + rest[..k - 2];
      assert parts[..k][1..] == tail;
      var j := Join(tail, "/") + "/";
      var a := S.Ancestor(parts, k);
      assert a == S.VaultName + "/" + j;
      JoinedStartsWith(R.HarmonyRoot, rest[..k - 2]);
      assert StartsWith(a, R.HarmonyPrefix) by {
        assert j[..|R.HarmonyRoot| + 1] == R.HarmonyRoot + "/";
        assert a[..|R.HarmonyPrefix|] == R.HarmonyPrefix;
      }
      HarmonyOutsideFixedRoots(a);
    }
  }

  /** With the master root allowed, a path under `Operation Harmony` is kept (slashes normalised). */
  lemma HarmonyPathKept(p: string, allowed: seq<string>)
    requires StartsWith(p, R.HarmonyPrefix) && S.MasterRoot in allowed
    ensures S.Clamp(p, allowed) == S.NormalizeSlashes(p)
  {
    assert '\\' !in S.VaultName && '\\' !in R.HarmonyRoot;
    assert '\\' !in R.HarmonyPrefix;
    NormalizeKeepsPrefix(p, R.HarmonyPrefix);
    RootsAgree();
    R.RootPrefixes();
    StartsWithTrans(S.NormalizeSlashes(p), R.HarmonyPrefix, R.VaultPrefix);
  }

  /** With only the fixed roots, a path under `Operation Harmony` has no allowed ancestor and clamps to the master root. */
  lemma HarmonyPathCollapses(p: string)
    requires StartsWith(p, R.HarmonyPrefix)
    ensures S.Clamp(p, S.FixedRoots) == S.MasterRoot
  {
    assert '\\' !in S.VaultName && '\\' !in R.HarmonyRoot;
    assert '\\' !in R.HarmonyPrefix;
    NormalizeKeepsPrefix(p, R.HarmonyPrefix);
    var n := S.NormalizeSlashes(p);
    HarmonyOutsideFixedRoots(n);
    var rest := HarmonySegments(n);
    var parts := S.Segments(n);
    forall k | 1 <= k <= |parts| ensures !S.Allowed(S.FixedRoots, S.Ancestor(parts, k)) {
      HarmonyAncestorsOutside(rest, k);
    }
  }

  /**
   * Operation Harmony business paths sit under `Operation Harmony`, which no
   * fixed root covers: they survive the clamp (with slashes normalised) only
   * when the structure document puts `Command Vault/` in the set, and
   * collapse to the master root otherwise.
   */
  lemma HarmonyBusinessPathsNeedVaultRoot(input: R.RuleInput, date: string, txt: string)
    requires input.target == R.OperationHarmony && !R.IsSystemDocType(R.ComputePath(input, date).detected.docType)
    ensures var p := R.ComputePath(input, date).primaryPath;
      S.Clamp(p, S.AllowedPrefixes(txt)) == if S.MentionsVaultRoot(txt) then S.NormalizeSlashes(p) else S.MasterRoot
  {
    var p := R.ComputePath(input, date).primaryPath;
    S.AllowedPrefixesShape(txt);
    StartsWithTrans(p, R.BrandPrefix(input.brand), R.HarmonyPrefix);
    if S.MentionsVaultRoot(txt) {
      HarmonyPathKept(p, S.AllowedPrefixes(txt));
    } else {
      assert S.AllowedPrefixes(txt) == S.FixedRoots;
      HarmonyPathCollapses(p);
    }
  }
}
