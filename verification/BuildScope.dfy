/** The per-target variables a build renders under: what seeding writes, and how it is undone. */
module BuildScope {
  import opened Prelude
  import opened Text
  import opened Templates
  import opened TemplateScope
  import opened ArchiveName

  /** The per-target variables, in the order they are saved and restored. */
  const BUILD_TARGET_VARS: seq<string> := [
    TARGET, ABI, "Os", "Arch", "Arm64", "Arm", "Amd64", "Mips", "I386", "Ppc64", "Riscv64",
    "ArtifactExt", "ArtifactID"
  ]

  const BUILD_VARS: set<string> := SEEDED + {"ArtifactExt", "ArtifactID"}

  // ---------------------------------------------------------------- variant levels

  /** The variant variable of a target's architecture family, with the level it gets. */
  function Family(target: string, level: Option<string>): Option<(string, string)> {
    match SplitOn(target, '-')[0]
    case "aarch64" => Some(("Arm64", "v8"))
    case "x86_64" => Some(("Amd64", if level.Some? then level.value else AMD64_BASELINE))
    case "i686" => Some(("I386", "sse2"))
    case "i386" => Some(("I386", "sse2"))
    case "i586" => Some(("I386", "sse2"))
    case "powerpc64" => Some(("Ppc64", "power8"))
    case "powerpc64le" => Some(("Ppc64", "power8"))
    case "ppc64" => Some(("Ppc64", "power8"))
    case "ppc64le" => Some(("Ppc64", "power8"))
    case "riscv64" => Some(("Riscv64", "rva20u64"))
    case "riscv64gc" => Some(("Riscv64", "rva20u64"))
    case _ => None
  }

  lemma FamilyIsVariant(target: string, level: Option<string>)
    ensures Family(target, level).Some? ==> Family(target, level).value.0 in VARIANTS
  {
  }

  lemma VariantIsNotTarget(k: string)
    requires k in VARIANTS
    ensures k != TARGET && k != ABI
  {
  }

  /** Blank every variant, then set the family's own. */
  function SeedVariant(s: Scope, target: string, level: Option<string>): Scope {
    var t := ResetVariants(s);
    match Family(target, level) case None => t case Some((k, v)) => t.Set(k, v)
  }

  function FamilyVars(f: Option<(string, string)>): Vars {
    if f.Some? then map[f.value.0 := f.value.1] else map[]
  }

  function VariantVars(target: string, level: Option<string>): Vars {
    BLANK_VARIANTS + FamilyVars(Family(target, level))
  }

  lemma FamilyOverlay(s: Scope, t: Scope, m: Vars, f: Option<(string, string)>)
    requires t.vars == s.vars + m && t.env == s.env && (f.Some? ==> f.value.0 != TARGET)
    ensures var n := match f case None => t case Some((k, v)) => t.Set(k, v);
      n.vars == s.vars + (m + FamilyVars(f)) && n.env == s.env
  {
    if f.Some? {
      SetOverlay(s, t, m, f.value.0, f.value.1);
      assert m[f.value.0 := f.value.1] == m + FamilyVars(f);
    } else {
      assert m + map[] == m;
    }
  }

  /** Seeding the variants overlays one table, the same on any scope. */
  lemma VariantOverlay(s: Scope, target: string, level: Option<string>)
    ensures SeedVariant(s, target, level).vars == s.vars + VariantVars(target, level)
    ensures SeedVariant(s, target, level).env == s.env
  {
    ResetOverlay(s);
    FamilyIsVariant(target, level);
    var f := Family(target, level);
    if f.Some? { VariantIsNotTarget(f.value.0); }
    FamilyOverlay(s, ResetVariants(s), BLANK_VARIANTS, f);
  }

  lemma BlankAt(k: string)
    requires k in VARIANTS
    ensures k in BLANK_VARIANTS && BLANK_VARIANTS[k] == ""
  {
  }

  /**
   * What the seeded variants mean: the family's own variable holds its level, the
   * other six are blank whatever a previous target left, and nothing else moves.
   */
  lemma VariantAt(s: Scope, target: string, level: Option<string>, k: string)
    ensures var f := Family(target, level);
      SeedVariant(s, target, level).Get(k) ==
        if k !in VARIANTS then s.Get(k) else Some(if f.Some? && f.value.0 == k then f.value.1 else "")
  {
    VariantOverlay(s, target, level);
    FamilyIsVariant(target, level);
    BlankKeys();
    if k in VARIANTS { BlankAt(k); }
  }

  // ------------------------------------------------------------------- seeding

  function SeedBuildVars(s: Scope, target: string, p: Platform, id: string): Scope {
    SeedVariant(s.Set(TARGET, target).Set("Os", p.os).Set("Arch", p.arch), target, None)
      .Set("ArtifactExt", if p.os == "windows" then ".exe" else "")
      .Set("ArtifactID", id)
  }

  function LocationVars(target: string, p: Platform): Vars {
    map[TARGET := target, ABI := AbiFromTarget(target), "Os" := p.os, "Arch" := p.arch]
  }

  function ArtifactVars(p: Platform, id: string): Vars {
    map["ArtifactExt" := if p.os == "windows" then ".exe" else "", "ArtifactID" := id]
  }

  /** The table seeding overlays. */
  function BuildTable(target: string, p: Platform, id: string): Vars {
    LocationVars(target, p) + VariantVars(target, None) + ArtifactVars(p, id)
  }

  lemma LocationOverlay(s: Scope, target: string, p: Platform)
    ensures var t := s.Set(TARGET, target).Set("Os", p.os).Set("Arch", p.arch);
      t.vars == s.vars + LocationVars(target, p) && t.env == s.env
  {
    TargetOverlay(s, s, map[], target);
    var t, m: Vars := s.Set(TARGET, target), map[TARGET := target, ABI := AbiFromTarget(target)];
    SetOverlay(s, t, m, "Os", p.os);
    SetOverlay(s, t.Set("Os", p.os), m["Os" := p.os], "Arch", p.arch);
  }

  lemma ArtifactOverlay(s: Scope, p: Platform, id: string)
    ensures var t := s.Set("ArtifactExt", if p.os == "windows" then ".exe" else "").Set("ArtifactID", id);
      t.vars == s.vars + ArtifactVars(p, id) && t.env == s.env
  {
    var ext := if p.os == "windows" then ".exe" else "";
    SetOverlay(s, s, map[], "ArtifactExt", ext);
    SetOverlay(s, s.Set("ArtifactExt", ext), map["ArtifactExt" := ext], "ArtifactID", id);
  }

  /** Seeding a build's target overlays one table, the same on any scope. */
  lemma BuildOverlay(s: Scope, target: string, p: Platform, id: string)
    ensures SeedBuildVars(s, target, p, id).vars == s.vars + BuildTable(target, p, id)
    ensures SeedBuildVars(s, target, p, id).env == s.env
  {
    LocationOverlay(s, target, p);
    var t := s.Set(TARGET, target).Set("Os", p.os).Set("Arch", p.arch);
    VariantOverlay(t, target, None);
    ArtifactOverlay(SeedVariant(t, target, None), p, id);
    OverlayChain(s.vars, LocationVars(target, p), VariantVars(target, None), ArtifactVars(p, id));
  }

  method SeedBuildTargetVars(tv: TemplateVars, target: string, p: Platform, id: string)
    modifies tv
    ensures tv.Snapshot() == SeedBuildVars(old(tv.Snapshot()), target, p, id)
  {
    tv.Set(TARGET, target);
    tv.Set("Os", p.os);
    tv.Set("Arch", p.arch);
    SeedVariantVars(tv, target, None);
    tv.Set("ArtifactExt", if p.os == "windows" then ".exe" else "");
    tv.Set("ArtifactID", id);
  }

  method SeedVariantVars(tv: TemplateVars, target: string, level: Option<string>)
    modifies tv
    ensures tv.Snapshot() == SeedVariant(old(tv.Snapshot()), target, level)
  {
    ResetVariantVars(tv);
    match SplitOn(target, '-')[0] {
      case "aarch64" => tv.Set("Arm64", "v8");
      case "x86_64" => tv.Set("Amd64", if level.Some? then level.value else AMD64_BASELINE);
      case "i686" => tv.Set("I386", "sse2");
      case "i386" => tv.Set("I386", "sse2");
      case "i586" => tv.Set("I386", "sse2");
      case "powerpc64" => tv.Set("Ppc64", "power8");
      case "powerpc64le" => tv.Set("Ppc64", "power8");
      case "ppc64" => tv.Set("Ppc64", "power8");
      case "ppc64le" => tv.Set("Ppc64", "power8");
      case "riscv64" => tv.Set("Riscv64", "rva20u64");
      case "riscv64gc" => tv.Set("Riscv64", "rva20u64");
      case _ =>
    }
  }

  // ----------------------------------------------------------- staying within bounds

  /** A change that stays within the owned variables. */
  ghost predicate Owned(s: Scope, t: Scope, keys: set<string>) {
    && SameOutside(t, s, keys)
    && t.env == s.env
    && t.structured - keys == s.structured - keys
  }

  lemma SetOwned(s: Scope, t: Scope, keys: set<string>, k: string, v: string)
    requires Owned(s, t, keys) && k in keys && (k == TARGET ==> ABI in keys)
    ensures Owned(s, t.Set(k, v), keys)
  {
  }

  lemma ResetOwned(s: Scope, t: Scope, keys: set<string>)
    requires Owned(s, t, keys) && VARIANTS <= keys
    ensures Owned(s, ResetVariants(t), keys)
  {
    SetOwned(s, t, keys, "Arm", "");
    var t1 := t.Set("Arm", "");
    SetOwned(s, t1, keys, "Arm64", "");
    var t2 := t1.Set("Arm64", "");
    SetOwned(s, t2, keys, "Amd64", "");
    var t3 := t2.Set("Amd64", "");
    SetOwned(s, t3, keys, "Mips", "");
    var t4 := t3.Set("Mips", "");
    SetOwned(s, t4, keys, "I386", "");
    var t5 := t4.Set("I386", "");
    SetOwned(s, t5, keys, "Ppc64", "");
    SetOwned(s, t5.Set("Ppc64", ""), keys, "Riscv64", "");
  }

  lemma VariantOwned(s: Scope, t: Scope, keys: set<string>, target: string)
    requires Owned(s, t, keys) && VARIANTS <= keys
    ensures Owned(s, SeedVariant(t, target, None), keys)
  {
    ResetOwned(s, t, keys);
    FamilyIsVariant(target, None);
    var f := Family(target, None);
    if f.Some? {
      VariantIsNotTarget(f.value.0);
      SetOwned(s, ResetVariants(t), keys, f.value.0, f.value.1);
    }
  }

  lemma PlaceOwned(s: Scope, keys: set<string>, target: string, p: Platform)
    requires {TARGET, ABI, "Os", "Arch"} <= keys
    ensures Owned(s, s.Set(TARGET, target).Set("Os", p.os).Set("Arch", p.arch), keys)
  {
    SetOwned(s, s, keys, TARGET, target);
    var t := s.Set(TARGET, target);
    SetOwned(s, t, keys, "Os", p.os);
    SetOwned(s, t.Set("Os", p.os), keys, "Arch", p.arch);
  }

  lemma ArtifactOwned(s: Scope, t: Scope, keys: set<string>, ext: string, id: string)
    requires Owned(s, t, keys) && {"ArtifactExt", "ArtifactID"} <= keys
    ensures Owned(s, t.Set("ArtifactExt", ext).Set("ArtifactID", id), keys)
  {
    SetOwned(s, t, keys, "ArtifactExt", ext);
    SetOwned(s, t.Set("ArtifactExt", ext), keys, "ArtifactID", id);
  }

  /** Seeding changes only variables that are saved. */
  lemma SeedOwned(s: Scope, target: string, p: Platform, id: string)
    ensures Owned(s, SeedBuildVars(s, target, p, id), BUILD_VARS)
  {
    PlaceOwned(s, BUILD_VARS, target, p);
    var t := s.Set(TARGET, target).Set("Os", p.os).Set("Arch", p.arch);
    VariantOwned(s, t, BUILD_VARS, target);
    ArtifactOwned(s, SeedVariant(t, target, None), BUILD_VARS, if p.os == "windows" then ".exe" else "", id);
  }

  /** Restoring what was saved undoes any change confined to the saved variables. */
  lemma RestoreOwned(s: Scope, t: Scope, saved: Saved)
    requires SavedFrom(saved, s) && AbiAfterTarget(saved) && Owned(s, t, Keys(saved))
    ensures var r := Restore(t, saved);
      r.vars == s.vars && r.env == s.env && r.structured == s.structured - Keys(saved)
  {
    RestoreExact(s, t, saved);
    SameVars(Restore(t, saved), s);
  }

  /** Saving and restoring the per-target variables around any change confined to them. */
  lemma RestoreBuildVars(s: Scope, t: Scope)
    requires Owned(s, t, BUILD_VARS)
    ensures var r := Restore(t, Save(s, BUILD_TARGET_VARS));
      r.vars == s.vars && r.env == s.env && r.structured == s.structured - BUILD_VARS
  {
    SavedBuildKeys(s);
    SavedBuildOrder(s);
    RestoreOwned(s, t, Save(s, BUILD_TARGET_VARS));
  }

  lemma SavedBuildOrder(s: Scope)
    ensures SavedFrom(Save(s, BUILD_TARGET_VARS), s) && AbiAfterTarget(Save(s, BUILD_TARGET_VARS))
  {
    var saved := Save(s, BUILD_TARGET_VARS);
    assert saved[1..][0] == saved[1] && saved[1] in saved[1..];
    TargetComesFirst();
    assert forall i :: 0 <= i < |saved| ==> saved[i].0 == BUILD_TARGET_VARS[i];
  }

  lemma TargetComesFirst()
    ensures forall i :: 0 < i < |BUILD_TARGET_VARS| ==> BUILD_TARGET_VARS[i] != TARGET
  {
  }

  lemma SavedBuildKeys(s: Scope)
    ensures Keys(Save(s, BUILD_TARGET_VARS)) == BUILD_VARS
  {
    var saved, ks := Save(s, BUILD_TARGET_VARS), BUILD_TARGET_VARS;
    forall k | k in Keys(saved) ensures k in BUILD_VARS {
      var p :| p in saved && p.0 == k;
      var i :| 0 <= i < |saved| && saved[i] == p;
      assert k == ks[i];
    }
    forall k | k in BUILD_VARS ensures k in Keys(saved) {
      var i := if k == TARGET then 0 else if k == ABI then 1 else if k == "Os" then 2 else if k == "Arch" then 3
        else if k == "Arm64" then 4 else if k == "Arm" then 5 else if k == "Amd64" then 6 else if k == "Mips" then 7
        else if k == "I386" then 8 else if k == "Ppc64" then 9 else if k == "Riscv64" then 10
        else if k == "ArtifactExt" then 11 else 12;
      assert ks[i] == k && saved[i] in saved && saved[i].0 == k;
    }
  }

  /** So the whole store is untouched exactly when no structured variable has a seeded name. */
  lemma UntouchedExactly(before: Scope, after: Scope)
    requires after.vars == before.vars && after.env == before.env
    requires after.structured == before.structured - BUILD_VARS
    ensures after == before <==> before.structured.Keys !! BUILD_VARS
  {
    if after == before {
      assert before.structured.Keys == (before.structured - BUILD_VARS).Keys;
    }
  }
}
