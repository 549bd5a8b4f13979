/** The binary's name as the build stage renders it, against the name the derivation binds. */
module BuilderNames {
  import opened Prelude
  import opened Text
  import opened Templates
  import opened OneVariable
  import opened TemplateScope
  import opened ArchiveName
  import opened BuildScope
  import opened DeferredVersion
  import opened ReleaseSpelling
  import opened InstallUrl

  /** The variables on which the build stage's scope and the derivation's may differ. */
  const BUILDERS: set<string> := VARIANTS + {"Arch", "ArtifactExt", "ArtifactID"}

  function ExeSuffix(p: Platform): string {
    if p.os == "windows" then ".exe" else ""
  }

  // ----------------------------------------------------------- what each table holds

  /** A variant variable in the build stage: the family's own level, else blank. */
  function BuilderVariant(target: string, k: string): string {
    var f := Family(target, None);
    if f.Some? && f.value.0 == k then f.value.1 else ""
  }

  /** A variant variable in the derivation: the ARM version, the amd64 baseline, else blank. */
  function NamingVariant(arch: string, k: string): string {
    if k == "Arm" && "armv" <= arch then arch[4..]
    else if k == "Amd64" && arch == "amd64" then AMD64_BASELINE
    else ""
  }

  lemma OverlayLook(a: Vars, b: Vars, k: string)
    ensures Look(a + b, k) == if k in b then Look(b, k) else Look(a, k)
  {
  }

  lemma BuildLook(target: string, p: Platform, id: string, k: string)
    ensures Look(BuildTable(target, p, id), k) ==
      if k in ArtifactVars(p, id) then Look(ArtifactVars(p, id), k)
      else if k in FamilyVars(Family(target, None)) then Look(FamilyVars(Family(target, None)), k)
      else if k in BLANK_VARIANTS then Look(BLANK_VARIANTS, k)
      else Look(LocationVars(target, p), k)
  {
    OverlayLook(LocationVars(target, p) + VariantVars(target, None), ArtifactVars(p, id), k);
    OverlayLook(LocationVars(target, p), VariantVars(target, None), k);
    OverlayLook(BLANK_VARIANTS, FamilyVars(Family(target, None)), k);
  }

  lemma TargetLook(target: string, p: Platform, k: string)
    ensures Look(TargetVars(target, p), k) ==
      if k in ArchVars(p.arch) then Look(ArchVars(p.arch), k)
      else if k in BLANK_VARIANTS then Look(BLANK_VARIANTS, k)
      else Look(PlaceVars(target, p.os), k)
  {
    OverlayLook(PlaceVars(target, p.os) + BLANK_VARIANTS, ArchVars(p.arch), k);
    OverlayLook(PlaceVars(target, p.os), BLANK_VARIANTS, k);
  }

  lemma VariantIsNoArtifact(k: string)
    requires k in VARIANTS
    ensures k != "ArtifactExt" && k != "ArtifactID" && k != "Arch"
  {
    assert |"ArtifactExt"| == 11 && |"ArtifactID"| == 10 && |k| <= 7;
    assert |"Arch"| == 4 && "Arch"[0] == 'A' && (|k| == 4 ==> k[0] != 'A');
  }

  lemma ArchLook(arch: string, k: string)
    requires k in VARIANTS
    ensures Look(ArchVars(arch), k) == if k == "Arm" && "armv" <= arch then Some(arch[4..])
                                       else if k == "Amd64" && arch == "amd64" then Some(AMD64_BASELINE) else None
  {
    VariantIsNoArtifact(k);
    assert "armv" <= arch ==> arch[1] == 'r';
    assert "amd64"[1] == 'm';
  }

  /** The per-variable law of the seven variants. */
  lemma VariantTables(target: string, p: Platform, id: string, k: string)
    requires k in VARIANTS
    ensures Look(BuildTable(target, p, id), k) == Some(BuilderVariant(target, k))
    ensures Look(TargetVars(target, p), k) == Some(NamingVariant(p.arch, k))
  {
    BlankKeys();
    BlankAt(k);
    VariantIsNoArtifact(k);
    BuildLook(target, p, id, k);
    TargetLook(target, p, k);
    ArchLook(p.arch, k);
  }

  lemma ArchIsNoVariant()
    ensures "Arch" !in VARIANTS && "ArtifactExt" !in VARIANTS && "ArtifactID" !in VARIANTS
    ensures "Arch" != "ArtifactExt" && "Arch" != "ArtifactID" && "ArtifactExt" != "ArtifactID"
  {
    assert |"Arch"| == 4 && |"ArtifactExt"| == 11 && |"ArtifactID"| == 10;
    if "Arch" in VARIANTS { VariantIsNoArtifact("Arch"); assert false; }
    if "ArtifactExt" in VARIANTS { VariantIsNoArtifact("ArtifactExt"); assert false; }
    if "ArtifactID" in VARIANTS { VariantIsNoArtifact("ArtifactID"); assert false; }
  }

  /** `Arch`: whole in the build stage, `arm` for every 32-bit ARM in the derivation. */
  lemma ArchTables(target: string, p: Platform, id: string)
    ensures Look(BuildTable(target, p, id), "Arch") == Some(p.arch)
    ensures Look(TargetVars(target, p), "Arch") == Some(if "armv" <= p.arch then "arm" else p.arch)
  {
    BlankKeys();
    ArchIsNoVariant();
    FamilyIsVariant(target, None);
    BuildLook(target, p, id, "Arch");
    TargetLook(target, p, "Arch");
    assert |"Arch"| != |"Arm"|;
  }

  /** The artifact variables: seeded by the build stage, the caller's own in the derivation. */
  lemma ArtifactTables(target: string, p: Platform, id: string, k: string)
    requires k == "ArtifactExt" || k == "ArtifactID"
    ensures Look(BuildTable(target, p, id), k) == Some(if k == "ArtifactExt" then ExeSuffix(p) else id)
    ensures Look(TargetVars(target, p), k) == None
  {
    BlankKeys();
    ArchIsNoVariant();
    BuildLook(target, p, id, k);
    TargetLook(target, p, k);
    ArtifactIsNoPlace(k);
    assert k !in ArchVars(p.arch) by {
      assert ArchVars(p.arch).Keys <= {"Arch"} + VARIANTS;
    }
  }

  lemma ArtifactIsNoPlace(k: string)
    requires k == "ArtifactExt" || k == "ArtifactID"
    ensures k != "Os" && k != TARGET && k != ABI && k != "Arch" && k !in STAMPED
  {
    assert |k| == 11 || |k| == 10;
    assert |"Os"| == 2 && |TARGET| == 6 && |ABI| == 3 && |"Arch"| == 4 && |"Version"| == 7 && |"Tag"| == 3;
    assert k[0] == 'A' && "RawVersion"[0] == 'R';
  }

  // -------------------------------------------------------------- where they agree

  /** What a caller can check of one variable: its values in the two stages are the same. */
  predicate SameForBuilder(vars: Vars, target: string, p: Platform, id: string, k: string) {
    if k in VARIANTS then BuilderVariant(target, k) == NamingVariant(p.arch, k)
    else if k == "Arch" then !("armv" <= p.arch)
    else if k == "ArtifactExt" then Look(vars, k) == Some(ExeSuffix(p))
    else if k == "ArtifactID" then Look(vars, k) == Some(id)
    else true
  }

  /** The build stage's scope of a release, and the derivation's for version `v`. */
  function BuilderScope(release: Vars, target: string, p: Platform, id: string): Vars {
    release + BuildTable(target, p, id)
  }

  function DerivingScope(vars: Vars, v: string, target: string, p: Platform): Vars {
    Stamp(vars, v) + TargetVars(target, p)
  }

  lemma ArmIsShorter(arch: string)
    requires "armv" <= arch
    ensures arch != "arm"
  {
  }

  /** A variable of the build stage's own is the same in the two scopes exactly as the law says. */
  lemma ScopesAgreeExactly(vars: Vars, release: Vars, v: string, target: string, p: Platform, id: string, k: string)
    requires k in BUILDERS
    ensures k in BuilderScope(release, target, p, id)
    ensures Look(BuilderScope(release, target, p, id), k) == Look(DerivingScope(vars, v, target, p), k) <==>
      SameForBuilder(vars, target, p, id, k)
  {
    OverlayLook(release, BuildTable(target, p, id), k);
    OverlayLook(Stamp(vars, v), TargetVars(target, p), k);
    ArchIsNoVariant();
    if k in VARIANTS {
      VariantTables(target, p, id, k);
    } else if k == "Arch" {
      ArchTables(target, p, id);
      if "armv" <= p.arch { ArmIsShorter(p.arch); }
    } else {
      ArtifactTables(target, p, id, k);
      ArtifactIsNoPlace(k);
      StampAt(vars, v, k);
    }
  }

  lemma PlaceLook(target: string, p: Platform, k: string)
    requires k != "Arch"
    ensures Look(PlaceVars(target, p.os), k) == Look(LocationVars(target, p), k)
  {
    assert |"Os"| == 2 && |TARGET| == 6 && |ABI| == 3;
  }

  /** A place variable is seeded alike; any other variable that is no build variable is seeded by neither stage. */
  lemma SharedTables(target: string, p: Platform, id: string, k: string)
    requires k !in BUILDERS
    ensures Look(BuildTable(target, p, id), k) == Look(TargetVars(target, p), k)
  {
    BlankKeys();
    FamilyIsVariant(target, None);
    BuildLook(target, p, id, k);
    TargetLook(target, p, k);
    PlaceLook(target, p, k);
    assert ArchVars(p.arch).Keys <= {"Arch"} + VARIANTS;
  }

  lemma FaithfulLook(bt: Template, vars: Vars, release: Vars, v: string, own: set<string>, k: string)
    requires Faithful(bt, vars, release, v, own) && k in Reads(bt) && k !in own
    ensures Look(release, k) == Look(Stamp(vars, v), k)
  {
    StampAt(vars, v, k);
    StampAt(release, v, k);
    assert k in STAMPED ==> SpelledAsStamped(release, v, k);
  }

  lemma UnseededIsNotBuild(target: string, p: Platform, k: string)
    requires k !in BUILDERS && k !in TargetVars(target, p)
    ensures k !in BUILD_VARS
  {
    SeededKeys(target, p);
  }

  /** Every other variable a faithful release settles, or both stages seed alike. */
  lemma OthersAgree(bt: Template, vars: Vars, release: Vars, v: string, target: string, p: Platform, id: string, k: string)
    requires Faithful(bt, vars, release, v, BUILD_VARS) && k in Reads(bt) && k !in BUILDERS
    ensures Look(BuilderScope(release, target, p, id), k) == Look(DerivingScope(vars, v, target, p), k)
  {
    SharedTables(target, p, id, k);
    OverlayLook(release, BuildTable(target, p, id), k);
    OverlayLook(Stamp(vars, v), TargetVars(target, p), k);
    if k !in TargetVars(target, p) {
      UnseededIsNotBuild(target, p, k);
      FaithfulLook(bt, vars, release, v, BUILD_VARS, k);
    }
  }

  /** A `binary:` all of whose variables are the same in the two stages gets one name from both. */
  lemma BuilderNamesAlike(bt: Template, vars: Vars, release: Vars, v: string, target: string, p: Platform, id: string)
    requires Faithful(bt, vars, release, v, BUILD_VARS)
    requires forall k :: k in Reads(bt) * BUILDERS ==> SameForBuilder(vars, target, p, id, k)
    ensures Render(bt, BuilderScope(release, target, p, id)) == Render(bt, DerivingScope(vars, v, target, p))
  {
    var a, b := BuilderScope(release, target, p, id), DerivingScope(vars, v, target, p);
    forall k | k in Reads(bt) ensures (k in a <==> k in b) && (k in a ==> a[k] == b[k]) {
      if k in BUILDERS {
        assert k in Reads(bt) * BUILDERS;
        ScopesAgreeExactly(vars, release, v, target, p, id, k);
      } else {
        OthersAgree(bt, vars, release, v, target, p, id, k);
      }
      assert Look(a, k) == Look(b, k);
    }
    RenderReads(bt, a, b);
  }

  /**
   * A `binary:` that names one of the differing variables, not in a condition,
   * gets one name from both stages if and only if that variable is the same in
   * the two, or nothing of it is rendered.
   */
  lemma BuilderNamesExactly(bt: Template, vars: Vars, release: Vars, v: string, target: string, p: Platform, id: string, k: string)
    requires Faithful(bt, vars, release, v, BUILD_VARS)
    requires k in BUILDERS && Reads(bt) * BUILDERS <= {k} && NoClauseOn(bt, k)
    requires Render(bt, BuilderScope(release, target, p, id)).Ok?
    ensures k in BuilderScope(release, target, p, id)
    ensures Render(bt, BuilderScope(release, target, p, id)) == Render(bt, DerivingScope(vars, v, target, p)) <==>
      SameForBuilder(vars, target, p, id, k) || !Shows(bt, BuilderScope(release, target, p, id), k)
  {
    var a, b := BuilderScope(release, target, p, id), DerivingScope(vars, v, target, p);
    ScopesAgreeExactly(vars, release, v, target, p, id, k);
    forall n | n in Reads(bt) - {k} ensures (n in a <==> n in b) && (n in a ==> a[n] == b[n]) {
      assert n in BUILDERS ==> n in Reads(bt) * BUILDERS;
      OthersAgree(bt, vars, release, v, target, p, id, n);
      assert Look(a, n) == Look(b, n);
    }
    OneVariableExactly(bt, a, b, k);
  }

  /** Then the binary the build stage packs is the derivation's, with the release's version in the holes. */
  lemma BuilderBinary(bt: Template, vars: Vars, release: Vars, v: string, target: string, p: Platform, id: string, hv: Holes)
    requires Faithful(bt, vars, release, v, BUILD_VARS)
    requires forall k :: k in Reads(bt) * BUILDERS ==> SameForBuilder(vars, target, p, id, k)
    requires hv == BinaryHoles(vars, TargetVars(target, p)) && Runs(bt, hv, SENTINEL).Ok? && Steady(bt, hv, SENTINEL, v)
    ensures Render(bt, BuilderScope(release, target, p, id)) == Ok(Join(Runs(bt, hv, SENTINEL).value, v))
  {
    BuilderNamesAlike(bt, vars, release, v, target, p, id);
    FillBinaryHoles(vars, TargetVars(target, p), v);
    RunsAgree(bt, hv, SENTINEL, v);
    RenderIsJoin(bt, hv, v);
  }

  // ------------------------------------------------------------- where they do not

  /** `Arch` and `Arm` differ on every 32-bit ARM target. */
  lemma ArmDiffers(vars: Vars, target: string, p: Platform, id: string)
    requires "armv" <= p.arch && p.arch != "armv"
    ensures !SameForBuilder(vars, target, p, id, "Arch") && !SameForBuilder(vars, target, p, id, "Arm")
  {
    ArchIsNoVariant();
    assert p.arch[4..] != "";
    ArmIsNoFamily(target);
  }

  lemma ArmIsNoFamily(target: string)
    ensures BuilderVariant(target, "Arm") == ""
  {
    assert |"Arm"| == 3 && |"Arm64"| == 5 && |"Amd64"| == 5 && |"I386"| == 4 && |"Ppc64"| == 5 && |"Riscv64"| == 7;
  }

  /** The variable of every family but x86-64 differs on that family's targets: a level against a blank. */
  lemma FamilyDiffers(vars: Vars, target: string, p: Platform, id: string, k: string, level: string)
    requires Family(target, None) == Some((k, level)) && k != "Amd64"
    ensures !SameForBuilder(vars, target, p, id, k)
  {
    FamilyIsVariant(target, None);
    ArmIsNoFamily(target);
    FamilyHasLevel(target);
  }

  lemma FamilyHasLevel(target: string)
    ensures Family(target, None).Some? ==> Family(target, None).value.1 != ""
  {
  }

  /** For example `Arm64` on aarch64, `I386` on i686, `Ppc64` on powerpc64le, `Riscv64` on riscv64gc. */
  lemma FamiliesWithALevel(target: string)
    ensures SplitOn(target, '-')[0] == "aarch64" ==> Family(target, None) == Some(("Arm64", "v8"))
    ensures SplitOn(target, '-')[0] == "i686" ==> Family(target, None) == Some(("I386", "sse2"))
    ensures SplitOn(target, '-')[0] == "powerpc64le" ==> Family(target, None) == Some(("Ppc64", "power8"))
    ensures SplitOn(target, '-')[0] == "riscv64gc" ==> Family(target, None) == Some(("Riscv64", "rva20u64"))
  {
  }

  /** `Amd64` is the same wherever the triple and the architecture token agree on being x86-64. */
  lemma Amd64Agrees(vars: Vars, target: string, p: Platform, id: string)
    ensures SameForBuilder(vars, target, p, id, "Amd64") <==> (SplitOn(target, '-')[0] == "x86_64" <==> p.arch == "amd64")
  {
    Amd64Family(target);
  }

  lemma Amd64Family(target: string)
    ensures BuilderVariant(target, "Amd64") == if SplitOn(target, '-')[0] == "x86_64" then AMD64_BASELINE else ""
    ensures "Amd64" in VARIANTS && "Amd64" != "Arm"
  {
    assert "Amd64"[1] == 'm' && "Arm64"[1] == 'r' && |"I386"| == 4 && "Ppc64"[0] == 'P' && |"Riscv64"| == 7 && |"Arm"| == 3;
  }
}
