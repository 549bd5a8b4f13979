/** The scope the archive stage itself names an asset under, against the scope the derivation uses. */
module ArchiveStage {
  import opened Prelude
  import opened Templates
  import opened TemplateScope
  import opened ArchiveName

  const CRATE_NAME := "CrateName"

  /** The group's level, else the architecture's default. */
  function LevelOr(arch: string, level: Option<string>): string {
    if level.Some? then level.value else if arch == "amd64" then AMD64_BASELINE else ""
  }

  /** What the archive stage seeds: the target, the level, the crate and the binary. */
  function ArchiveScope(s: Scope, target: string, p: Platform, krate: string, binary: string, level: Option<string>): Scope {
    SeedTarget(s, target, p).Set("Amd64", LevelOr(p.arch, level)).Set(CRATE_NAME, krate).Set("Binary", binary)
  }

  method SeedAmd64VariantVar(tv: TemplateVars, arch: string, level: Option<string>)
    modifies tv
    ensures tv.Snapshot() == old(tv.Snapshot()).Set("Amd64", LevelOr(arch, level))
  {
    var value := match level
      case Some(v) => v
      case None => if arch == "amd64" then AMD64_BASELINE else "";
    tv.Set("Amd64", value);
  }

  method SeedArchiveNameVars(tv: TemplateVars, target: string, p: Platform, krate: string, binary: string, level: Option<string>)
    modifies tv
    ensures tv.Snapshot() == ArchiveScope(old(tv.Snapshot()), target, p, krate, binary, level)
  {
    SeedTargetVars(tv, target, p);
    SeedAmd64VariantVar(tv, p.arch, level);
    tv.Set(CRATE_NAME, krate);
    tv.Set("Binary", binary);
  }

  // ------------------------------------------------------------ one table, one difference

  function GroupVars(arch: string, krate: string, binary: string, level: Option<string>): Vars {
    map["Amd64" := LevelOr(arch, level), CRATE_NAME := krate, "Binary" := binary]
  }

  /** The table the archive stage overlays. */
  function ArchiveVars(target: string, p: Platform, krate: string, binary: string, level: Option<string>): Vars {
    TargetVars(target, p) + GroupVars(p.arch, krate, binary, level)
  }

  lemma SetThree(s: Scope, t: Scope, m: Vars, j: string, u: string, k: string, v: string, l: string, w: string)
    requires t.vars == s.vars + m && t.env == s.env && j != TARGET && k != TARGET && l != TARGET
    ensures var n := t.Set(j, u).Set(k, v).Set(l, w);
      n.vars == s.vars + (m + map[j := u, k := v, l := w]) && n.env == s.env
  {
    SetOverlay(s, t, m, j, u);
    SetOverlay(s, t.Set(j, u), m[j := u], k, v);
    SetOverlay(s, t.Set(j, u).Set(k, v), m[j := u][k := v], l, w);
    ThreeUpdates(m, j, u, k, v, l, w);
  }

  lemma ThreeUpdates(m: Vars, j: string, u: string, k: string, v: string, l: string, w: string)
    ensures m + map[j := u, k := v, l := w] == m[j := u][k := v][l := w]
  {
  }

  lemma ArchiveOverlay(s: Scope, target: string, p: Platform, krate: string, binary: string, level: Option<string>)
    ensures ArchiveScope(s, target, p, krate, binary, level).vars == s.vars + ArchiveVars(target, p, krate, binary, level)
    ensures ArchiveScope(s, target, p, krate, binary, level).env == s.env
  {
    SeedOverlay(s, target, p);
    SetThree(s, SeedTarget(s, target, p), TargetVars(target, p), "Amd64", LevelOr(p.arch, level), CRATE_NAME, krate, "Binary", binary);
  }

  lemma SeededLevel(target: string, p: Platform)
    ensures "Amd64" in TargetVars(target, p) && TargetVars(target, p)["Amd64"] == LevelOr(p.arch, None)
  {
    assert "armv" <= p.arch ==> p.arch[1] == 'r';
    assert "amd64"[1] == 'm';
    assert BLANK_VARIANTS["Amd64"] == "";
  }

  lemma CrateNameIsNotSeeded()
    ensures CRATE_NAME !in SEEDED
  {
    assert |CRATE_NAME| == 9 && |"Os"| == 2 && |TARGET| == 6 && |ABI| == 3 && |"Arch"| == 4;
    assert forall k :: k in VARIANTS ==> |k| <= 7;
  }

  lemma BinaryIsNotSeeded()
    ensures "Binary" !in SEEDED
  {
    assert "Binary"[0] == 'B' && "Os"[0] == 'O' && TARGET[0] == 'T' && ABI[0] == 'A' && "Arch"[0] == 'A';
    assert forall k :: k in VARIANTS ==> k != "" && k[0] != 'B';
  }

  lemma CrateNameIsFree(target: string, p: Platform)
    ensures CRATE_NAME !in TargetVars(target, p) && "Binary" !in TargetVars(target, p)
  {
    SeededKeys(target, p);
    CrateNameIsNotSeeded();
    BinaryIsNotSeeded();
  }

  /** The archive stage's table is the derivation's table with the crate's name added. */
  lemma ArchiveIsNaming(target: string, p: Platform, krate: string, binary: string, level: Option<string>)
    ensures ArchiveVars(target, p, krate, binary, level) == NamingVars(target, p, binary, level)[CRATE_NAME := krate]
  {
    SeededLevel(target, p);
    CrateNameIsFree(target, p);
    OneTable(TargetVars(target, p), p.arch, krate, binary, level);
  }

  lemma OneTable(t: Vars, arch: string, krate: string, binary: string, level: Option<string>)
    requires "Amd64" in t && t["Amd64"] == LevelOr(arch, None) && CRATE_NAME !in t && "Binary" !in t
    ensures t + GroupVars(arch, krate, binary, level)
         == (map["Binary" := binary] + t + LevelVars(level))[CRATE_NAME := krate]
  {
    var a, b := t + GroupVars(arch, krate, binary, level), (map["Binary" := binary] + t + LevelVars(level))[CRATE_NAME := krate];
    assert CRATE_NAME[0] == 'C' && "Amd64"[0] == 'A' && "Binary"[0] == 'B';
    forall k ensures (k in a <==> k in b) && (k in a ==> a[k] == b[k]) {
      assert k == "Amd64" || k == CRATE_NAME || k == "Binary" || (k !in GroupVars(arch, krate, binary, level) && k !in LevelVars(level));
    }
  }

  /** So the two scopes agree on every variable but `CrateName`. */
  lemma ScopesAgree(s: Scope, target: string, p: Platform, krate: string, binary: string, level: Option<string>)
    ensures ArchiveScope(s, target, p, krate, binary, level).vars
         == NameScope(s, target, p, binary, level).vars[CRATE_NAME := krate]
  {
    ArchiveOverlay(s, target, p, krate, binary, level);
    NameScopeOverlay(s, target, p, binary, level);
    ArchiveIsNaming(target, p, krate, binary, level);
    MoveUpdate(s.vars, NamingVars(target, p, binary, level), krate);
  }

  lemma MoveUpdate(vars: Vars, m: Vars, krate: string)
    ensures vars + m[CRATE_NAME := krate] == (vars + m)[CRATE_NAME := krate]
  {
  }

  // ------------------------------------------------------------------ which names agree

  /** A deriving scope's variables as the archive stage has them. */
  function Archived(vars: Vars, krate: string): Vars {
    vars[CRATE_NAME := krate]
  }

  lemma RenderCrateName(vars: Vars)
    ensures Render([Ref(CRATE_NAME)], vars) == if CRATE_NAME in vars then Ok(vars[CRATE_NAME]) else Err
  {
    assert [Ref(CRATE_NAME)][1..] == [];
    if CRATE_NAME in vars { assert vars[CRATE_NAME] + "" == vars[CRATE_NAME]; }
  }

  /**
   * Every template names an asset alike in the derivation and in the archive
   * stage if and only if the deriving scope's `CrateName` is the crate.
   */
  lemma NamesAlikeExactly(vars: Vars, krate: string)
    ensures (forall ps :: Render(ps, vars) == Render(ps, Archived(vars, krate)))
       <==> CRATE_NAME in vars && vars[CRATE_NAME] == krate
  {
    if CRATE_NAME in vars && vars[CRATE_NAME] == krate {
      assert Archived(vars, krate) == vars;
    } else {
      RenderCrateName(vars);
      RenderCrateName(Archived(vars, krate));
      assert Render([Ref(CRATE_NAME)], vars) != Render([Ref(CRATE_NAME)], Archived(vars, krate));
    }
  }

  lemma NameScopeKeepsCrate(s: Scope, target: string, p: Platform, binary: string, level: Option<string>)
    ensures NameScope(s, target, p, binary, level).Get(CRATE_NAME) == s.Get(CRATE_NAME)
  {
    NameScopeKeeps(s, target, p, binary, level);
    CrateNameIsNotSeeded();
    assert |CRATE_NAME| != |"Binary"|;
  }

  /** The same of the two stages' scopes, seeded from any caller's. */
  lemma StagesAlikeExactly(s: Scope, target: string, p: Platform, krate: string, binary: string, level: Option<string>, derived: Vars, produced: Vars)
    requires derived == NameScope(s, target, p, binary, level).vars
    requires produced == ArchiveScope(s, target, p, krate, binary, level).vars
    ensures (forall ps :: Render(ps, derived) == Render(ps, produced)) <==> s.Get(CRATE_NAME) == Some(krate)
  {
    ScopesAgree(s, target, p, krate, binary, level);
    NameScopeKeepsCrate(s, target, p, binary, level);
    NamesAlikeExactly(derived, krate);
  }

  /** A deriving scope without the crate's name fails on, or misnames, a template the archive stage renders. */
  lemma CrateNameTemplateDiffers(vars: Vars, krate: string)
    requires CRATE_NAME in vars ==> vars[CRATE_NAME] != krate
    ensures Render([Ref(CRATE_NAME)], Archived(vars, krate)) == Ok(krate)
    ensures Render([Ref(CRATE_NAME)], vars) != Ok(krate)
  {
    RenderCrateName(vars);
    RenderCrateName(Archived(vars, krate));
  }

  /**
   * A template names alike in every deriving scope and for every crate if and
   * only if it does not depend on `CrateName`; `fixed` are the variables the
   * target, the binary and the level settle.
   */
  lemma TemplateAlikeExactly(ps: Template, fixed: Vars)
    requires CRATE_NAME !in fixed
    ensures (forall vars, krate :: Extends(vars, fixed) ==> Render(ps, vars) == Render(ps, Archived(vars, krate)))
       <==> !Depends(ps, fixed, {CRATE_NAME})
  {
    var keys := {CRATE_NAME};
    if Depends(ps, fixed, keys) {
      var full := Full(ps, fixed);
      BlankingShows(ps, fixed, keys, full);
      assert Blanked(full, keys) == Archived(full, "");
      assert Extends(full, fixed) && Render(ps, full) != Render(ps, Archived(full, ""));
    } else {
      forall vars, krate | Extends(vars, fixed) ensures Render(ps, vars) == Render(ps, Archived(vars, krate)) {
        IndependentRenders(ps, fixed, keys, vars, Archived(vars, krate));
      }
    }
  }
}
