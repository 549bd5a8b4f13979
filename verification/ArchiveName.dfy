/** The per-target naming scope an archive's name template renders under. */
module ArchiveName {
  import opened Prelude
  import opened Text
  import opened TemplateScope

  const AMD64_BASELINE := "v1"

  /** A target triple mapped to its (OS, architecture) naming tokens. */
  datatype Platform = Platform(os: string, arch: string)

  const VARIANTS: set<string> := {"Arm", "Arm64", "Amd64", "Mips", "I386", "Ppc64", "Riscv64"}

  /** The variables seeding writes. */
  const SEEDED: set<string> := {"Os", TARGET, ABI, "Arch"} + VARIANTS

  function ResetVariants(s: Scope): Scope {
    s.Set("Arm", "").Set("Arm64", "").Set("Amd64", "").Set("Mips", "")
     .Set("I386", "").Set("Ppc64", "").Set("Riscv64", "")
  }

  /** `armv7` becomes `Arch = arm`, `Arm = 7`; every other architecture stays whole in `Arch`. */
  function SeedArch(s: Scope, arch: string): Scope {
    if "armv" <= arch then s.Set("Arch", "arm").Set("Arm", arch[4..])
    else (if arch == "amd64" then s.Set("Amd64", AMD64_BASELINE) else s).Set("Arch", arch)
  }

  function SeedTarget(s: Scope, target: string, p: Platform): Scope {
    SeedArch(ResetVariants(s.Set("Os", p.os).Set(TARGET, target)), p.arch)
  }

  /** The whole naming scope: target variables, the binary, and the group's CPU level. */
  function NameScope(s: Scope, target: string, p: Platform, binary: string, level: Option<string>): Scope {
    var t := SeedTarget(s.Set("Binary", binary), target, p);
    if level.Some? then t.Set("Amd64", level.value) else t
  }

  /** Variables other than `keys` have the same value, or are absent, in both scopes. */
  ghost predicate SameOutside(a: Scope, b: Scope, keys: set<string>) {
    forall k :: k !in keys ==> a.Get(k) == b.Get(k)
  }

  lemma SameVars(a: Scope, b: Scope)
    requires forall k :: a.Get(k) == b.Get(k)
    ensures a.vars == b.vars
  {
    assert forall k :: k in a.vars <==> a.Get(k).Some?;
    assert forall k :: k in b.vars <==> b.Get(k).Some?;
    assert forall k :: k in a.vars ==> a.vars[k] == a.Get(k).value == b.vars[k];
  }

  // ------------------------------------------------------------ what seeding writes

  const BLANK_VARIANTS: map<string, string> :=
    map["Arm" := "", "Arm64" := "", "Amd64" := "", "Mips" := "", "I386" := "", "Ppc64" := "", "Riscv64" := ""]

  function ArchVars(arch: string): map<string, string> {
    if "armv" <= arch then map["Arch" := "arm", "Arm" := arch[4..]]
    else if arch == "amd64" then map["Amd64" := AMD64_BASELINE, "Arch" := arch]
    else map["Arch" := arch]
  }

  function TargetVars(target: string, p: Platform): map<string, string> {
    PlaceVars(target, p.os) + BLANK_VARIANTS + ArchVars(p.arch)
  }

  function NamingVars(target: string, p: Platform, binary: string, level: Option<string>): map<string, string> {
    map["Binary" := binary] + TargetVars(target, p) + LevelVars(level)
  }

  /** Three overlays in a row are one overlay of their union. */
  lemma OverlayChain(s: map<string, string>, a: map<string, string>, b: map<string, string>, c: map<string, string>)
    ensures ((s + a) + b) + c == s + (a + b + c)
  {
  }

  lemma SetOverlay(s: Scope, t: Scope, m: map<string, string>, k: string, v: string)
    requires t.vars == s.vars + m && t.env == s.env && k != TARGET
    ensures t.Set(k, v).vars == s.vars + m[k := v] && t.Set(k, v).env == s.env
  {
  }

  lemma ResetOverlay(s: Scope)
    ensures ResetVariants(s).vars == s.vars + BLANK_VARIANTS && ResetVariants(s).env == s.env
  {
    var t: Scope, m: map<string, string> := s, map[];
    SetOverlay(s, t, m, "Arm", "");
    t, m := t.Set("Arm", ""), m["Arm" := ""];
    SetOverlay(s, t, m, "Arm64", "");
    t, m := t.Set("Arm64", ""), m["Arm64" := ""];
    SetOverlay(s, t, m, "Amd64", "");
    t, m := t.Set("Amd64", ""), m["Amd64" := ""];
    SetOverlay(s, t, m, "Mips", "");
    t, m := t.Set("Mips", ""), m["Mips" := ""];
    SetOverlay(s, t, m, "I386", "");
    t, m := t.Set("I386", ""), m["I386" := ""];
    SetOverlay(s, t, m, "Ppc64", "");
    t, m := t.Set("Ppc64", ""), m["Ppc64" := ""];
    SetOverlay(s, t, m, "Riscv64", "");
  }

  lemma ArchOverlay(s: Scope, arch: string)
    ensures SeedArch(s, arch).vars == s.vars + ArchVars(arch) && SeedArch(s, arch).env == s.env
  {
    if "armv" <= arch {
      SetOverlay(s, s, map[], "Arch", "arm");
      SetOverlay(s, s.Set("Arch", "arm"), map["Arch" := "arm"], "Arm", arch[4..]);
    } else if arch == "amd64" {
      SetOverlay(s, s, map[], "Amd64", AMD64_BASELINE);
      SetOverlay(s, s.Set("Amd64", AMD64_BASELINE), map["Amd64" := AMD64_BASELINE], "Arch", arch);
    } else {
      SetOverlay(s, s, map[], "Arch", arch);
    }
  }

  function PlaceVars(target: string, os: string): map<string, string> {
    map["Os" := os, TARGET := target, ABI := AbiFromTarget(target)]
  }

  lemma PlaceOverlay(s: Scope, target: string, os: string)
    ensures var t := s.Set("Os", os).Set(TARGET, target);
      t.vars == s.vars + PlaceVars(target, os) && t.env == s.env
  {
    SetOverlay(s, s, map[], "Os", os);
    TargetOverlay(s, s.Set("Os", os), map["Os" := os], target);
  }

  lemma TargetOverlay(s: Scope, t: Scope, m: map<string, string>, target: string)
    requires t.vars == s.vars + m && t.env == s.env
    ensures t.Set(TARGET, target).vars == s.vars + m[TARGET := target][ABI := AbiFromTarget(target)]
    ensures t.Set(TARGET, target).env == s.env
  {
  }

  /** Seeding a target overlays the same variables on any scope. */
  lemma SeedOverlay(s: Scope, target: string, p: Platform)
    ensures SeedTarget(s, target, p).vars == s.vars + TargetVars(target, p)
    ensures SeedTarget(s, target, p).env == s.env
  {
    PlaceOverlay(s, target, p.os);
    var t := s.Set("Os", p.os).Set(TARGET, target);
    ResetOverlay(t);
    ArchOverlay(ResetVariants(t), p.arch);
    OverlayChain(s.vars, PlaceVars(target, p.os), BLANK_VARIANTS, ArchVars(p.arch));
  }

  lemma BlankKeys()
    ensures BLANK_VARIANTS.Keys == VARIANTS
  {
  }

  lemma SeededKeys(target: string, p: Platform)
    ensures TargetVars(target, p).Keys == SEEDED
  {
    BlankKeys();
    assert ArchVars(p.arch).Keys <= {"Arch"} + VARIANTS && "Arch" in ArchVars(p.arch);
  }

  function LevelVars(level: Option<string>): map<string, string> {
    if level.Some? then map["Amd64" := level.value] else map[]
  }

  lemma NamingKeys(target: string, p: Platform, binary: string, level: Option<string>)
    ensures NamingVars(target, p, binary, level).Keys == SEEDED + {"Binary"}
  {
    SeededKeys(target, p);
    assert LevelVars(level).Keys <= SEEDED;
  }

  lemma LevelOverlay(s: Scope, t: Scope, m: map<string, string>, level: Option<string>)
    requires t.vars == s.vars + m && t.env == s.env
    ensures var n := if level.Some? then t.Set("Amd64", level.value) else t;
      n.vars == s.vars + (m + LevelVars(level)) && n.env == s.env
  {
  }

  lemma BinaryOverlay(s: Scope, t: Scope, m: map<string, string>, binary: string)
    requires t.vars == s.Set("Binary", binary).vars + m
    ensures t.vars == s.vars + (map["Binary" := binary] + m)
  {
  }

  /** Naming overlays the same variables on any scope: what the target, binary and level fix, and nothing else. */
  lemma NameScopeOverlay(s: Scope, target: string, p: Platform, binary: string, level: Option<string>)
    ensures NameScope(s, target, p, binary, level).vars == s.vars + NamingVars(target, p, binary, level)
    ensures NameScope(s, target, p, binary, level).env == s.env
  {
    SeedOverlay(s.Set("Binary", binary), target, p);
    var t, m := SeedTarget(s.Set("Binary", binary), target, p), TargetVars(target, p);
    BinaryOverlay(s, t, m, binary);
    LevelOverlay(s, t, map["Binary" := binary] + m, level);
  }

  lemma OverlayKeeps(s: Scope, n: Scope, m: map<string, string>)
    requires n.vars == s.vars + m
    ensures SameOutside(n, s, m.Keys)
  {
  }

  lemma OverlayForgets(a: Scope, b: Scope, m: map<string, string>)
    requires SameOutside(a, b, m.Keys)
    ensures a.vars + m == b.vars + m
  {
    var a', b' := a.(vars := a.vars + m), b.(vars := b.vars + m);
    forall k ensures a'.Get(k) == b'.Get(k) {
      assert k !in m ==> a.Get(k) == b.Get(k);
    }
    SameVars(a', b');
  }

  /** Nothing a previous target left behind shows in the next target's scope. */
  lemma NameScopeForgets(a: Scope, b: Scope, target: string, p: Platform, binary: string, level: Option<string>)
    requires SameOutside(a, b, SEEDED + {"Binary"})
    ensures NameScope(a, target, p, binary, level).vars == NameScope(b, target, p, binary, level).vars
  {
    NameScopeOverlay(a, target, p, binary, level);
    NameScopeOverlay(b, target, p, binary, level);
    NamingKeys(target, p, binary, level);
    OverlayForgets(a, b, NamingVars(target, p, binary, level));
  }

  lemma NameScopeKeeps(s: Scope, target: string, p: Platform, binary: string, level: Option<string>)
    ensures SameOutside(NameScope(s, target, p, binary, level), s, SEEDED + {"Binary"})
  {
    NameScopeOverlay(s, target, p, binary, level);
    NamingKeys(target, p, binary, level);
    OverlayKeeps(s, NameScope(s, target, p, binary, level), NamingVars(target, p, binary, level));
  }

  method SeedTargetVars(tv: TemplateVars, target: string, p: Platform)
    modifies tv
    ensures tv.Snapshot() == SeedTarget(old(tv.Snapshot()), target, p)
  {
    tv.Set("Os", p.os);
    tv.Set(TARGET, target);
    ResetVariantVars(tv);
    if "armv" <= p.arch {
      tv.Set("Arch", "arm");
      tv.Set("Arm", p.arch[4..]);
    } else {
      if p.arch == "amd64" {
        tv.Set("Amd64", AMD64_BASELINE);
      }
      tv.Set("Arch", p.arch);
    }
  }

  method ResetVariantVars(tv: TemplateVars)
    modifies tv
    ensures tv.Snapshot() == ResetVariants(old(tv.Snapshot()))
  {
    tv.Set("Arm", "");
    tv.Set("Arm64", "");
    tv.Set("Amd64", "");
    tv.Set("Mips", "");
    tv.Set("I386", "");
    tv.Set("Ppc64", "");
    tv.Set("Riscv64", "");
  }
}
