/** The default archive names, as text: what the naming variables come to in them. */
module DefaultName {
  import opened Prelude
  import opened Text
  import opened Templates
  import opened OneVariable
  import opened Builds
  import opened ArchiveName
  import opened ArchiveStage
  import opened BuilderNames

  /** `{% if Arm %}v{{ Arm }}…`, `{% if Mips %}_{{ Mips }}…`, `{% if Amd64 and Amd64 != "v1" %}{{ Amd64 }}…`. */
  const VARIANT_SUFFIX: Template := [
    When("Arm", None, [Lit("v"), Ref("Arm")]),
    When("Mips", None, [Lit("_"), Ref("Mips")]),
    When("Amd64", Some("v1"), [Ref("Amd64")])]

  /** Project (or binary), version, OS and architecture, then the variant suffix. */
  function DefaultTemplate(who: string): Template {
    [Ref(who), Lit("_"), Ref("Version"), Lit("_"), Ref("Os"), Lit("_"), Ref("Arch")] + VARIANT_SUFFIX
  }

  // ------------------------------------------------------------- part by part

  lemma RenderRef(n: string, rest: Template, vars: Vars, tail: string)
    requires n in vars && Render(rest, vars) == Ok(tail)
    ensures Render([Ref(n)] + rest, vars) == Ok(vars[n] + tail)
  {
    assert ([Ref(n)] + rest)[1..] == rest;
  }

  lemma RenderLit(t: string, rest: Template, vars: Vars, tail: string)
    requires Render(rest, vars) == Ok(tail)
    ensures Render([Lit(t)] + rest, vars) == Ok(t + tail)
  {
    assert ([Lit(t)] + rest)[1..] == rest;
  }

  /** A clause's text: none without a value, with the empty one or with the excluded one. */
  lemma RenderWhen(n: string, unless: Option<string>, pre: string, rest: Template, vars: Vars, tail: string)
    requires n in vars && Render(rest, vars) == Ok(tail)
    ensures Render([When(n, unless, [Lit(pre), Ref(n)])] + rest, vars)
         == Ok((if vars[n] == "" || unless == Some(vars[n]) then "" else pre + vars[n]) + tail)
  {
    var part := When(n, unless, [Lit(pre), Ref(n)]);
    assert ([part] + rest)[1..] == rest;
    assert [Ref(n)] + [] == [Ref(n)] && [Lit(pre)] + [Ref(n)] == [Lit(pre), Ref(n)] && vars[n] + "" == vars[n];
    RenderRef(n, [], vars, "");
    RenderLit(pre, [Ref(n)], vars, vars[n]);
  }

  lemma RenderWhenBare(n: string, unless: Option<string>, vars: Vars)
    requires n in vars
    ensures Render([When(n, unless, [Ref(n)])], vars) == Ok(if vars[n] == "" || unless == Some(vars[n]) then "" else vars[n])
  {
    assert [When(n, unless, [Ref(n)])][1..] == [];
    RenderRef(n, [], vars, "");
    assert [Ref(n)] + [] == [Ref(n)] && vars[n] + "" == vars[n] && "" + "" == "";
  }

  function ArmText(arm: string): string {
    if arm == "" then "" else "v" + arm
  }

  function MipsText(mips: string): string {
    if mips == "" then "" else "_" + mips
  }

  /** A CPU level is spelled out unless it is unstated or the baseline. */
  function LevelShown(level: string): string {
    if level == "" || level == "v1" then "" else level
  }

  lemma SuffixText(vars: Vars)
    requires "Arm" in vars && "Mips" in vars && "Amd64" in vars
    ensures Render(VARIANT_SUFFIX, vars) == Ok(ArmText(vars["Arm"]) + (MipsText(vars["Mips"]) + LevelShown(vars["Amd64"])))
  {
    var last := [When("Amd64", Some("v1"), [Ref("Amd64")])];
    var two := [When("Mips", None, [Lit("_"), Ref("Mips")])] + last;
    RenderWhenBare("Amd64", Some("v1"), vars);
    RenderWhen("Mips", None, "_", last, vars, LevelShown(vars["Amd64"]));
    RenderWhen("Arm", None, "v", two, vars, MipsText(vars["Mips"]) + LevelShown(vars["Amd64"]));
    assert VARIANT_SUFFIX == [When("Arm", None, [Lit("v"), Ref("Arm")])] + two;
  }

  lemma TailText(vars: Vars, suffix: string)
    requires "Os" in vars && "Arch" in vars && Render(VARIANT_SUFFIX, vars) == Ok(suffix)
    ensures Render([Ref("Os"), Lit("_"), Ref("Arch")] + VARIANT_SUFFIX, vars) == Ok(vars["Os"] + ("_" + (vars["Arch"] + suffix)))
  {
    var t1 := [Ref("Arch")] + VARIANT_SUFFIX;
    var t2 := [Lit("_")] + t1;
    RenderRef("Arch", VARIANT_SUFFIX, vars, suffix);
    RenderLit("_", t1, vars, vars["Arch"] + suffix);
    RenderRef("Os", t2, vars, "_" + (vars["Arch"] + suffix));
    assert [Ref("Os"), Lit("_"), Ref("Arch")] + VARIANT_SUFFIX == [Ref("Os")] + t2;
  }

  lemma StemText(who: string, vars: Vars, tail: string)
    requires who in vars && "Version" in vars && Render([Ref("Os"), Lit("_"), Ref("Arch")] + VARIANT_SUFFIX, vars) == Ok(tail)
    ensures Render(DefaultTemplate(who), vars) == Ok(vars[who] + ("_" + (vars["Version"] + ("_" + tail))))
  {
    var t3 := [Ref("Os"), Lit("_"), Ref("Arch")] + VARIANT_SUFFIX;
    var t4 := [Lit("_")] + t3;
    var t5 := [Ref("Version")] + t4;
    var t6 := [Lit("_")] + t5;
    RenderLit("_", t3, vars, tail);
    RenderRef("Version", t4, vars, "_" + tail);
    var s := vars["Version"] + ("_" + tail);
    RenderLit("_", t5, vars, s);
    RenderRef(who, t6, vars, "_" + s);
    assert DefaultTemplate(who) == [Ref(who)] + t6;
  }

  // --------------------------------------------------------- the name of a target

  /** The architecture as the platform spells it; `Arch` and `Arm` only take it apart. */
  function ArchText(arch: string): string {
    if arch == "armv" then "arm" else arch
  }

  /** The variables of the default template hold what naming seeds for this platform and level. */
  ghost predicate Seeded(m: Vars, p: Platform, level: Option<string>) {
    && {"Os", "Arch", "Arm", "Mips", "Amd64"} <= m.Keys
    && m["Os"] == p.os && m["Mips"] == ""
    && m["Arch"] + ArmText(m["Arm"]) == ArchText(p.arch)
    && LevelShown(m["Amd64"]) == Shown(level)
  }

  lemma VariantValues(arch: string)
    ensures NamingVariant(arch, "Mips") == "" && NamingVariant(arch, "Arm") == (if "armv" <= arch then arch[4..] else "")
    ensures NamingVariant(arch, "Amd64") == if arch == "amd64" then "v1" else ""
  {
    assert "Mips"[0] == 'M' && "Arm"[0] == 'A' && "Amd64"[0] == 'A' && |"Arm"| != |"Amd64"|;
  }

  lemma TargetSeeds(target: string, p: Platform)
    ensures Seeded(TargetVars(target, p), p, None)
  {
    OsIsPlace(target, p);
    ArchTables(target, p, "");
    VariantTables(target, p, "", "Arm");
    VariantTables(target, p, "", "Mips");
    VariantTables(target, p, "", "Amd64");
    VariantValues(p.arch);
    ArmRejoined(p.arch);
  }

  /** Laying a table over variables, or adding others to it, keeps what it seeds. */
  lemma SeededOver(vars: Vars, m: Vars, p: Platform, level: Option<string>)
    requires Seeded(m, p, level)
    ensures Seeded(vars + m, p, level)
  {
  }

  lemma SeededBut(m: Vars, k: string, v: string, p: Platform, level: Option<string>)
    requires Seeded(m, p, level) && k !in {"Os", "Arch", "Arm", "Mips", "Amd64"}
    ensures Seeded(m[k := v], p, level)
  {
  }

  lemma SeededLevelled(m: Vars, p: Platform, level: Option<string>)
    requires Seeded(m, p, None)
    ensures Seeded(m + LevelVars(level), p, level)
  {
    if level.None? {
      assert m + LevelVars(level) == m;
    } else {
      assert |"Amd64"| == 5 && |"Os"| == 2 && |"Arch"| == 4 && |"Arm"| == 3 && |"Mips"| == 4;
    }
  }

  lemma NamingSeeds(target: string, p: Platform, krate: string, binary: string, level: Option<string>)
    ensures Seeded(NamingVars(target, p, binary, level), p, level)
    ensures Seeded(ArchiveVars(target, p, krate, binary, level), p, level)
  {
    TargetSeeds(target, p);
    SeededOver(map["Binary" := binary], TargetVars(target, p), p, None);
    SeededLevelled(map["Binary" := binary] + TargetVars(target, p), p, level);
    ArchiveIsNaming(target, p, krate, binary, level);
    assert |CRATE_NAME| == 9 && |"Os"| == 2 && |"Arch"| == 4 && |"Arm"| == 3 && |"Mips"| == 4 && |"Amd64"| == 5;
    SeededBut(NamingVars(target, p, binary, level), CRATE_NAME, krate, p, level);
  }

  /** Naming leaves the project's name and the version alone, and binds the binary. */
  lemma NamingOthers(target: string, p: Platform, krate: string, binary: string, level: Option<string>)
    ensures forall m :: m == NamingVars(target, p, binary, level) || m == ArchiveVars(target, p, krate, binary, level) ==>
      Look(m, "ProjectName") == None && Look(m, "Version") == None && Look(m, "Binary") == Some(binary)
  {
    NamingKeys(target, p, binary, level);
    CrateNameIsFree(target, p);
    OthersAreNotSeeded();
    ArchiveIsNaming(target, p, krate, binary, level);
    assert |CRATE_NAME| == 9 && |"ProjectName"| == 11 && |"Version"| == 7 && |"Binary"| == 6 && |"Amd64"| == 5;
  }

  lemma OsIsPlace(target: string, p: Platform)
    ensures Look(TargetVars(target, p), "Os") == Some(p.os)
  {
    TargetLook(target, p, "Os");
    BlankKeys();
    assert "Os" !in VARIANTS by { assert forall k :: k in VARIANTS ==> |k| > 2; }
    assert "Os" !in ArchVars(p.arch) by { assert ArchVars(p.arch).Keys <= {"Arch"} + VARIANTS; }
  }

  lemma ArmRejoined(arch: string)
    ensures "armv" <= arch ==> "arm" + ArmText(arch[4..]) == ArchText(arch)
    ensures !("armv" <= arch) ==> ArchText(arch) == arch
  {
    if "armv" <= arch {
      var x := arch[4..];
      assert arch == "armv" + x;
      if x == "" {
        assert arch == "armv" && "arm" + "" == "arm";
      } else {
        assert |arch| > 4;
        Apart("arm", "v", x);
        assert "arm" + "v" == "armv";
      }
    }
  }

  lemma Apart(a: string, b: string, c: string)
    ensures a + (b + c) == (a + b) + c
  {
  }

  lemma OthersAreNotSeeded()
    ensures "ProjectName" !in SEEDED && "Version" !in SEEDED && "ProjectName" != "Binary" && "Version" != "Binary"
  {
    assert "ProjectName"[0] == 'P' && "Version"[0] == 'V' && "Binary"[0] == 'B';
    assert forall k :: k in SEEDED && |k| == 11 ==> false by { assert forall k :: k in SEEDED ==> |k| <= 7; }
    assert forall k :: k in SEEDED ==> k[0] != 'V';
  }

  /** The level in a name, blank when unstated. */
  function Shown(level: Option<string>): string {
    if level.Some? then LevelShown(level.value) else ""
  }

  /** Architecture and level, put together. */
  function ArchLevel(p: Platform, level: Option<string>): string {
    ArchText(p.arch) + Shown(level)
  }

  /** The text both templates come to, in variables that hold what naming seeds. */
  lemma TemplateText(who: string, m: Vars, p: Platform, level: Option<string>)
    requires who in m && "Version" in m && Seeded(m, p, level)
    ensures Render(DefaultTemplate(who), m) == Ok(m[who] + "_" + m["Version"] + "_" + p.os + "_" + ArchLevel(p, level))
  {
    SuffixText(m);
    var suffix := ArmText(m["Arm"]) + (MipsText(m["Mips"]) + LevelShown(m["Amd64"]));
    TailText(m, suffix);
    StemText(who, m, m["Os"] + ("_" + (m["Arch"] + suffix)));
    Regroup(m[who], m["Version"], m["Os"], m["Arch"], ArmText(m["Arm"]), LevelShown(m["Amd64"]));
  }

  lemma TextOver(who: string, text: string, vars: Vars, m: Vars, p: Platform, level: Option<string>)
    requires Seeded(m, p, level) && Look(m, "Version") == None && "Version" in vars && Look(vars + m, who) == Some(text)
    ensures Render(DefaultTemplate(who), vars + m) == Ok(text + "_" + vars["Version"] + "_" + p.os + "_" + ArchLevel(p, level))
  {
    SeededOver(vars, m, p, level);
    TemplateText(who, vars + m, p, level);
  }

  /**
   * The default names of any target, in any scope: project (or, for a raw binary,
   * the binary), version, OS, the platform's architecture put together again, and
   * the level when one above the baseline is stated.
   */
  lemma DefaultNameIs(vars: Vars, target: string, p: Platform, binary: string, level: Option<string>)
    requires "ProjectName" in vars && "Version" in vars
    ensures var m, rest := NamingVars(target, p, binary, level), "_" + vars["Version"] + "_" + p.os + "_" + ArchLevel(p, level);
      && Render(DefaultTemplate("ProjectName"), vars + m) == Ok(vars["ProjectName"] + rest)
      && Render(DefaultTemplate("Binary"), vars + m) == Ok(binary + rest)
  {
    NamingSeeds(target, p, "", binary, level);
    NamingOthers(target, p, "", binary, level);
    NamesOver(vars, NamingVars(target, p, binary, level), p, binary, level);
  }

  /** The archive stage gives the same names, whatever the crate. */
  lemma DefaultUploadIs(vars: Vars, target: string, p: Platform, krate: string, binary: string, level: Option<string>)
    requires "ProjectName" in vars && "Version" in vars
    ensures var m, rest := ArchiveVars(target, p, krate, binary, level), "_" + vars["Version"] + "_" + p.os + "_" + ArchLevel(p, level);
      && Render(DefaultTemplate("ProjectName"), vars + m) == Ok(vars["ProjectName"] + rest)
      && Render(DefaultTemplate("Binary"), vars + m) == Ok(binary + rest)
  {
    NamingSeeds(target, p, krate, binary, level);
    NamingOthers(target, p, krate, binary, level);
    NamesOver(vars, ArchiveVars(target, p, krate, binary, level), p, binary, level);
  }

  lemma NamesOver(vars: Vars, m: Vars, p: Platform, binary: string, level: Option<string>)
    requires "ProjectName" in vars && "Version" in vars && Seeded(m, p, level)
    requires Look(m, "ProjectName") == None && Look(m, "Version") == None && Look(m, "Binary") == Some(binary)
    ensures var rest := "_" + vars["Version"] + "_" + p.os + "_" + ArchLevel(p, level);
      && Render(DefaultTemplate("ProjectName"), vars + m) == Ok(vars["ProjectName"] + rest)
      && Render(DefaultTemplate("Binary"), vars + m) == Ok(binary + rest)
  {
    TextOver("ProjectName", vars["ProjectName"], vars, m, p, level);
    TextOver("Binary", binary, vars, m, p, level);
    Associate(vars["ProjectName"], vars["Version"], p.os, ArchLevel(p, level));
    Associate(binary, vars["Version"], p.os, ArchLevel(p, level));
  }

  lemma Associate(who: string, v: string, os: string, rest: string)
    ensures who + "_" + v + "_" + os + "_" + rest == who + ("_" + v + "_" + os + "_" + rest)
  {
  }

  lemma Regroup(who: string, v: string, os: string, arch: string, arm: string, level: string)
    ensures who + ("_" + (v + ("_" + (os + ("_" + (arch + (arm + ("" + level)))))))) == who + "_" + v + "_" + os + "_" + ((arch + arm) + level)
  {
    assert "" + level == level;
  }

  /** Within one release, two default names are the same exactly when OS is, and architecture and level put together. */
  lemma DefaultNamesCollideExactly(vars: Vars, t: string, p: Platform, b: string, l: Option<string>,
                                   t': string, p': Platform, b': string, l': Option<string>)
    requires "ProjectName" in vars && "Version" in vars && '_' !in p.os && '_' !in p'.os
    ensures Render(DefaultTemplate("ProjectName"), vars + NamingVars(t, p, b, l))
         == Render(DefaultTemplate("ProjectName"), vars + NamingVars(t', p', b', l'))
       <==> p.os == p'.os && ArchLevel(p, l) == ArchLevel(p', l')
  {
    DefaultNameIs(vars, t, p, b, l);
    DefaultNameIs(vars, t', p', b', l');
    StemsCollide(vars["ProjectName"], vars["Version"], p.os, ArchLevel(p, l), p'.os, ArchLevel(p', l'));
  }

  /** On one platform, an unstated, a blank and the baseline level share a name, and no other two levels do. */
  lemma LevelsShareExactly(p: Platform, l: Option<string>, l': Option<string>)
    ensures ArchLevel(p, l) == ArchLevel(p, l') <==>
      l == l' || ((l.None? || l.value in {"", "v1"}) && (l'.None? || l'.value in {"", "v1"}))
  {
    if ArchLevel(p, l) == ArchLevel(p, l') {
      SameSuffix(ArchText(p.arch), Shown(l), Shown(l'));
    }
  }

  lemma SameSuffix(a: string, x: string, y: string)
    requires a + x == a + y
    ensures x == y
  {
    assert (a + x)[|a|..] == x && (a + y)[|a|..] == y;
  }

  lemma StemsCollide(who: string, v: string, os: string, x: string, os': string, x': string)
    requires '_' !in os && '_' !in os'
    ensures who + ("_" + v + "_" + os + "_" + x) == who + ("_" + v + "_" + os' + "_" + x') <==> os == os' && x == x'
  {
    var a, b := "_" + v + "_" + os + "_" + x, "_" + v + "_" + os' + "_" + x';
    if who + a == who + b {
      SameSuffix(who, a, b);
      var head := "_" + v + "_";
      assert a == head + (os + ['_'] + x) && b == head + (os' + ['_'] + x');
      SameSuffix(head, os + ['_'] + x, os' + ['_'] + x');
      SameFields(os, x, os', x');
    }
  }

  lemma SameFields(os: string, x: string, os': string, x': string)
    requires '_' !in os && '_' !in os' && os + ['_'] + x == os' + ['_'] + x'
    ensures os == os' && x == x'
  {
    SplitFirst(os, '_', x);
    SplitFirst(os', '_', x');
    assert ([os] + SplitOn(x, '_'))[0] == ([os'] + SplitOn(x', '_'))[0];
    SameSuffix(os + ['_'], x, x');
  }
}
