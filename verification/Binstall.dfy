/** Derivation of per-target download URLs that leave the version to the installer. */
module Binstall {
  import opened Prelude
  import opened Text
  import opened Json
  import opened Templates
  import opened TemplateScope
  import opened ArchiveName
  import opened BuildScope
  import opened Builds
  import opened BuildPlan
  import opened BuildEnv
  import opened ConfigLevel
  import opened DeferredVersion

  const FORMAT_BINARY := "binary"

  /** One archive entry of a crate: what its binaries are, and how it names its asset on each target. */
  datatype Naming = Naming(
    krate: Krate,
    tools: Tools,
    defaults: seq<string>,
    ids: Option<seq<string>>,
    binaries: Option<seq<string>>,
    template: Template,
    binaryTemplate: Template,
    format: string -> string)

  datatype Asset = Asset(format: string, name: string)
  datatype Release = Release(base: string, owner: string, repo: string)
  datatype PkgOverride = PkgOverride(pkgUrl: string, pkgFmt: string)

  /** The installer's package format for an archive format, `None` when it cannot install it. */
  function PkgFmt(format: string): Option<string> {
    match format
    case "tar.gz" => Some("tgz")
    case "tgz" => Some("tgz")
    case "tar.xz" => Some("txz")
    case "txz" => Some("txz")
    case "tar.zst" => Some("tzstd")
    case "tzst" => Some("tzstd")
    case "tar.bz2" => Some("tbz2")
    case "tbz2" => Some("tbz2")
    case "tar" => Some("tar")
    case "zip" => Some("zip")
    case "bin" => Some("bin")
    case _ => None
  }

  function BinaryOutputName(stem: string, windows: bool): string {
    if windows && !(|stem| >= 4 && stem[|stem| - 4..] == ".exe") then stem + ".exe" else stem
  }

  function AssetName(nm: Naming, vars: Vars, target: string): Result<string> {
    var f := nm.format(target);
    match Render(if f == FORMAT_BINARY then nm.binaryTemplate else nm.template, vars)
    case Err => Err
    case Ok(stem) => Ok(if f == FORMAT_BINARY then BinaryOutputName(stem, Contains(target, "windows")) else stem + ("." + f))
  }

  // ------------------------------------------------------------ one target, in a live scope

  function SeededVars(nm: Naming, vars: Vars, target: string): Vars {
    vars + TargetVars(target, nm.tools.platform(target))
  }

  /** The binary an asset is named after, rendered with the target seeded into the live scope. */
  function BinaryIn(nm: Naming, vars: Vars, env: Vars, target: string): string {
    ArchiveBinaryName(nm.krate, nm.ids, nm.binaries, target, nm.defaults, RendererIn(nm.tools, SeededVars(nm, vars, target), env))
  }

  /** The variables the CPU level is looked for under. */
  function BoundVars(nm: Naming, vars: Vars, env: Vars, target: string): Vars {
    SeededVars(nm, vars, target)["Binary" := BinaryIn(nm, vars, env, target)]
  }

  ghost function LevelFor(nm: Naming, vars: Vars, env: Vars, target: string): Result<Option<string>> {
    LevelIn(nm.tools, nm.krate, target, nm.defaults, BoundVars(nm, vars, env, target), env)
  }

  /** The variables the asset's name renders under, and the turn leaves behind. */
  function NameVars(nm: Naming, vars: Vars, env: Vars, target: string, level: Option<string>): Vars {
    vars + NamingVars(target, nm.tools.platform(target), BinaryIn(nm, vars, env, target), level)
  }

  /** The asset of one target, from the scope its turn finds. */
  ghost function AssetIn(nm: Naming, vars: Vars, env: Vars, target: string): Result<Asset> {
    match LevelFor(nm, vars, env, target)
    case Err => Err
    case Ok(level) =>
      match AssetName(nm, NameVars(nm, vars, env, target, level), target)
      case Err => Err
      case Ok(name) => Ok(Asset(nm.format(target), name))
  }

  /** The target loop: each turn starts from what the one before left. */
  ghost function Walk(nm: Naming, vars: Vars, env: Vars, ts: seq<string>): Result<(Vars, map<string, Asset>)>
    decreases |ts|
  {
    if ts == [] then Ok((vars, map[])) else
      var target := ts[|ts| - 1];
      match Walk(nm, vars, env, ts[..|ts| - 1])
      case Err => Err
      case Ok((live, m)) =>
        match AssetIn(nm, live, env, target)
        case Err => Err
        case Ok(asset) => Ok((NameVars(nm, live, env, target, LevelFor(nm, live, env, target).value), m[target := asset]))
  }

  function GateIn(tools: Tools, vars: Vars, env: Vars): Gate {
    b => Skips(RendererIn(tools, vars, env), b)
  }

  /** The targets this run lists; whether each is also built is another question. */
  function TargetsIn(nm: Naming, vars: Vars, env: Vars): seq<string> {
    TargetList(nm.krate, nm.defaults, GateIn(nm.tools, vars, env))
  }

  /** The assets of a crate: none without an archive entry or without targets. */
  ghost function Assets(archive: Option<Naming>, vars: Vars, env: Vars): Result<Option<map<string, Asset>>> {
    if archive.None? || TargetsIn(archive.value, vars, env) == [] then Ok(None)
    else
      match Walk(archive.value, vars, env, TargetsIn(archive.value, vars, env))
      case Err => Err
      case Ok((_, m)) => Ok(Some(m))
  }

  /** `vars` with the variables `keys` as they were in `orig`, absent ones removed. */
  function PutBack(vars: Vars, orig: Vars, keys: set<string>): Vars {
    (vars - keys) + map k | k in orig && k in keys :: orig[k]
  }

  /** The variables a successful naming of a crate's assets leaves: the last target's, with `Binary` put back. */
  ghost function LeftBy(archive: Option<Naming>, vars: Vars, env: Vars): Vars
    requires Assets(archive, vars, env).Ok?
  {
    if Assets(archive, vars, env).value.None? then vars
    else PutBack(Walk(archive.value, vars, env, TargetsIn(archive.value, vars, env)).value.0, vars, {"Binary"})
  }

  /** What it leaves of the caller's scope when the version was stamped meanwhile. */
  ghost function LeftByStamped(archive: Option<Naming>, vars: Vars, env: Vars): Vars
    requires Assets(archive, Stamp(vars, SENTINEL), env).Ok?
  {
    PutBack(LeftBy(archive, Stamp(vars, SENTINEL), env), vars, STAMPED)
  }

  /** Restoring saved variables puts them back. */
  lemma RestorePutsBack(origin: Scope, s: Scope, saved: Saved)
    requires SavedFrom(saved, origin) && AbiAfterTarget(saved)
    ensures Restore(s, saved).vars == PutBack(s.vars, origin.vars, Keys(saved))
  {
    RestoreExact(origin, s, saved);
    var a, b := Restore(s, saved), s.(vars := PutBack(s.vars, origin.vars, Keys(saved)));
    forall k ensures a.Get(k) == b.Get(k) {
      assert a.Get(k) == if k in Keys(saved) then origin.Get(k) else s.Get(k);
    }
    SameVars(a, b);
  }

  // ------------------------------------------------------------------- the source's loop

  const NAMED: set<string> := SEEDED + {"Binary"}
  const TOUCHED: set<string> := BUILD_VARS + {"Binary"}

  lemma TouchedHas()
    ensures SEEDED <= TOUCHED && "Binary" in TOUCHED && {"Arch", "Arm", "Amd64", "Os", TARGET, ABI} <= TOUCHED
  {
  }

  lemma SeedArchOwned(s: Scope, t: Scope, keys: set<string>, arch: string)
    requires Owned(s, t, keys) && {"Arch", "Arm", "Amd64"} <= keys
    ensures Owned(s, SeedArch(t, arch), keys)
  {
    if "armv" <= arch {
      SetOwned(s, t, keys, "Arch", "arm");
      SetOwned(s, t.Set("Arch", "arm"), keys, "Arm", arch[4..]);
    } else if arch == "amd64" {
      SetOwned(s, t, keys, "Amd64", AMD64_BASELINE);
      SetOwned(s, t.Set("Amd64", AMD64_BASELINE), keys, "Arch", arch);
    } else {
      SetOwned(s, t, keys, "Arch", arch);
    }
  }

  lemma SeedTargetOwned(s: Scope, t: Scope, keys: set<string>, target: string, p: Platform)
    requires Owned(s, t, keys) && {"Arch", "Arm", "Amd64", "Os", TARGET, ABI} <= keys && VARIANTS <= keys
    ensures Owned(s, SeedTarget(t, target, p), keys)
  {
    SetOwned(s, t, keys, "Os", p.os);
    SetOwned(s, t.Set("Os", p.os), keys, TARGET, target);
    var u := t.Set("Os", p.os).Set(TARGET, target);
    ResetOwned(s, u, keys);
    SeedArchOwned(s, ResetVariants(u), keys, p.arch);
  }

  /** Seeding a second time, with the binary and the level, gives the naming variables. */
  lemma Reseeded(vars: Vars, t: Vars, binary: string, level: Option<string>)
    ensures (vars + t)["Binary" := binary] + t + LevelVars(level) == vars + (map["Binary" := binary] + t + LevelVars(level))
  {
  }

  lemma NamingStays(vars: Vars, target: string, p: Platform, binary: string, level: Option<string>)
    ensures SameBut(vars + NamingVars(target, p, binary, level), vars, NAMED)
  {
    NamingKeys(target, p, binary, level);
  }

  lemma SeededStays(vars: Vars, target: string, p: Platform, binary: string)
    ensures SameBut((vars + TargetVars(target, p))["Binary" := binary], vars, NAMED)
  {
    SeededKeys(target, p);
  }

  lemma SameButChain(a: Vars, b: Vars, c: Vars, keys: set<string>)
    requires SameBut(a, b, keys) && SameBut(b, c, keys)
    ensures SameBut(a, c, keys)
  {
  }

  /**
   * One turn: seed the target, render the binary's name, bind it, find the level,
   * seed again with it, render the name. The result and the variables left behind
   * are functions of the live variables and template env.
   */
  method RenderOne(tv: TemplateVars, nm: Naming, target: string) returns (asset: Result<Asset>)
    modifies tv
    ensures asset == AssetIn(nm, old(tv.vars), old(tv.env), target)
    ensures asset.Ok? ==>
      tv.vars == NameVars(nm, old(tv.vars), old(tv.env), target, LevelFor(nm, old(tv.vars), old(tv.env), target).value)
    ensures SameBut(tv.vars, old(tv.vars), NAMED) && Owned(old(tv.Snapshot()), tv.Snapshot(), TOUCHED)
  {
    ghost var s := tv.Snapshot();
    var level := BindTarget(tv, nm, target);
    if level.Err? {
      return Err;
    }
    SeedWithLevel(tv, target, nm.tools.platform(target), level.value, s, BinaryIn(nm, s.vars, s.env, target));
    NamingStays(s.vars, target, nm.tools.platform(target), BinaryIn(nm, s.vars, s.env, target), level.value);
    var name := AssetName(nm, tv.vars, target);
    asset := if name.Ok? then Ok(Asset(nm.format(target), name.value)) else Err;
  }

  /** The second half of a turn: seed again, with the level on top. */
  method SeedWithLevel(tv: TemplateVars, target: string, p: Platform, level: Option<string>, ghost s: Scope, ghost binary: string)
    requires tv.vars == (s.vars + TargetVars(target, p))["Binary" := binary] && Owned(s, tv.Snapshot(), TOUCHED)
    modifies tv
    ensures tv.vars == s.vars + NamingVars(target, p, binary, level) && Owned(s, tv.Snapshot(), TOUCHED)
  {
    ghost var s2 := tv.Snapshot();
    SeedTargetVars(tv, target, p);
    SeedOverlay(s2, target, p);
    TouchedHas();
    SeedTargetOwned(s, s2, TOUCHED, target, p);
    ghost var s3 := tv.Snapshot();
    if level.Some? {
      tv.Set("Amd64", level.value);
      SetOwned(s, s3, TOUCHED, "Amd64", level.value);
    }
    LevelOnTop(s3, tv.vars, level);
    Reseeded(s.vars, TargetVars(target, p), binary, level);
  }

  lemma LevelOnTop(s: Scope, vars: Vars, level: Option<string>)
    requires vars == if level.Some? then s.Set("Amd64", level.value).vars else s.vars
    ensures vars == s.vars + LevelVars(level)
  {
    if level.Some? { SetOverlay(s, s, map[], "Amd64", level.value); }
  }

  /** The first half of a turn: seed, name the binary, bind it, find the level. */
  method BindTarget(tv: TemplateVars, nm: Naming, target: string) returns (level: Result<Option<string>>)
    modifies tv
    ensures level == LevelFor(nm, old(tv.vars), old(tv.env), target)
    ensures tv.vars == BoundVars(nm, old(tv.vars), old(tv.env), target) && tv.env == old(tv.env)
    ensures SameBut(tv.vars, old(tv.vars), NAMED) && Owned(old(tv.Snapshot()), tv.Snapshot(), TOUCHED)
  {
    ghost var s := tv.Snapshot();
    var p := nm.tools.platform(target);
    SeedTargetVars(tv, target, p);
    SeedOverlay(s, target, p);
    TouchedHas();
    SeedTargetOwned(s, s, TOUCHED, target, p);
    ghost var s1 := tv.Snapshot();
    var binary := ArchiveBinaryName(nm.krate, nm.ids, nm.binaries, target, nm.defaults, RendererIn(nm.tools, tv.vars, tv.env));
    tv.Set("Binary", binary);
    SetOwned(s, s1, TOUCHED, "Binary", binary);
    SeededStays(s.vars, target, p, binary);
    ghost var s2 := tv.Snapshot();
    level := ConfigTimeAmd64Variant(tv, nm.tools, nm.krate, target, nm.defaults);
    ProjectionOwned(s, s2, tv.Snapshot());
  }

  lemma ProjectionOwned(s: Scope, t: Scope, u: Scope)
    requires Owned(s, t, TOUCHED) && u.vars == t.vars && u.env == t.env
    requires u.structured == t.structured || u.structured == t.structured - BUILD_VARS
    ensures Owned(s, u, TOUCHED)
  {
    assert BUILD_VARS <= TOUCHED;
    assert (t.structured - BUILD_VARS) - TOUCHED == t.structured - TOUCHED;
  }

  lemma OwnedChain(a: Scope, b: Scope, c: Scope, keys: set<string>)
    requires Owned(a, b, keys) && Owned(b, c, keys)
    ensures Owned(a, c, keys)
  {
  }

  method RenderAll(tv: TemplateVars, nm: Naming, targets: seq<string>) returns (r: Result<map<string, Asset>>)
    modifies tv
    ensures var w := Walk(nm, old(tv.vars), old(tv.env), targets);
      if w.Err? then r == Err else r == Ok(w.value.1) && tv.vars == w.value.0
    ensures SameBut(tv.vars, old(tv.vars), NAMED) && Owned(old(tv.Snapshot()), tv.Snapshot(), TOUCHED)
  {
    ghost var s := tv.Snapshot();
    var m: map<string, Asset> := map[];
    var i := 0;
    while i < |targets|
      invariant 0 <= i <= |targets|
      invariant Walk(nm, s.vars, s.env, targets[..i]) == Ok((tv.vars, m))
      invariant SameBut(tv.vars, s.vars, NAMED) && Owned(s, tv.Snapshot(), TOUCHED)
    {
      ghost var live := tv.Snapshot();
      var asset := RenderOne(tv, nm, targets[i]);
      SameButChain(tv.vars, live.vars, s.vars, NAMED);
      OwnedChain(s, live, tv.Snapshot(), TOUCHED);
      assert targets[..i + 1][..i] == targets[..i];
      if asset.Err? {
        WalkErrSticks(nm, s.vars, s.env, targets, i + 1);
        return Err;
      }
      m := m[targets[i] := asset.value];
      i := i + 1;
    }
    assert targets[..i] == targets;
    r := Ok(m);
  }

  lemma {:induction false} WalkErrSticks(nm: Naming, vars: Vars, env: Vars, ts: seq<string>, i: nat)
    requires i <= |ts| && Walk(nm, vars, env, ts[..i]).Err?
    ensures Walk(nm, vars, env, ts).Err?
    decreases |ts|
  {
    if i < |ts| {
      assert ts[..|ts| - 1][..i] == ts[..i];
      WalkErrSticks(nm, vars, env, ts[..|ts| - 1], i);
    } else {
      assert ts[..i] == ts;
    }
  }

  /**
   * The assets of a crate, from the caller's scope. Afterwards, on errors too,
   * only seeded variables differ, and structured ones of the touched names.
   */
  method CrateArchiveAssetNames(tv: TemplateVars, archive: Option<Naming>) returns (r: Result<Option<map<string, Asset>>>)
    modifies tv
    ensures r == Assets(archive, old(tv.vars), old(tv.env))
    ensures SameBut(tv.vars, old(tv.vars), SEEDED) && Owned(old(tv.Snapshot()), tv.Snapshot(), TOUCHED)
    ensures r == Ok(None) ==> tv.Snapshot() == old(tv.Snapshot())
    ensures r.Ok? ==> tv.vars == LeftBy(archive, old(tv.vars), old(tv.env))
  {
    if archive.None? {
      return Ok(None);
    }
    var nm := archive.value;
    var targets := CrateTargetList(nm.krate, nm.defaults, GateIn(nm.tools, tv.vars, tv.env));
    if targets == [] {
      return Ok(None);
    }
    ghost var s := tv.Snapshot();
    var prior := [("Binary", tv.Snapshot().Get("Binary"))];
    var all := RenderAll(tv, nm, targets);
    ghost var s1 := tv.Snapshot();
    tv.PutBackAll(prior);
    BinaryPutBack(s, s1, prior);
    r := if all.Err? then Err else Ok(Some(all.value));
  }

  lemma BinaryPutBack(s: Scope, s1: Scope, prior: Saved)
    requires prior == [("Binary", s.Get("Binary"))]
    requires SameBut(s1.vars, s.vars, NAMED) && Owned(s, s1, TOUCHED)
    ensures var t := Restore(s1, prior); SameBut(t.vars, s.vars, SEEDED) && Owned(s, t, TOUCHED)
    ensures Restore(s1, prior).vars == PutBack(s1.vars, s.vars, {"Binary"})
  {
    RestoreExact(s, s1, prior);
    RestorePutsBack(s, s1, prior);
    assert Keys(prior) == {"Binary"};
    var t := Restore(s1, prior);
    forall k | k !in SEEDED ensures t.Get(k) == s.Get(k) {
      assert k == "Binary" || k !in NAMED;
    }
    forall k | k !in SEEDED ensures (k in t.vars <==> k in s.vars) && (k in t.vars ==> t.vars[k] == s.vars[k]) {
      assert t.Get(k) == s.Get(k);
    }
    TouchedHas();
    assert (s1.structured - {"Binary"}) - TOUCHED == s1.structured - TOUCHED;
  }

  // ---------------------------------------------------------- deferred versions

  const STAMP_ORDER: seq<string> := ["Version", "RawVersion", "Tag"]

  /** Stamp the sentinel as the version, keeping what was there. */
  method StampSentinelVersion(tv: TemplateVars) returns (prior: Saved)
    modifies tv
    ensures tv.vars == Stamp(old(tv.vars), SENTINEL) && tv.env == old(tv.env)
    ensures tv.structured == old(tv.structured) - STAMPED
    ensures SavedFrom(prior, old(tv.Snapshot())) && AbiAfterTarget(prior) && Keys(prior) == STAMPED
  {
    prior := Save(tv.Snapshot(), STAMP_ORDER);
    assert prior[0].0 == "Version" && prior[1].0 == "RawVersion" && prior[2].0 == "Tag";
    assert forall p :: p in prior <==> p == prior[0] || p == prior[1] || p == prior[2];
    tv.Set("Version", SENTINEL);
    tv.Set("RawVersion", SENTINEL);
    tv.Set("Tag", "v" + SENTINEL);
  }

  /** The release tag with the installer's token for a version; an all-blank tag is an error. */
  method RenderTagWithVersionToken(tv: TemplateVars, tag: Template) returns (r: Result<string>)
    modifies tv
    ensures tv.vars == old(tv.vars) && tv.env == old(tv.env)
    ensures tv.structured == old(tv.structured) - STAMPED
    ensures r == TagWithToken(tag, old(tv.vars))
  {
    ghost var s0 := tv.Snapshot();
    var prior := StampSentinelVersion(tv);
    var rendered := Render(tag, tv.vars);
    ghost var s1 := tv.Snapshot();
    tv.PutBackAll(prior);
    RestoreExact(s0, s1, prior);
    forall k ensures tv.Snapshot().Get(k) == s0.Get(k) {
    }
    SameVars(tv.Snapshot(), s0);
    if rendered.Err? || Trim(rendered.value) == "" {
      return Err;
    }
    r := Ok(Replace(rendered.value, SENTINEL, TOKEN));
  }

  function TagWithToken(tag: Template, vars: Vars): Result<string> {
    var rendered := Render(tag, Stamp(vars, SENTINEL));
    if rendered.Err? || Trim(rendered.value) == "" then Err else Deferred(tag, Stamp(vars, SENTINEL))
  }

  /** A tag that renders is refused exactly when it is all whitespace. */
  lemma TagRefusedExactly(tag: Template, vars: Vars)
    ensures TagWithToken(tag, vars).Err? <==>
      Render(tag, Stamp(vars, SENTINEL)).Err? || Tokens(Render(tag, Stamp(vars, SENTINEL)).value) == []
    ensures TagWithToken(tag, vars).Ok? ==>
      TagWithToken(tag, vars).value == Replace(Render(tag, Stamp(vars, SENTINEL)).value, SENTINEL, TOKEN)
  {
    var r := Render(tag, Stamp(vars, SENTINEL));
    if r.Ok? {
      TrimTokens(r.value);
      TrimIsTrimmed(r.value);
    }
  }

  function PkgUrl(rel: Release, tag: string, asset: string): string {
    rel.base + "/" + rel.owner + "/" + rel.repo + "/releases/download/" + tag + "/" + asset
  }

  /** The assets with the sentinel as the version; the version variables are put back, on errors too. */
  method StampedAssets(tv: TemplateVars, archive: Option<Naming>) returns (r: Result<Option<map<string, Asset>>>)
    modifies tv
    ensures r == Assets(archive, Stamp(old(tv.vars), SENTINEL), old(tv.env))
    ensures SameBut(tv.vars, old(tv.vars), SEEDED) && tv.env == old(tv.env)
    ensures tv.structured - (TOUCHED + STAMPED) == old(tv.structured) - (TOUCHED + STAMPED)
    ensures r.Ok? ==> tv.vars == LeftByStamped(archive, old(tv.vars), old(tv.env))
  {
    ghost var s0 := tv.Snapshot();
    var prior := StampSentinelVersion(tv);
    ghost var stamped := tv.Snapshot();
    r := CrateArchiveAssetNames(tv, archive);
    ghost var s1 := tv.Snapshot();
    tv.PutBackAll(prior);
    StampPutBack(s0, stamped, s1, prior);
    RestorePutsBack(s0, s1, prior);
    RestoreExact(s0, s1, prior);
    StructuredKept(s0.structured, s1.structured);
  }

  lemma StructuredKept(a: map<string, Json>, b: map<string, Json>)
    requires b - TOUCHED == (a - STAMPED) - TOUCHED
    ensures (b - STAMPED) - (TOUCHED + STAMPED) == a - (TOUCHED + STAMPED)
  {
    var c, d := (b - STAMPED) - (TOUCHED + STAMPED), a - (TOUCHED + STAMPED);
    forall k ensures (k in c <==> k in d) && (k in c ==> c[k] == d[k]) {
      assert k in b - TOUCHED <==> k in (a - STAMPED) - TOUCHED;
      assert k in b - TOUCHED ==> (b - TOUCHED)[k] == ((a - STAMPED) - TOUCHED)[k];
    }
  }

  lemma StampPutBack(s: Scope, stamped: Scope, s1: Scope, prior: Saved)
    requires stamped.vars == Stamp(s.vars, SENTINEL) && stamped.env == s.env && s1.env == s.env
    requires SavedFrom(prior, s) && AbiAfterTarget(prior) && Keys(prior) == STAMPED
    requires SameBut(s1.vars, stamped.vars, SEEDED)
    ensures SameBut(Restore(s1, prior).vars, s.vars, SEEDED) && Restore(s1, prior).env == s.env
  {
    RestoreExact(s, s1, prior);
    var t := Restore(s1, prior);
    forall k | k !in SEEDED ensures (k in t.vars <==> k in s.vars) && (k in t.vars ==> t.vars[k] == s.vars[k]) {
      assert t.Get(k) == if k in STAMPED then s.Get(k) else s1.Get(k);
      StampAt(s.vars, SENTINEL, k);
    }
  }

  /** The overrides: one for each target whose format the installer knows. */
  function Overrides(rel: Release, tag: string, assets: map<string, Asset>): map<string, PkgOverride> {
    map t | t in assets && PkgFmt(assets[t].format).Some? ::
      PkgOverride(PkgUrl(rel, tag, Replace(assets[t].name, SENTINEL, TOKEN)), PkgFmt(assets[t].format).value)
  }

  function NonEmpty(m: map<string, PkgOverride>): Option<map<string, PkgOverride>> {
    if m == map[] then None else Some(m)
  }

  /** The overrides, as a function of the caller's variables and template env. */
  ghost function Derived(rel: Release, archive: Option<Naming>, tag: Template, vars: Vars, env: Vars): Result<Option<map<string, PkgOverride>>> {
    var assets := Assets(archive, Stamp(vars, SENTINEL), env);
    if assets.Err? then Err
    else if assets.value.None? then Ok(None)
    else
      match TagWithToken(tag, LeftByStamped(archive, vars, env))
      case Err => Err
      case Ok(token) => Ok(NonEmpty(Overrides(rel, token, assets.value.value)))
  }

  /**
   * The overrides of one crate: an error exactly when a name or the tag fails,
   * nothing without a repository, an archive, targets or an installable format.
   * The tag is rendered in the scope the target loop leaves behind, which the
   * caller's scope determines.
   */
  method DeriveOverrides(tv: TemplateVars, rel: Option<Release>, archive: Option<Naming>, tag: Template)
    returns (r: Result<Option<map<string, PkgOverride>>>)
    modifies tv
    ensures SameBut(tv.vars, old(tv.vars), SEEDED) && tv.env == old(tv.env)
    ensures tv.structured - (TOUCHED + STAMPED) == old(tv.structured) - (TOUCHED + STAMPED)
    ensures rel.None? ==> r == Ok(None) && tv.Snapshot() == old(tv.Snapshot())
    ensures rel.Some? ==>
      && r == Derived(rel.value, archive, tag, old(tv.vars), old(tv.env))
      && (Assets(archive, Stamp(old(tv.vars), SENTINEL), old(tv.env)).Ok? ==>
            tv.vars == LeftByStamped(archive, old(tv.vars), old(tv.env)))
  {
    if rel.None? {
      return Ok(None);
    }
    var assets := StampedAssets(tv, archive);
    if assets.Err? {
      return Err;
    }
    if assets.value.None? {
      return Ok(None);
    }
    var token := RenderTagWithVersionToken(tv, tag);
    if token.Err? {
      return Err;
    }
    var m := DeriveEach(rel.value, token.value, assets.value.value);
    r := Ok(if m == map[] then None else Some(m));
  }

  /** The override loop, over the assets in any order. */
  method DeriveEach(rel: Release, token: string, assets: map<string, Asset>) returns (m: map<string, PkgOverride>)
    ensures m == Overrides(rel, token, assets)
  {
    m := map[];
    var todo := assets.Keys;
    while todo != {}
      invariant todo <= assets.Keys
      invariant m == map t | t in Overrides(rel, token, assets) && t !in todo :: Overrides(rel, token, assets)[t]
    {
      var t :| t in todo;
      var fmt := PkgFmt(assets[t].format);
      if fmt.Some? {
        m := m[t := PkgOverride(PkgUrl(rel, token, Replace(assets[t].name, SENTINEL, TOKEN)), fmt.value)];
      }
      todo := todo - {t};
    }
  }

  /** The archive extensions each of the installer's package formats stands for. */
  function Extensions(fmt: string): set<string> {
    match fmt
    case "tgz" => {"tgz", "tar.gz"}
    case "txz" => {"txz", "tar.xz"}
    case "tzstd" => {"tzst", "tar.zst"}
    case "tbz2" => {"tbz2", "tar.bz2"}
    case "tar" => {"tar"}
    case "zip" => {"zip"}
    case "bin" => {"bin"}
    case _ => {}
  }

  /** An archive format maps to the package format whose extensions hold it, and to no other. */
  lemma PkgFmtExactly(format: string, fmt: string)
    ensures PkgFmt(format) == Some(fmt) <==> format in Extensions(fmt)
  {
  }

  /** An override's package format stands for the extension its asset's name ends in. */
  lemma OverrideFormat(rel: Release, token: string, nm: Naming, vars: Vars, env: Vars, assets: map<string, Asset>, t: string)
    requires t in assets && AssetIn(nm, vars, env, t) == Ok(assets[t]) && t in Overrides(rel, token, assets)
    ensures assets[t].format in Extensions(Overrides(rel, token, assets)[t].pkgFmt)
    ensures exists stem :: assets[t].name == stem + ("." + assets[t].format)
  {
    PkgFmtExactly(assets[t].format, Overrides(rel, token, assets)[t].pkgFmt);
    BinaryIsNotInstallable();
    var level := LevelFor(nm, vars, env, t).value;
    var stem := Render(nm.template, NameVars(nm, vars, env, t, level)).value;
    assert assets[t].name == stem + ("." + assets[t].format);
  }

  /** A raw binary keeps its stem, with `.exe` on Windows unless it ends in it already. */
  lemma BinaryOutputIs(stem: string, windows: bool)
    ensures !windows ==> BinaryOutputName(stem, windows) == stem
    ensures windows ==> exists base :: BinaryOutputName(stem, windows) == base + ".exe" && (stem == base || stem == base + ".exe")
  {
    if windows && |stem| >= 4 && stem[|stem| - 4..] == ".exe" {
      assert stem == stem[..|stem| - 4] + ".exe";
    } else if windows {
      assert BinaryOutputName(stem, windows) == stem + ".exe";
    }
  }

  lemma BinaryIsNotInstallable()
    ensures PkgFmt(FORMAT_BINARY) == None
  {
  }

  // ------------------------------------------------------- the tag's own scope

  /** The tag renders alike before and after the target loop, from every scope, exactly when it depends on no seeded variable. */
  lemma TagLocalExactly(tag: Template)
    ensures (forall before, after :: SameBut(before, after, SEEDED) ==>
               Render(tag, Stamp(before, SENTINEL)) == Render(tag, Stamp(after, SENTINEL)))
       <==> !Depends(tag, Stamp(map[], SENTINEL), SEEDED)
  {
    var fixed := Stamp(map[], SENTINEL);
    SeededIsNotStamped();
    assert fixed.Keys == STAMPED;
    if Depends(tag, fixed, SEEDED) {
      var full := Full(tag, fixed);
      BlankingShows(tag, fixed, SEEDED, full);
      StampFixes(full);
      StampFixes(Blanked(full, SEEDED));
      assert SameBut(full, Blanked(full, SEEDED), SEEDED);
    } else {
      forall before, after | SameBut(before, after, SEEDED)
        ensures Render(tag, Stamp(before, SENTINEL)) == Render(tag, Stamp(after, SENTINEL))
      {
        StampedSameBut(before, after, SENTINEL, SEEDED);
        StampExtends(before);
        StampExtends(after);
        IndependentRenders(tag, fixed, SEEDED, Stamp(before, SENTINEL), Stamp(after, SENTINEL));
      }
    }
  }

  lemma SeededIsNotStamped()
    ensures SEEDED !! STAMPED && "Binary" !in STAMPED
  {
  }

  lemma StampFixes(vars: Vars)
    requires Extends(vars, Stamp(map[], SENTINEL))
    ensures Stamp(vars, SENTINEL) == vars
  {
    forall k ensures (k in vars <==> k in Stamp(vars, SENTINEL)) && (k in vars ==> vars[k] == Stamp(vars, SENTINEL)[k]) {
      StampAt(vars, SENTINEL, k);
      StampAt(map[], SENTINEL, k);
    }
  }

  lemma StampExtends(vars: Vars)
    ensures Extends(Stamp(vars, SENTINEL), Stamp(map[], SENTINEL))
  {
    forall k | k in Stamp(map[], SENTINEL) ensures k in Stamp(vars, SENTINEL) && Stamp(vars, SENTINEL)[k] == Stamp(map[], SENTINEL)[k] {
      StampAt(vars, SENTINEL, k);
      StampAt(map[], SENTINEL, k);
    }
  }

  lemma StampedSameBut(a: Vars, b: Vars, x: string, keys: set<string>)
    requires SameBut(a, b, keys)
    ensures SameBut(Stamp(a, x), Stamp(b, x), keys)
  {
    forall k | k !in keys ensures (k in Stamp(a, x) <==> k in Stamp(b, x)) && (k in Stamp(a, x) ==> Stamp(a, x)[k] == Stamp(b, x)[k]) {
      StampAt(a, x, k);
      StampAt(b, x, k);
    }
  }

  /** Then the whole deferred tag is unaffected by the target loop. */
  lemma TagIgnoresTargets(tag: Template, before: Vars, after: Vars)
    requires !Depends(tag, Stamp(map[], SENTINEL), SEEDED) && SameBut(before, after, SEEDED)
    ensures TagWithToken(tag, after) == TagWithToken(tag, before)
  {
    TagLocalExactly(tag);
  }

  /** What the loop leaves of a seeded variable is the last target's. */
  lemma WalkLeavesLast(nm: Naming, vars: Vars, env: Vars, init: seq<string>, last: string, k: string)
    requires Walk(nm, vars, env, init + [last]).Ok?
    requires k in SEEDED && k != "Amd64" && k != "Binary"
    ensures var t := TargetVars(last, nm.tools.platform(last));
      k in t && k in Walk(nm, vars, env, init + [last]).value.0 && Walk(nm, vars, env, init + [last]).value.0[k] == t[k]
  {
    assert (init + [last])[..|init|] == init;
    var live := Walk(nm, vars, env, init).value.0;
    var p, binary, level := nm.tools.platform(last), BinaryIn(nm, live, env, last), LevelFor(nm, live, env, last).value;
    SeededKeys(last, p);
    NamedAt(live, last, p, binary, level, k);
  }

  lemma NamedAt(vars: Vars, target: string, p: Platform, binary: string, level: Option<string>, k: string)
    requires k in TargetVars(target, p) && k != "Amd64" && k != "Binary"
    ensures var v := vars + NamingVars(target, p, binary, level); k in v && v[k] == TargetVars(target, p)[k]
  {
    assert k !in LevelVars(level);
  }

  lemma OsIsSeeded()
    ensures "Os" in SEEDED && "Os" !in VARIANTS && "Os" != "Arch" && "Os" != TARGET && "Os" != ABI
  {
    assert |"Os"| == 2 && |"Arch"| == 4 && |TARGET| == 6 && |ABI| == 3;
    assert forall k :: k in VARIANTS ==> |k| > 2;
  }

  lemma OsIsPlain()
    ensures "Os" != "Amd64" && "Os" != "Binary" && "Os" !in STAMPED
  {
    assert |"Os"| == 2 && |"Amd64"| == 5 && |"Binary"| == 6 && |"Version"| == 7 && |"RawVersion"| == 10 && |"Tag"| == 3;
  }

  lemma OsOf(target: string, p: Platform)
    ensures "Os" in TargetVars(target, p) && TargetVars(target, p)["Os"] == p.os
  {
    OsIsSeeded();
    BlankKeys();
    assert ArchVars(p.arch).Keys <= {"Arch"} + VARIANTS;
    assert PlaceVars(target, p.os)["Os"] == p.os;
  }

  lemma PutBackAt(vars: Vars, orig: Vars, keys: set<string>, k: string)
    requires k !in keys
    ensures k in PutBack(vars, orig, keys) <==> k in vars
    ensures k in vars ==> PutBack(vars, orig, keys)[k] == vars[k]
  {
  }

  lemma TagOfOs(vars: Vars)
    requires "Os" !in STAMPED
    ensures "Os" !in vars ==> TagWithToken([Ref("Os")], vars) == Err
    ensures "Os" in vars && vars["Os"] == "linux" ==> TagWithToken([Ref("Os")], vars) == Ok("linux")
  {
    var tag := [Ref("Os")];
    assert tag[1..] == [];
    StampAt(vars, SENTINEL, "Os");
    assert "linux" + "" == "linux" && Trimmed("linux");
    TrimmedIsFixed("linux");
    assert |SENTINEL| > |"linux"|;
  }

  /**
   * A tag that names the OS, in a run over any targets that ends on a Linux one:
   * the caller's own scope would refuse the tag, and the derivation publishes
   * under the last target's OS.
   */
  lemma TagSeesLastTarget(nm: Naming, vars: Vars, env: Vars, init: seq<string>, last: string)
    requires TargetsIn(nm, Stamp(vars, SENTINEL), env) == init + [last] && nm.tools.platform(last).os == "linux"
    requires Assets(Some(nm), Stamp(vars, SENTINEL), env).Ok? && "Os" !in vars
    ensures TagWithToken([Ref("Os")], vars) == Err
    ensures TagWithToken([Ref("Os")], LeftByStamped(Some(nm), vars, env)) == Ok("linux")
  {
    var stamped := Stamp(vars, SENTINEL);
    OsOf(last, nm.tools.platform(last));
    OsIsSeeded();
    OsIsPlain();
    WalkLeavesLast(nm, stamped, env, init, last, "Os");
    PutBackAt(Walk(nm, stamped, env, init + [last]).value.0, stamped, {"Binary"}, "Os");
    PutBackAt(LeftBy(Some(nm), stamped, env), vars, STAMPED, "Os");
    TagOfOs(vars);
    TagOfOs(LeftByStamped(Some(nm), vars, env));
  }
}
