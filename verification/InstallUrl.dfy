/** The whole download URL: what the installer gets for a version, against what the release uploads. */
module InstallUrl {
  import opened Prelude
  import opened Text
  import opened Templates
  import opened TemplateScope
  import opened ArchiveName
  import opened ArchiveStage
  import opened BuildScope
  import opened Builds
  import opened DeferredVersion
  import opened ReleaseSpelling
  import opened Binstall
  import opened NameLocality

  /** A pattern without `c` cannot straddle it. */
  lemma SeparatorSplits(a: string, c: char, b: string, pat: string)
    requires pat != "" && c !in pat && !Contains(a, pat) && !Contains(b, pat)
    ensures !Contains(a + [c] + b, pat)
  {
    var s := a + [c] + b;
    forall i | 0 <= i <= |s| ensures !At(s, pat, i) {
      if i + |pat| <= |a| {
        assert s == a + ([c] + b);
        AtExtends(a, [c] + b, pat, i);
      } else if i > |a| {
        assert s[|a| + 1..] == b;
        ShiftedAt(s, pat, |a| + 1, i);
      } else if i + |pat| <= |s| {
        assert s[i..i + |pat|][|a| - i] == c;
      }
    }
  }

  lemma ShiftedAt(s: string, pat: string, n: nat, i: nat)
    requires n <= i <= |s|
    ensures At(s, pat, i) == At(s[n..], pat, i - n)
  {
    if i + |pat| <= |s| {
      assert s[n..][i - n..i - n + |pat|] == s[i..i + |pat|];
    }
  }

  ghost predicate Free(rs: seq<string>, pat: string) {
    forall i :: 0 <= i < |rs| ==> !Contains(rs[i], pat)
  }

  /** Two run lists with a slash between them. */
  function Slash(a: seq<string>, b: seq<string>): (r: seq<string>)
    requires a != [] && b != []
    ensures r != []
  {
    Glue(Glue(a, ["/"]), b)
  }

  lemma JoinSlash(a: seq<string>, b: seq<string>, x: string)
    requires a != [] && b != []
    ensures Join(Slash(a, b), x) == Join(a, x) + "/" + Join(b, x)
  {
    JoinGlue(a, ["/"], x);
    JoinGlue(Glue(a, ["/"]), b, x);
    assert Join(["/"], x) == "/";
  }

  lemma SlashFree(a: seq<string>, b: seq<string>, pat: string)
    requires a != [] && b != [] && pat != "" && '/' !in pat && Free(a, pat) && Free(b, pat)
    ensures Free(Slash(a, b), pat)
  {
    var n := |a| - 1;
    var seam := a[n] + ['/'] + b[0];
    SeparatorSplits(a[n], '/', b[0], pat);
    assert Glue(a, ["/"]) == a[..n] + [a[n] + "/"];
    assert Slash(a, b) == a[..n] + [seam] + b[1..];
  }

  /** The part of a download URL before the tag. */
  function Downloads(rel: Release): string {
    rel.base + "/" + rel.owner + "/" + rel.repo + "/releases/download"
  }

  lemma UrlParts(rel: Release, tag: string, asset: string)
    ensures PkgUrl(rel, tag, asset) == Downloads(rel) + "/" + tag + "/" + asset
  {
    assert "/releases/download/" == "/releases/download" + "/";
    var head := rel.base + "/" + rel.owner + "/" + rel.repo;
    assert head + "/releases/download/" == Downloads(rel) + "/";
  }

  lemma DownloadFields(tag: string, asset: string)
    requires '/' !in tag && '/' !in asset
    ensures SplitOn("releases" + ['/'] + ("download" + ['/'] + (tag + ['/'] + asset)), '/') == ["releases", "download", tag, asset]
  {
    var last := tag + ['/'] + asset;
    SplitNone(asset, '/');
    SplitFirst(tag, '/', asset);
    SplitFirst("download", '/', last);
    SplitFirst("releases", '/', "download" + ['/'] + last);
  }

  lemma RepoFields(base: string, owner: string, repo: string, tail: string)
    requires '/' !in owner && '/' !in repo
    ensures SplitOn(base + ['/'] + (owner + ['/'] + (repo + ['/'] + tail)), '/') == SplitOn(base, '/') + ([owner, repo] + SplitOn(tail, '/'))
  {
    SplitFirst(repo, '/', tail);
    SplitFirst(owner, '/', repo + ['/'] + tail);
    SplitJoined(base, '/', owner + ['/'] + (repo + ['/'] + tail));
  }

  /** Read field by field: the forge's own fields, owner, repository, the two fixed words, tag and asset. */
  lemma UrlFields(rel: Release, tag: string, asset: string)
    requires '/' !in rel.owner && '/' !in rel.repo && '/' !in tag && '/' !in asset
    ensures SplitOn(PkgUrl(rel, tag, asset), '/') ==
      SplitOn(rel.base, '/') + ([rel.owner, rel.repo] + ["releases", "download", tag, asset])
  {
    var last := tag + ['/'] + asset;
    var tail := "releases" + ['/'] + ("download" + ['/'] + last);
    DownloadFields(tag, asset);
    RepoFields(rel.base, rel.owner, rel.repo, tail);
    UrlSpelled(rel, tag, asset, last, rel.repo + ['/'] + tail);
  }

  lemma UrlSpelled(rel: Release, tag: string, asset: string, last: string, tail: string)
    requires last == tag + ['/'] + asset
    requires tail == rel.repo + ['/'] + ("releases" + ['/'] + ("download" + ['/'] + last))
    ensures PkgUrl(rel, tag, asset) == rel.base + ['/'] + (rel.owner + ['/'] + tail)
  {
    assert "/releases/download/" == "/" + "releases" + "/" + "download" + "/";
  }

  lemma {:induction false} UrlOfRuns(rel: Release, ts: seq<string>, rs: seq<string>, v: string)
    requires ts != [] && rs != [] && Free(ts, TOKEN) && Free(rs, TOKEN) && !Contains(Downloads(rel), TOKEN)
    ensures Replace(PkgUrl(rel, Join(ts, TOKEN), Join(rs, TOKEN)), TOKEN, v) == PkgUrl(rel, Join(ts, v), Join(rs, v))
  {
    var host := [Downloads(rel)];
    var mid := Slash(host, ts);
    var url := Slash(mid, rs);
    UrlIsJoin(rel, ts, rs, TOKEN);
    UrlIsJoin(rel, ts, rs, v);
    SlashFree(host, ts, TOKEN);
    SlashFree(mid, rs, TOKEN);
    TokenFreeIsTidy(url);
    ReplaceTidy(url, TOKEN, v);
  }

  lemma UrlIsJoin(rel: Release, ts: seq<string>, rs: seq<string>, x: string)
    requires ts != [] && rs != []
    ensures PkgUrl(rel, Join(ts, x), Join(rs, x)) == Join(Slash(Slash([Downloads(rel)], ts), rs), x)
  {
    UrlParts(rel, Join(ts, x), Join(rs, x));
    JoinSlash([Downloads(rel)], ts, x);
    JoinSlash(Slash([Downloads(rel)], ts), rs, x);
  }

  // ------------------------------------------------------------ names with version holes

  lemma FillOverlay(a: Holes, b: Holes, x: string)
    ensures Fill(a + b, x) == Fill(a, x) + Fill(b, x)
  {
  }

  lemma FillSolid(vars: Vars, x: string)
    ensures Fill(Solid(vars), x) == vars
  {
    assert forall k :: k in vars ==> Join([vars[k]], x) == vars[k];
  }

  /** The scope a binary's name renders in, with holes for the version. */
  function BinaryHoles(vars: Vars, table: Vars): Holes {
    StampHoles(vars) + Solid(table)
  }

  /** The scope an asset's name renders in; the binary may have holes of its own. */
  function NameHoles(vars: Vars, table: Vars, binary: Holed, level: Option<string>): Holes {
    StampHoles(vars) + (map["Binary" := binary] + Solid(table) + Solid(LevelVars(level)))
  }

  lemma FillBinaryHoles(vars: Vars, table: Vars, x: string)
    ensures Fill(BinaryHoles(vars, table), x) == Stamp(vars, x) + table
  {
    FillOverlay(StampHoles(vars), Solid(table), x);
    FillStamp(vars, x);
    FillSolid(table, x);
  }

  lemma FillOne(k: string, h: Holed, x: string)
    ensures Fill(map[k := h], x) == map[k := Join(h, x)]
  {
  }

  lemma FillNameHoles(vars: Vars, table: Vars, binary: Holed, level: Option<string>, x: string)
    ensures Fill(NameHoles(vars, table, binary, level), x)
         == Stamp(vars, x) + (map["Binary" := Join(binary, x)] + table + LevelVars(level))
  {
    var b: Holes := map["Binary" := binary];
    FillStamp(vars, x);
    FillOne("Binary", binary, x);
    FillSolid(table, x);
    FillSolid(LevelVars(level), x);
    FillOverlay(b, Solid(table), x);
    FillOverlay(b + Solid(table), Solid(LevelVars(level)), x);
    FillOverlay(StampHoles(vars), b + Solid(table) + Solid(LevelVars(level)), x);
  }

  // ------------------------------------------------------------------- the uploaded asset

  /** The name the archive stage gives the asset of a release with variables `release`. */
  function Uploaded(nm: Naming, release: Vars, target: string, binary: string, level: Option<string>): Result<string> {
    AssetName(nm, release + ArchiveVars(target, nm.tools.platform(target), nm.krate.name, binary, level), target)
  }

  /** An archive's asset template: the name template with the format's extension. */
  function AssetTemplate(nm: Naming, target: string): Template {
    nm.template + [Lit("." + nm.format(target))]
  }

  lemma ArchiveAssetName(nm: Naming, vars: Vars, target: string)
    requires nm.format(target) != FORMAT_BINARY
    ensures AssetName(nm, vars, target) == Render(AssetTemplate(nm, target), vars)
  {
    RenderAppend(nm.template, "." + nm.format(target), vars);
  }

  /**
   * The release agrees with the deriving scope on what the template names, apart
   * from the variables `own` that naming sets, and spells the version variables
   * the template names as the stamp does.
   */
  ghost predicate Faithful(ps: Template, vars: Vars, release: Vars, v: string, own: set<string>) {
    && AgreeOn(vars, release, Reads(ps) - STAMPED - own)
    && forall k :: k in Reads(ps) * STAMPED ==> SpelledAsStamped(release, v, k)
  }

  /** Over one table of the naming variables, a faithful release renders what the stamped scope renders. */
  lemma FaithfulRenders(ps: Template, vars: Vars, release: Vars, v: string, m: Vars)
    requires Faithful(ps, vars, release, v, m.Keys)
    ensures Render(ps, Stamp(vars, v) + m) == Render(ps, release + m)
  {
    var a, b := Stamp(vars, v) + m, release + m;
    forall k | k in Reads(ps) ensures (k in a <==> k in b) && (k in a ==> a[k] == b[k]) {
      StampAt(vars, v, k);
      StampAt(release, v, k);
      assert k in STAMPED ==> SpelledAsStamped(release, v, k);
    }
    RenderReads(ps, a, b);
  }

  /** The crate's name makes no difference: the template does not depend on it, or the deriving scope has it. */
  ghost predicate CrateNameSafe(ps: Template, vars: Vars, m: Vars, krate: string) {
    !Depends(ps, m, {CRATE_NAME}) || (CRATE_NAME in vars && vars[CRATE_NAME] == krate)
  }

  lemma CrateNameIsConstant()
    ensures CRATE_NAME !in NAMED && CRATE_NAME !in STAMPED
  {
    CrateNameIsNotSeeded();
    assert |CRATE_NAME| == 9 && |"Binary"| == 6 && |"Version"| == 7 && |"RawVersion"| == 10 && |"Tag"| == 3;
  }

  lemma CrateNameDrops(ps: Template, vars: Vars, m: Vars, krate: string)
    requires CRATE_NAME !in m && CrateNameSafe(ps, vars, m, krate)
    ensures Render(ps, (vars + m)[CRATE_NAME := krate]) == Render(ps, vars + m)
  {
    var a := vars + m;
    if !Depends(ps, m, {CRATE_NAME}) {
      IndependentRenders(ps, m, {CRATE_NAME}, a[CRATE_NAME := krate], a);
    } else {
      assert a[CRATE_NAME := krate] == a;
    }
  }

  /** A faithful release over the archive stage's table renders what the stamped scope renders over the derivation's. */
  lemma ArchivedRenders(ps: Template, vars: Vars, release: Vars, v: string, m: Vars, krate: string)
    requires CRATE_NAME !in m && CRATE_NAME !in STAMPED
    requires Faithful(ps, vars, release, v, m.Keys + {CRATE_NAME}) && CrateNameSafe(ps, vars, m, krate)
    ensures Render(ps, release + m[CRATE_NAME := krate]) == Render(ps, Stamp(vars, v) + m)
  {
    var full := m[CRATE_NAME := krate];
    assert full.Keys == m.Keys + {CRATE_NAME};
    FaithfulRenders(ps, vars, release, v, full);
    MoveUpdate(Stamp(vars, v), m, krate);
    StampAt(vars, v, CRATE_NAME);
    CrateNameDrops(ps, Stamp(vars, v), m, krate);
  }

  /** The producer's name of a faithful release is the deriving scope's name for that version. */
  lemma UploadedIsStamped(nm: Naming, vars: Vars, release: Vars, v: string, target: string, binary: string, level: Option<string>, m: Vars)
    requires nm.format(target) != FORMAT_BINARY && m == NamingVars(target, nm.tools.platform(target), binary, level)
    requires Faithful(AssetTemplate(nm, target), vars, release, v, NAMED + {CRATE_NAME})
    requires CrateNameSafe(AssetTemplate(nm, target), vars, m, nm.krate.name)
    ensures Uploaded(nm, release, target, binary, level) == Render(AssetTemplate(nm, target), Stamp(vars, v) + m)
  {
    NamingKeys(target, nm.tools.platform(target), binary, level);
    CrateNameIsConstant();
    ArchiveIsNaming(target, nm.tools.platform(target), nm.krate.name, binary, level);
    ArchiveAssetName(nm, release + m[CRATE_NAME := nm.krate.name], target);
    ArchivedRenders(AssetTemplate(nm, target), vars, release, v, m, nm.krate.name);
  }

  // ----------------------------------------------------------------- what is derived

  /** The binary the derivation binds is the text with holes `runs`, with the sentinel in the holes. */
  ghost predicate BinaryRuns(nm: Naming, vars: Vars, env: Vars, target: string, runs: Holed) {
    BinaryIn(nm, Stamp(vars, SENTINEL), env, target) == Join(runs, SENTINEL)
  }

  /** For a crate with one build of the target: the runs of its `binary:` template. */
  lemma OneBuildRuns(nm: Naming, text: string, bt: Template, target: string, vars: Vars, env: Vars, hv: Holes)
    requires OneBuild(nm, text, target) && RendersAs(nm.tools, text, bt)
    requires hv == BinaryHoles(vars, TargetVars(target, nm.tools.platform(target))) && Runs(bt, hv, SENTINEL).Ok?
    ensures BinaryRuns(nm, vars, env, target, Runs(bt, hv, SENTINEL).value)
  {
    OneBuildRenders(nm, text, bt, target, Stamp(vars, SENTINEL), env);
    FillBinaryHoles(vars, TargetVars(target, nm.tools.platform(target)), SENTINEL);
    RenderIsJoin(bt, hv, SENTINEL);
  }

  /** The derived asset name, from the holes. */
  lemma DerivedName(nm: Naming, vars: Vars, env: Vars, target: string, runs: Holed, level: Option<string>)
    requires nm.format(target) != FORMAT_BINARY && BinaryRuns(nm, vars, env, target, runs)
    requires LevelFor(nm, Stamp(vars, SENTINEL), env, target) == Ok(level)
    ensures var hv := NameHoles(vars, TargetVars(target, nm.tools.platform(target)), runs, level);
      AssetIn(nm, Stamp(vars, SENTINEL), env, target) ==
        match Render(AssetTemplate(nm, target), Fill(hv, SENTINEL))
        case Ok(name) => Ok(Asset(nm.format(target), name))
        case Err => Err
  {
    var table := TargetVars(target, nm.tools.platform(target));
    FillNameHoles(vars, table, runs, level, SENTINEL);
    ArchiveAssetName(nm, Fill(NameHoles(vars, table, runs, level), SENTINEL), target);
  }

  /**
   * One target's asset, end to end: the derived name, its sentinels swapped for
   * the token, is a list of fixed runs around the token; the release uploads the
   * same runs around `v`.
   */
  lemma AssetResolves(nm: Naming, vars: Vars, env: Vars, release: Vars, v: string, target: string, runs: Holed, level: Option<string>)
    returns (asset: Asset, rs: seq<string>)
    requires nm.format(target) != FORMAT_BINARY && BinaryRuns(nm, vars, env, target, runs)
    requires LevelFor(nm, Stamp(vars, SENTINEL), env, target) == Ok(level)
    requires Resolvable(AssetTemplate(nm, target), NameHoles(vars, TargetVars(target, nm.tools.platform(target)), runs, level), v)
    requires Faithful(AssetTemplate(nm, target), vars, release, v, NAMED + {CRATE_NAME})
    requires CrateNameSafe(AssetTemplate(nm, target), vars,
                           NamingVars(target, nm.tools.platform(target), Join(runs, v), level), nm.krate.name)
    ensures rs != [] && Free(rs, TOKEN)
    ensures AssetIn(nm, Stamp(vars, SENTINEL), env, target) == Ok(asset) && asset.format == nm.format(target)
    ensures Replace(asset.name, SENTINEL, TOKEN) == Join(rs, TOKEN)
    ensures Uploaded(nm, release, target, Join(runs, v), level) == Ok(Join(rs, v))
  {
    var table := TargetVars(target, nm.tools.platform(target));
    var hv, ps := NameHoles(vars, table, runs, level), AssetTemplate(nm, target);
    rs := Runs(ps, hv, SENTINEL).value;
    DefersToRuns(ps, hv, v);
    asset := Asset(nm.format(target), Render(ps, Fill(hv, SENTINEL)).value);
    DerivedName(nm, vars, env, target, runs, level);
    FillNameHoles(vars, table, runs, level, v);
    UploadedIsStamped(nm, vars, release, v, target, Join(runs, v), level,
                      NamingVars(target, nm.tools.platform(target), Join(runs, v), level));
  }

  lemma TagDefers(tag: Template, vars: Vars)
    requires TagWithToken(tag, vars).Ok?
    ensures TagWithToken(tag, vars) == Deferred(tag, Stamp(vars, SENTINEL))
  {
  }

  /** The tag, end to end. */
  lemma TagResolves(tag: Template, vars: Vars, release: Vars, v: string) returns (ts: seq<string>)
    requires TagWithToken(tag, vars).Ok? && Resolvable(tag, StampHoles(vars), v) && Faithful(tag, vars, release, v, {})
    ensures ts != [] && Free(ts, TOKEN)
    ensures TagWithToken(tag, vars) == Ok(Join(ts, TOKEN)) && Render(tag, release) == Ok(Join(ts, v))
  {
    TagDefers(tag, vars);
    ts := StampedRuns(tag, vars, v);
    FaithfulAlone(tag, vars, release, v);
  }

  lemma FaithfulAlone(ps: Template, vars: Vars, release: Vars, v: string)
    requires Faithful(ps, vars, release, v, {})
    ensures Render(ps, Stamp(vars, v)) == Render(ps, release)
  {
    FaithfulRenders(ps, vars, release, v, map[]);
    assert Stamp(vars, v) + map[] == Stamp(vars, v) && release + map[] == release;
  }

  lemma StampedRuns(ps: Template, vars: Vars, v: string) returns (ts: seq<string>)
    requires Resolvable(ps, StampHoles(vars), v)
    ensures ts != [] && Free(ts, TOKEN)
    ensures Deferred(ps, Stamp(vars, SENTINEL)) == Ok(Join(ts, TOKEN)) && Render(ps, Stamp(vars, v)) == Ok(Join(ts, v))
  {
    ts := Runs(ps, StampHoles(vars), SENTINEL).value;
    FillStamp(vars, SENTINEL);
    FillStamp(vars, v);
    DefersToRuns(ps, StampHoles(vars), v);
  }

  lemma OverrideUrl(rel: Release, token: string, target: string, asset: Asset)
    requires PkgFmt(asset.format).Some?
    ensures var o := Overrides(rel, token, map[target := asset]);
      target in o && o[target].pkgUrl == PkgUrl(rel, token, Replace(asset.name, SENTINEL, TOKEN))
  {
  }

  /**
   * The end-to-end promise. A derived URL, with version `v` put in place of the
   * installer's token, is the URL under which the archive stage of a release of
   * `v` uploads that target's archive. The binary may carry the version itself;
   * `tagVars` are the variables the target loop leaves for the tag.
   */
  lemma UrlResolves(rel: Release, nm: Naming, tag: Template, tagVars: Vars, vars: Vars, env: Vars, release: Vars, v: string,
                    target: string, runs: Holed, level: Option<string>)
    returns (asset: Asset, uploaded: string, tagText: string)
    requires PkgFmt(nm.format(target)).Some? && !Contains(Downloads(rel), TOKEN)
    requires TagWithToken(tag, tagVars).Ok? && Resolvable(tag, StampHoles(tagVars), v) && Faithful(tag, tagVars, release, v, {})
    requires BinaryRuns(nm, vars, env, target, runs) && LevelFor(nm, Stamp(vars, SENTINEL), env, target) == Ok(level)
    requires Resolvable(AssetTemplate(nm, target), NameHoles(vars, TargetVars(target, nm.tools.platform(target)), runs, level), v)
    requires Faithful(AssetTemplate(nm, target), vars, release, v, NAMED + {CRATE_NAME})
    requires CrateNameSafe(AssetTemplate(nm, target), vars,
                           NamingVars(target, nm.tools.platform(target), Join(runs, v), level), nm.krate.name)
    ensures AssetIn(nm, Stamp(vars, SENTINEL), env, target) == Ok(asset)
    ensures Uploaded(nm, release, target, Join(runs, v), level) == Ok(uploaded) && Render(tag, release) == Ok(tagText)
    ensures var derived := Overrides(rel, TagWithToken(tag, tagVars).value, map[target := asset]);
      target in derived && Replace(derived[target].pkgUrl, TOKEN, v) == PkgUrl(rel, tagText, uploaded)
  {
    BinaryIsNotInstallable();
    var rs;
    asset, rs := AssetResolves(nm, vars, env, release, v, target, runs, level);
    var ts := TagResolves(tag, tagVars, release, v);
    uploaded, tagText := Join(rs, v), Join(ts, v);
    OverrideUrl(rel, TagWithToken(tag, tagVars).value, target, asset);
    UrlOfRuns(rel, ts, rs, v);
  }

  /** In a whole derivation each override is its target's own, for a crate whose texts do not read `Binary`. */
  lemma DerivedEach(rel: Release, token: string, nm: Naming, vars: Vars, env: Vars, m: map<string, Asset>, t: string, want: string -> Result<Asset>)
    requires BinaryFree(nm) && Assets(Some(nm), vars, env) == Ok(Some(m))
    requires forall t {:trigger AssetIn(nm, vars, env, t)} :: want(t) == AssetIn(nm, vars, env, t)
    ensures t in m <==> t in TargetsIn(nm, vars, env)
    ensures t in m ==> want(t) == Ok(m[t])
    ensures t in Overrides(rel, token, m) <==> t in m && PkgFmt(m[t].format).Some?
    ensures t in Overrides(rel, token, m) ==> Overrides(rel, token, m)[t] == Overrides(rel, token, map[t := m[t]])[t]
  {
    WalkIsLocal(nm, vars, env, TargetsIn(nm, vars, env), want);
  }
}
