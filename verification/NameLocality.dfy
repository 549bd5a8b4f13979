/** Whether a target's asset name depends on the targets named before it. */
module NameLocality {
  import opened Prelude
  import opened Templates
  import opened TemplateScope
  import opened ArchiveName
  import opened Builds
  import opened BuildPlan
  import opened BuildEnv
  import opened ConfigLevel
  import opened Binstall

  /** A text whose rendering the variables `keys` cannot change. */
  ghost predicate Ignores(tb: Tools, text: string, keys: set<string>) {
    forall a, b, env :: SameBut(a, b, keys) ==> tb.render(a, env, text) == tb.render(b, env, text)
  }

  /** No `binary:` or `skip:` text of the crate reads the `Binary` an earlier target left behind. */
  ghost predicate BinaryFree(nm: Naming) {
    PlannedBuilds(nm.krate).Some? ==>
      forall b, t :: b in PlannedBuilds(nm.krate).value && t in TextsOf(nm.krate, b) ==> Ignores(nm.tools, t, {"Binary"})
  }

  lemma SeededSameBut(a: Vars, b: Vars, target: string, p: Platform)
    requires SameBut(a, b, NAMED)
    ensures SameBut(a + TargetVars(target, p), b + TargetVars(target, p), {"Binary"})
  {
    SeededKeys(target, p);
  }

  lemma NamedSame(a: Vars, b: Vars, target: string, p: Platform, binary: string, level: Option<string>)
    requires SameBut(a, b, NAMED)
    ensures a + NamingVars(target, p, binary, level) == b + NamingVars(target, p, binary, level)
  {
    NamingKeys(target, p, binary, level);
  }

  lemma BoundSame(a: Vars, b: Vars, binary: string)
    requires SameBut(a, b, {"Binary"})
    ensures a["Binary" := binary] == b["Binary" := binary]
  {
  }

  lemma BinaryIsLocal(nm: Naming, a: Vars, b: Vars, env: Vars, target: string)
    requires BinaryFree(nm) && SameBut(a, b, NAMED)
    ensures BinaryIn(nm, a, env, target) == BinaryIn(nm, b, env, target)
  {
    SeededSameBut(a, b, target, nm.tools.platform(target));
    var r, r' := RendererIn(nm.tools, SeededVars(nm, a, target), env), RendererIn(nm.tools, SeededVars(nm, b, target), env);
    if PlannedBuilds(nm.krate).Some? {
      forall x, t | x in PlannedBuilds(nm.krate).value && t in TextsOf(nm.krate, x) ensures r(t) == r'(t) {
        assert Ignores(nm.tools, t, {"Binary"});
      }
    }
    ArchiveNameAlike(nm.krate, nm.ids, nm.binaries, target, nm.defaults, r, r');
  }

  lemma BoundIsLocal(nm: Naming, a: Vars, b: Vars, env: Vars, target: string)
    requires SameBut(a, b, NAMED) && BinaryIn(nm, a, env, target) == BinaryIn(nm, b, env, target)
    ensures BoundVars(nm, a, env, target) == BoundVars(nm, b, env, target)
  {
    SeededSameBut(a, b, target, nm.tools.platform(target));
    BoundSame(SeededVars(nm, a, target), SeededVars(nm, b, target), BinaryIn(nm, a, env, target));
  }

  lemma LevelIsLocal(nm: Naming, a: Vars, b: Vars, env: Vars, target: string)
    requires BoundVars(nm, a, env, target) == BoundVars(nm, b, env, target)
    ensures LevelFor(nm, a, env, target) == LevelFor(nm, b, env, target)
  {
  }

  lemma AssetFollows(nm: Naming, a: Vars, b: Vars, env: Vars, target: string)
    requires LevelFor(nm, a, env, target) == LevelFor(nm, b, env, target)
    requires forall level :: NameVars(nm, a, env, target, level) == NameVars(nm, b, env, target, level)
    ensures AssetIn(nm, a, env, target) == AssetIn(nm, b, env, target)
  {
  }

  /** The asset of a target is the same from any scope that differs only in what naming writes. */
  lemma AssetIsLocal(nm: Naming, a: Vars, b: Vars, env: Vars, target: string)
    requires BinaryFree(nm) && SameBut(a, b, NAMED)
    ensures AssetIn(nm, a, env, target) == AssetIn(nm, b, env, target)
  {
    BinaryIsLocal(nm, a, b, env, target);
    BoundIsLocal(nm, a, b, env, target);
    LevelIsLocal(nm, a, b, env, target);
    forall level ensures NameVars(nm, a, env, target, level) == NameVars(nm, b, env, target, level) {
      NamedSame(a, b, target, nm.tools.platform(target), BinaryIn(nm, a, env, target), level);
    }
    AssetFollows(nm, a, b, env, target);
  }

  /** A walk that gives each target what `want` says, and leaves only naming's variables changed. */
  ghost predicate Tabulates(want: string -> Result<Asset>, vars: Vars, ts: seq<string>, w: Result<(Vars, map<string, Asset>)>) {
    && (w.Ok? <==> forall t :: t in ts ==> want(t).Ok?)
    && (w.Ok? ==> SameBut(w.value.0, vars, NAMED) && forall t :: t in w.value.1 <==> t in ts)
    && (w.Ok? ==> forall t :: t in w.value.1 ==> want(t) == Ok(w.value.1[t]))
  }

  lemma TabulatesStep(want: string -> Result<Asset>, vars: Vars, ts: seq<string>, w: Result<(Vars, map<string, Asset>)>,
                      last: string, after: Vars)
    requires Tabulates(want, vars, ts, w) && (w.Ok? && want(last).Ok? ==> SameBut(after, vars, NAMED))
    ensures Tabulates(want, vars, ts + [last],
      if w.Err? || want(last).Err? then Err else Ok((after, w.value.1[last := want(last).value])))
  {
  }

  lemma WalkStep(nm: Naming, vars: Vars, env: Vars, init: seq<string>, last: string, a: Result<Asset>) returns (after: Vars)
    requires Walk(nm, vars, env, init).Ok? && AssetIn(nm, Walk(nm, vars, env, init).value.0, env, last) == a
    ensures Walk(nm, vars, env, init + [last]) ==
      if a.Err? then Err else Ok((after, Walk(nm, vars, env, init).value.1[last := a.value]))
    ensures a.Ok? ==> SameBut(after, Walk(nm, vars, env, init).value.0, NAMED)
  {
    var live := Walk(nm, vars, env, init).value.0;
    assert (init + [last])[..|init|] == init;
    after := live;
    if a.Ok? {
      var level := LevelFor(nm, live, env, last).value;
      after := NameVars(nm, live, env, last, level);
      NamingStays(live, last, nm.tools.platform(last), BinaryIn(nm, live, env, last), level);
    }
  }

  /**
   * The whole loop, for a crate whose binary names and skip expressions do not
   * read `Binary`: every target gets the name it would get alone, and the loop
   * fails exactly when some target alone would.
   */
  lemma {:induction false} WalkIsLocal(nm: Naming, vars: Vars, env: Vars, ts: seq<string>, want: string -> Result<Asset>)
    requires BinaryFree(nm) && forall t {:trigger AssetIn(nm, vars, env, t)} :: want(t) == AssetIn(nm, vars, env, t)
    ensures Tabulates(want, vars, ts, Walk(nm, vars, env, ts))
    decreases |ts|
  {
    if ts != [] {
      var init, last := ts[..|ts| - 1], ts[|ts| - 1];
      assert ts == init + [last];
      WalkIsLocal(nm, vars, env, init, want);
      var w := Walk(nm, vars, env, init);
      var after := vars;
      if w.Ok? {
        AssetIsLocal(nm, w.value.0, vars, env, last);
        after := WalkStep(nm, vars, env, init, last, want(last));
        if want(last).Ok? { SameButChain(after, w.value.0, vars, NAMED); }
      }
      TabulatesStep(want, vars, init, w, last, after);
    }
  }

  // ------------------------------------------------------------------ exactly when

  /** The text renders as template `ps`. */
  ghost predicate RendersAs(tb: Tools, text: string, ps: Template) {
    forall vars, env :: tb.render(vars, env, text) == Render(ps, vars)
  }

  /** Such a text ignores variables exactly when its template does not depend on them. */
  lemma IgnoresExactly(tb: Tools, text: string, ps: Template, keys: set<string>)
    requires RendersAs(tb, text, ps)
    ensures Ignores(tb, text, keys) <==> !Depends(ps, map[], keys)
  {
    DependsExactly(ps, map[], keys);
    if Ignores(tb, text, keys) {
      forall a, b | SameBut(a, b, keys) ensures Render(ps, a) == Render(ps, b) {
        assert tb.render(a, map[], text) == tb.render(b, map[], text);
      }
    } else {
      var a, b, env :| SameBut(a, b, keys) && tb.render(a, env, text) != tb.render(b, env, text);
      assert Extends(a, map[]) && Extends(b, map[]) && Render(ps, a) != Render(ps, b);
    }
  }

  /** One unconditional build of the target, named by `text`, and no archive filter. */
  predicate OneBuild(nm: Naming, text: string, target: string) {
    && nm.ids.None? && nm.binaries.None? && nm.krate.builds.Some? && |nm.krate.builds.value| == 1
    && var b := nm.krate.builds.value[0];
       b.binary == Some(text) && b.skip.None? && target in TargetsOf(b, nm.defaults)
  }

  lemma OneBuildBinary(nm: Naming, text: string, target: string, vars: Vars, env: Vars)
    requires OneBuild(nm, text, target)
    ensures BinaryIn(nm, vars, env, target) == RenderedOr(RendererIn(nm.tools, SeededVars(nm, vars, target), env), text)
  {
    var r := RendererIn(nm.tools, SeededVars(nm, vars, target), env);
    var k, b := nm.krate, nm.krate.builds.value[0];
    var gate: Gate := b => Skips(r, b);
    assert k.builds.value == [b] && [b][..0] == [] && Entries(k, nm.defaults, gate, []) == [];
    var e := EntryOf(k, nm.defaults, b);
    assert PlannedEntries(k, nm.defaults, gate) == [e];
    assert Packs(r, None, None, target, e);
    assert [e][1..] == [] && Packed(r, None, None, target, []) == [];
    assert Packed(r, None, None, target, [e]) == [RenderedOr(r, text)];
  }

  /** A rendered text, or the raw one when rendering fails. */
  function TextOr(ps: Template, text: string, vars: Vars): string {
    match Render(ps, vars) case Ok(s) => s case Err => text
  }

  lemma OneBuildRenders(nm: Naming, text: string, ps: Template, target: string, vars: Vars, env: Vars)
    requires OneBuild(nm, text, target) && RendersAs(nm.tools, text, ps)
    ensures BinaryIn(nm, vars, env, target) == TextOr(ps, text, vars + TargetVars(target, nm.tools.platform(target)))
  {
    OneBuildBinary(nm, text, target, vars, env);
    var seeded := SeededVars(nm, vars, target);
    assert nm.tools.render(seeded, env, text) == Render(ps, seeded);
  }

  lemma SeededExtends(vars: Vars, t: Vars)
    ensures Extends(vars + t, t)
  {
  }

  lemma SeededDiffer(a: Vars, b: Vars, t: Vars)
    requires t.Keys == SEEDED && SameBut(a, b, NAMED)
    ensures SameBut(a + t, b + t, {"Binary"})
  {
  }

  /** A text rendered over a seeded scope notices what naming left exactly when its template depends on `Binary`. */
  lemma SeededTextExactly(name: Vars -> string, ps: Template, text: string, t: Vars)
    requires t.Keys == SEEDED && "Binary" !in t && forall vars :: name(vars) == TextOr(ps, text, vars + t)
    ensures (forall a, b :: SameBut(a, b, NAMED) ==> name(a) == name(b)) <==> !Depends(ps, t, {"Binary"})
  {
    var keys := {"Binary"};
    if Depends(ps, t, keys) {
      var full := Full(ps, t);
      var blank := Blanked(full, keys);
      BlankingShows(ps, t, keys, full);
      SeededAgain(full, t);
      SeededAgain(blank, t);
      assert name(full) != name(blank);
      assert SameBut(full, blank, NAMED);
    } else {
      forall a, b | SameBut(a, b, NAMED) ensures name(a) == name(b) {
        SeededDiffer(a, b, t);
        SeededExtends(a, t);
        SeededExtends(b, t);
        IndependentRenders(ps, t, keys, a + t, b + t);
      }
    }
  }

  lemma SeededAgain(vars: Vars, t: Vars)
    requires Extends(vars, t)
    ensures vars + t == vars
  {
  }

  /**
   * For a `binary:` that renders as a template, the target's binary, as a function
   * of the live variables, is the same whatever naming left there, if and only if
   * the template does not depend on `Binary` on that target.
   */
  lemma BinaryLocalExactly(nm: Naming, text: string, ps: Template, target: string, env: Vars, name: Vars -> string)
    requires OneBuild(nm, text, target) && RendersAs(nm.tools, text, ps)
    requires forall vars :: name(vars) == BinaryIn(nm, vars, env, target)
    ensures (forall a, b :: SameBut(a, b, NAMED) ==> name(a) == name(b))
       <==> !Depends(ps, TargetVars(target, nm.tools.platform(target)), {"Binary"})
  {
    var t := TargetVars(target, nm.tools.platform(target));
    SeededKeys(target, nm.tools.platform(target));
    BinaryIsFree();
    forall vars ensures name(vars) == TextOr(ps, text, vars + t) {
      OneBuildRenders(nm, text, ps, target, vars, env);
    }
    SeededTextExactly(name, ps, text, t);
  }

  lemma BinaryIsFree()
    ensures "Binary" !in SEEDED
  {
    assert "Binary"[0] == 'B' && "Os"[0] == 'O' && TARGET[0] == 'T' && ABI[0] == 'A' && "Arch"[0] == 'A';
    assert forall k :: k in VARIANTS ==> k != "" && k[0] != 'B';
  }

  /** The leak in a run: `binary: "{{ .Binary }}x"` grows by one letter with every target. */
  lemma LeakingRun(nm: Naming, text: string, vars: Vars, env: Vars, first: string, second: string, level: Option<string>)
    requires OneBuild(nm, text, first) && OneBuild(nm, text, second) && RendersAs(nm.tools, text, [Ref("Binary"), Lit("x")])
    requires "Binary" in vars
    ensures BinaryIn(nm, vars, env, second) == vars["Binary"] + "x"
    ensures BinaryIn(nm, NameVars(nm, vars, env, first, level), env, second) == (vars["Binary"] + "x") + "x"
  {
    BinaryIsFree();
    GrowingBinary(nm, text, vars, env, first);
    GrowingBinary(nm, text, vars, env, second);
    NamingBindsBinary(vars, first, nm.tools.platform(first), BinaryIn(nm, vars, env, first), level);
    GrowingBinary(nm, text, NameVars(nm, vars, env, first, level), env, second);
  }

  lemma GrowingText(vars: Vars, t: Vars, text: string)
    requires "Binary" in vars && "Binary" !in t
    ensures TextOr([Ref("Binary"), Lit("x")], text, vars + t) == vars["Binary"] + "x"
  {
    var seeded, ps := vars + t, [Ref("Binary"), Lit("x")];
    assert ps[1..] == [Lit("x")] && [Lit("x")][1..] == [] && "x" + "" == "x";
    assert Render([Lit("x")], seeded) == Ok("x");
    assert Render(ps, seeded) == Ok(vars["Binary"] + "x");
  }

  lemma GrowingBinary(nm: Naming, text: string, vars: Vars, env: Vars, target: string)
    requires OneBuild(nm, text, target) && RendersAs(nm.tools, text, [Ref("Binary"), Lit("x")])
    requires "Binary" in vars && "Binary" !in SEEDED
    ensures BinaryIn(nm, vars, env, target) == vars["Binary"] + "x"
  {
    OneBuildRenders(nm, text, [Ref("Binary"), Lit("x")], target, vars, env);
    SeededKeys(target, nm.tools.platform(target));
    GrowingText(vars, TargetVars(target, nm.tools.platform(target)), text);
  }

  lemma NamingBindsBinary(vars: Vars, target: string, p: Platform, binary: string, level: Option<string>)
    requires "Binary" !in SEEDED
    ensures var v := vars + NamingVars(target, p, binary, level); "Binary" in v && v["Binary"] == binary
  {
    SeededKeys(target, p);
    assert "Binary" !in LevelVars(level);
  }
}
