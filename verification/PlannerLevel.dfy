/** The planner's CPU level of a build, and when the config-time projection agrees with it. */
module PlannerLevel {
  import opened Prelude
  import opened Text
  import opened Templates
  import opened BuildScope
  import opened Builds
  import opened BuildEnv
  import opened RustFlags
  import opened ReproFlags
  import opened TargetEnv

  /** Keys the planner adds that play no part in flag selection. */
  predicate Unrelated(targetKey: string, extra: TargetEnv.Env) {
    ENCODED !in extra && PLAIN !in extra && targetKey !in extra
  }

  /** The environment the planner hands to cargo for a compile build. */
  ghost function PlannerEnv(tb: Tools, b: Build, m: TargetEnv.Env, cwd: string, msvc: bool, extra: TargetEnv.Env): TargetEnv.Env {
    if b.reproducible
    then m[PLAIN := Reproducible(FlagsIn(m), FlagsIn(tb.process), cwd, msvc)] + extra
    else m
  }

  /** The level the planner stamps: the declared one, else what it detects. */
  ghost function Stamped(tb: Tools, b: Build, target: string, env: TargetEnv.Env): Option<string> {
    var declared := DeclaredLevel(b, target);
    if declared.Some? then declared else Amd64VariantFromEnv(target, env, tb.process, tb.targetKey(target))
  }

  /** The planner's level in its own variables and template env; a failing pattern or override fails the plan. */
  ghost function Planned(tb: Tools, k: Krate, b: Build, target: string, vars: Vars, env: Vars,
                         cwd: string, msvc: bool, extra: TargetEnv.Env): Result<Option<string>> {
    var raw := Resolution(b.env, tb.globs, target);
    if raw.Err? then Err
    else if b.copyFrom then Ok(Stamped(tb, b, target, RawOf(raw.value)))
    else
      var m := EnvIn(tb, k, b, target, vars, env, raw.value);
      if m.Err? then Err else Ok(Stamped(tb, b, target, PlannerEnv(tb, b, m.value, cwd, msvc, extra)))
  }

  lemma BaseFlagsDetect(tb: Tools, b: Build, m: TargetEnv.Env)
    requires b.reproducible
    ensures PLAIN in WithBaseFlags(tb, b, m)
    ensures Detect(WithBaseFlags(tb, b, m)[PLAIN]) == Detect(ReproBase(FlagsIn(m), FlagsIn(tb.process)))
  {
    if PLAIN in m && !Blank(m[PLAIN]) {
      TrimTokens(m[PLAIN]);
    } else if PLAIN in tb.process {
      TrimTokens(tb.process[PLAIN]);
    }
  }

  lemma ReproducibleDetect(own: Option<string>, inherited: Option<string>, cwd: string, msvc: bool)
    requires Detect(RemapRule(cwd)) == None
    ensures Detect(Reproducible(own, inherited, cwd, msvc)) == Detect(ReproBase(own, inherited))
  {
    var base := ReproBase(own, inherited);
    WithRemapLevel(base, cwd);
    MergedKeepsLevel(WithRemap(base, cwd));
  }

  /** Two environments that agree on the encoded tier, and whose plain flags detect alike, give one level. */
  lemma SameTiers(target: string, process: RustFlags.Env, key: string, a: TargetEnv.Env, b: TargetEnv.Env)
    requires ENCODED in a <==> ENCODED in b
    requires ENCODED in a ==> a[ENCODED] == b[ENCODED]
    requires PLAIN in a && PLAIN in b && Detect(a[PLAIN]) == Detect(b[PLAIN])
    ensures Amd64VariantFromEnv(target, a, process, key) == Amd64VariantFromEnv(target, b, process, key)
  {
  }

  /** What the projection reads and what the planner hands to cargo detect alike, for one rendered environment. */
  lemma CompileEnvsAgree(tb: Tools, b: Build, target: string, m: TargetEnv.Env, cwd: string, msvc: bool, extra: TargetEnv.Env)
    requires b.reproducible ==> Detect(cwd[WordLen(cwd)..]) == None && Unrelated(tb.targetKey(target), extra)
    ensures Amd64VariantFromEnv(target, WithBaseFlags(tb, b, m), tb.process, tb.targetKey(target))
         == Amd64VariantFromEnv(target, PlannerEnv(tb, b, m, cwd, msvc, extra), tb.process, tb.targetKey(target))
  {
    if b.reproducible {
      var flags := Reproducible(FlagsIn(m), FlagsIn(tb.process), cwd, msvc);
      RuleLevelExactly(cwd);
      BaseFlagsDetect(tb, b, m);
      ReproducibleDetect(FlagsIn(m), FlagsIn(tb.process), cwd, msvc);
      SameTiers(target, tb.process, tb.targetKey(target), WithBaseFlags(tb, b, m), m[PLAIN := flags] + extra);
    }
  }

  // ------------------------------------------------------------- two rendering scopes

  /** A text that renders alike in two sets of variables, whatever the template env. */
  ghost predicate Alike(tb: Tools, a: Vars, b: Vars, text: string) {
    forall env :: tb.render(a, env, text) == tb.render(b, env, text)
  }

  /** Every env value and every override value of a build renders alike. */
  ghost predicate AllAlike(tb: Tools, a: Vars, b: Vars, raw: TargetEnv.Env, entries: Result<seq<(string, string)>>) {
    && (forall k :: k in raw ==> Alike(tb, a, b, raw[k]))
    && (entries.Ok? ==> forall i :: 0 <= i < |entries.value| ==> Alike(tb, a, b, entries.value[i].1))
  }

  lemma {:induction false} CascadeAlike(tb: Tools, a: Vars, b: Vars, env: Vars, raw: TargetEnv.Env, ks: seq<string>)
    requires (forall k :: k in ks ==> k in raw) && forall k :: k in raw ==> Alike(tb, a, b, raw[k])
    ensures Cascade(tb, a, env, raw, ks) == Cascade(tb, b, env, raw, ks)
    decreases |ks|
  {
    if ks != [] {
      CascadeAlike(tb, a, b, env, raw, ks[..|ks| - 1]);
    }
  }

  lemma {:induction false} OverlayAlike(tb: Tools, a: Vars, b: Vars, env: Vars, m: TargetEnv.Env, entries: seq<(string, string)>)
    requires forall i :: 0 <= i < |entries| ==> Alike(tb, a, b, entries[i].1)
    ensures Overlay(tb, a, env, m, entries) == Overlay(tb, b, env, m, entries)
    decreases |entries|
  {
    if entries != [] {
      var n := |entries| - 1;
      assert forall i :: 0 <= i < n ==> entries[..n][i] == entries[i];
      OverlayAlike(tb, a, b, env, m, entries[..n]);
      assert Alike(tb, a, b, entries[n].1);
    }
  }

  lemma RenderedAlike(tb: Tools, a: Vars, b: Vars, env: Vars, raw: TargetEnv.Env, entries: Result<seq<(string, string)>>)
    requires AllAlike(tb, a, b, raw, entries)
    ensures RenderedEnv(tb, a, env, raw, entries) == RenderedEnv(tb, b, env, raw, entries)
  {
    var ks := SortedOf(raw.Keys);
    assert forall k :: k in ks <==> k in Elements(ks);
    CascadeAlike(tb, a, b, env, raw, ks);
    if entries.Ok? {
      var (env1, m) := Cascade(tb, a, env, raw, ks);
      OverlayAlike(tb, a, b, env1, m, entries.value);
    }
  }

  /**
   * The projection, in its own scope (where the sentinel stands for the version),
   * gives the level the planner gives in the planner's scope: for every build and
   * every inherited environment, when the build's env texts render alike in the
   * two seeded scopes and, for a reproducible build, the working directory names
   * no level. A declared level needs neither.
   */
  lemma ProjectionMatchesPlanner(tb: Tools, k: Krate, b: Build, target: string, vars: Vars, planner: Vars, env: Vars,
                                 cwd: string, msvc: bool, extra: TargetEnv.Env)
    requires Planned(tb, k, b, target, planner, env, cwd, msvc, extra).Ok?
    requires b.reproducible ==> Detect(cwd[WordLen(cwd)..]) == None && Unrelated(tb.targetKey(target), extra)
    requires var table := BuildTable(target, tb.platform(target), IdOf(b));
      AllAlike(tb, vars + table, planner + table, RawOf(Resolution(b.env, tb.globs, target).value), OverrideEntries(tb, k, b, target))
    ensures Projected(tb, k, b, target, vars, env) == Planned(tb, k, b, target, planner, env, cwd, msvc, extra)
  {
    var raw := Resolution(b.env, tb.globs, target).value;
    var table := BuildTable(target, tb.platform(target), IdOf(b));
    RenderedAlike(tb, vars + table, planner + table, env, RawOf(raw), OverrideEntries(tb, k, b, target));
    if !b.copyFrom {
      CompileEnvsAgree(tb, b, target, EnvIn(tb, k, b, target, vars, env, raw).value, cwd, msvc, extra);
    }
  }
}
