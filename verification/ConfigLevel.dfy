/** The config-time CPU level of a crate's build of a target, found in the caller's own template scope. */
module ConfigLevel {
  import opened Prelude
  import opened Text
  import opened Templates
  import opened TemplateScope
  import opened ArchiveName
  import opened BuildScope
  import opened Builds
  import opened BuildEnv
  import opened BuildSelect

  function RendererIn(tb: Tools, vars: Vars, env: Vars): Renderer {
    t => tb.render(vars, env, t)
  }

  /** What the search reads of a build; its skip expression renders in the caller's scope. */
  function CandidateOf(tb: Tools, k: Krate, target: string, vars: Vars, env: Vars, b: Build): Candidate {
    Candidate(b.prebuilt, b.copyFrom, Produces(k, b), TrySkip(RendererIn(tb, vars, env), b), b.targets,
              Ignored(k, b, tb.platform(target)))
  }

  function Candidates(tb: Tools, k: Krate, target: string, vars: Vars, env: Vars, bs: seq<Build>): (cs: seq<Candidate>)
    ensures |cs| == |bs| && forall i :: 0 <= i < |bs| ==> cs[i] == CandidateOf(tb, k, target, vars, env, bs[i])
  {
    seq(|bs|, i requires 0 <= i < |bs| => CandidateOf(tb, k, target, vars, env, bs[i]))
  }

  /** An import has no environment to detect from: its level is declared, else the baseline. */
  function PrebuiltLevel(b: Build, target: string): Option<string> {
    if SplitOn(target, '-')[0] == "x86_64"
    then Some(if b.declared.Some? then b.declared.value else AMD64_BASELINE)
    else None
  }

  /** An import on x86-64 has the declared level, else the baseline; elsewhere none. */
  lemma ImportLevel(b: Build, target: string)
    ensures SplitOn(target, '-')[0] == "x86_64" && b.declared.Some? ==> PrebuiltLevel(b, target) == b.declared
    ensures SplitOn(target, '-')[0] == "x86_64" && b.declared.None? ==> PrebuiltLevel(b, target) == Some("v1")
    ensures SplitOn(target, '-')[0] != "x86_64" ==> PrebuiltLevel(b, target) == None
  {
  }

  /** The level build `b` gives: an error when its skip expression is broken. */
  ghost function BuildLevel(tb: Tools, k: Krate, b: Build, target: string, defaults: seq<string>, vars: Vars, env: Vars): Result<Option<string>> {
    if Judge(CandidateOf(tb, k, target, vars, env, b), target, defaults) == Broken then Err
    else if b.prebuilt then Ok(PrebuiltLevel(b, target))
    else Projected(tb, k, b, target, vars, env)
  }

  lemma DecidesUnique(cs: seq<Candidate>, target: string, defaults: seq<string>, i: nat, j: nat)
    requires Decides(cs, target, defaults, i) && Decides(cs, target, defaults, j)
    ensures i == j
  {
    assert Before(cs, i, j) && Before(cs, j, i);
  }

  /** The level of a crate's build of `target`, as a function of the caller's variables and template env. */
  ghost function LevelIn(tb: Tools, k: Krate, target: string, defaults: seq<string>, vars: Vars, env: Vars): Result<Option<string>> {
    if !("x86_64" <= target) || PlannedBuilds(k).None? then Ok(None)
    else
      var bs := PlannedBuilds(k).value;
      var i := Deciding(Candidates(tb, k, target, vars, env, bs), target, defaults);
      if i.Some? then BuildLevel(tb, k, bs[i.value], target, defaults, vars, env) else Ok(None)
  }

  /** The build that decides, if any. */
  ghost function Deciding(cs: seq<Candidate>, target: string, defaults: seq<string>): (r: Option<nat>)
    ensures r.Some? ==> Decides(cs, target, defaults, r.value)
  {
    if i: nat :| Decides(cs, target, defaults, i) then Some(i) else None
  }

  /** The deciding build gives the level. */
  lemma LevelOfDeciding(tb: Tools, k: Krate, target: string, defaults: seq<string>, vars: Vars, env: Vars, i: nat)
    requires "x86_64" <= target && PlannedBuilds(k).Some?
    requires Decides(Candidates(tb, k, target, vars, env, PlannedBuilds(k).value), target, defaults, i)
    ensures LevelIn(tb, k, target, defaults, vars, env) ==
      BuildLevel(tb, k, PlannedBuilds(k).value[i], target, defaults, vars, env)
  {
    var cs := Candidates(tb, k, target, vars, env, PlannedBuilds(k).value);
    forall j: nat | Decides(cs, target, defaults, j) ensures j == i {
      DecidesUnique(cs, target, defaults, i, j);
    }
  }

  /** The level is the one of the first eligible build of the lowest class; the caller's variables and env are untouched. */
  method ConfigTimeAmd64Variant(tv: TemplateVars, tb: Tools, k: Krate, target: string, defaults: seq<string>)
    returns (r: Result<Option<string>>)
    modifies tv
    ensures tv.vars == old(tv.vars) && tv.env == old(tv.env)
    ensures tv.structured == old(tv.structured) || tv.structured == old(tv.structured) - BUILD_VARS
    ensures r == LevelIn(tb, k, target, defaults, old(tv.vars), old(tv.env))
  {
    if !("x86_64" <= target) || PlannedBuilds(k).None? {
      return Ok(None);
    }
    var bs := PlannedBuilds(k).value;
    var cs := Candidates(tb, k, target, tv.vars, tv.env, bs);
    var i := Select(cs, target, defaults);
    if i.None? {
      return Ok(None);
    }
    LevelOfDeciding(tb, k, target, defaults, tv.vars, tv.env, i.value);
    var b := bs[i.value];
    if cs[i.value].skip.Err? {
      return Err;
    }
    if b.prebuilt {
      return Ok(PrebuiltLevel(b, target));
    }
    r := BuildEnvAmd64Variant(tv, tb, k, b, target);
  }
}
