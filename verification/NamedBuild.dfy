/** The build a name's `Binary` comes from, against the build its CPU level comes from. */
module NamedBuild {
  import opened Prelude
  import opened Templates
  import opened ArchiveName
  import opened Builds
  import opened BuildPlan
  import opened BuildEnv
  import opened BuildSelect
  import opened ConfigLevel
  import opened BuiltTargets

  /** What an archive without filters packs on a target. */
  predicate Releases(k: Krate, r: Renderer, defaults: seq<string>, target: string, b: Build) {
    Produces(k, b) && !Skips(r, b) && target in TargetsOf(b, defaults)
  }

  /** The first released build heads the packed binaries. */
  lemma {:induction false} PackedFirst(k: Krate, r: Renderer, g: Gate, defaults: seq<string>, target: string, bs: seq<Build>, i: nat)
    requires i <= |bs| && forall b :: g(b) == Skips(r, b)
    requires forall j :: 0 <= j < i ==> !Releases(k, r, defaults, target, bs[j])
    requires i < |bs| ==> Releases(k, r, defaults, target, bs[i])
    ensures var bins := Packed(r, None, None, target, Entries(k, defaults, g, bs));
      if i == |bs| then bins == [] else bins != [] && bins[0] == RenderedOr(r, BinaryOrName(k, bs[i]))
    decreases |bs|
  {
    if bs != [] {
      var n := |bs| - 1;
      var init, last := bs[..n], bs[n];
      var es := Entries(k, defaults, g, init);
      PackedFirst(k, r, g, defaults, target, init, if i < n then i else n);
      if Produces(k, last) && !g(last) {
        PackedAppend(r, None, None, target, es, [EntryOf(k, defaults, last)]);
        PackedOne(k, r, None, None, target, defaults, last);
      } else {
        assert es + [] == es;
      }
    }
  }

  /** Planning has nothing undecided: skip expressions render, nothing is ignored, imports list their targets. */
  ghost predicate Settled(tb: Tools, k: Krate, target: string, vars: Vars, env: Vars, bs: seq<Build>) {
    forall b :: b in bs ==>
      && TrySkip(RendererIn(tb, vars, env), b).Ok?
      && !Ignored(k, b, tb.platform(target))
      && (b.prebuilt ==> b.targets.Some?)
  }

  /** Then the level search and the archive consider the same builds. */
  lemma SameBuilds(tb: Tools, k: Krate, target: string, defaults: seq<string>, vars: Vars, env: Vars, bs: seq<Build>, b: Build)
    requires Settled(tb, k, target, vars, env, bs) && b in bs
    ensures Stops(CandidateOf(tb, k, target, vars, env, b), target, defaults) <==>
      Releases(k, RendererIn(tb, vars, env), defaults, target, b)
  {
  }

  /**
   * An unfiltered archive is named after the first released build in config
   * order, and takes its level from the first in class order (imports, compiles,
   * copies). They are the same build if and only if no released build of a lower
   * class follows the first one.
   */
  lemma NamedAndLevelledExactly(tb: Tools, k: Krate, target: string, defaults: seq<string>, vars: Vars, env: Vars, bs: seq<Build>, i: nat, j: nat)
    requires Settled(tb, k, target, vars, env, bs)
    requires i < |bs| && Releases(k, RendererIn(tb, vars, env), defaults, target, bs[i])
    requires forall x :: 0 <= x < i ==> !Releases(k, RendererIn(tb, vars, env), defaults, target, bs[x])
    requires Decides(Candidates(tb, k, target, vars, env, bs), target, defaults, j)
    ensures Packed(RendererIn(tb, vars, env), None, None, target, Entries(k, defaults, b => Skips(RendererIn(tb, vars, env), b), bs)) != []
    ensures Packed(RendererIn(tb, vars, env), None, None, target, Entries(k, defaults, b => Skips(RendererIn(tb, vars, env), b), bs))[0]
         == RenderedOr(RendererIn(tb, vars, env), BinaryOrName(k, bs[i]))
    ensures i == j <==>
      forall x :: 0 <= x < |bs| && Releases(k, RendererIn(tb, vars, env), defaults, target, bs[x]) ==>
        Class(CandidateOf(tb, k, target, vars, env, bs[i])) <= Class(CandidateOf(tb, k, target, vars, env, bs[x]))
  {
    var r := RendererIn(tb, vars, env);
    PackedFirst(k, r, b => Skips(r, b), defaults, target, bs, i);
    var cs := Candidates(tb, k, target, vars, env, bs);
    forall x | 0 <= x < |bs| ensures Stops(cs[x], target, defaults) <==> Releases(k, r, defaults, target, bs[x]) {
      SameBuilds(tb, k, target, defaults, vars, env, bs, bs[x]);
    }
    assert Before(cs, j, i);
    if i != j {
      assert i < j && Class(cs[j]) < Class(cs[i]);
    }
  }

  /** The level search picks a build exactly when the build stage builds the target with it. */
  lemma ChosenIsBuilt(tb: Tools, k: Krate, target: string, defaults: seq<string>, vars: Vars, env: Vars, b: Build)
    requires TrySkip(RendererIn(tb, vars, env), b).Ok?
    ensures Judge(CandidateOf(tb, k, target, vars, env, b), target, defaults) == Chosen <==>
      Builds1(k, RendererIn(tb, vars, env), defaults, tb.platform, b, target)
  {
  }

  /** A copy that is listed before the compile it copies still comes after it. */
  lemma CompileBeforeCopy(tb: Tools, k: Krate, target: string, defaults: seq<string>, vars: Vars, env: Vars, copy: Build, compile: Build)
    requires Settled(tb, k, target, vars, env, [copy, compile]) && !copy.prebuilt && copy.copyFrom && !compile.prebuilt && !compile.copyFrom
    requires Releases(k, RendererIn(tb, vars, env), defaults, target, copy)
    requires Releases(k, RendererIn(tb, vars, env), defaults, target, compile)
    ensures Decides(Candidates(tb, k, target, vars, env, [copy, compile]), target, defaults, 1)
  {
    var bs := [copy, compile];
    SameBuilds(tb, k, target, defaults, vars, env, bs, copy);
    SameBuilds(tb, k, target, defaults, vars, env, bs, compile);
    var cs := Candidates(tb, k, target, vars, env, bs);
    assert Class(cs[1]) == 1 && Class(cs[0]) == 2;
    forall x | 0 <= x < |bs| && Stops(cs[x], target, defaults) ensures Before(cs, 1, x) {
      assert x == 0 || x == 1;
    }
  }

  /** A compile followed by an import of the same target: named after the one, levelled by the other. */
  lemma ImportAfterCompile(tb: Tools, k: Krate, target: string, defaults: seq<string>, vars: Vars, env: Vars, compile: Build, prebuilt: Build)
    requires Settled(tb, k, target, vars, env, [compile, prebuilt]) && !compile.prebuilt && prebuilt.prebuilt
    requires Releases(k, RendererIn(tb, vars, env), defaults, target, compile)
    requires Releases(k, RendererIn(tb, vars, env), defaults, target, prebuilt)
    ensures Decides(Candidates(tb, k, target, vars, env, [compile, prebuilt]), target, defaults, 1)
  {
    var bs := [compile, prebuilt];
    SameBuilds(tb, k, target, defaults, vars, env, bs, compile);
    SameBuilds(tb, k, target, defaults, vars, env, bs, prebuilt);
    var cs := Candidates(tb, k, target, vars, env, bs);
    assert Class(cs[1]) == 0;
    forall x | 0 <= x < |bs| && Stops(cs[x], target, defaults) ensures Before(cs, 1, x) {
      assert x == 0 || x == 1;
    }
  }
}
