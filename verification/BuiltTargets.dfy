/** The targets a crate lists for its assets, against the targets the build stage builds. */
module BuiltTargets {
  import opened Prelude
  import opened Lists
  import opened ArchiveName
  import opened Builds
  import opened BuildPlan

  /** The build stage gives an import no default targets. */
  function StageTargets(b: Build, defaults: seq<string>): seq<string> {
    if b.targets.Some? then b.targets.value else if b.prebuilt then [] else defaults
  }

  function NotIgnored(k: Krate, b: Build, platform: string -> Platform, ts: seq<string>): seq<string> {
    if ts == [] then [] else
      (if Ignored(k, b, platform(ts[0])) then [] else [ts[0]]) + NotIgnored(k, b, platform, ts[1..])
  }

  /** The targets built, build by build; a skip expression that fails to render fails the stage. */
  function BuiltBy(k: Krate, r: Renderer, defaults: seq<string>, platform: string -> Platform, bs: seq<Build>): Result<seq<string>> {
    if bs == [] then Ok([]) else
      var before, b := BuiltBy(k, r, defaults, platform, bs[..|bs| - 1]), bs[|bs| - 1];
      if before.Err? then Err
      else if !Produces(k, b) then before
      else match TrySkip(r, b)
        case Err => Err
        case Ok(true) => before
        case Ok(false) => Ok(before.value + NotIgnored(k, b, platform, StageTargets(b, defaults)))
  }

  function Built(k: Krate, r: Renderer, defaults: seq<string>, platform: string -> Platform): Result<seq<string>> {
    if PlannedBuilds(k).None? then Ok([]) else BuiltBy(k, r, defaults, platform, PlannedBuilds(k).value)
  }

  /** Build `b` is compiled or imported for target `t`. */
  predicate Builds1(k: Krate, r: Renderer, defaults: seq<string>, platform: string -> Platform, b: Build, t: string) {
    Produces(k, b) && !Skips(r, b) && t in StageTargets(b, defaults) && !Ignored(k, b, platform(t))
  }

  lemma {:induction false} NotIgnoredAre(k: Krate, b: Build, platform: string -> Platform, ts: seq<string>, t: string)
    ensures t in NotIgnored(k, b, platform, ts) <==> t in ts && !Ignored(k, b, platform(t))
  {
    if ts != [] {
      NotIgnoredAre(k, b, platform, ts[1..], t);
      assert ts == [ts[0]] + ts[1..];
    }
  }

  lemma {:induction false} BuiltByAre(k: Krate, r: Renderer, defaults: seq<string>, platform: string -> Platform, bs: seq<Build>, t: string)
    requires BuiltBy(k, r, defaults, platform, bs).Ok?
    ensures t in BuiltBy(k, r, defaults, platform, bs).value <==> exists b :: b in bs && Builds1(k, r, defaults, platform, b, t)
    decreases |bs|
  {
    if bs != [] {
      var n := |bs| - 1;
      BuiltByAre(k, r, defaults, platform, bs[..n], t);
      assert forall b :: b in bs <==> b in bs[..n] || b == bs[n];
      NotIgnoredAre(k, bs[n], platform, StageTargets(bs[n], defaults), t);
      var before := BuiltBy(k, r, defaults, platform, bs[..n]).value;
      assert t in BuiltBy(k, r, defaults, platform, bs).value <==> t in before || Builds1(k, r, defaults, platform, bs[n], t);
      if b :| b in bs && Builds1(k, r, defaults, platform, b, t) {
        assert b in bs[..n] || b == bs[n];
      }
      if b :| b in bs[..n] && Builds1(k, r, defaults, platform, b, t) {
        assert b in bs;
      }
      assert bs[n] in bs;
    }
  }

  /** What is built is always listed. */
  lemma BuiltIsListed(k: Krate, r: Renderer, defaults: seq<string>, platform: string -> Platform, g: Gate, t: string)
    requires Built(k, r, defaults, platform).Ok? && forall b :: g(b) == Skips(r, b)
    ensures t in Built(k, r, defaults, platform).value ==> t in TargetList(k, defaults, g)
  {
    TargetListSurvivors(k, defaults, g, t);
    if PlannedBuilds(k).Some? {
      BuiltByAre(k, r, defaults, platform, PlannedBuilds(k).value, t);
    }
  }

  /**
   * A listed target is built if and only if some surviving build that names it
   * does not ignore it (an import has to name it itself). The list never reads
   * the ignore rules.
   */
  lemma ListedIsBuiltExactly(k: Krate, r: Renderer, defaults: seq<string>, platform: string -> Platform, g: Gate, t: string)
    requires Built(k, r, defaults, platform).Ok? && forall b :: g(b) == Skips(r, b)
    requires t in TargetList(k, defaults, g)
    ensures PlannedBuilds(k).Some?
    ensures t in Built(k, r, defaults, platform).value <==>
      exists b :: b in PlannedBuilds(k).value && Produces(k, b) && !Skips(r, b) && t in TargetsOf(b, defaults)
                  && !Ignored(k, b, platform(t)) && (b.prebuilt ==> b.targets.Some?)
  {
    TargetListSurvivors(k, defaults, g, t);
    BuiltByAre(k, r, defaults, platform, PlannedBuilds(k).value, t);
    forall b | Builds1(k, r, defaults, platform, b, t) ensures b.prebuilt ==> b.targets.Some? {
    }
  }

  /** One build that names a target and ignores its platform: the target is listed, named and linked, and never built. */
  lemma IgnoredTargetIsListed(k: Krate, r: Renderer, defaults: seq<string>, platform: string -> Platform, g: Gate, b: Build, t: string)
    requires k.builds == Some([b]) && b.binary.Some? && b.skip.None? && b.targets == Some([t]) && b.ignores == Some([platform(t)])
    requires forall x :: g(x) == Skips(r, x)
    ensures t in TargetList(k, defaults, g)
    ensures Built(k, r, defaults, platform) == Ok([])
  {
    assert b in [b] && Produces(k, b) && !Skips(r, b);
    TargetListSurvivors(k, defaults, g, t);
    assert [b][..0] == [] && BuiltBy(k, r, defaults, platform, []) == Ok([]);
    assert [t][1..] == [] && NotIgnored(k, b, platform, []) == [];
    assert platform(t) in [platform(t)];
    assert NotIgnored(k, b, platform, [t]) == [];
  }
}
