/** The guard against two outputs on one path, and the template variable it advises. */
module ArchPathGuard {
  import opened Prelude
  import opened ArchiveName

  /** One output path about to be written, with what a collision message needs. */
  datatype Claim = Claim(
    path: string,
    crateName: string,
    target: Option<string>,
    level: Option<string>,
    entry: nat,
    binary: Option<string>,
    exposed: set<string>)

  /** What is kept of the claim that took a path. */
  datatype Prior = Prior(
    crateName: string, target: Option<string>, level: Option<string>, entry: nat, binary: Option<string>)

  function Remember(c: Claim): Prior {
    Prior(c.crateName, c.target, c.level, c.entry, c.binary)
  }

  /** The remedy: one variable to add, or distinct templates (with a variable that would also do). */
  datatype Advice = AddVar(name: string) | DistinctTemplates(also: Option<string>)

  type MapTarget = string -> Platform

  /** A build with no explicit target has empty platform tokens. */
  function PlatformOf(mapTarget: MapTarget, target: Option<string>): Platform {
    if target.Some? then mapTarget(target.value) else Platform("", "")
  }

  function Offer(c: Claim, name: string): Advice {
    if name in c.exposed then AddVar(name) else DistinctTemplates(None)
  }

  /** Which variable separates the two claims, chosen by how they differ; first match wins. */
  function Advise(mapTarget: MapTarget, p: Prior, c: Claim): Advice {
    var sameCrate := p.crateName == c.crateName;
    var sameTarget := sameCrate && p.target == c.target;
    if !sameCrate then Offer(c, "CrateName")
    else if sameTarget && p.level == c.level && p.entry != c.entry then
      DistinctTemplates(if p.binary != c.binary && "Binary" in c.exposed then Some("Binary") else None)
    else if sameTarget && p.level == c.level then Offer(c, "Binary")
    else if sameTarget then Offer(c, "Amd64")
    else
      var q, r := PlatformOf(mapTarget, p.target), PlatformOf(mapTarget, c.target);
      if q.os == r.os && q.arch == r.arch then Offer(c, "Target")
      else if q.arch == r.arch && "Os" in c.exposed then Offer(c, "Os")
      else Offer(c, "Arch")
  }

  // -------------------------------------------------------------------- the guard

  class Guard {
    var seen: map<string, Prior>

    constructor ()
      ensures seen == map[]
    {
      seen := map[];
    }

    /** Take the path, or refuse it with advice when an earlier claim has it. */
    method Check(mapTarget: MapTarget, c: Claim) returns (refused: Option<Advice>)
      modifies this
      ensures c.path !in old(seen) ==> refused == None && seen == old(seen)[c.path := Remember(c)]
      ensures c.path in old(seen) ==> refused == Some(Advise(mapTarget, old(seen)[c.path], c)) && seen == old(seen)
    {
      if c.path in seen {
        return Some(Advise(mapTarget, seen[c.path], c));
      }
      seen := seen[c.path := Remember(c)];
      refused := None;
    }
  }

  /** The state after a run of claims. */
  function Seen(cs: seq<Claim>): map<string, Prior> {
    if cs == [] then map[] else
      var before, c := Seen(cs[..|cs| - 1]), cs[|cs| - 1];
      if c.path in before then before else before[c.path := Remember(c)]
  }

  /** Whether the i-th claim of a run is accepted. */
  predicate Accepted(cs: seq<Claim>, i: nat)
    requires i < |cs|
  {
    cs[i].path !in Seen(cs[..i])
  }

  /** What a run answers to its i-th claim. */
  function Answer(mapTarget: MapTarget, cs: seq<Claim>, i: nat): Option<Advice>
    requires i < |cs|
  {
    if Accepted(cs, i) then None else Some(Advise(mapTarget, Seen(cs[..i])[cs[i].path], cs[i]))
  }

  /** Any number of claims checked one after the other. */
  method CheckAll(mapTarget: MapTarget, cs: seq<Claim>) returns (answers: seq<Option<Advice>>)
    ensures |answers| == |cs|
    ensures forall i :: 0 <= i < |cs| ==> answers[i] == Answer(mapTarget, cs, i)
  {
    var guard := new Guard();
    answers := [];
    var i := 0;
    while i < |cs|
      invariant 0 <= i <= |cs| && |answers| == i
      invariant guard.seen == Seen(cs[..i]) && fresh(guard)
      invariant forall j :: 0 <= j < i ==> answers[j] == Answer(mapTarget, cs, j)
    {
      var answer := guard.Check(mapTarget, cs[i]);
      assert answer == Answer(mapTarget, cs, i);
      assert cs[..i + 1][..i] == cs[..i];
      answers := answers + [answer];
      i := i + 1;
    }
  }

  lemma AcceptedInPrefix(cs: seq<Claim>, i: nat, j: nat)
    requires j < i <= |cs|
    ensures cs[..i][j] == cs[j] && (Accepted(cs[..i], j) <==> Accepted(cs, j))
  {
    assert cs[..i][..j] == cs[..j];
  }

  /** A path is taken exactly by the first claim on it. */
  lemma {:induction false} SeenIsFirst(cs: seq<Claim>, path: string)
    ensures path in Seen(cs) <==> exists i :: 0 <= i < |cs| && cs[i].path == path
    ensures path in Seen(cs) ==> exists i ::
      0 <= i < |cs| && cs[i].path == path && Seen(cs)[path] == Remember(cs[i]) && Accepted(cs, i)
    decreases |cs|
  {
    if cs != [] {
      var n := |cs| - 1;
      var init := cs[..n];
      SeenIsFirst(init, path);
      if path in Seen(init) {
        var i :| 0 <= i < |init| && init[i].path == path && Seen(init)[path] == Remember(init[i]) && Accepted(init, i);
        AcceptedInPrefix(cs, n, i);
      } else if cs[n].path == path {
        assert Accepted(cs, n);
      }
      if i :| 0 <= i < |cs| && cs[i].path == path {
        assert i < n ==> init[i] == cs[i];
      }
    }
  }

  /** A claim is refused exactly when an earlier accepted claim has its path; so accepted paths are distinct. */
  lemma RefusedExactly(cs: seq<Claim>, i: nat)
    requires i < |cs|
    ensures !Accepted(cs, i) <==> exists j :: 0 <= j < i && Accepted(cs, j) && cs[j].path == cs[i].path
  {
    var before := cs[..i];
    SeenIsFirst(before, cs[i].path);
    if !Accepted(cs, i) {
      var j :| 0 <= j < i && before[j].path == cs[i].path && Accepted(before, j);
      AcceptedInPrefix(cs, i, j);
    }
    if j :| 0 <= j < i && Accepted(cs, j) && cs[j].path == cs[i].path {
      assert before[j].path == cs[i].path;
    }
  }

  // ------------------------------------------------------------------- the advice

  /** How a stage names architectures: whole, or with 32-bit ARM split into `Arch` and `Arm`. */
  datatype Policy = WholeArch | SplitArm

  function ArchVar(policy: Policy, arch: string): string {
    if policy == SplitArm && "armv" <= arch then "arm" else arch
  }

  function LevelVar(p: Platform, level: Option<string>): string {
    if level.Some? then level.value else if p.arch == "amd64" then AMD64_BASELINE else ""
  }

  /** What the advised variable renders to for a claim. */
  function VarOf(policy: Policy, mapTarget: MapTarget, p: Prior, name: string): string {
    var platform := PlatformOf(mapTarget, p.target);
    match name
    case "CrateName" => p.crateName
    case "Target" => if p.target.Some? then p.target.value else ""
    case "Os" => platform.os
    case "Arch" => ArchVar(policy, platform.arch)
    case "Amd64" => LevelVar(platform, p.level)
    case "Binary" => if p.binary.Some? then p.binary.value else ""
    case _ => ""
  }

  predicate Separates(policy: Policy, mapTarget: MapTarget, p: Prior, c: Claim, name: string) {
    VarOf(policy, mapTarget, p, name) != VarOf(policy, mapTarget, Remember(c), name)
  }

  /** Every triple has an OS token, and 32-bit ARM is named with its variant. */
  ghost predicate TokensOk(mapTarget: MapTarget) {
    forall t :: mapTarget(t).os != "" && mapTarget(t).arch != "arm"
  }

  /** Two different 32-bit ARM variants: one `Arch` once the variant is split off. */
  predicate BothArm(q: Platform, r: Platform) {
    "armv" <= q.arch && "armv" <= r.arch
  }

  /** What an unstated level renders as. */
  function BaseLevel(p: Platform): string {
    if p.arch == "amd64" then AMD64_BASELINE else ""
  }

  /** When adding the advised variable helps, by the variable; each condition reads the two claims only. */
  predicate Helps(policy: Policy, mapTarget: MapTarget, p: Prior, c: Claim, name: string) {
    var q, r := PlatformOf(mapTarget, p.target), PlatformOf(mapTarget, c.target);
    match name
    case "Arch" => q.arch != r.arch && !(policy == SplitArm && BothArm(q, r))
    case "Amd64" => {p.level, c.level} != {None, Some(BaseLevel(r))}
    case "Binary" => p.binary != c.binary && {p.binary, c.binary} != {None, Some("")}
    case _ => true
  }

  lemma ArchHelps(policy: Policy, q: Platform, r: Platform)
    requires q.arch != "arm" && r.arch != "arm"
    ensures ArchVar(policy, q.arch) != ArchVar(policy, r.arch) <==> q.arch != r.arch && !(policy == SplitArm && BothArm(q, r))
  {
    assert "armv" <= q.arch ==> q.arch[3] == 'v';
    assert "armv" <= r.arch ==> r.arch[3] == 'v';
  }

  lemma OptionHelps(a: Option<string>, b: Option<string>, base: string)
    ensures var x, y := if a.Some? then a.value else base, if b.Some? then b.value else base;
      x != y <==> a != b && {a, b} != {None, Some(base)}
  {
    assert a.None? && b.Some? && b.value == base ==> {a, b} == {None, Some(base)};
    assert b.None? && a.Some? && a.value == base ==> {a, b} == {None, Some(base)};
    if {a, b} == {None, Some(base)} {
      assert a in {a, b} && b in {a, b};
    }
  }

  /**
   * Whatever variable the guard advises adding, it takes different values in the
   * two claims exactly in the cases listed: always for `CrateName`, `Target` and
   * `Os`, conditionally for `Arch`, `Amd64` and `Binary`.
   */
  lemma AdviceSeparatesExactly(policy: Policy, mapTarget: MapTarget, p: Prior, c: Claim, name: string)
    requires TokensOk(mapTarget)
    requires Advise(mapTarget, p, c) == AddVar(name)
    ensures Separates(policy, mapTarget, p, c, name) <==> Helps(policy, mapTarget, p, c, name)
  {
    var q, r := PlatformOf(mapTarget, p.target), PlatformOf(mapTarget, c.target);
    ArchHelps(policy, q, r);
    OptionHelps(p.level, c.level, BaseLevel(r));
    OptionHelps(p.binary, c.binary, "");
  }

  /** With every variable exposed, two claims of one config entry always get a variable; two entries are told to differ in their templates. */
  lemma AdviceIsGiven(mapTarget: MapTarget, p: Prior, c: Claim)
    requires {"CrateName", "Target", "Os", "Arch", "Amd64", "Binary"} <= c.exposed
    ensures p.crateName == c.crateName && p.target == c.target && p.level == c.level && p.entry != c.entry ==>
      Advise(mapTarget, p, c) == DistinctTemplates(if p.binary != c.binary then Some("Binary") else None)
    ensures !(p.crateName == c.crateName && p.target == c.target && p.level == c.level && p.entry != c.entry) ==>
      Advise(mapTarget, p, c).AddVar? && Advise(mapTarget, p, c).name in c.exposed
  {
  }

  /** With `Os` exposed and architectures kept whole, the advice always separates. */
  lemma AdviceSeparates(mapTarget: MapTarget, p: Prior, c: Claim, name: string)
    requires TokensOk(mapTarget) && "Os" in c.exposed
    requires p.crateName != c.crateName || p.target != c.target
    requires Advise(mapTarget, p, c) == AddVar(name)
    ensures Separates(WholeArch, mapTarget, p, c, name)
  {
    AdviceSeparatesExactly(WholeArch, mapTarget, p, c, name);
  }

  /** The archive stage splits ARM: two ARM variants of one crate are told to add a variable they share. */
  lemma ArmAdviceFails(mapTarget: MapTarget, a: string, b: string, c: Claim)
    requires mapTarget(a) == Platform("linux", "armv7") && mapTarget(b) == Platform("linux", "armv6")
    requires c.target == Some(b) && "Arch" in c.exposed
    ensures var p := Remember(c).(target := Some(a));
      Advise(mapTarget, p, c) == AddVar("Arch") && !Separates(SplitArm, mapTarget, p, c, "Arch")
  {
    assert "armv7" != "armv6" by { assert "armv7"[4] != "armv6"[4]; }
    assert a != b;
  }

  /** A declared baseline level and an undeclared one are told apart by the guard, but not by `Amd64`. */
  lemma BaselineLevelAdviceFails(policy: Policy, mapTarget: MapTarget, c: Claim)
    requires PlatformOf(mapTarget, c.target).arch == "amd64"
    requires c.level == Some(AMD64_BASELINE) && "Amd64" in c.exposed
    ensures var p := Remember(c).(level := None);
      Advise(mapTarget, p, c) == AddVar("Amd64") && !Separates(policy, mapTarget, p, c, "Amd64")
  {
  }
}
