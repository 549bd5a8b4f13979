/** A crate's build entries, as every planning pass reads them. */
module Builds {
  import opened Prelude
  import opened Text
  import opened ArchiveName

  datatype Skip = Flag(on: bool) | Expr(text: string)

  /** An override: the target patterns it is for, and the outcome of parsing its env entries. */
  datatype Override = Override(targets: seq<string>, env: Option<Result<seq<(string, string)>>>)

  datatype Build = Build(
    id: Option<string>,
    binary: Option<string>,
    targets: Option<seq<string>>,
    prebuilt: bool,
    copyFrom: bool,
    skip: Option<Skip>,
    ignores: Option<seq<Platform>>,
    declared: Option<string>,
    env: Option<map<string, map<string, string>>>,
    overrides: Option<seq<Override>>,
    reproducible: bool)

  /** A crate with the defaults its builds fall back to; `declaresBin` answers the probe for a binary named after it. */
  datatype Krate = Krate(
    name: string,
    builds: Option<seq<Build>>,
    declaresBin: bool,
    defaultIgnores: seq<Platform>,
    defaultOverrides: seq<Override>)

  type Renderer = string -> Result<string>

  const NO_BUILD := Build(None, None, None, false, false, None, None, None, None, None, false)

  function BinaryOrName(k: Krate, b: Build): string {
    if b.binary.Some? then b.binary.value else k.name
  }

  /** A non-empty list as it is; else one synthesised build when the crate has a binary of its own. */
  function PlannedBuilds(k: Krate): Option<seq<Build>> {
    if k.builds.Some? && k.builds.value != [] then k.builds
    else if k.declaresBin then Some([NO_BUILD.(binary := Some(BinaryOrName(k, NO_BUILD)))])
    else None
  }

  predicate Produces(k: Krate, b: Build) {
    b.prebuilt || b.binary.Some? || k.declaresBin
  }

  /** The skip expression's value, a render error kept. */
  function TrySkip(render: Renderer, b: Build): Result<bool> {
    match b.skip
    case None => Ok(false)
    case Some(Flag(on)) => Ok(on)
    case Some(Expr(t)) => match render(t) case Ok(s) => Ok(IsTrueSpelling(s)) case Err => Err
  }

  /** The lenient reading: an expression that fails to render does not skip the build. */
  predicate Skips(render: Renderer, b: Build) {
    TrySkip(render, b) == Ok(true)
  }

  predicate Ignored(k: Krate, b: Build, p: Platform) {
    p in if b.ignores.Some? then b.ignores.value else k.defaultIgnores
  }

  /** A skip expression skips exactly when it renders to a true spelling; a flag is itself; none never skips. */
  lemma SkipsExactly(render: Renderer, b: Build)
    ensures Skips(render, b) <==>
      b.skip == Some(Flag(true)) ||
      (b.skip.Some? && b.skip.value.Expr? && render(b.skip.value.text).Ok? &&
       var t := Trim(render(b.skip.value.text).value);
       t == "1" || (|t| == 4 && t[0] in {'t', 'T'} && t[1] in {'r', 'R'} && t[2] in {'u', 'U'} && t[3] in {'e', 'E'}))
    ensures TrySkip(render, b).Err? <==> b.skip.Some? && b.skip.value.Expr? && render(b.skip.value.text).Err?
  {
    if b.skip.Some? && b.skip.value.Expr? && render(b.skip.value.text).Ok? {
      TrueSpellings(render(b.skip.value.text).value);
    }
  }

  /** Some ignore rule is for this OS and architecture. */
  predicate RuledOut(rules: seq<Platform>, os: string, arch: string) {
    exists i :: 0 <= i < |rules| && rules[i].os == os && rules[i].arch == arch
  }

  /** A build's own ignore rules replace the defaults; a rule is for one OS and architecture. */
  lemma IgnoredExactly(k: Krate, b: Build, os: string, arch: string)
    ensures b.ignores.Some? ==> (Ignored(k, b, Platform(os, arch)) <==> RuledOut(b.ignores.value, os, arch))
    ensures b.ignores.None? ==> (Ignored(k, b, Platform(os, arch)) <==> RuledOut(k.defaultIgnores, os, arch))
  {
    var rules := if b.ignores.Some? then b.ignores.value else k.defaultIgnores;
    if i :| 0 <= i < |rules| && rules[i].os == os && rules[i].arch == arch {
      assert rules[i] == Platform(os, arch);
    }
  }
}
