/**
 * The config-time projection of one build's environment and CPU level. It seeds
 * and cascades through the caller's template scope, and must put it back.
 */
module BuildEnv {
  import opened Prelude
  import opened Text
  import opened Templates
  import opened TemplateScope
  import opened ArchiveName
  import opened BuildScope
  import opened Builds
  import opened RustFlags
  import opened TargetEnv

  /** What a projection takes from its surroundings; a render reads the variables and the template env. */
  datatype Tools = Tools(
    render: (Vars, Vars, string) -> Result<string>,
    expand: string -> string,
    globs: Globs,
    process: RustFlags.Env,
    platform: string -> Platform,
    targetKey: string -> string)

  // --------------------------------------------------------------- matching overrides

  datatype Hit = Miss | Match | Malformed

  /** The first pattern that matches, or that strict mode refuses, decides. */
  function PatternsHit(g: Globs, target: string, ps: seq<string>): Hit {
    if ps == [] then Miss
    else if !g.valid(ps[0]) then (if g.strict then Hit.Malformed else PatternsHit(g, target, ps[1..]))
    else if g.matches(ps[0], target) then Match
    else PatternsHit(g, target, ps[1..])
  }

  function MatchingOverride(g: Globs, target: string, ovs: seq<Override>): Result<Option<Override>> {
    if ovs == [] then Ok(None) else
      match PatternsHit(g, target, ovs[0].targets)
      case Match => Ok(Some(ovs[0]))
      case Malformed => Err
      case Miss => MatchingOverride(g, target, ovs[1..])
  }

  /** A match is the first override with an applicable pattern; without strict mode there is no error. */
  lemma {:induction false} MatchingOverrideIsFirst(g: Globs, target: string, ovs: seq<Override>)
    ensures var r := MatchingOverride(g, target, ovs);
      && (!g.strict ==> r.Ok?)
      && (r.Ok? && r.value.None? ==> forall i, p :: 0 <= i < |ovs| && p in ovs[i].targets ==> !Applies(g, p, target))
      && (r.Ok? && r.value.Some? ==> exists i ::
            && 0 <= i < |ovs| && ovs[i] == r.value.value && (exists p :: p in ovs[i].targets && Applies(g, p, target))
            && forall j, p :: 0 <= j < i && p in ovs[j].targets ==> !Applies(g, p, target))
  {
    if ovs != [] {
      PatternsHitIs(g, target, ovs[0].targets);
      MatchingOverrideIsFirst(g, target, ovs[1..]);
      var tail := MatchingOverride(g, target, ovs[1..]);
      if PatternsHit(g, target, ovs[0].targets) == Miss {
        assert forall i :: 0 < i < |ovs| ==> ovs[i] == ovs[1..][i - 1];
        if tail.Ok? && tail.value.Some? {
          var i :| && 0 <= i < |ovs[1..]| && ovs[1..][i] == tail.value.value
                   && (exists p :: p in ovs[1..][i].targets && Applies(g, p, target))
                   && forall j, p :: 0 <= j < i && p in ovs[1..][j].targets ==> !Applies(g, p, target);
          assert ovs[i + 1] == tail.value.value;
        }
      }
    }
  }

  lemma {:induction false} PatternsHitIs(g: Globs, target: string, ps: seq<string>)
    ensures PatternsHit(g, target, ps) == Miss ==> forall p :: p in ps ==> !Applies(g, p, target)
    ensures PatternsHit(g, target, ps) == Match ==> exists p :: p in ps && Applies(g, p, target)
    ensures PatternsHit(g, target, ps) == Hit.Malformed ==> g.strict
  {
    if ps != [] {
      PatternsHitIs(g, target, ps[1..]);
      assert ps == [ps[0]] + ps[1..];
      if Applies(g, ps[0], target) {
        assert ps[0] in ps;
      } else if PatternsHit(g, target, ps[1..]) == Match {
        var p :| p in ps[1..] && Applies(g, p, target);
        assert p in ps;
      }
    }
  }

  /** The source's nested loops. */
  method FindMatchingOverride(g: Globs, target: string, ovs: seq<Override>) returns (r: Result<Option<Override>>)
    ensures r == MatchingOverride(g, target, ovs)
  {
    var i := 0;
    while i < |ovs|
      invariant 0 <= i <= |ovs|
      invariant MatchingOverride(g, target, ovs[i..]) == MatchingOverride(g, target, ovs)
    {
      assert ovs[i..][1..] == ovs[i + 1..];
      var ps := ovs[i].targets;
      var j := 0;
      while j < |ps|
        invariant 0 <= j <= |ps|
        invariant PatternsHit(g, target, ps[j..]) == PatternsHit(g, target, ps)
      {
        assert ps[j..][1..] == ps[j + 1..];
        if !g.valid(ps[j]) {
          if g.strict {
            return Err;
          }
        } else if g.matches(ps[j], target) {
          return Ok(Some(ovs[i]));
        }
        j := j + 1;
      }
      i := i + 1;
    }
    r := Ok(None);
  }

  /** The env entries of the override that matches, if any. */
  function OverrideEntries(tb: Tools, k: Krate, b: Build, target: string): Result<seq<(string, string)>> {
    match MatchingOverride(tb.globs, target, if b.overrides.Some? then b.overrides.value else k.defaultOverrides)
    case Err => Err
    case Ok(None) => Ok([])
    case Ok(Some(o)) => if o.env.Some? then o.env.value else Ok([])
  }

  /** A build's own overrides stand in for the defaults; only the matching one's entries count. */
  lemma OverrideEntriesAre(tb: Tools, k: Krate, b: Build, target: string)
    ensures var ovs := if b.overrides.Some? then b.overrides.value else k.defaultOverrides;
      && ((forall o: Override, p: string :: o in ovs && p in o.targets ==> tb.globs.valid(p) && !tb.globs.matches(p, target)) ==>
            OverrideEntries(tb, k, b, target) == Ok([]))
      && forall o: Override :: MatchingOverride(tb.globs, target, ovs) == Ok(Some(o)) && o.env.Some? ==>
           OverrideEntries(tb, k, b, target) == o.env.value
  {
    var ovs := if b.overrides.Some? then b.overrides.value else k.defaultOverrides;
    if forall o: Override, p: string :: o in ovs && p in o.targets ==> tb.globs.valid(p) && !tb.globs.matches(p, target) {
      NoOverride(tb.globs, target, ovs);
    }
  }

  lemma {:induction false} NoOverride(g: Globs, target: string, ovs: seq<Override>)
    requires forall o: Override, p: string :: o in ovs && p in o.targets ==> g.valid(p) && !g.matches(p, target)
    ensures MatchingOverride(g, target, ovs) == Ok(None)
  {
    if ovs != [] {
      assert ovs[0] in ovs && forall o :: o in ovs[1..] ==> o in ovs;
      NoPattern(g, target, ovs[0].targets);
      NoOverride(g, target, ovs[1..]);
    }
  }

  lemma {:induction false} NoPattern(g: Globs, target: string, ps: seq<string>)
    requires forall p :: p in ps ==> g.valid(p) && !g.matches(p, target)
    ensures PatternsHit(g, target, ps) == Miss
  {
    if ps != [] {
      assert ps[0] in ps && forall p :: p in ps[1..] ==> p in ps;
      NoPattern(g, target, ps[1..]);
    }
  }

  // ------------------------------------------------------------- rendering the env

  /** A value that fails to render is used raw; either way it is then expanded. */
  function RenderOr(tb: Tools, vars: Vars, env: Vars, v: string): string {
    var r := tb.render(vars, env, v);
    tb.expand(if r.Ok? then r.value else v)
  }

  /** A value goes through the shell expansion whether or not its template renders. */
  lemma RawFallback(tb: Tools, vars: Vars, env: Vars, v: string)
    ensures tb.render(vars, env, v).Err? ==> RenderOr(tb, vars, env, v) == tb.expand(v)
    ensures forall s :: tb.render(vars, env, v) == Ok(s) ==> RenderOr(tb, vars, env, v) == tb.expand(s)
  {
  }

  /** Keys rendered in order, each visible to the later ones through the template env. */
  function Cascade(tb: Tools, vars: Vars, env: Vars, raw: TargetEnv.Env, ks: seq<string>): (Vars, TargetEnv.Env)
    requires forall k :: k in ks ==> k in raw
    decreases |ks|
  {
    if ks == [] then (env, map[]) else
      var k := ks[|ks| - 1];
      var (env1, m) := Cascade(tb, vars, env, raw, ks[..|ks| - 1]);
      var x := RenderOr(tb, vars, env1, raw[k]);
      (env1[k := x], m[k := x])
  }

  function Overlay(tb: Tools, vars: Vars, env: Vars, m: TargetEnv.Env, entries: seq<(string, string)>): TargetEnv.Env
    decreases |entries|
  {
    if entries == [] then m else
      var (k, v) := entries[|entries| - 1];
      Overlay(tb, vars, env, m, entries[..|entries| - 1])[k := RenderOr(tb, vars, env, v)]
  }

  /** The environment of a compile build: the blocks cascaded, then the override's entries. */
  ghost function RenderedEnv(tb: Tools, vars: Vars, env: Vars, raw: TargetEnv.Env, entries: Result<seq<(string, string)>>): Result<TargetEnv.Env> {
    var (env1, m) := Cascade(tb, vars, env, raw, SortedOf(raw.Keys));
    if entries.Err? then Err else Ok(Overlay(tb, vars, env1, m, entries.value))
  }

  function RawOf(raw: Option<TargetEnv.Env>): TargetEnv.Env {
    if raw.Some? then raw.value else map[]
  }

  function FlagsIn(m: TargetEnv.Env): Option<string> {
    if PLAIN in m then Some(m[PLAIN]) else None
  }

  /** A reproducible build always carries flags: blank ones are replaced by the inherited ones. */
  function WithBaseFlags(tb: Tools, b: Build, m: TargetEnv.Env): TargetEnv.Env {
    if b.reproducible && (PLAIN !in m || Blank(m[PLAIN]))
    then m[PLAIN := if PLAIN in tb.process then tb.process[PLAIN] else ""]
    else m
  }

  function DeclaredLevel(b: Build, target: string): Option<string> {
    if "x86_64" <= target then b.declared else None
  }

  function IdOf(b: Build): string {
    if b.id.Some? then b.id.value else ""
  }

  /** The environment of one build in the caller's variables `vars` and template env `env`. */
  ghost function EnvIn(tb: Tools, k: Krate, b: Build, target: string, vars: Vars, env: Vars, raw: Option<TargetEnv.Env>): Result<TargetEnv.Env> {
    RenderedEnv(tb, vars + BuildTable(target, tb.platform(target), IdOf(b)), env, RawOf(raw), OverrideEntries(tb, k, b, target))
  }

  /** The level the projection reports. */
  ghost function Projected(tb: Tools, k: Krate, b: Build, target: string, vars: Vars, env: Vars): Result<Option<string>> {
    var raw := Resolution(b.env, tb.globs, target);
    if DeclaredLevel(b, target).Some? then Ok(DeclaredLevel(b, target))
    else if raw.Err? then Err
    else if b.copyFrom then Ok(Amd64VariantFromEnv(target, RawOf(raw.value), tb.process, tb.targetKey(target)))
    else
      var m := EnvIn(tb, k, b, target, vars, env, raw.value);
      if m.Err? then Err
      else Ok(Amd64VariantFromEnv(target, WithBaseFlags(tb, b, m.value), tb.process, tb.targetKey(target)))
  }

  /** A declared level decides on x86-64 before anything is resolved; off x86-64 no build has a level. */
  lemma DeclaredDecides(tb: Tools, k: Krate, b: Build, target: string, vars: Vars, env: Vars)
    ensures "x86_64" <= target && b.declared.Some? ==> Projected(tb, k, b, target, vars, env) == Ok(b.declared)
    ensures !("x86_64" <= target) && Projected(tb, k, b, target, vars, env).Ok? ==> Projected(tb, k, b, target, vars, env) == Ok(None)
  {
    VariantElsewhere(target);
  }

  lemma VariantElsewhere(target: string)
    ensures !("x86_64" <= target) ==> forall m, process, key :: Amd64VariantFromEnv(target, m, process, key) == None
  {
  }

  function EnvOf(env: TargetEnv.Env, k: string): Option<string> {
    if k in env then Some(env[k]) else None
  }

  lemma {:induction false} CascadeKeeps(tb: Tools, vars: Vars, env: Vars, raw: TargetEnv.Env, ks: seq<string>, k: string)
    requires forall k :: k in ks ==> k in raw
    requires k !in ks
    ensures EnvOf(Cascade(tb, vars, env, raw, ks).0, k) == EnvOf(env, k)
    decreases |ks|
  {
    if ks != [] {
      assert ks == ks[..|ks| - 1] + [ks[|ks| - 1]];
      CascadeKeeps(tb, vars, env, raw, ks[..|ks| - 1], k);
    }
  }

  /** The part of `m` rendered before the j-th key. */
  function RenderedBefore(m: TargetEnv.Env, ks: seq<string>, j: nat): TargetEnv.Env
    requires j <= |ks|
  {
    map k | k in ks[..j] && k in m :: m[k]
  }

  /** The j-th key is rendered under the caller's template env with the keys before it, already rendered, laid over it. */
  ghost predicate RendersAt(tb: Tools, vars: Vars, env: Vars, raw: TargetEnv.Env, ks: seq<string>, m: TargetEnv.Env, j: nat)
    requires j < |ks|
  {
    ks[j] in raw && ks[j] in m && m[ks[j]] == RenderOr(tb, vars, env + RenderedBefore(m, ks, j), raw[ks[j]])
  }

  /**
   * What the cascade promises of `m`: exactly these keys, each rendered after
   * the ones before it.
   */
  ghost predicate Cascades(tb: Tools, vars: Vars, env: Vars, raw: TargetEnv.Env, ks: seq<string>, m: TargetEnv.Env) {
    && (forall k :: k in m <==> k in ks)
    && forall j :: 0 <= j < |ks| ==> RendersAt(tb, vars, env, raw, ks, m, j)
  }

  lemma RenderedBeforeStays(m: TargetEnv.Env, ks: seq<string>, key: string, x: string, j: nat)
    requires key !in ks && j <= |ks|
    ensures RenderedBefore(m[key := x], ks + [key], j) == RenderedBefore(m, ks, j)
  {
    assert (ks + [key])[..j] == ks[..j];
    assert forall k :: k in ks[..j] ==> k in ks;
  }

  lemma RendersAtOld(tb: Tools, vars: Vars, env: Vars, raw: TargetEnv.Env, ks: seq<string>, m: TargetEnv.Env, key: string, x: string, j: nat)
    requires key !in ks && j < |ks| && RendersAt(tb, vars, env, raw, ks, m, j)
    ensures RendersAt(tb, vars, env, raw, ks + [key], m[key := x], j)
  {
    RenderedBeforeStays(m, ks, key, x, j);
    assert (ks + [key])[j] == ks[j] && ks[j] in ks;
  }

  lemma RendersAtNew(tb: Tools, vars: Vars, env: Vars, raw: TargetEnv.Env, ks: seq<string>, m: TargetEnv.Env, key: string, x: string)
    requires forall k :: k in m <==> k in ks
    requires key !in ks && key in raw && x == RenderOr(tb, vars, env + m, raw[key])
    ensures RendersAt(tb, vars, env, raw, ks + [key], m[key := x], |ks|)
  {
    RenderedBeforeStays(m, ks, key, x, |ks|);
    assert ks[..|ks|] == ks && RenderedBefore(m, ks, |ks|) == m;
  }

  lemma CascadesStep(tb: Tools, vars: Vars, env: Vars, raw: TargetEnv.Env, ks: seq<string>, m: TargetEnv.Env, key: string, x: string)
    requires Cascades(tb, vars, env, raw, ks, m) && key !in ks && key in raw && x == RenderOr(tb, vars, env + m, raw[key])
    ensures Cascades(tb, vars, env, raw, ks + [key], m[key := x])
  {
    var ks', m' := ks + [key], m[key := x];
    forall j | 0 <= j < |ks'| ensures RendersAt(tb, vars, env, raw, ks', m', j) {
      if j == |ks| {
        RendersAtNew(tb, vars, env, raw, ks, m, key, x);
      } else {
        RendersAtOld(tb, vars, env, raw, ks, m, key, x, j);
      }
    }
  }

  lemma CascadeSnoc(tb: Tools, vars: Vars, env: Vars, raw: TargetEnv.Env, init: seq<string>, key: string, env0: Vars, m0: TargetEnv.Env, x: string)
    requires (forall k :: k in init ==> k in raw) && key in raw
    requires Cascade(tb, vars, env, raw, init) == (env0, m0) && x == RenderOr(tb, vars, env0, raw[key])
    ensures Cascade(tb, vars, env, raw, init + [key]) == (env0[key := x], m0[key := x])
  {
    assert (init + [key])[..|init|] == init;
  }

  lemma OverlaySnoc(env: Vars, m: Vars, key: string, x: string)
    ensures (env + m)[key := x] == env + m[key := x]
  {
  }

  lemma SortedInit(ks: seq<string>, raw: TargetEnv.Env)
    requires ks != [] && Sorted(ks) && forall k :: k in ks ==> k in raw
    ensures var init, key := ks[..|ks| - 1], ks[|ks| - 1];
      ks == init + [key] && Sorted(init) && key !in init && key in raw && forall k :: k in init ==> k in raw
  {
    SortedPrefixLacks(ks, |ks| - 1);
    assert ks == ks[..|ks| - 1] + [ks[|ks| - 1]];
  }

  /** The cascade keeps that promise, and leaves the rendered keys laid over the template env. */
  lemma {:induction false} CascadeIs(tb: Tools, vars: Vars, env: Vars, raw: TargetEnv.Env, ks: seq<string>)
    requires Sorted(ks) && forall k :: k in ks ==> k in raw
    ensures Cascades(tb, vars, env, raw, ks, Cascade(tb, vars, env, raw, ks).1)
    ensures Cascade(tb, vars, env, raw, ks).0 == env + Cascade(tb, vars, env, raw, ks).1
    decreases |ks|
  {
    if ks == [] {
      assert env + map[] == env;
    } else {
      SortedInit(ks, raw);
      var init, key := ks[..|ks| - 1], ks[|ks| - 1];
      CascadeIs(tb, vars, env, raw, init);
      var c := Cascade(tb, vars, env, raw, init);
      var x := RenderOr(tb, vars, c.0, raw[key]);
      CascadeSnoc(tb, vars, env, raw, init, key, c.0, c.1, x);
      CascadesStep(tb, vars, env, raw, init, c.1, key, x);
      OverlaySnoc(env, c.1, key, x);
    }
  }

  /** Entry `i` is the last of the list with its key. */
  predicate LastEntry(entries: seq<(string, string)>, i: nat) {
    i < |entries| && forall j :: i < j < |entries| ==> entries[j].0 != entries[i].0
  }

  predicate Unlisted(entries: seq<(string, string)>, k: string) {
    forall i :: 0 <= i < |entries| ==> entries[i].0 != k
  }

  /** What overrides promise of `r`: the last entry of a key is rendered, a key without an entry keeps its value. */
  ghost predicate Overlays(tb: Tools, vars: Vars, env: Vars, m: TargetEnv.Env, entries: seq<(string, string)>, r: TargetEnv.Env) {
    && (forall i :: 0 <= i < |entries| && LastEntry(entries, i) ==>
          entries[i].0 in r && r[entries[i].0] == RenderOr(tb, vars, env, entries[i].1))
    && forall k :: Unlisted(entries, k) ==> EnvOf(r, k) == EnvOf(m, k)
  }

  lemma {:induction false} OverlayIs(tb: Tools, vars: Vars, env: Vars, m: TargetEnv.Env, entries: seq<(string, string)>)
    ensures Overlays(tb, vars, env, m, entries, Overlay(tb, vars, env, m, entries))
    decreases |entries|
  {
    if entries != [] {
      var n := |entries| - 1;
      var init := entries[..n];
      OverlayIs(tb, vars, env, m, init);
      forall i | 0 <= i < n && LastEntry(entries, i) ensures LastEntry(init, i) && entries[i].0 != entries[n].0 {
        assert forall j :: i < j < n ==> init[j] == entries[j];
      }
      forall k | Unlisted(entries, k) ensures Unlisted(init, k) && k != entries[n].0 {
        assert forall i :: 0 <= i < n ==> init[i] == entries[i];
      }
    }
  }

  /**
   * A compile build's environment, in its own terms: with `m` the rendered blocks
   * in key order, every override entry renders with all of `m` in the template env.
   */
  lemma RenderedEnvIs(tb: Tools, vars: Vars, env: Vars, raw: TargetEnv.Env, entries: seq<(string, string)>) returns (m: TargetEnv.Env)
    ensures m.Keys == raw.Keys && Cascades(tb, vars, env, raw, SortedOf(raw.Keys), m)
    ensures RenderedEnv(tb, vars, env, raw, Ok(entries)) == Ok(Overlay(tb, vars, env + m, m, entries))
  {
    var ks := SortedOf(raw.Keys);
    assert forall k :: k in ks <==> k in Elements(ks);
    CascadeIs(tb, vars, env, raw, ks);
    m := Cascade(tb, vars, env, raw, ks).1;
  }

  /**
   * A compile build's level without a declared one: from the blocks `m`, rendered
   * in key order in the seeded scope, with the override's entries rendered over
   * them and the base flags of a reproducible build filled in.
   */
  lemma CompileLevelIs(tb: Tools, k: Krate, b: Build, target: string, vars: Vars, env: Vars, raw: Option<TargetEnv.Env>, es: seq<(string, string)>)
    returns (m: TargetEnv.Env, r: TargetEnv.Env)
    requires DeclaredLevel(b, target).None? && !b.copyFrom && Resolution(b.env, tb.globs, target) == Ok(raw)
    requires OverrideEntries(tb, k, b, target) == Ok(es)
    ensures var seeded := vars + BuildTable(target, tb.platform(target), IdOf(b));
      && Cascades(tb, seeded, env, RawOf(raw), SortedOf(RawOf(raw).Keys), m)
      && Overlays(tb, seeded, env + m, m, es, r)
    ensures Projected(tb, k, b, target, vars, env)
         == Ok(Amd64VariantFromEnv(target, WithBaseFlags(tb, b, r), tb.process, tb.targetKey(target)))
  {
    var seeded := vars + BuildTable(target, tb.platform(target), IdOf(b));
    m := RenderedEnvIs(tb, seeded, env, RawOf(raw), es);
    r := Overlay(tb, seeded, env + m, m, es);
    OverlayIs(tb, seeded, env + m, m, es);
  }

  /** Every text renders to itself, and the shell expansion leaves it alone. */
  ghost predicate Plain(tb: Tools, raw: TargetEnv.Env) {
    forall vars: Vars, env: Vars, k :: k in raw ==> tb.render(vars, env, raw[k]) == Ok(raw[k]) && tb.expand(raw[k]) == raw[k]
  }

  /** A build that copies renders nothing: it has the level of a compile of plain texts without overrides. */
  lemma CopyLevelIs(tb: Tools, k: Krate, b: Build, target: string, vars: Vars, env: Vars, raw: Option<TargetEnv.Env>)
    requires b.copyFrom && Resolution(b.env, tb.globs, target) == Ok(raw)
    requires Plain(tb, RawOf(raw)) && OverrideEntries(tb, k, b, target) == Ok([])
    ensures Projected(tb, k, b, target, vars, env) == Projected(tb, k, b.(copyFrom := false, reproducible := false), target, vars, env)
  {
    var b' := b.(copyFrom := false, reproducible := false);
    if DeclaredLevel(b, target).None? {
      var m, r := CompileLevelIs(tb, k, b', target, vars, env, raw, []);
      PlainCascade(tb, vars + BuildTable(target, tb.platform(target), IdOf(b')), env, RawOf(raw), m);
      assert forall k :: Unlisted([], k);
      SameEnv(r, RawOf(raw));
    }
  }

  lemma PlainCascade(tb: Tools, vars: Vars, env: Vars, raw: TargetEnv.Env, m: TargetEnv.Env)
    requires Plain(tb, raw) && Cascades(tb, vars, env, raw, SortedOf(raw.Keys), m)
    ensures m == raw
  {
    var ks := SortedOf(raw.Keys);
    assert forall k :: k in ks <==> k in Elements(ks);
    forall k | k in raw ensures k in m && m[k] == raw[k] {
      assert k in ks;
      var j :| 0 <= j < |ks| && ks[j] == k;
      assert RendersAt(tb, vars, env, raw, ks, m, j);
    }
  }

  /** Render every key, remembering what the template env held before. */
  method RenderKeys(tv: TemplateVars, tb: Tools, raw: TargetEnv.Env, ks: seq<string>)
    returns (rendered: TargetEnv.Env, touched: Saved)
    requires forall k :: k in ks ==> k in raw
    requires Sorted(ks)
    modifies tv
    ensures (tv.env, rendered) == Cascade(tb, old(tv.vars), old(tv.env), raw, ks)
    ensures tv.vars == old(tv.vars) && tv.structured == old(tv.structured)
    ensures |touched| == |ks|
    ensures forall i :: 0 <= i < |ks| ==> touched[i] == (ks[i], EnvOf(old(tv.env), ks[i]))
  {
    rendered, touched := map[], [];
    ghost var vars, env := tv.vars, tv.env;
    var i := 0;
    while i < |ks|
      invariant 0 <= i <= |ks|
      invariant tv.vars == vars && tv.structured == old(tv.structured)
      invariant (tv.env, rendered) == Cascade(tb, vars, env, raw, ks[..i])
      invariant |touched| == i
      invariant forall j :: 0 <= j < i ==> touched[j] == (ks[j], EnvOf(env, ks[j]))
    {
      var k := ks[i];
      SortedPrefixLacks(ks, i);
      CascadeKeeps(tb, vars, env, raw, ks[..i], k);
      assert ks[..i + 1][..i] == ks[..i];
      var x := RenderOr(tb, tv.vars, tv.env, raw[k]);
      touched := touched + [(k, EnvOf(tv.env, k))];
      tv.SetEnv(k, x);
      rendered := rendered[k := x];
      i := i + 1;
    }
    assert ks[..i] == ks;
  }

  lemma SortedPrefixLacks(ks: seq<string>, i: nat)
    requires Sorted(ks) && i < |ks|
    ensures ks[i] !in ks[..i]
  {
    LessIrreflexive(ks[i]);
  }

  /** Undo the injections, first to last. */
  method UndoEnv(tv: TemplateVars, touched: Saved, ghost origin: TargetEnv.Env)
    requires forall p :: p in touched ==> p.1 == EnvOf(origin, p.0)
    requires forall k :: k !in Keys(touched) ==> EnvOf(tv.env, k) == EnvOf(origin, k)
    modifies tv
    ensures tv.env == origin && tv.vars == old(tv.vars) && tv.structured == old(tv.structured)
  {
    var i := 0;
    while i < |touched|
      invariant 0 <= i <= |touched|
      invariant tv.vars == old(tv.vars) && tv.structured == old(tv.structured)
      invariant forall k :: k !in Keys(touched[i..]) ==> EnvOf(tv.env, k) == EnvOf(origin, k)
    {
      var (k, prior) := touched[i];
      KeysCons(touched[i..]);
      assert touched[i..][1..] == touched[i + 1..];
      assert touched[i] in touched;
      match prior {
        case Some(p) => tv.SetEnv(k, p);
        case None => var _ := tv.UnsetEnv(k);
      }
      i := i + 1;
    }
    SameEnv(tv.env, origin);
  }

  lemma SameEnv(a: TargetEnv.Env, b: TargetEnv.Env)
    requires forall k :: EnvOf(a, k) == EnvOf(b, k)
    ensures a == b
  {
    assert forall k :: k in a <==> EnvOf(a, k).Some?;
    assert forall k :: k in b <==> EnvOf(b, k).Some?;
    assert forall k :: k in a ==> a[k] == EnvOf(a, k).value == b[k];
  }

  lemma TouchedKeys(touched: Saved, ks: seq<string>)
    requires |touched| == |ks| && forall i :: 0 <= i < |ks| ==> touched[i].0 == ks[i]
    ensures forall k :: k in ks <==> k in Keys(touched)
  {
    assert forall i :: 0 <= i < |ks| ==> touched[i] in touched;
  }

  method OverlayEntries(tb: Tools, vars: Vars, env: Vars, rendered: TargetEnv.Env, entries: seq<(string, string)>)
    returns (merged: TargetEnv.Env)
    ensures merged == Overlay(tb, vars, env, rendered, entries)
  {
    merged := rendered;
    var i := 0;
    while i < |entries|
      invariant 0 <= i <= |entries|
      invariant merged == Overlay(tb, vars, env, rendered, entries[..i])
    {
      var (k, v) := entries[i];
      assert entries[..i + 1][..i] == entries[..i];
      merged := merged[k := RenderOr(tb, vars, env, v)];
      i := i + 1;
    }
    assert entries[..i] == entries;
  }

  /** Cascade, overrides, then the undo; the whole store comes back exactly, on errors too. */
  method RenderEnv(tv: TemplateVars, tb: Tools, raw: TargetEnv.Env, entries: Result<seq<(string, string)>>)
    returns (r: Result<TargetEnv.Env>)
    modifies tv
    ensures tv.Snapshot() == old(tv.Snapshot())
    ensures r == RenderedEnv(tb, old(tv.vars), old(tv.env), raw, entries)
  {
    ghost var vars, env := tv.vars, tv.env;
    var ks := SortKeys(raw.Keys);
    assert forall k :: k in ks ==> k in Elements(ks);
    var rendered, touched := RenderKeys(tv, tb, raw, ks);
    if entries.Err? {
      r := Err;
    } else {
      var merged := OverlayEntries(tb, tv.vars, tv.env, rendered, entries.value);
      r := Ok(merged);
    }
    TouchedKeys(touched, ks);
    forall k | k !in Keys(touched) ensures EnvOf(tv.env, k) == EnvOf(env, k) {
      CascadeKeeps(tb, vars, env, raw, ks, k);
    }
    UndoEnv(tv, touched, env);
  }

  /** Whether the projection gets as far as seeding the caller's scope. */
  ghost predicate Seeds(tb: Tools, b: Build, target: string) {
    DeclaredLevel(b, target).None? && Resolution(b.env, tb.globs, target).Ok? && !b.copyFrom
  }

  /**
   * The projection of one build. On every return, errors included, the string
   * variables and the template env are exactly what they were. A structured
   * variable under a seeded name is the one thing that does not come back.
   */
  method BuildEnvAmd64Variant(tv: TemplateVars, tb: Tools, k: Krate, b: Build, target: string)
    returns (r: Result<Option<string>>)
    modifies tv
    ensures tv.vars == old(tv.vars) && tv.env == old(tv.env)
    ensures tv.structured == if Seeds(tb, b, target) then old(tv.structured) - BUILD_VARS else old(tv.structured)
    ensures r == Projected(tb, k, b, target, old(tv.vars), old(tv.env))
  {
    var declared := DeclaredLevel(b, target);
    if declared.Some? {
      return Ok(declared);
    }
    var raw := ResolveTargetEnv(b.env, tb.globs, target);
    ResolvesUnique(b.env, tb.globs, target, raw, Resolution(b.env, tb.globs, target));
    if raw.Err? {
      return Err;
    }
    if b.copyFrom {
      return Ok(Amd64VariantFromEnv(target, RawOf(raw.value), tb.process, tb.targetKey(target)));
    }
    var projected := ProjectCompile(tv, tb, k, b, target, RawOf(raw.value));
    if projected.Err? {
      return Err;
    }
    var rendered := projected.value;
    if b.reproducible && (PLAIN !in rendered || Blank(rendered[PLAIN])) {
      rendered := rendered[PLAIN := if PLAIN in tb.process then tb.process[PLAIN] else ""];
    }
    r := Ok(Amd64VariantFromEnv(target, rendered, tb.process, tb.targetKey(target)));
  }

  /** Save, seed, render, restore. */
  method ProjectCompile(tv: TemplateVars, tb: Tools, k: Krate, b: Build, target: string, raw: TargetEnv.Env)
    returns (r: Result<TargetEnv.Env>)
    modifies tv
    ensures tv.vars == old(tv.vars) && tv.env == old(tv.env) && tv.structured == old(tv.structured) - BUILD_VARS
    ensures r == RenderedEnv(tb, old(tv.vars) + BuildTable(target, tb.platform(target), IdOf(b)), old(tv.env), raw,
                             OverrideEntries(tb, k, b, target))
  {
    ghost var s := tv.Snapshot();
    var p := tb.platform(target);
    var saved := Save(tv.Snapshot(), BUILD_TARGET_VARS);
    SeedBuildTargetVars(tv, target, p, IdOf(b));
    SeedOwned(s, target, p, IdOf(b));
    BuildOverlay(s, target, p, IdOf(b));
    var found := FindMatchingOverride(tb.globs, target, if b.overrides.Some? then b.overrides.value else k.defaultOverrides);
    var entries := match found
      case Err => Err
      case Ok(None) => Ok([])
      case Ok(Some(o)) => if o.env.Some? then o.env.value else Ok([]);
    r := RenderEnv(tv, tb, raw, entries);
    RestoreBuildVars(s, tv.Snapshot());
    tv.PutBackAll(saved);
  }
}
