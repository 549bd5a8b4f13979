/** Releases that spell their version in their own way, against the text the installer resolves. */
module ReleaseSpelling {
  import opened Prelude
  import opened Text
  import opened Templates
  import opened DeferredVersion
  import opened OneVariable

  /** What the installer gets for version `v` from a template derived in scope `vars`. */
  function Resolved(ps: Template, vars: Vars, v: string): Result<string> {
    match Deferred(ps, Stamp(vars, SENTINEL))
    case Ok(s) => Ok(Replace(s, TOKEN, v))
    case Err => Err
  }

  /** The release spells version variable `k` the way the stamp does. */
  predicate SpelledAsStamped(release: Vars, v: string, k: string) {
    k in release && release[k] == Stamp(release, v)[k]
  }

  lemma ResolvedIsStamped(ps: Template, vars: Vars, v: string)
    requires Resolvable(ps, StampHoles(vars), v)
    ensures Resolved(ps, vars, v) == Render(ps, Stamp(vars, v))
  {
    FillStamp(vars, SENTINEL);
    FillStamp(vars, v);
    InstallerResolves(ps, StampHoles(vars), v);
  }

  /**
   * For every template and every release: the installer gets the release's own
   * text whenever the release spells each version variable the template names as
   * the stamp does, and has the deriving scope's value for every other variable.
   */
  lemma ReleaseResolves(ps: Template, vars: Vars, release: Vars, v: string)
    requires Resolvable(ps, StampHoles(vars), v)
    requires AgreeOn(vars, release, Reads(ps) - STAMPED)
    requires forall k :: k in Reads(ps) * STAMPED ==> SpelledAsStamped(release, v, k)
    ensures Resolved(ps, vars, v) == Render(ps, release)
  {
    ResolvedIsStamped(ps, vars, v);
    forall k | k in Reads(ps)
      ensures (k in Stamp(vars, v) <==> k in release) && (k in release ==> Stamp(vars, v)[k] == release[k])
    {
      StampAt(vars, v, k);
      StampAt(release, v, k);
      assert k in STAMPED ==> SpelledAsStamped(release, v, k);
    }
    RenderReads(ps, Stamp(vars, v), release);
  }

  lemma OnlyOneStamped(ps: Template, release: Vars, v: string, k: string)
    requires k in STAMPED && Reads(ps) * STAMPED <= {k}
    ensures k in Stamp(release, v) && Render(ps, Stamp(release, v)) == Render(ps, release[k := Stamp(release, v)[k]])
  {
    var a := Stamp(release, v);
    StampAt(release, v, k);
    var b := release[k := a[k]];
    forall n | n in Reads(ps) ensures (n in a <==> n in b) && (n in a ==> a[n] == b[n]) {
      StampAt(release, v, n);
      assert n in STAMPED ==> n in Reads(ps) * STAMPED;
    }
    RenderReads(ps, a, b);
  }

  /**
   * A template that names one version variable, not in a clause's condition, is
   * resolved to the release's own text if and only if the release spells that
   * variable as the stamp does, or nothing of it is rendered.
   */
  lemma SpellingExactly(ps: Template, release: Vars, v: string, k: string)
    requires k in STAMPED && k in release && Reads(ps) * STAMPED <= {k} && NoClauseOn(ps, k)
    requires Resolvable(ps, StampHoles(release), v) && Render(ps, release).Ok?
    ensures Resolved(ps, release, v) == Render(ps, release) <==> SpelledAsStamped(release, v, k) || !Shows(ps, release, k)
  {
    ResolvedIsStamped(ps, release, v);
    OnlyOneStamped(ps, release, v, k);
    var stamped := release[k := Stamp(release, v)[k]];
    OneVariableExactly(ps, release, stamped, k);
  }

  /** What the installer makes of a bare version, and of one with the tag's `v`. */
  lemma BareResolves(v: string)
    ensures Replace(Replace(SENTINEL, SENTINEL, TOKEN), TOKEN, v) == v
    ensures Replace(Replace("v" + SENTINEL, SENTINEL, TOKEN), TOKEN, v) == "v" + v
  {
    SwapAll(SENTINEL, TOKEN);
    SwapAll(TOKEN, v);
    SwapAfterV(SENTINEL, TOKEN);
    SwapAfterV(TOKEN, v);
  }

  lemma SwapAll(pat: string, to: string)
    requires pat != ""
    ensures Replace(pat, pat, to) == to
  {
    assert pat + "" == pat && to + "" == to;
    ReplaceHit(pat, "", to);
  }

  lemma SwapAfterV(pat: string, to: string)
    requires pat != "" && pat[0] != 'v'
    ensures Replace("v" + pat, pat, to) == "v" + to
  {
    assert ("v" + pat)[..|pat|] != pat by { assert ("v" + pat)[..|pat|][0] == 'v'; }
    ReplaceSkips("v", pat, pat, to);
    SwapAll(pat, to);
  }

  lemma RenderRef(k: string, vars: Vars)
    requires k in vars
    ensures Render([Ref(k)], vars) == Ok(vars[k])
  {
    assert [Ref(k)][1..] == [] && vars[k] + "" == vars[k];
  }

  /** A bare reference to a version variable: what the installer resolves it to, and when that is right. */
  lemma BareReference(release: Vars, v: string, k: string)
    requires k in STAMPED && k in release
    ensures k in Stamp(release, v) && Resolved([Ref(k)], release, v) == Ok(Stamp(release, v)[k])
    ensures Resolved([Ref(k)], release, v) == Render([Ref(k)], release) <==> release[k] == Stamp(release, v)[k]
  {
    StampAt(release, SENTINEL, k);
    StampAt(release, v, k);
    RenderRef(k, Stamp(release, SENTINEL));
    RenderRef(k, release);
    BareResolves(v);
  }

  /** A release tagged `core-v1.2.0` is not found under the tag the stamp stands for. */
  lemma PrefixedTagIsMissed(release: Vars)
    requires "Tag" in release && release["Tag"] == "core-v1.2.0"
    ensures Resolved([Ref("Tag")], release, "1.2.0") != Render([Ref("Tag")], release)
  {
    BareReference(release, "1.2.0", "Tag");
    assert "core-v1.2.0"[0] == 'c' && ("v" + "1.2.0")[0] == 'v';
  }

  /** Nor is a prerelease whose raw version leaves the suffix out. */
  lemma PrereleaseRawIsMissed(release: Vars)
    requires "RawVersion" in release && release["RawVersion"] == "1.2.0"
    ensures Resolved([Ref("RawVersion")], release, "1.2.0-rc.1") != Render([Ref("RawVersion")], release)
  {
    BareReference(release, "1.2.0-rc.1", "RawVersion");
    assert |"1.2.0-rc.1"| != |"1.2.0"|;
  }
}
