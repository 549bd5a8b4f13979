/** Per-crate template scopes: five variables rebound around a body and put back. */
module CrateScope {
  import opened Prelude
  import opened TemplateScope

  const SCOPED: seq<string> := ["Version", "RawVersion", "Tag", "ProjectName", "Name"]
  const SCOPED_SET: set<string> := {"Version", "RawVersion", "Tag", "ProjectName", "Name"}

  /** A release tag's version strings. */
  datatype SemVer = SemVer(raw: string, full: string)

  /** A crate's own values for the scoped variables; a tag that is no version is an error. */
  function CrateOverrides(name: string, tag: string, parse: string -> Result<SemVer>): Result<seq<(string, string)>> {
    match parse(tag)
    case Err => Err
    case Ok(v) => Ok([("RawVersion", v.raw), ("Version", v.full), ("Tag", tag), ("ProjectName", name), ("Name", name)])
  }

  function SetAll(s: Scope, overrides: seq<(string, string)>): Scope
    decreases |overrides|
  {
    if overrides == [] then s else SetAll(s.Set(overrides[0].0, overrides[0].1), overrides[1..])
  }

  /** A body's effect: what it leaves behind and what it returns. */
  type Body<!T> = Scope -> (Scope, Result<T>)

  /** Running a body in a crate's scope. */
  function Within<T>(s: Scope, overrides: seq<(string, string)>, body: Body<T>): (Scope, Result<T>) {
    var (s', r) := body(SetAll(s, overrides));
    (Restore(s', Save(s, SCOPED)), r)
  }

  lemma SavedScoped(s: Scope)
    ensures var saved := Save(s, SCOPED);
      SavedFrom(saved, s) && AbiAfterTarget(saved) && Keys(saved) == SCOPED_SET
  {
    var saved := Save(s, SCOPED);
    assert saved[0].0 == "Version" && saved[1].0 == "RawVersion" && saved[2].0 == "Tag"
        && saved[3].0 == "ProjectName" && saved[4].0 == "Name";
    assert forall p :: p in saved <==> p == saved[0] || p == saved[1] || p == saved[2] || p == saved[3] || p == saved[4];
    assert forall i :: 0 <= i < |saved| ==> saved[i].0 != TARGET;
  }

  /** Whatever the body did, the scoped variables are the caller's again and the rest is the body's. */
  lemma WithinRestores<T>(s: Scope, overrides: seq<(string, string)>, body: Body<T>)
    ensures var (after, _), left := Within(s, overrides, body), body(SetAll(s, overrides)).0;
      && (forall k :: after.Get(k) == if k in SCOPED_SET then s.Get(k) else left.Get(k))
      && after.env == left.env
      && after.structured == left.structured - SCOPED_SET
  {
    SavedScoped(s);
    RestoreExact(s, body(SetAll(s, overrides)).0, Save(s, SCOPED));
  }

  /**
   * Scopes nest: when an inner scope closes, the outer crate's values show
   * again, and when the outer one closes the caller's do.
   */
  lemma WithinNests<T>(s: Scope, outer: seq<(string, string)>, inner: seq<(string, string)>, body: Body<T>, k: string)
    requires k in SCOPED_SET
    ensures Within(SetAll(s, outer), inner, body).0.Get(k) == SetAll(s, outer).Get(k)
    ensures Within(s, outer, (t: Scope) => Within(t, inner, body)).0.Get(k) == s.Get(k)
  {
    WithinRestores(SetAll(s, outer), inner, body);
    WithinRestores(s, outer, (t: Scope) => Within(t, inner, body));
  }

  /** A crate's scope binds all five variables to the crate's own values. */
  lemma ScopeBinds(s: Scope, name: string, tag: string, parse: string -> Result<SemVer>)
    requires parse(tag).Ok?
    ensures var t := SetAll(s, CrateOverrides(name, tag, parse).value);
      && t.Get("Version") == Some(parse(tag).value.full) && t.Get("RawVersion") == Some(parse(tag).value.raw)
      && t.Get("Tag") == Some(tag) && t.Get("ProjectName") == Some(name) && t.Get("Name") == Some(name)
      && t.env == s.env && forall k :: k !in SCOPED_SET ==> t.Get(k) == s.Get(k)
  {
    var o := CrateOverrides(name, tag, parse).value;
    var s1 := s.Set("RawVersion", parse(tag).value.raw);
    var s2 := s1.Set("Version", parse(tag).value.full);
    var s3 := s2.Set("Tag", tag);
    var s4 := s3.Set("ProjectName", name);
    assert o[1..][0] == o[1] && o[1..][1..][0] == o[2] && o[1..][1..][1..][0] == o[3] && o[1..][1..][1..][1..][0] == o[4];
    assert SetAll(s, o) == SetAll(s1, o[1..]) == SetAll(s2, o[1..][1..]) == SetAll(s3, o[1..][1..][1..]);
    assert SetAll(s3, o[1..][1..][1..]) == SetAll(s4, o[1..][1..][1..][1..]) == s4.Set("Name", name);
  }

  // ----------------------------------------------------------------- the live store

  method ApplyVarOverrides(tv: TemplateVars, overrides: seq<(string, string)>) returns (saved: Saved)
    modifies tv
    ensures tv.Snapshot() == SetAll(old(tv.Snapshot()), overrides)
    ensures saved == Save(old(tv.Snapshot()), SCOPED)
  {
    saved := Save(tv.Snapshot(), SCOPED);
    var i := 0;
    while i < |overrides|
      invariant 0 <= i <= |overrides|
      invariant SetAll(tv.Snapshot(), overrides[i..]) == SetAll(old(tv.Snapshot()), overrides)
    {
      assert overrides[i..][1..] == overrides[i + 1..];
      tv.Set(overrides[i].0, overrides[i].1);
      i := i + 1;
    }
    assert overrides[|overrides|..] == [];
  }

  /** Bind, run, put back; no tag, or a tag that is no version, is an error before anything is bound. */
  method WithCrateScope<T(0)>(tv: TemplateVars, name: string, tag: Option<string>, parse: string -> Result<SemVer>, body: Body<T>)
    returns (r: Result<T>)
    modifies tv
    ensures tag.None? || parse(tag.value).Err? ==> r == Err && tv.Snapshot() == old(tv.Snapshot())
    ensures tag.Some? && parse(tag.value).Ok? ==>
      (tv.Snapshot(), r) == Within(old(tv.Snapshot()), CrateOverrides(name, tag.value, parse).value, body)
    ensures forall k :: k in SCOPED_SET ==> tv.Snapshot().Get(k) == old(tv.Snapshot()).Get(k)
  {
    if tag.None? {
      return Err;
    }
    var overrides := CrateOverrides(name, tag.value, parse);
    if overrides.Err? {
      return Err;
    }
    WithinRestores(tv.Snapshot(), overrides.value, body);
    var saved := ApplyVarOverrides(tv, overrides.value);
    var (s', result) := body(tv.Snapshot());
    tv.vars, tv.structured, tv.env := s'.vars, s'.structured, s'.env;
    tv.PutBackAll(saved);
    r := result;
  }
}
