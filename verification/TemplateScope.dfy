/** The template-variable store: string variables, structured variables and env. */
module TemplateScope {
  import opened Prelude
  import opened Text
  import opened Json

  const TARGET := "Target"
  const ABI := "Abi"

  /** The ABI part of a target triple: its fourth dash field, any glibc version dropped. */
  function AbiFromTarget(triple: string): string {
    var parts := SplitOn(triple, '-');
    if |parts| > 3 then SplitOn(parts[3], '.')[0] else ""
  }

  lemma FieldsOfTriple(a: string, b: string, c: string, d: string)
    requires '-' !in a && '-' !in b && '-' !in c && '-' !in d
    ensures SplitOn(a + ['-'] + (b + ['-'] + (c + ['-'] + d)), '-') == [a, b, c, d]
  {
    SplitFirst(a, '-', b + ['-'] + (c + ['-'] + d));
    SplitFirst(b, '-', c + ['-'] + d);
    SplitFirst(c, '-', d);
    SplitNone(d, '-');
  }

  /** The ABI of `a-b-c-abi` and of `a-b-c-abi.version` is `abi`; a shorter triple has none. */
  lemma AbiIs(a: string, b: string, c: string, abi: string, version: string)
    requires '-' !in a && '-' !in b && '-' !in c && '-' !in abi && '-' !in version && '.' !in abi
    ensures AbiFromTarget(a + ['-'] + (b + ['-'] + (c + ['-'] + abi))) == abi
    ensures AbiFromTarget(a + ['-'] + (b + ['-'] + (c + ['-'] + (abi + ['.'] + version)))) == abi
    ensures AbiFromTarget(a + ['-'] + (b + ['-'] + c)) == ""
  {
    FieldsOfTriple(a, b, c, abi);
    FieldsOfTriple(a, b, c, abi + ['.'] + version);
    SplitNone(abi, '.');
    SplitFirst(abi, '.', version);
    SplitFirst(a, '-', b + ['-'] + c);
    SplitFirst(b, '-', c);
    SplitNone(c, '-');
  }

  /** A snapshot of the store. */
  datatype Scope = Scope(
    vars: map<string, string>,
    structured: map<string, Json>,
    env: map<string, string>)
  {
    function Get(k: string): Option<string> {
      if k in vars then Some(vars[k]) else None
    }

    /** A key lives in one map only, and `Abi` follows `Target`. */
    function Set(k: string, v: string): Scope {
      if k == TARGET then
        this.(structured := structured - {TARGET, ABI}, vars := vars[TARGET := v][ABI := AbiFromTarget(v)])
      else
        this.(structured := structured - {k}, vars := vars[k := v])
    }

    function Unset(k: string): Scope {
      var gone := if k == TARGET then {TARGET, ABI} else {k};
      this.(structured := structured - gone, vars := vars - gone)
    }

    function SetEnv(k: string, v: string): Scope {
      this.(env := env[k := v])
    }

    function UnsetEnv(k: string): Scope {
      this.(env := env - {k})
    }

    /** Put back one saved variable. */
    function PutBack(k: string, prior: Option<string>): Scope {
      if prior.Some? then Set(k, prior.value) else Unset(k)
    }
  }

  type Saved = seq<(string, Option<string>)>

  /** The prior values of `keys`, in that order. */
  function Save(s: Scope, keys: seq<string>): (saved: Saved)
    ensures |saved| == |keys|
    ensures forall i :: 0 <= i < |keys| ==> saved[i] == (keys[i], s.Get(keys[i]))
  {
    seq(|keys|, i requires 0 <= i < |keys| => (keys[i], s.Get(keys[i])))
  }

  /** Put saved variables back, first to last. */
  function Restore(s: Scope, saved: Saved): Scope
    decreases |saved|
  {
    if saved == [] then s else Restore(s.PutBack(saved[0].0, saved[0].1), saved[1..])
  }

  function Keys(saved: Saved): set<string> {
    set p | p in saved :: p.0
  }

  /** Restoring `Target` rewrites `Abi`, so `Abi` has to be restored after it. */
  ghost predicate AbiAfterTarget(saved: Saved) {
    forall i :: 0 <= i < |saved| && saved[i].0 == TARGET ==> ABI in Keys(saved[i + 1..])
  }

  /** The saved values are those of `origin`. */
  ghost predicate SavedFrom(saved: Saved, origin: Scope) {
    forall p :: p in saved ==> p.1 == origin.Get(p.0)
  }

  lemma KeysCons(saved: Saved)
    requires saved != []
    ensures Keys(saved) == {saved[0].0} + Keys(saved[1..])
  {
    assert saved == [saved[0]] + saved[1..];
    assert forall p :: p in saved <==> p == saved[0] || p in saved[1..];
  }

  lemma AbiAfterTargetTail(saved: Saved)
    requires saved != [] && AbiAfterTarget(saved)
    ensures AbiAfterTarget(saved[1..])
    ensures saved[0].0 == TARGET ==> ABI in Keys(saved[1..])
  {
    forall i | 0 <= i < |saved[1..]| && saved[1..][i].0 == TARGET
      ensures ABI in Keys(saved[1..][i + 1..])
    {
      assert saved[1..][i + 1..] == saved[i + 1 + 1..];
      assert saved[i + 1].0 == TARGET;
    }
  }

  lemma {:induction false} RestoreAt(origin: Scope, s: Scope, saved: Saved, k: string)
    requires SavedFrom(saved, origin) && AbiAfterTarget(saved)
    ensures Restore(s, saved).Get(k) == if k in Keys(saved) then origin.Get(k) else s.Get(k)
    decreases |saved|
  {
    if saved != [] {
      KeysCons(saved);
      AbiAfterTargetTail(saved);
      RestoreAt(origin, s.PutBack(saved[0].0, saved[0].1), saved[1..], k);
    }
  }

  /** Putting one variable back drops its structured namesake, and `Abi`'s with `Target`'s. */
  lemma PutBackRest(s: Scope, k: string, prior: Option<string>, rest: set<string>)
    requires k == TARGET ==> ABI in rest
    ensures s.PutBack(k, prior).env == s.env
    ensures s.PutBack(k, prior).structured - rest == s.structured - ({k} + rest)
  {
  }

  lemma {:induction false} RestoreRest(s: Scope, saved: Saved)
    requires AbiAfterTarget(saved)
    ensures Restore(s, saved).env == s.env
    ensures Restore(s, saved).structured == s.structured - Keys(saved)
    decreases |saved|
  {
    if saved != [] {
      KeysCons(saved);
      AbiAfterTargetTail(saved);
      PutBackRest(s, saved[0].0, saved[0].1, Keys(saved[1..]));
      RestoreRest(s.PutBack(saved[0].0, saved[0].1), saved[1..]);
    }
  }

  /** Restoring gives every saved variable its original value and touches no other variable. */
  lemma RestoreExact(origin: Scope, s: Scope, saved: Saved)
    requires SavedFrom(saved, origin) && AbiAfterTarget(saved)
    ensures var r := Restore(s, saved);
      && (forall k :: r.Get(k) == if k in Keys(saved) then origin.Get(k) else s.Get(k))
      && r.env == s.env
      && r.structured == s.structured - Keys(saved)
  {
    RestoreRest(s, saved);
    forall k ensures Restore(s, saved).Get(k) == if k in Keys(saved) then origin.Get(k) else s.Get(k) {
      RestoreAt(origin, s, saved, k);
    }
  }

  /** Restoring `Abi` before `Target` loses an `Abi` that is not its target's. */
  lemma RestoreOrderMatters()
    ensures exists s: Scope, s': Scope ::
      Restore(s', Save(s, [ABI, TARGET])).Get(ABI) != s.Get(ABI)
  {
    var s := Scope(map[TARGET := "a", ABI := "custom"], map[], map[]);
    var saved := Save(s, [ABI, TARGET]);
    var mid := s.PutBack(saved[0].0, saved[0].1);
    assert Restore(s, saved) == Restore(mid, saved[1..]);
    assert saved[1..] == [(TARGET, Some("a"))];
    assert Restore(mid, saved[1..]) == Restore(mid.Set(TARGET, "a"), saved[1..][1..]);
    assert AbiFromTarget("a") == "" by {
      assert "a"[1..] == "" && SplitOn("", '-') == [[]];
      assert SplitOn("a", '-') == [['a'] + []] + [];
    }
    assert Restore(s, saved).Get(ABI) == Some("");
  }

  /** The live store. */
  class TemplateVars {
    var vars: map<string, string>
    var structured: map<string, Json>
    var env: map<string, string>

    function Snapshot(): Scope
      reads this
    {
      Scope(vars, structured, env)
    }

    constructor (s: Scope)
      ensures Snapshot() == s
    {
      vars, structured, env := s.vars, s.structured, s.env;
    }

    method Set(key: string, value: string)
      modifies this
      ensures Snapshot() == old(Snapshot()).Set(key, value)
    {
      structured := structured - {key};
      vars := vars[key := value];
      if key == TARGET {
        structured := structured - {ABI};
        vars := vars[ABI := AbiFromTarget(value)];
        assert structured == old(structured) - {TARGET, ABI};
      }
    }

    method Unset(key: string) returns (present: bool)
      modifies this
      ensures Snapshot() == old(Snapshot()).Unset(key)
      ensures present <==> key in old(vars) || key in old(structured)
    {
      if key == TARGET {
        vars, structured := vars - {ABI}, structured - {ABI};
      }
      present := key in vars || key in structured;
      vars, structured := vars - {key}, structured - {key};
      assert vars == old(Snapshot()).Unset(key).vars;
      assert structured == old(Snapshot()).Unset(key).structured;
    }

    method SetEnv(key: string, value: string)
      modifies this
      ensures Snapshot() == old(Snapshot()).SetEnv(key, value)
    {
      env := env[key := value];
    }

    method UnsetEnv(key: string) returns (present: bool)
      modifies this
      ensures Snapshot() == old(Snapshot()).UnsetEnv(key)
      ensures present <==> key in old(env)
    {
      present := key in env;
      env := env - {key};
    }

    /** The restore loop every scoped render ends with. */
    method PutBackAll(saved: Saved)
      modifies this
      ensures Snapshot() == Restore(old(Snapshot()), saved)
    {
      var i := 0;
      while i < |saved|
        invariant 0 <= i <= |saved|
        invariant Restore(Snapshot(), saved[i..]) == Restore(old(Snapshot()), saved)
      {
        var (key, prior) := saved[i];
        match prior {
          case Some(value) => Set(key, value);
          case None => var _ := Unset(key);
        }
        assert saved[i..][1..] == saved[i + 1..];
        i := i + 1;
      }
      assert saved[|saved|..] == [];
    }
  }
}
