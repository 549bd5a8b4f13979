/** Two scopes that differ in one variable: exactly when a template tells them apart. */
module OneVariable {
  import opened Prelude
  import opened Text
  import opened Templates
  import opened DeferredVersion

  /** No clause of the template is on variable `k`. */
  predicate NoClauseOn(ps: Template, k: string)
    decreases ps
  {
    ps != [] ==> NoClauseOn(ps[1..], k) && (ps[0].When? ==> ps[0].name != k && NoClauseOn(ps[0].body, k))
  }

  lemma {:induction false} ClauseFreeIsSteady(ps: Template, hv: Holes, k: string, x: string, y: string)
    requires NoClauseOn(ps, k) && forall n :: n in hv && n != k ==> |hv[n]| == 1
    ensures Steady(ps, hv, x, y)
    decreases ps
  {
    if ps != [] {
      ClauseFreeIsSteady(ps[1..], hv, k, x, y);
      if ps[0].When? {
        ClauseFreeIsSteady(ps[0].body, hv, k, x, y);
        var n := ps[0].name;
        assert n in hv ==> Join(hv[n], x) == hv[n][0] == Join(hv[n], y);
      }
    }
  }

  lemma {:induction false} LongerJoin(rs: seq<string>, a: string, b: string)
    requires rs != [] && |a| < |b|
    ensures |Join(rs, a)| <= |Join(rs, b)|
    ensures |rs| > 1 ==> |Join(rs, a)| < |Join(rs, b)|
    decreases |rs|
  {
    if |rs| > 1 {
      JoinStep(rs, a);
      JoinStep(rs, b);
      LongerJoin(rs[1..], a, b);
    }
  }

  /** With at least one hole, what is in the holes can be read off. */
  lemma JoinInjective(rs: seq<string>, a: string, b: string)
    requires |rs| > 1
    ensures Join(rs, a) == Join(rs, b) <==> a == b
  {
    if Join(rs, a) == Join(rs, b) {
      if |a| < |b| { LongerJoin(rs, a, b); }
      if |b| < |a| { LongerJoin(rs, b, a); }
      JoinStep(rs, a);
      JoinStep(rs, b);
      var n := |rs[0]|;
      assert Join(rs, a)[n..n + |a|] == a;
      assert Join(rs, b)[n..n + |a|] == b;
    }
  }

  /** The holes of a scope when only variable `k` is one. */
  function HoleAt(vars: Vars, k: string): Holes {
    Solid(vars)[k := ["", ""]]
  }

  lemma FillHoleAt(vars: Vars, k: string, x: string)
    ensures Fill(HoleAt(vars, k), x) == vars[k := x]
  {
    assert ["", ""][1..] == [""] && Join([""], x) == "" && Join(["", ""], x) == x;
    forall n | n in vars && n != k ensures Fill(HoleAt(vars, k), x)[n] == vars[n] {
      assert HoleAt(vars, k)[n] == [vars[n]] && Join([vars[n]], x) == vars[n];
    }
  }

  function Look(m: Vars, k: string): Option<string> {
    if k in m then Some(m[k]) else None
  }

  /** Some of variable `k` is rendered. */
  predicate Shows(ps: Template, vars: Vars, k: string)
    requires k in vars
  {
    var rs := Runs(ps, HoleAt(vars, k), vars[k]);
    rs.Ok? && |rs.value| > 1
  }

  lemma GlueLength(a: seq<string>, b: seq<string>)
    requires a != [] && b != []
    ensures |Glue(a, b)| == |a| + |b| - 1
  {
  }

  /** Without the variable, a template that shows it fails, and one that does not renders as before. */
  lemma {:induction false} Unset(ps: Template, vars: Vars, k: string, x: string)
    requires k in vars && NoClauseOn(ps, k) && Render(ps, vars).Ok? && Runs(ps, HoleAt(vars, k), x).Ok?
    ensures if |Runs(ps, HoleAt(vars, k), x).value| > 1 then Render(ps, vars - {k}).Err? else Render(ps, vars - {k}) == Render(ps, vars)
    decreases ps
  {
    if ps != [] {
      var hv := HoleAt(vars, k);
      FillHoleAt(vars, k, x);
      Unset(ps[1..], vars, k, x);
      var tail := Runs(ps[1..], hv, x).value;
      match ps[0]
      case Lit(t) => GlueLength([t], tail);
      case Ref(n) => GlueLength(hv[n], tail);
      case When(n, u, body) =>
        assert Holds(vars, n, u) == Holds(vars - {k}, n, u) == Holds(vars[k := x], n, u);
        if Holds(vars, n, u) {
          Unset(body, vars, k, x);
          GlueLength(Runs(body, hv, x).value, tail);
        } else {
          GlueLength([""], tail);
        }
    }
  }

  /**
   * A template without a condition on `k` renders alike in two scopes that agree
   * on everything else it names, if and only if they agree on `k` or the template
   * shows nothing of it.
   */
  lemma OneVariableExactly(ps: Template, a: Vars, b: Vars, k: string)
    requires k in a && NoClauseOn(ps, k) && AgreeOn(a, b, Reads(ps) - {k}) && Render(ps, a).Ok?
    ensures Render(ps, a) == Render(ps, b) <==> Look(a, k) == Look(b, k) || !Shows(ps, a, k)
  {
    var hv, own := HoleAt(a, k), a[k];
    FillHoleAt(a, k, own);
    assert a[k := own] == a;
    RenderIsJoin(ps, hv, own);
    var rs := Runs(ps, hv, own).value;
    if k in b {
      RenderReads(ps, b, a[k := b[k]]);
      FillHoleAt(a, k, b[k]);
      RenderIsJoin(ps, hv, b[k]);
      ClauseFreeIsSteady(ps, hv, k, own, b[k]);
      RunsAgree(ps, hv, own, b[k]);
      if |rs| > 1 { JoinInjective(rs, own, b[k]); }
    } else {
      RenderReads(ps, b, a - {k});
      Unset(ps, a, k, own);
    }
  }
}
