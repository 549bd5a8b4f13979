/** Name templates: what they render to, and which variables that can depend on. */
module Templates {
  import opened Prelude

  /** Text, variable references, and `{% if x %}` / `{% if x and x != "lit" %}` clauses. */
  datatype Part =
    | Lit(text: string)
    | Ref(name: string)
    | When(name: string, unless: Option<string>, body: seq<Part>)

  type Template = seq<Part>
  type Vars = map<string, string>

  predicate Holds(vars: Vars, name: string, unless: Option<string>) {
    name in vars && vars[name] != "" && (unless.Some? ==> vars[name] != unless.value)
  }

  /** Rendering fails on a reference to an undefined variable. */
  function Render(ps: Template, vars: Vars): Result<string>
    decreases ps
  {
    if ps == [] then Ok("") else
      var head := match ps[0]
        case Lit(t) => Ok(t)
        case Ref(n) => if n in vars then Ok(vars[n]) else Err
        case When(n, u, body) => if Holds(vars, n, u) then Render(body, vars) else Ok("");
      var tail := Render(ps[1..], vars);
      if head.Ok? && tail.Ok? then Ok(head.value + tail.value) else Err
  }

  lemma {:induction false} RenderAppend(ps: Template, t: string, vars: Vars)
    ensures Render(ps + [Lit(t)], vars) ==
      match Render(ps, vars) case Ok(s) => Ok(s + t) case Err => Err
    decreases |ps|
  {
    if ps == [] {
      assert (ps + [Lit(t)])[1..] == [] && t + "" == t && "" + t == t;
    } else {
      assert (ps + [Lit(t)])[1..] == ps[1..] + [Lit(t)];
      RenderAppend(ps[1..], t, vars);
      var tail := Render(ps[1..], vars);
      if tail.Ok? {
        assert forall h: string :: h + (tail.value + t) == (h + tail.value) + t;
      }
    }
  }

  // ------------------------------------------------------------- variables named

  /** The variables a template names. */
  function Reads(ps: Template): set<string>
    decreases ps
  {
    if ps == [] then {} else
      (match ps[0]
       case Lit(_) => {}
       case Ref(n) => {n}
       case When(n, _, body) => {n} + Reads(body)) + Reads(ps[1..])
  }

  lemma {:induction false} ReadsAppend(ps: Template, t: string)
    ensures Reads(ps + [Lit(t)]) == Reads(ps)
    decreases |ps|
  {
    if ps == [] {
      assert (ps + [Lit(t)])[1..] == [];
    } else {
      assert (ps + [Lit(t)])[1..] == ps[1..] + [Lit(t)];
      ReadsAppend(ps[1..], t);
    }
  }

  /** Variables other than `keys` have the same value, or are absent, in both. */
  ghost predicate SameBut(a: Vars, b: Vars, keys: set<string>) {
    forall k :: k !in keys ==> (k in a <==> k in b) && (k in a ==> a[k] == b[k])
  }

  ghost predicate AgreeOn(a: Vars, b: Vars, keys: set<string>) {
    forall k :: k in keys ==> (k in a <==> k in b) && (k in a ==> a[k] == b[k])
  }

  /** A render depends only on the variables its template names. */
  lemma {:induction false} RenderReads(ps: Template, a: Vars, b: Vars)
    requires AgreeOn(a, b, Reads(ps))
    ensures Render(ps, a) == Render(ps, b)
    decreases ps
  {
    if ps != [] {
      RenderReads(ps[1..], a, b);
      if ps[0].When? { RenderReads(ps[0].body, a, b); }
    }
  }

  // ------------------------------------------------- variables that make a difference

  /** `vars` gives every variable of `fixed` its fixed value. */
  ghost predicate Extends(vars: Vars, fixed: Vars) {
    forall k :: k in fixed ==> k in vars && vars[k] == fixed[k]
  }

  /** Some variables that extend `fixed` make the template render some text. */
  predicate Says(ps: Template, fixed: Vars)
    decreases ps
  {
    ps != [] &&
    (|| (match ps[0]
         case Lit(t) => t != ""
         case Ref(n) => n in fixed ==> fixed[n] != ""
         case When(n, u, body) => (n in fixed ==> Holds(fixed, n, u)) && Says(body, fixed))
     || Says(ps[1..], fixed))
  }

  /**
   * The template refers to one of `keys`, or has a clause on one of them with
   * text in it, somewhere the `fixed` variables do not switch off.
   */
  predicate Depends(ps: Template, fixed: Vars, keys: set<string>)
    decreases ps
  {
    ps != [] &&
    (|| (match ps[0]
         case Lit(_) => false
         case Ref(n) => n in keys
         case When(n, u, body) =>
           (n in fixed ==> Holds(fixed, n, u)) && ((n in keys && Says(body, fixed)) || Depends(body, fixed, keys)))
     || Depends(ps[1..], fixed, keys))
  }

  lemma {:induction false} SilentRenders(ps: Template, fixed: Vars, vars: Vars)
    requires !Says(ps, fixed) && Extends(vars, fixed)
    ensures Render(ps, vars) == Ok("")
    decreases ps
  {
    if ps != [] {
      SilentRenders(ps[1..], fixed, vars);
      assert "" + "" == "";
      if ps[0].When? && Holds(vars, ps[0].name, ps[0].unless) { SilentRenders(ps[0].body, fixed, vars); }
    }
  }

  lemma {:induction false} IndependentRenders(ps: Template, fixed: Vars, keys: set<string>, a: Vars, b: Vars)
    requires keys !! fixed.Keys && !Depends(ps, fixed, keys)
    requires Extends(a, fixed) && Extends(b, fixed) && SameBut(a, b, keys)
    ensures Render(ps, a) == Render(ps, b)
    decreases ps
  {
    if ps != [] {
      IndependentRenders(ps[1..], fixed, keys, a, b);
      if ps[0].When? {
        var When(n, u, body) := ps[0];
        if n in keys && !Says(body, fixed) {
          SilentRenders(body, fixed, a);
          SilentRenders(body, fixed, b);
        } else if n in fixed ==> Holds(fixed, n, u) {
          IndependentRenders(body, fixed, keys, a, b);
        }
      }
    }
  }

  /** The length of the longest text a clause compares a variable with. */
  function Longest(ps: Template): nat
    decreases ps
  {
    if ps == [] then 0 else
      var tail := Longest(ps[1..]);
      match ps[0]
      case When(_, u, body) =>
        var own := if u.Some? then |u.value| else 0;
        var inner := if own > Longest(body) then own else Longest(body);
        if inner > tail then inner else tail
      case _ => tail
  }

  /** Every variable the template names is set, and those not fixed are longer than anything compared with. */
  ghost predicate Generous(ps: Template, fixed: Vars, full: Vars) {
    && Extends(full, fixed)
    && forall n :: n in Reads(ps) ==> n in full && (n !in fixed ==> |full[n]| > Longest(ps))
  }

  lemma GenerousParts(ps: Template, fixed: Vars, full: Vars)
    requires ps != [] && Generous(ps, fixed, full)
    ensures Generous(ps[1..], fixed, full)
    ensures ps[0].When? ==> Generous(ps[0].body, fixed, full)
    ensures ps[0].When? && ps[0].name !in fixed ==> Holds(full, ps[0].name, ps[0].unless)
  {
  }

  lemma {:induction false} DependsSays(ps: Template, fixed: Vars, keys: set<string>)
    requires keys !! fixed.Keys && Depends(ps, fixed, keys)
    ensures Says(ps, fixed)
    decreases ps
  {
    if Depends(ps[1..], fixed, keys) {
      DependsSays(ps[1..], fixed, keys);
    } else if ps[0].When? && Depends(ps[0].body, fixed, keys) {
      DependsSays(ps[0].body, fixed, keys);
    }
  }

  /** `vars` with the variables `keys` set to the empty string. */
  function Blanked(vars: Vars, keys: set<string>): Vars {
    vars + map k | k in keys :: ""
  }

  /** Blanking variables of a generous assignment never lengthens the text, and shows wherever the template depends on them. */
  lemma {:induction false} BlankingShows(ps: Template, fixed: Vars, keys: set<string>, full: Vars)
    requires keys !! fixed.Keys && Generous(ps, fixed, full)
    ensures Render(ps, full).Ok? && Render(ps, Blanked(full, keys)).Ok?
    ensures Says(ps, fixed) ==> Render(ps, full).value != ""
    ensures |Render(ps, Blanked(full, keys)).value| <= |Render(ps, full).value|
    ensures Depends(ps, fixed, keys) ==> |Render(ps, Blanked(full, keys)).value| < |Render(ps, full).value|
    decreases ps
  {
    if ps != [] {
      GenerousParts(ps, fixed, full);
      BlankingShows(ps[1..], fixed, keys, full);
      if ps[0].When? {
        var When(n, u, body) := ps[0];
        BlankingShows(body, fixed, keys, full);
        if Depends(body, fixed, keys) { DependsSays(body, fixed, keys); }
        assert n !in keys ==> (Holds(Blanked(full, keys), n, u) <==> Holds(full, n, u));
        assert n in fixed ==> (Holds(full, n, u) <==> Holds(fixed, n, u));
      }
    }
  }

  /** A generous assignment for any template. */
  function Full(ps: Template, fixed: Vars): Vars {
    (map n | n in Reads(ps) :: seq(Longest(ps) + 1, _ => 'x')) + fixed
  }

  /**
   * The exact set of variables a template depends on: rendering is unaffected by
   * the variables `keys`, whatever the others that extend `fixed` hold, if and
   * only if the template does not depend on them.
   */
  lemma DependsExactly(ps: Template, fixed: Vars, keys: set<string>)
    requires keys !! fixed.Keys
    ensures (forall a, b :: Extends(a, fixed) && Extends(b, fixed) && SameBut(a, b, keys) ==> Render(ps, a) == Render(ps, b))
       <==> !Depends(ps, fixed, keys)
  {
    if Depends(ps, fixed, keys) {
      var full := Full(ps, fixed);
      BlankingShows(ps, fixed, keys, full);
      assert SameBut(full, Blanked(full, keys), keys) && Extends(Blanked(full, keys), fixed);
      assert Render(ps, full) != Render(ps, Blanked(full, keys));
    } else {
      forall a, b | Extends(a, fixed) && Extends(b, fixed) && SameBut(a, b, keys) ensures Render(ps, a) == Render(ps, b) {
        IndependentRenders(ps, fixed, keys, a, b);
      }
    }
  }

  /** A variable a template does not name makes no difference to it. */
  lemma {:induction false} UnreadIsIndependent(ps: Template, fixed: Vars, keys: set<string>)
    requires Reads(ps) !! keys
    ensures !Depends(ps, fixed, keys)
    decreases ps
  {
    if ps != [] {
      UnreadIsIndependent(ps[1..], fixed, keys);
      if ps[0].When? { UnreadIsIndependent(ps[0].body, fixed, keys); }
    }
  }
}
