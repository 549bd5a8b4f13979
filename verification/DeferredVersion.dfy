/**
 * Deferred versions: a name template is rendered with a sentinel as the version,
 * and the sentinel is then swapped for the installer's own `{ version }` token.
 */
module DeferredVersion {
  import opened Prelude
  import opened Text
  import opened Templates

  const INNER := "ANODIZER_BINSTALL_VERSION"
  const SENTINEL := "__" + INNER + "__"
  const TOKEN := "{ version }"

  const STAMPED: set<string> := {"Version", "RawVersion", "Tag"}

  /** The variables with `x` as the version everywhere a version appears. */
  function Stamp(vars: Vars, x: string): Vars {
    vars["Version" := x]["RawVersion" := x]["Tag" := "v" + x]
  }

  // ---------------------------------------------------------------- fixed runs

  /** Concatenation of run lists: the touching runs merge. */
  function Glue(a: seq<string>, b: seq<string>): (r: seq<string>)
    requires a != [] && b != []
    ensures r != []
  {
    a[..|a| - 1] + [a[|a| - 1] + b[0]] + b[1..]
  }

  lemma {:induction false} JoinGlue(a: seq<string>, b: seq<string>, x: string)
    requires a != [] && b != []
    ensures Join(Glue(a, b), x) == Join(a, x) + Join(b, x)
    decreases |a|
  {
    var g := Glue(a, b);
    if |a| == 1 {
      assert g == [a[0] + b[0]] + b[1..];
      assert g[1..] == b[1..];
      if |b| > 1 {
        assert (a[0] + b[0]) + x + Join(b[1..], x) == a[0] + (b[0] + x + Join(b[1..], x));
      }
    } else {
      assert g[0] == a[0] && g[1..] == Glue(a[1..], b);
      JoinGlue(a[1..], b, x);
      assert a[0] + x + (Join(a[1..], x) + Join(b, x)) == (a[0] + x + Join(a[1..], x)) + Join(b, x);
    }
  }

  /** A text with holes for the version: the fixed stretches around them. */
  type Holed = rs: seq<string> | rs != [] witness [""]
  type Holes = map<string, Holed>

  /** The variables with `x` in every hole. */
  function Fill(hv: Holes, x: string): Vars {
    map k | k in hv :: Join(hv[k], x)
  }

  function Solid(vars: Vars): Holes {
    map k | k in vars :: [vars[k]]
  }

  /** Where the stamp puts the version. */
  const VERSION_HOLES: Holes := map["Version" := ["", ""], "RawVersion" := ["", ""], "Tag" := ["v", ""]]

  function StampHoles(vars: Vars): Holes {
    Solid(vars) + VERSION_HOLES
  }

  /** One variable of a stamped scope. */
  lemma StampAt(vars: Vars, x: string, k: string)
    ensures k in Stamp(vars, x) <==> k in vars || k in STAMPED
    ensures k in STAMPED ==> Stamp(vars, x)[k] == if k == "Tag" then "v" + x else x
    ensures k in vars && k !in STAMPED ==> Stamp(vars, x)[k] == vars[k]
  {
  }

  lemma VersionHoleAt(x: string, k: string)
    ensures k in VERSION_HOLES <==> k in STAMPED
    ensures k in VERSION_HOLES ==> Join(VERSION_HOLES[k], x) == if k == "Tag" then "v" + x else x
  {
    assert [""] == ["", ""][1..] == ["v", ""][1..];
    assert Join([""], x) == "" && Join(["", ""], x) == x && Join(["v", ""], x) == "v" + x;
  }

  /** Stamping a version is filling those holes. */
  lemma FillStamp(vars: Vars, x: string)
    ensures Fill(StampHoles(vars), x) == Stamp(vars, x)
  {
    var a, b := Fill(StampHoles(vars), x), Stamp(vars, x);
    forall k ensures (k in a <==> k in b) && (k in a ==> a[k] == b[k]) {
      StampAt(vars, x, k);
      VersionHoleAt(x, k);
      assert k in vars ==> Join([vars[k]], x) == vars[k];
    }
  }

  /** The maximal stretches of rendered text between two holes, with `x` in the holes to decide the clauses. */
  function Runs(ps: Template, hv: Holes, x: string): (r: Result<seq<string>>)
    ensures r.Ok? ==> r.value != []
    decreases ps
  {
    if ps == [] then Ok([""]) else
      var head: Result<seq<string>> := match ps[0]
        case Lit(t) => Ok([t])
        case Ref(n) => if n in hv then Ok(hv[n]) else Err
        case When(n, u, body) => if Holds(Fill(hv, x), n, u) then Runs(body, hv, x) else Ok([""]);
      var tail := Runs(ps[1..], hv, x);
      if head.Ok? && head.value != [] && tail.Ok? then Ok(Glue(head.value, tail.value)) else Err
  }

  /** A render is its fixed runs with the version between them. */
  lemma {:induction false} RenderIsJoin(ps: Template, hv: Holes, x: string)
    ensures Render(ps, Fill(hv, x)).Ok? <==> Runs(ps, hv, x).Ok?
    ensures Runs(ps, hv, x).Ok? ==> Render(ps, Fill(hv, x)) == Ok(Join(Runs(ps, hv, x).value, x))
    decreases ps
  {
    if ps != [] {
      RenderIsJoin(ps[1..], hv, x);
      var tail := Runs(ps[1..], hv, x);
      match ps[0]
      case Lit(t) =>
        assert Join([t], x) == t;
        if tail.Ok? { JoinGlue([t], tail.value, x); }
      case Ref(n) =>
        if n in hv && tail.Ok? { JoinGlue(hv[n], tail.value, x); }
      case When(n, u, body) =>
        if Holds(Fill(hv, x), n, u) {
          RenderIsJoin(body, hv, x);
          if tail.Ok? && Runs(body, hv, x).Ok? { JoinGlue(Runs(body, hv, x).value, tail.value, x); }
        } else {
          assert Join([""], x) == "";
          if tail.Ok? { JoinGlue([""], tail.value, x); }
        }
    }
  }

  /** Every clause comes out alike with `x` and with `y` in the holes. */
  predicate Steady(ps: Template, hv: Holes, x: string, y: string)
    decreases ps
  {
    ps != [] ==>
    && Steady(ps[1..], hv, x, y)
    && (ps[0].When? ==>
          && Steady(ps[0].body, hv, x, y)
          && (Holds(Fill(hv, x), ps[0].name, ps[0].unless) <==> Holds(Fill(hv, y), ps[0].name, ps[0].unless)))
  }

  /** Then what is in the holes does not change the fixed runs. */
  lemma {:induction false} RunsAgree(ps: Template, hv: Holes, x: string, y: string)
    requires Steady(ps, hv, x, y)
    ensures Runs(ps, hv, x) == Runs(ps, hv, y)
    decreases ps
  {
    if ps != [] {
      RunsAgree(ps[1..], hv, x, y);
      if ps[0].When? { RunsAgree(ps[0].body, hv, x, y); }
    }
  }

  /** No clause compares a version variable with the very text `x` stamps into it. */
  predicate BlindTo(ps: Template, x: string)
    decreases ps
  {
    ps != [] ==>
    && BlindTo(ps[1..], x)
    && (ps[0].When? ==>
          && BlindTo(ps[0].body, x)
          && (ps[0].name in STAMPED ==> ps[0].unless != Some(if ps[0].name == "Tag" then "v" + x else x)))
  }

  /** A template blind to two versions is steady between them. */
  lemma {:induction false} BlindIsSteady(ps: Template, vars: Vars, x: string, y: string)
    requires x != "" && y != "" && BlindTo(ps, x) && BlindTo(ps, y)
    ensures Steady(ps, StampHoles(vars), x, y)
    decreases ps
  {
    if ps != [] {
      BlindIsSteady(ps[1..], vars, x, y);
      if ps[0].When? {
        BlindIsSteady(ps[0].body, vars, x, y);
        FillStamp(vars, x);
        FillStamp(vars, y);
        assert Holds(Stamp(vars, x), ps[0].name, ps[0].unless) == Holds(Stamp(vars, y), ps[0].name, ps[0].unless);
      }
    }
  }

  // ------------------------------------------------- replacing between fixed runs

  /** An occurrence of `pat` starts inside run `r` when `r` is followed by a stamped `pat`. */
  ghost predicate Strays(r: string, pat: string) {
    exists k :: 0 <= k < |r| && At(r + pat, pat, k)
  }

  ghost predicate Tidy(rs: seq<string>, pat: string) {
    && (forall i :: 0 <= i < |rs| - 1 ==> !Strays(rs[i], pat))
    && (rs != [] ==> !Contains(rs[|rs| - 1], pat))
  }

  lemma AtExtends(a: string, b: string, pat: string, k: nat)
    requires k + |pat| <= |a|
    ensures At(a + b, pat, k) == At(a, pat, k)
  {
    assert (a + b)[k..k + |pat|] == a[k..k + |pat|];
  }

  lemma StraysInContext(r: string, pat: string, rest: string, k: nat)
    requires pat != [] && k < |r|
    ensures At(r + (pat + rest), pat, k) == At(r + pat, pat, k)
  {
    assert r + (pat + rest) == (r + pat) + rest;
    AtExtends(r + pat, rest, pat, k);
  }

  lemma ReplaceClean(r: string, pat: string, to: string)
    requires pat != [] && !Contains(r, pat)
    ensures Replace(r, pat, to) == r
  {
    assert r + "" == r;
    forall k | 0 <= k < |r| ensures !At(r + "", pat, k) {
    }
    ReplaceSkips(r, "", pat, to);
  }

  lemma TidyTail(rs: seq<string>, pat: string)
    requires |rs| > 1 && Tidy(rs, pat)
    ensures Tidy(rs[1..], pat)
  {
    assert forall i :: 0 <= i < |rs[1..]| ==> rs[1..][i] == rs[i + 1];
  }

  /** Tidy runs: replacing finds the stamped positions and nothing else. */
  lemma {:induction false} ReplaceTidy(rs: seq<string>, pat: string, to: string)
    requires rs != [] && pat != [] && Tidy(rs, pat)
    ensures Replace(Join(rs, pat), pat, to) == Join(rs, to)
    decreases |rs|
  {
    if |rs| == 1 {
      ReplaceClean(rs[0], pat, to);
    } else {
      JoinStep(rs, pat);
      JoinStep(rs, to);
      ReplaceRun(rs[0], Join(rs[1..], pat), pat, to);
      TidyTail(rs, pat);
      ReplaceTidy(rs[1..], pat, to);
    }
  }

  /** Replacing writes the replacement at the first occurrence. */
  lemma ReplaceAtFirst(s: string, pat: string, to: string, j: nat)
    requires pat != [] && to != [] && At(s, pat, j) && forall i :: 0 <= i < j ==> !At(s, pat, i)
    ensures |Replace(s, pat, to)| > j && Replace(s, pat, to)[j] == to[0]
  {
    var head, tail := s[..j], s[j + |pat|..];
    assert s[j..] == pat + tail;
    assert s == head + (pat + tail);
    ReplaceSkips(head, pat + tail, pat, to);
    ReplaceHit(pat, tail, to);
  }

  /** A stray occurrence at `k` puts the replacement where the run's own text should stand. */
  lemma StrayBreaks(r: string, tail: string, pat: string, to: string, expected: string, k: nat)
    requires pat != [] && to != [] && to[0] != pat[0]
    requires k < |r| && At(r + tail, pat, k) && r <= expected
    ensures Replace(r + tail, pat, to) != expected
  {
    var s := r + tail;
    var j := FirstAt(s, pat, k);
    ReplaceAtFirst(s, pat, to, j);
    assert s[j] == s[j..j + |pat|][0] == pat[0];
    assert expected[j] == r[j] == s[j];
  }

  lemma TidyCons(rs: seq<string>, pat: string)
    requires |rs| > 1 && !Strays(rs[0], pat) && Tidy(rs[1..], pat)
    ensures Tidy(rs, pat)
  {
    assert forall i :: 0 < i < |rs| ==> rs[i] == rs[1..][i - 1];
  }

  /** A run with nothing stray in it is copied, and the stamp after it replaced. */
  lemma ReplaceRun(r: string, rest: string, pat: string, to: string)
    requires pat != [] && !Strays(r, pat)
    ensures Replace(r + (pat + rest), pat, to) == r + (to + Replace(rest, pat, to))
  {
    forall k | 0 <= k < |r| ensures !At(r + (pat + rest), pat, k) {
      StraysInContext(r, pat, rest, k);
    }
    ReplaceSkips(r, pat + rest, pat, to);
    ReplaceHit(pat, rest, to);
  }

  lemma SamePrefixDiffers(a: string, b: string, x: string, y: string)
    requires x != y
    ensures a + (b + x) != a + (b + y)
  {
    assert (a + (b + x))[|a|..] == b + x && (b + x)[|b|..] == x;
    assert (a + (b + y))[|a|..] == b + y && (b + y)[|b|..] == y;
  }

  lemma JoinStep(rs: seq<string>, x: string)
    requires |rs| > 1
    ensures Join(rs, x) == rs[0] + (x + Join(rs[1..], x))
  {
  }

  /** Untidy runs: the replaced string is wrong. */
  lemma {:induction false} ReplaceUntidy(rs: seq<string>, pat: string, to: string)
    requires rs != [] && pat != [] && to != [] && to[0] != pat[0] && !Tidy(rs, pat)
    ensures Replace(Join(rs, pat), pat, to) != Join(rs, to)
    decreases |rs|
  {
    var r := rs[0];
    if |rs| == 1 {
      var k :| 0 <= k <= |r| && At(r, pat, k);
      assert r + "" == r;
      StrayBreaks(r, "", pat, to, r, k);
    } else {
      var rest := Join(rs[1..], pat);
      JoinStep(rs, pat);
      JoinStep(rs, to);
      if Strays(r, pat) {
        var k :| 0 <= k < |r| && At(r + pat, pat, k);
        StraysInContext(r, pat, rest, k);
        StrayBreaks(r, pat + rest, pat, to, Join(rs, to), k);
      } else {
        ReplaceRun(r, rest, pat, to);
        if Tidy(rs[1..], pat) { TidyCons(rs, pat); assert false; }
        ReplaceUntidy(rs[1..], pat, to);
        SamePrefixDiffers(r, to, Replace(rest, pat, to), Join(rs[1..], to));
      }
    }
  }

  // ------------------------------------------------------------- the sentinel

  /** The sentinel overlaps a shifted copy of itself only in one or two underscores. */
  lemma SentinelBorders(k: nat)
    requires 0 < k < |SENTINEL| - 2
    ensures SENTINEL[k..] != SENTINEL[..|SENTINEL| - k]
  {
    assert SENTINEL[2] == 'A' && SENTINEL[3] == 'N' && SENTINEL[17] == 'L';
    if SENTINEL[k + 2] != 'A' {
      ShiftDiffers(k, 2);
    } else {
      assert k + 2 == 16;
      ShiftDiffers(k, 3);
    }
  }

  lemma ShiftDiffers(k: nat, j: nat)
    requires k + j < |SENTINEL| && SENTINEL[k + j] != SENTINEL[j]
    ensures SENTINEL[k..] != SENTINEL[..|SENTINEL| - k]
  {
    assert SENTINEL[k..][j] != SENTINEL[..|SENTINEL| - k][j];
  }

  /** A run of fixed text that leaves the sentinel after it the only one to be found. */
  ghost predicate Quiet(r: string) {
    !Contains(r + "__", SENTINEL)
  }

  /** The sentinel after a run shows only its two leading underscores to an occurrence that starts in the run. */
  lemma StrayStart(r: string, k: nat)
    requires k < |r|
    ensures At(r + SENTINEL, SENTINEL, k) == At(r + "__", SENTINEL, k)
  {
    var n, d := |SENTINEL|, |r| - k;
    assert r + SENTINEL == (r + "__") + SENTINEL[2..];
    if d >= n - 2 {
      AtExtends(r + "__", SENTINEL[2..], SENTINEL, k);
    } else {
      SentinelBorders(d);
      var s := r + SENTINEL;
      assert s[k..k + n][d..] == s[k + d..k + n] == SENTINEL[..n - d];
    }
  }

  lemma QuietExactly(r: string)
    ensures Strays(r, SENTINEL) <==> !Quiet(r)
  {
    if k :| 0 <= k < |r| && At(r + SENTINEL, SENTINEL, k) {
      StrayStart(r, k);
    }
    if i :| 0 <= i <= |r + "__"| && At(r + "__", SENTINEL, i) {
      StrayStart(r, i);
    }
  }

  lemma MiddleAt(s: string, a: string, mid: string, b: string, i: nat)
    requires At(s, a + mid + b, i)
    ensures At(s, mid, i + |a|)
  {
    var whole := a + mid + b;
    assert s[i..i + |whole|] == whole && whole[|a|..|a| + |mid|] == mid;
    forall j | 0 <= j < |mid| ensures s[i + |a| + j] == mid[j] {
      assert s[i..i + |whole|][|a| + j] == whole[|a| + j] == mid[j];
    }
    assert s[i + |a|..i + |a| + |mid|] == mid;
  }

  lemma InnerAt(s: string, i: nat)
    requires At(s, SENTINEL, i)
    ensures At(s, INNER, i + 2)
  {
    MiddleAt(s, "__", INNER, "__", i);
  }

  /** Text free of the sentinel's inner word is quiet, and holds no sentinel itself. */
  lemma InnerFreeIsQuiet(r: string)
    requires !Contains(r, INNER)
    ensures Quiet(r) && !Contains(r, SENTINEL)
  {
    var t := r + "__";
    if i :| 0 <= i <= |t| && At(t, SENTINEL, i) {
      InnerAt(t, i);
      AtExtends(r, "__", INNER, i + 2);
      assert false;
    }
    if i :| 0 <= i <= |r| && At(r, SENTINEL, i) {
      InnerAt(r, i);
      assert false;
    }
  }

  /** What a caller can check of the fixed text around the version positions. */
  ghost predicate QuietRuns(rs: seq<string>) {
    && (forall i :: 0 <= i < |rs| - 1 ==> Quiet(rs[i]))
    && (rs != [] ==> !Contains(rs[|rs| - 1], SENTINEL))
  }

  /** The rendered name with its sentinels swapped for the installer's token. */
  function Deferred(ps: Template, stamped: Vars): Result<string> {
    match Render(ps, stamped)
    case Ok(s) => Ok(Replace(s, SENTINEL, TOKEN))
    case Err => Err
  }

  /**
   * Swapping after rendering is rendering with the token in the version
   * positions, exactly when the fixed text around them is quiet.
   */
  lemma DeferredExactly(ps: Template, hv: Holes)
    requires Steady(ps, hv, SENTINEL, TOKEN)
    requires Render(ps, Fill(hv, SENTINEL)).Ok?
    ensures Runs(ps, hv, SENTINEL).Ok?
    ensures Deferred(ps, Fill(hv, SENTINEL)) == Render(ps, Fill(hv, TOKEN)) <==> QuietRuns(Runs(ps, hv, SENTINEL).value)
  {
    RenderIsJoin(ps, hv, SENTINEL);
    RenderIsJoin(ps, hv, TOKEN);
    RunsAgree(ps, hv, SENTINEL, TOKEN);
    var rs := Runs(ps, hv, SENTINEL).value;
    forall i | 0 <= i < |rs| - 1 ensures Strays(rs[i], SENTINEL) <==> !Quiet(rs[i]) {
      QuietExactly(rs[i]);
    }
    assert QuietRuns(rs) <==> Tidy(rs, SENTINEL);
    if Tidy(rs, SENTINEL) {
      ReplaceTidy(rs, SENTINEL, TOKEN);
    } else {
      ReplaceUntidy(rs, SENTINEL, TOKEN);
    }
  }

  /** In particular for a stamped scope, whenever no stretch of fixed text contains the sentinel's inner word. */
  lemma DeferredCommutes(ps: Template, vars: Vars)
    requires BlindTo(ps, SENTINEL) && BlindTo(ps, TOKEN)
    requires Runs(ps, StampHoles(vars), SENTINEL).Ok?
    requires forall r :: r in Runs(ps, StampHoles(vars), SENTINEL).value ==> !Contains(r, INNER)
    ensures Deferred(ps, Stamp(vars, SENTINEL)) == Render(ps, Stamp(vars, TOKEN))
    ensures Deferred(ps, Stamp(vars, SENTINEL)).Ok?
  {
    var hv := StampHoles(vars);
    FillStamp(vars, SENTINEL);
    FillStamp(vars, TOKEN);
    BlindIsSteady(ps, vars, SENTINEL, TOKEN);
    RenderIsJoin(ps, hv, SENTINEL);
    var rs := Runs(ps, hv, SENTINEL).value;
    forall i | 0 <= i < |rs| ensures Quiet(rs[i]) && !Contains(rs[i], SENTINEL) {
      assert rs[i] in rs;
      InnerFreeIsQuiet(rs[i]);
    }
    DeferredExactly(ps, hv);
  }

  // -------------------------------------------------- what the installer resolves

  lemma TokenStrays(r: string)
    requires Strays(r, TOKEN)
    ensures Contains(r, TOKEN)
  {
    var k :| 0 <= k < |r| && At(r + TOKEN, TOKEN, k);
    assert (r + TOKEN)[|r|] == '{';
    forall j | 0 <= j < |TOKEN| ensures (r + TOKEN)[k + j] == TOKEN[j] {
      assert (r + TOKEN)[k..k + |TOKEN|][j] == TOKEN[j];
    }
    assert forall j :: 0 < j < |TOKEN| ==> TOKEN[j] != '{';
    assert |r| - k >= |TOKEN|;
    AtExtends(r, TOKEN, TOKEN, k);
  }

  /** A template whose fixed text stays clear of the sentinel and of the installer's token. */
  ghost predicate Resolvable(ps: Template, hv: Holes, v: string) {
    && Steady(ps, hv, SENTINEL, TOKEN) && Steady(ps, hv, SENTINEL, v)
    && var rs := Runs(ps, hv, SENTINEL);
       rs.Ok? && QuietRuns(rs.value) && forall i :: 0 <= i < |rs.value| ==> !Contains(rs.value[i], TOKEN)
  }

  lemma {:induction false} TokenFreeIsTidy(rs: seq<string>)
    requires forall i :: 0 <= i < |rs| ==> !Contains(rs[i], TOKEN)
    ensures Tidy(rs, TOKEN)
  {
    forall i | 0 <= i < |rs| - 1 ensures !Strays(rs[i], TOKEN) {
      if Strays(rs[i], TOKEN) { TokenStrays(rs[i]); assert false; }
    }
  }

  /** Such a template defers to its runs around the token, and renders to the same runs around `v`. */
  lemma DefersToRuns(ps: Template, hv: Holes, v: string)
    requires Resolvable(ps, hv, v)
    ensures Deferred(ps, Fill(hv, SENTINEL)) == Ok(Join(Runs(ps, hv, SENTINEL).value, TOKEN))
    ensures Render(ps, Fill(hv, v)) == Ok(Join(Runs(ps, hv, SENTINEL).value, v))
  {
    RenderIsJoin(ps, hv, SENTINEL);
    RenderIsJoin(ps, hv, TOKEN);
    RenderIsJoin(ps, hv, v);
    RunsAgree(ps, hv, SENTINEL, TOKEN);
    RunsAgree(ps, hv, SENTINEL, v);
    DeferredExactly(ps, hv);
  }

  /**
   * The round trip users depend on: the installer putting version `v` into the
   * derived text gets exactly the name rendered with `v` in the holes.
   */
  lemma InstallerResolves(ps: Template, hv: Holes, v: string)
    requires Resolvable(ps, hv, v)
    ensures Deferred(ps, Fill(hv, SENTINEL)).Ok?
    ensures Ok(Replace(Deferred(ps, Fill(hv, SENTINEL)).value, TOKEN, v)) == Render(ps, Fill(hv, v))
  {
    DefersToRuns(ps, hv, v);
    var rs := Runs(ps, hv, SENTINEL).value;
    TokenFreeIsTidy(rs);
    ReplaceTidy(rs, TOKEN, v);
  }
}
