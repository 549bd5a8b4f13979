/** Reproducibility flags: merged into the base flags without changing what the base means. */
module ReproFlags {
  import opened Prelude
  import opened Text
  import opened RustFlags

  /** The values of the `-C` flags that make a windows-msvc binary reproducible. */
  const MSVC_ARGS: seq<string> := [
    "codegen-units=1",
    "link-arg=/Brepro",
    "link-arg=/OPT:NOICF",
    "link-arg=/INCREMENTAL:NO",
    "link-arg=/DEBUG:NONE",
    "strip=symbols"
  ]

  function Flag(arg: string): string {
    "-C " + arg
  }

  /** A flag value: one token, and not itself a `-C`. */
  predicate FlagArg(arg: string) {
    arg != "" && NoWs(arg) && arg != "-C"
  }

  lemma FlagTokens(arg: string)
    requires FlagArg(arg)
    ensures Tokens(Flag(arg)) == ["-C", arg]
  {
    assert Flag(arg) == "-C" + [' '] + arg;
    TokensSplit("-C", ' ', arg);
    TokensOfWord("-C");
    TokensOfWord(arg);
  }

  lemma MsvcArgShapes()
    ensures |MSVC_ARGS| == 6 && MSVC_ARGS[0][0] == 'c' && MSVC_ARGS[5][0] == 's'
    ensures forall i :: 1 <= i <= 4 ==> MSVC_ARGS[i][0] == 'l'
    ensures |MSVC_ARGS[0]| == 15 && |MSVC_ARGS[1]| == 16 && |MSVC_ARGS[2]| == 19
    ensures |MSVC_ARGS[3]| == 24 && |MSVC_ARGS[4]| == 20 && |MSVC_ARGS[5]| == 13
  {
  }

  lemma CodegenArgsHaveNoWs()
    ensures NoWs(MSVC_ARGS[0]) && NoWs(MSVC_ARGS[5])
  {
  }

  lemma LinkArgsHaveNoWs()
    ensures NoWs(MSVC_ARGS[1]) && NoWs(MSVC_ARGS[2])
  {
  }

  lemma LongLinkArgsHaveNoWs()
    ensures NoWs(MSVC_ARGS[3]) && NoWs(MSVC_ARGS[4])
  {
  }

  lemma MsvcArgsAreFlagArgs()
    ensures forall i :: 0 <= i < |MSVC_ARGS| ==> FlagArg(MSVC_ARGS[i])
  {
    MsvcArgShapes();
    CodegenArgsHaveNoWs();
    LinkArgsHaveNoWs();
    LongLinkArgsHaveNoWs();
    forall i | 0 <= i < |MSVC_ARGS| ensures FlagArg(MSVC_ARGS[i]) {
      assert i == 0 || i == 1 || i == 2 || i == 3 || i == 4 || i == 5;
    }
  }

  lemma MsvcArgsDiffer()
    ensures forall i, j :: 0 <= i < j < |MSVC_ARGS| ==> MSVC_ARGS[i] != MSVC_ARGS[j]
  {
    MsvcArgShapes();
  }

  lemma NeutralByHead(t: string)
    requires t != "" && t[0] != '-' && t[0] != 't'
    ensures Neutral(t)
  {
    assert JOINED[0] == '-' && (LONG + CPU)[0] == '-' && CPU[0] == 't';
  }

  lemma MsvcArgsAreNeutral()
    ensures forall i :: 0 <= i < |MSVC_ARGS| ==> Neutral(MSVC_ARGS[i])
  {
    MsvcArgShapes();
    forall i | 0 <= i < |MSVC_ARGS| ensures Neutral(MSVC_ARGS[i]) {
      NeutralByHead(MSVC_ARGS[i]);
    }
  }

  /** The flag is there as two adjacent tokens. */
  ghost predicate HasFlag(ts: seq<string>, arg: string) {
    exists i :: 0 <= i < |ts| - 1 && ts[i] == "-C" && ts[i + 1] == arg
  }

  method FlagPresent(ts: seq<string>, arg: string) returns (b: bool)
    ensures b == HasFlag(ts, arg)
  {
    var i := 0;
    while i + 1 < |ts|
      invariant 0 <= i
      invariant forall j :: 0 <= j < i && j < |ts| - 1 ==> !(ts[j] == "-C" && ts[j + 1] == arg)
    {
      if ts[i] == "-C" && ts[i + 1] == arg {
        return true;
      }
      i := i + 1;
    }
    b := false;
  }

  /** Appending one flag makes that flag present and no other: no window straddles the seam. */
  lemma HasFlagAppend(ts: seq<string>, added: string, arg: string)
    requires FlagArg(arg)
    ensures HasFlag(ts + ["-C", added], arg) <==> HasFlag(ts, arg) || arg == added
  {
    var us := ts + ["-C", added];
    if i :| 0 <= i < |ts| - 1 && ts[i] == "-C" && ts[i + 1] == arg {
      assert us[i] == "-C" && us[i + 1] == arg;
    }
    assert us[|ts|] == "-C" && us[|ts| + 1] == added;
    if i :| 0 <= i < |us| - 1 && us[i] == "-C" && us[i + 1] == arg {
      if i < |ts| - 1 {
        assert ts[i] == "-C" && ts[i + 1] == arg;
      }
    }
  }

  /** `s` with one flag after it, a space between unless `s` is empty. */
  function Push(s: string, arg: string): string {
    if s == "" then Flag(arg) else s + " " + Flag(arg)
  }

  function PushAll(s: string, args: seq<string>): string {
    if args == [] then s else Push(PushAll(s, args[..|args| - 1]), args[|args| - 1])
  }

  lemma PushTokens(s: string, arg: string)
    requires FlagArg(arg)
    ensures Tokens(Push(s, arg)) == Tokens(s) + ["-C", arg]
  {
    FlagTokens(arg);
    if s != "" {
      assert Push(s, arg) == s + [' '] + Flag(arg);
      TokensSplit(s, ' ', Flag(arg));
    }
  }

  /** The flags of `args` that the base lacks, in order. */
  ghost function Missing(ts: seq<string>, args: seq<string>): seq<string> {
    if args == [] then [] else
      var arg := args[|args| - 1];
      Missing(ts, args[..|args| - 1]) + if HasFlag(ts, arg) then [] else [arg]
  }

  lemma {:induction false} MissingAre(ts: seq<string>, args: seq<string>, x: string)
    ensures x in Missing(ts, args) <==> x in args && !HasFlag(ts, x)
    decreases |args|
  {
    if args != [] {
      MissingAre(ts, args[..|args| - 1], x);
      assert args == args[..|args| - 1] + [args[|args| - 1]];
    }
  }

  /** What is present after pushing flags: what was there, and the flags pushed. */
  lemma {:induction false} PushAllTokens(s: string, args: seq<string>, x: string)
    requires FlagArg(x) && forall a :: a in args ==> FlagArg(a)
    ensures HasFlag(Tokens(PushAll(s, args)), x) <==> HasFlag(Tokens(s), x) || x in args
    decreases |args|
  {
    if args != [] {
      var init, last := args[..|args| - 1], args[|args| - 1];
      assert args == init + [last];
      PushAllTokens(s, init, x);
      PushTokens(PushAll(s, init), last);
      HasFlagAppend(Tokens(PushAll(s, init)), last, x);
    }
  }

  /** The merged flags: the trimmed base, then exactly the flags it lacks. */
  ghost function Merged(base: string): string {
    PushAll(Trim(base), Missing(Tokens(base), MSVC_ARGS))
  }

  /**
   * The grown string holds the next flag exactly when the base did, so testing
   * against the grown string appends exactly what the base lacks.
   */
  lemma MergeStep(base: string, args: seq<string>, i: nat)
    requires i < |args| && forall a :: a in args ==> FlagArg(a)
    requires forall j :: 0 <= j < i ==> args[j] != args[i]
    ensures var grown := PushAll(Trim(base), Missing(Tokens(base), args[..i]));
      && (HasFlag(Tokens(grown), args[i]) <==> HasFlag(Tokens(base), args[i]))
      && PushAll(Trim(base), Missing(Tokens(base), args[..i + 1]))
         == if HasFlag(Tokens(base), args[i]) then grown else Push(grown, args[i])
  {
    var arg, soFar := args[i], args[..i];
    var added := Missing(Tokens(base), soFar);
    forall a | a in added ensures FlagArg(a) && a != arg {
      MissingAre(Tokens(base), soFar, a);
    }
    TrimTokens(base);
    PushAllTokens(Trim(base), added, arg);
    assert args[..i + 1][..i] == soFar && args[..i + 1][i] == arg;
    assert (added + [arg])[..|added|] == added && added + [] == added;
  }

  /** The source's loop tests each flag against the string it has grown so far. */
  method MergeMsvcDeterminismRustflags(base: string) returns (out: string)
    ensures out == Merged(base)
  {
    MsvcArgsAreFlagArgs();
    MsvcArgsDiffer();
    out := MergeFlags(base, MSVC_ARGS);
  }

  method MergeFlags(base: string, args: seq<string>) returns (out: string)
    requires forall a :: a in args ==> FlagArg(a)
    requires forall i, j :: 0 <= i < j < |args| ==> args[i] != args[j]
    ensures out == PushAll(Trim(base), Missing(Tokens(base), args))
  {
    out := Trim(base);
    var i := 0;
    while i < |args|
      invariant 0 <= i <= |args|
      invariant out == PushAll(Trim(base), Missing(Tokens(base), args[..i]))
    {
      MergeStep(base, args, i);
      var present := FlagPresent(Tokens(out), args[i]);
      if !present {
        out := if out != "" then out + " " + Flag(args[i]) else Flag(args[i]);
      }
      i := i + 1;
    }
    assert args[..i] == args;
  }

  // ------------------------------------------------------------------- its laws

  lemma {:induction false} PushAllKeepsPrefix(s: string, args: seq<string>)
    ensures s <= PushAll(s, args)
    decreases |args|
  {
    if args != [] {
      PushAllKeepsPrefix(s, args[..|args| - 1]);
    }
  }

  lemma MissingAreFlagArgs(ts: seq<string>)
    ensures forall a :: a in Missing(ts, MSVC_ARGS) ==> FlagArg(a) && Neutral(a)
  {
    MsvcArgsAreFlagArgs();
    MsvcArgsAreNeutral();
    forall a | a in Missing(ts, MSVC_ARGS) ensures FlagArg(a) && Neutral(a) {
      MissingAre(ts, MSVC_ARGS, a);
    }
  }

  /** The trimmed base stays in front, and every required flag is present. */
  lemma MergedKeepsAndCompletes(base: string)
    ensures Trim(base) <= Merged(base)
    ensures forall i :: 0 <= i < |MSVC_ARGS| ==> HasFlag(Tokens(Merged(base)), MSVC_ARGS[i])
  {
    var missing := Missing(Tokens(base), MSVC_ARGS);
    PushAllKeepsPrefix(Trim(base), missing);
    MissingAreFlagArgs(Tokens(base));
    MsvcArgsAreFlagArgs();
    TrimTokens(base);
    forall i | 0 <= i < |MSVC_ARGS| ensures HasFlag(Tokens(Merged(base)), MSVC_ARGS[i]) {
      MissingAre(Tokens(base), MSVC_ARGS, MSVC_ARGS[i]);
      PushAllTokens(Trim(base), missing, MSVC_ARGS[i]);
    }
  }

  lemma {:induction false} PushAllTrimmed(s: string, args: seq<string>)
    requires Trimmed(s) && forall a :: a in args ==> FlagArg(a)
    ensures Trimmed(PushAll(s, args))
    decreases |args|
  {
    if args != [] {
      assert args[|args| - 1] in args;
      PushAllTrimmed(s, args[..|args| - 1]);
    }
  }

  lemma {:induction false} NothingMissing(ts: seq<string>, args: seq<string>)
    requires forall a :: a in args ==> HasFlag(ts, a)
    ensures Missing(ts, args) == []
    decreases |args|
  {
    if args != [] {
      assert args == args[..|args| - 1] + [args[|args| - 1]];
      NothingMissing(ts, args[..|args| - 1]);
    }
  }

  /** Merging a second time changes nothing. */
  lemma MergedTwice(base: string)
    ensures Merged(Merged(base)) == Merged(base)
  {
    var m := Merged(base);
    TrimIsTrimmed(base);
    MissingAreFlagArgs(Tokens(base));
    PushAllTrimmed(Trim(base), Missing(Tokens(base), MSVC_ARGS));
    TrimmedIsFixed(m);
    MergedKeepsAndCompletes(base);
    NothingMissing(Tokens(m), MSVC_ARGS);
  }

  lemma {:induction false} PushAllLevel(s: string, args: seq<string>)
    requires forall a :: a in args ==> FlagArg(a) && Neutral(a)
    ensures Detect(PushAll(s, args)) == Detect(s)
    decreases |args|
  {
    if args != [] {
      var init, last := args[..|args| - 1], args[|args| - 1];
      assert last in args;
      PushAllLevel(s, init);
      PushTokens(PushAll(s, init), last);
      assert Neutral("-C");
      NeutralTokensKeepLevel(Tokens(PushAll(s, init)), ["-C", last]);
    }
  }

  /** The merged flags select the same CPU level as the base, for every base. */
  lemma MergedKeepsLevel(base: string)
    ensures Detect(Merged(base)) == Detect(base)
  {
    TrimTokens(base);
    MissingAreFlagArgs(Tokens(base));
    PushAllLevel(Trim(base), Missing(Tokens(base), MSVC_ARGS));
  }

  // -------------------------------------------------------- the planner's own merge

  const REMAP := "--remap-path-prefix="

  function RemapRule(cwd: string): string {
    REMAP + cwd + "=/build"
  }

  /** The flags a reproducible build starts from: config, else inherited; blank counts as unset. */
  function ReproBase(config: Option<string>, inherited: Option<string>): string {
    if config.Some? && !Blank(config.value) then Trim(config.value)
    else if inherited.Some? && !Blank(inherited.value) then Trim(inherited.value)
    else ""
  }

  /** The tokens of the config's flags, else of the inherited ones; text without a token is no flags. */
  lemma ReproBaseTokens(config: Option<string>, inherited: Option<string>)
    ensures config.Some? && Tokens(config.value) != [] ==> Tokens(ReproBase(config, inherited)) == Tokens(config.value)
    ensures (config.None? || Tokens(config.value) == []) && inherited.Some? ==>
      Tokens(ReproBase(config, inherited)) == Tokens(inherited.value)
    ensures (config.None? || Tokens(config.value) == []) && inherited.None? ==> ReproBase(config, inherited) == ""
  {
    if config.Some? {
      BlankExactly(config.value);
      TrimTokens(config.value);
    }
    if inherited.Some? {
      BlankExactly(inherited.value);
      TrimTokens(inherited.value);
    }
  }

  /** Text without a token is blank, and the other way round. */
  lemma BlankExactly(s: string)
    ensures Blank(s) <==> Tokens(s) == []
  {
    TrimTokens(s);
    TrimIsTrimmed(s);
  }

  function WithRemap(base: string, cwd: string): string {
    if base == "" then RemapRule(cwd)
    else if Contains(base, REMAP + cwd + "=") then base
    else base + " " + RemapRule(cwd)
  }

  /** The base stays in front, the directory's rule is there afterwards, and a base that has it is left alone. */
  lemma WithRemapIs(base: string, cwd: string)
    ensures base <= WithRemap(base, cwd) && Contains(WithRemap(base, cwd), REMAP + cwd + "=")
    ensures Contains(base, REMAP + cwd + "=") ==> WithRemap(base, cwd) == base
  {
    var rule, key := RemapRule(cwd), REMAP + cwd + "=";
    assert rule == key + "/build";
    if Contains(base, key) {
      assert base != "";
    } else if base == "" {
      assert rule[0..|key|] == key && At(rule, key, 0);
    } else {
      var r, n := WithRemap(base, cwd), |base| + 1;
      assert r == base + " " + (key + "/build");
      assert r[n..n + |key|] == key && At(r, key, n);
    }
  }

  /** The RUSTFLAGS the planner hands to cargo for a reproducible build. */
  ghost function Reproducible(config: Option<string>, inherited: Option<string>, cwd: string, msvc: bool): string {
    var flags := WithRemap(ReproBase(config, inherited), cwd);
    if msvc then Merged(flags) else flags
  }

  /** The rule's first token is the rule's own option, so it completes no dangling `-C`. */
  lemma RuleHead(cwd: string)
    ensures Tokens(RemapRule(cwd)) != [] && !(CPU <= Tokens(RemapRule(cwd))[0])
  {
    var s := RemapRule(cwd);
    assert s == REMAP + (cwd + "=/build");
    assert NoWs(REMAP);
    WordLenAtLeast(REMAP, cwd + "=/build");
    assert Tokens(s)[0] == s[..WordLen(s)];
    assert s[..WordLen(s)][0] == REMAP[0] == '-';
  }

  lemma {:induction false} WordLenAtLeast(w: string, s: string)
    requires NoWs(w)
    ensures WordLen(w + s) >= |w|
  {
    if w != "" {
      assert (w + s)[1..] == w[1..] + s;
      WordLenAtLeast(w[1..], s);
    }
  }

  lemma WithRemapLevel(base: string, cwd: string)
    requires Detect(RemapRule(cwd)) == None
    ensures Detect(WithRemap(base, cwd)) == Detect(base)
  {
    if base == "" {
    } else if !Contains(base, REMAP + cwd + "=") {
      assert base + " " + RemapRule(cwd) == base + [' '] + RemapRule(cwd);
      TokensSplit(base, ' ', RemapRule(cwd));
      RuleHead(cwd);
      LevelAppend(Tokens(base), Tokens(RemapRule(cwd)));
    }
  }

  /**
   * The planner detects the level the base alone selects, for every config and
   * inherited value, exactly when the working directory names none after its
   * first whitespace.
   */
  lemma PlannerSeesBaseExactly(cwd: string, msvc: bool)
    ensures (forall config, inherited ::
               Detect(Reproducible(config, inherited, cwd, msvc)) == Detect(ReproBase(config, inherited)))
        <==> Detect(cwd[WordLen(cwd)..]) == None
  {
    RuleLevelExactly(cwd);
    if Detect(RemapRule(cwd)) == None {
      forall config, inherited
        ensures Detect(Reproducible(config, inherited, cwd, msvc)) == Detect(ReproBase(config, inherited))
      {
        WithRemapLevel(ReproBase(config, inherited), cwd);
        MergedKeepsLevel(WithRemap(ReproBase(config, inherited), cwd));
      }
    } else {
      MergedKeepsLevel(RemapRule(cwd));
      assert ReproBase(None, None) == "";
      assert Detect(Reproducible(None, None, cwd, msvc)) == Detect(RemapRule(cwd));
    }
  }

  const BUILD := "=/build"

  /** A spelling whose every `=` is followed by something other than `/` is not completed by `=/build`. */
  lemma NotCompleted(p: string, t: string)
    requires p != "" && forall k :: 0 <= k < |p| && p[k] == '=' ==> k + 1 < |p| && p[k + 1] != '/'
    ensures p <= t + BUILD <==> p <= t
  {
    if |p| > |t| && p[|t|] == '=' {
      assert p[|t| + 1] != (t + BUILD)[|t| + 1];
    }
    assert (t + BUILD)[|t|] == '=';
  }

  lemma SpellingsNotCompleted(t: string)
    ensures JOINED + X86 <= t + BUILD <==> JOINED + X86 <= t
    ensures LONG + CPU + X86 <= t + BUILD <==> LONG + CPU + X86 <= t
    ensures CPU + X86 <= t + BUILD <==> CPU + X86 <= t
  {
    NotCompleted(JOINED + X86, t);
    NotCompleted(LONG + CPU + X86, t);
    NotCompleted(CPU + X86, t);
  }

  lemma GluedBuildKeepsLevel(ts: seq<string>, t: string)
    ensures Level(ts + [t + BUILD]) == None <==> Level(ts + [t]) == None
  {
    var a, b := ts + [t], ts + [t + BUILD];
    SpellingsNotCompleted(t);
    forall i | 0 <= i < |a| ensures NamesLevel(a, i) <==> NamesLevel(b, i) {
      assert i < |ts| ==> a[i] == b[i] == ts[i];
      assert i + 1 < |ts| ==> a[i + 1] == b[i + 1] == ts[i + 1];
    }
    LevelFromExactly(a, 0);
    LevelFromExactly(b, 0);
  }

  lemma WordsAfter(head: string, ws: char, rest: string, init: seq<string>, last: string)
    requires IsWs(ws) && Tokens(rest) == init + [last]
    ensures Tokens(head + [ws] + rest) == (Tokens(head) + init) + [last]
  {
    TokensSplit(head, ws, rest);
  }

  /** The last word of a text, and the words before it; `x` appended to the text is appended to that word. */
  lemma {:induction false} LastWord(s: string, x: string) returns (init: seq<string>, last: string)
    requires s != "" && !IsWs(s[|s| - 1]) && x != "" && NoWs(x)
    ensures Tokens(s) == init + [last] && Tokens(s + x) == init + [last + x]
    decreases |s|
  {
    if k :| 0 <= k < |s| && IsWs(s[k]) {
      var head, rest := s[..k], s[k + 1..];
      var i, l := LastWord(rest, x);
      init, last := Tokens(head) + i, l;
      assert s == head + [s[k]] + rest && s + x == head + [s[k]] + (rest + x);
      WordsAfter(head, s[k], rest, i, l);
      WordsAfter(head, s[k], rest + x, i, l + x);
    } else {
      init, last := [], s;
      TokensOfWord(s);
      TokensOfWord(s + x);
    }
  }

  lemma BuildHasNoWs()
    ensures NoWs(BUILD) && BUILD != "" && BUILD[0] == '='
  {
    assert |BUILD| == 7 && BUILD[0] == '=' && BUILD[1] == '/' && BUILD[2] == 'b' && BUILD[3] == 'u' && BUILD[4] == 'i'
        && BUILD[5] == 'l' && BUILD[6] == 'd';
  }

  lemma BuildIsNeutralWord(w: string)
    requires w == BUILD
    ensures NoWs(w) && w != "" && Tokens(w) == [w] && Neutral(w)
  {
    BuildHasNoWs();
    TokensOfWord(w);
    NeutralByHead(w);
  }

  lemma TrailingSpace(a: string, ws: char)
    requires IsWs(ws)
    ensures Tokens(a + [ws]) == Tokens(a)
  {
    assert a + [ws] == a + [ws] + "" && Tokens("") == [];
    TokensSplit(a, ws, "");
  }

  lemma SeparateWordKeepsLevel(a: string, ws: char, w: string)
    requires IsWs(ws) && Tokens(w) == [w] && Neutral(w)
    ensures Detect(a + [ws] + w) == Detect(a + [ws])
  {
    TrailingSpace(a, ws);
    TokensSplit(a, ws, w);
    var ts := Tokens(a);
    assert Tokens(a + [ws] + w) == ts + [w];
    NeutralTokensKeepLevel(ts, [w]);
  }

  lemma BuildKeepsLevel(s: string, w: string)
    requires w == BUILD
    ensures Detect(s + w) == None <==> Detect(s) == None
  {
    BuildIsNeutralWord(w);
    if s == "" {
      assert s + w == w;
      NeutralLevel([w], 0);
    } else if IsWs(s[|s| - 1]) {
      assert s == s[..|s| - 1] + [s[|s| - 1]];
      SeparateWordKeepsLevel(s[..|s| - 1], s[|s| - 1], w);
    } else {
      var init, last := LastWord(s, w);
      GluedBuildKeepsLevel(init, last);
    }
  }

  lemma RuleHeadIsNeutral(w: string)
    ensures Neutral(REMAP + w) && REMAP + w != "-C" && REMAP + w != "--codegen"
  {
    var t := REMAP + w;
    assert t[0] == '-' && t[1] == '-' && t[2] == 'r';
    assert JOINED[1] == 'C' && (LONG + CPU)[2] == 'c' && CPU[0] == 't' && "-C"[1] == 'C' && "--codegen"[2] == 'c';
  }

  /** A first token that is no flag of its own leaves the level to the rest. */
  lemma NeutralHeadLevel(t: string, ts: seq<string>)
    requires Neutral(t) && t != "-C" && t != "--codegen"
    ensures Level([t] + ts) == Level(ts)
  {
    assert ([t] + ts)[0] == t && LevelAt([t] + ts, 0) == None;
    LevelFromShift([t], ts, 0);
  }

  /**
   * The remap rule names a level exactly when the working directory, from its
   * first whitespace on, names one: the condition a caller can read off the path.
   */
  lemma RuleLevelExactly(cwd: string)
    ensures Detect(RemapRule(cwd)) == None <==> Detect(cwd[WordLen(cwd)..]) == None
  {
    var n := WordLen(cwd);
    if n == |cwd| {
      assert cwd[..n] == cwd;
      PlainCwdIsSafe(cwd);
    } else {
      var head, rest := cwd[..n], cwd[n + 1..];
      assert NoWs(REMAP + head);
      assert RemapRule(cwd) == (REMAP + head) + [cwd[n]] + (rest + BUILD);
      assert cwd[n..] == "" + [cwd[n]] + rest;
      TokensSplit(REMAP + head, cwd[n], rest + BUILD);
      TokensSplit("", cwd[n], rest);
      TokensOfWord(REMAP + head);
      RuleHeadIsNeutral(head);
      NeutralHeadLevel(REMAP + head, Tokens(rest + BUILD));
      BuildKeepsLevel(rest, BUILD);
    }
  }

  /** A plain path, whitespace, and text that names a level: such a working directory breaks the promise. */
  lemma SpacedCwdNamesLevel(path: string, ws: char, flags: string)
    requires NoWs(path) && IsWs(ws) && Detect(flags) != None
    ensures Detect(RemapRule(path + [ws] + flags)) != None
  {
    var cwd := path + [ws] + flags;
    assert cwd == path + ([ws] + flags);
    WordLenStops(path, [ws] + flags);
    assert cwd[|path|..] == "" + [ws] + flags;
    TokensSplit("", ws, flags);
    RuleLevelExactly(cwd);
  }

  lemma JoinedFlagNamesLevel(v: string)
    requires NoWs(v)
    ensures Detect(JOINED + X86 + v) != None
  {
    var flag := JOINED + X86 + v;
    JoinedHasNoWs();
    assert NoWs(flag);
    TokensOfWord(flag);
    assert NamesLevel([flag], 0);
    LevelFromExactly([flag], 0);
  }

  lemma JoinedHasNoWs()
    ensures NoWs(JOINED) && NoWs(X86)
  {
  }

  /** For example `/w -Ctarget-cpu=x86-64-v3`. */
  lemma SpacedCwdExample(cwd: string, path: string, v: string)
    requires path == "/w" && v == "v3" && cwd == path + [' '] + (JOINED + X86 + v)
    ensures Detect(RemapRule(cwd)) != None
  {
    JoinedFlagNamesLevel(v);
    SpacedCwdNamesLevel(path, ' ', JOINED + X86 + v);
  }

  /** A working directory without whitespace is safe. */
  lemma PlainCwdIsSafe(cwd: string)
    requires NoWs(cwd)
    ensures Detect(RemapRule(cwd)) == None
  {
    var s := RemapRule(cwd);
    assert NoWs(s);
    TokensOfWord(s);
    assert s[0] == '-' && s[1] == '-' && s[2] == 'r';
    assert JOINED[1] == 'C' && (LONG + CPU)[2] == 'c' && CPU[0] == 't';
    assert Neutral(s);
    NeutralLevel([s], 0);
  }
}
