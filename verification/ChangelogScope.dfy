/** The commit path-scope of a changelog track, and the filter it may drop. */
module ChangelogScope {
  import opened Prelude
  import opened Text
  import opened Lists

  // ---------------------------------------------------------------- path spelling

  /** `trim_start_matches("./")`. */
  function DropDotSlash(s: string): string {
    if "./" <= s then DropDotSlash(s[2..]) else s
  }

  function Clean(s: string): string {
    DropDotSlash(Trim(s))
  }

  predicate WholeRepo(cleaned: string) {
    cleaned == "" || cleaned == "."
  }

  function NormalizeDir(s: string): Option<string> {
    if WholeRepo(Clean(s)) then None else Some(Clean(s))
  }

  /** `f` lies strictly under directory `d`. */
  predicate Under(f: string, d: string) {
    d + "/" < f
  }

  /** Pattern matching, false for a pattern that does not parse. */
  type Glob = (string, string) -> bool

  /** A changelog path entry against a file: as a glob, or as a literal file or directory. */
  predicate PathMatches(glob: Glob, entry: string, file: string) {
    var p, f := Clean(entry), Clean(file);
    WholeRepo(p) || glob(p, f) || f == p || p + "/" <= f
  }

  // --------------------------------------------------------------------- coverage

  function DropSlashes(s: string): string {
    if s != "" && s[|s| - 1] == '/' then DropSlashes(s[..|s| - 1]) else s
  }

  predicate EndsWith(s: string, suffix: string) {
    |suffix| <= |s| && s[|s| - |suffix|..] == suffix
  }

  /** Stripping `suffix` leaves nothing, or a literal prefix of `dir`. */
  predicate CoversBy(p: string, suffix: string, dir: string) {
    EndsWith(p, suffix) &&
    var base := DropSlashes(p[..|p| - |suffix|]);
    base == "" || dir == base || base + "/" <= dir
  }

  predicate GlobCovers(p: string, dir: string) {
    CoversBy(p, "/**", dir) || CoversBy(p, "/**/*", dir) || CoversBy(p, "/*", dir) || CoversBy(p, "**", dir)
  }

  predicate EntryCovers(entry: string, dir: string) {
    var p := NormalizeDir(entry);
    p.None? || GlobCovers(p.value, dir) || dir == p.value || p.value + "/" <= dir
  }

  predicate DirCovered(dir: string, paths: seq<string>) {
    exists i :: 0 <= i < |paths| && EntryCovers(paths[i], dir)
  }

  function NonBlank(paths: seq<string>): seq<string> {
    if paths == [] then [] else (if Blank(paths[0]) then [] else [paths[0]]) + NonBlank(paths[1..])
  }

  /** The filter to apply after the fetch; `None` when the paths cover every derived directory. */
  function ResolveNarrow(derived: seq<string>, paths: seq<string>): Option<seq<string>> {
    var kept := NonBlank(paths);
    if kept == [] then None
    else if derived == [] then Some(kept)
    else if forall i :: 0 <= i < |derived| ==> DirCovered(derived[i], kept) then None
    else Some(kept)
  }

  /**
   * A filter is kept if and only if some path is not blank and either the scope
   * is the whole repository or some derived directory is not covered; what is
   * kept is the non-blank paths.
   */
  lemma NarrowExactly(derived: seq<string>, paths: seq<string>)
    ensures ResolveNarrow(derived, paths).Some? <==>
      && (exists p :: p in paths && !Blank(p))
      && (derived == [] || exists i :: 0 <= i < |derived| && !DirCovered(derived[i], NonBlank(paths)))
    ensures ResolveNarrow(derived, paths).Some? ==> ResolveNarrow(derived, paths).value == NonBlank(paths)
  {
    if NonBlank(paths) != [] {
      NonBlankAre(paths, NonBlank(paths)[0]);
    }
    forall p | p in paths && !Blank(p) ensures NonBlank(paths) != [] {
      NonBlankAre(paths, p);
    }
  }

  predicate Survives(glob: Glob, narrow: Option<seq<string>>, touched: seq<string>) {
    narrow.None? ||
    exists i, j :: 0 <= i < |touched| && 0 <= j < |narrow.value| && PathMatches(glob, narrow.value[j], touched[i])
  }

  // ----------------------------------------------------------- when dropping is sound

  predicate Literal(s: string) {
    '*' !in s && '?' !in s && '[' !in s
  }

  datatype Shape = Directory(path: string) | Tree(base: string, suffix: string)

  const TREE_SUFFIXES: set<string> := {"/**", "/**/*", "/*"}

  function Spell(e: Shape): string {
    match e
    case Directory(p) => p
    case Tree(b, s) => b + s
  }

  /** A literal directory, or a literal base (no trailing slash) followed by a recursion suffix. */
  predicate Sound(e: Shape) {
    match e
    case Directory(p) => Literal(p)
    case Tree(b, s) => Literal(b) && b != "" && b[|b| - 1] != '/' && s in TREE_SUFFIXES
  }

  /** An entry that cleans to the whole repository or to a sound shape. */
  ghost predicate SoundEntry(entry: string) {
    WholeRepo(Clean(entry)) || exists e :: Sound(e) && Spell(e) == Clean(entry)
  }

  /** What the proof needs of the glob library: a recursion suffix matches everything below its base. */
  ghost predicate TreesMatch(glob: Glob) {
    forall b, s, rest :: Literal(b) && b != "" && s in TREE_SUFFIXES && rest != "" ==> glob(b + s, b + "/" + rest)
  }

  lemma LiteralHasNoSuffix(p: string, dir: string)
    requires Literal(p)
    ensures !GlobCovers(p, dir)
  {
    assert p != "" ==> p[|p| - 1] in p;
    assert forall s :: s in {"/**", "/**/*", "/*", "**"} && EndsWith(p, s) ==> p[|p| - 1] == s[|s| - 1] == '*';
    assert !EndsWith(p, "/**") && !EndsWith(p, "/**/*") && !EndsWith(p, "/*") && !EndsWith(p, "**");
  }

  lemma {:induction false} DropSlashesKeeps(s: string)
    ensures DropSlashes(s) <= s
  {
    if s != "" && s[|s| - 1] == '/' {
      DropSlashesKeeps(s[..|s| - 1]);
    }
  }

  /** Whatever suffix is stripped from a tree entry, a covered directory is its base or lies under it. */
  lemma TreeCoverage(b: string, s: string, suffix: string, dir: string)
    requires Literal(b) && b != "" && b[|b| - 1] != '/' && s in TREE_SUFFIXES
    requires suffix in {"/**", "/**/*", "/*", "**"} && CoversBy(b + s, suffix, dir)
    ensures dir == b || b + "/" <= dir
  {
    var p := b + s;
    var cut := p[..|p| - |suffix|];
    var base := DropSlashes(cut);
    DropSlashesKeeps(cut);
    assert p[|p| - |suffix|..] == suffix;
    assert forall i :: 0 <= i < |b| ==> p[i] == b[i] && b[i] in b;
    assert |suffix| <= |s| by {
      if |suffix| > |s| { LongerSuffix(b, s, suffix); }
    }
    assert b <= cut;
    assert |cut| == |b| || cut == b + s[..|s| - |suffix|];
    assert b <= base by { BaseKept(b, cut); }
    if base != b {
      assert base[|b|] == cut[|b|] == s[0] == '/';
      assert b + "/" <= base;
    }
  }

  /** A suffix longer than the entry's own would reach into the literal base. */
  lemma LongerSuffix(b: string, s: string, suffix: string)
    requires Literal(b) && b != "" && b[|b| - 1] != '/' && s in TREE_SUFFIXES
    requires suffix in {"/**", "/**/*", "/*", "**"} && |suffix| > |s| && |suffix| <= |b + s|
    ensures (b + s)[|b + s| - |suffix|..] != suffix
  {
    var p := b + s;
    var tail := p[|p| - |suffix|..];
    var last := b[|b| - 1];
    assert last in b && tail[|suffix| - |s| - 1] == last;
    assert forall i :: 0 <= i < |s| ==> tail[|suffix| - |s| + i] == s[i];
  }

  lemma {:induction false} BaseKept(b: string, cut: string)
    requires b != "" && b[|b| - 1] != '/' && b <= cut
    ensures b <= DropSlashes(cut)
    decreases |cut|
  {
    if cut != "" && cut[|cut| - 1] == '/' {
      assert |cut| > |b|;
      BaseKept(b, cut[..|cut| - 1]);
    }
  }

  lemma TreeMatches(glob: Glob, b: string, s: string, dir: string, file: string)
    requires TreesMatch(glob) && Sound(Tree(b, s)) && Under(file, dir)
    requires dir == b || b + "/" <= dir
    ensures glob(b + s, file)
  {
    assert b + "/" < file by {
      assert dir + "/" <= file && (dir == b || b + "/" <= dir + "/");
    }
    var rest := file[|b| + 1..];
    assert file == b + "/" + rest;
  }

  /** A sound entry that covers a directory matches every file strictly under it. */
  lemma CoveredMatches(glob: Glob, entry: string, dir: string, file: string)
    requires TreesMatch(glob) && SoundEntry(entry) && EntryCovers(entry, dir)
    requires Under(file, dir) && Clean(file) == file
    ensures PathMatches(glob, entry, file)
  {
    var p := Clean(entry);
    if !WholeRepo(p) {
      var e :| Sound(e) && Spell(e) == p;
      if dir == p || p + "/" <= dir {
        assert p + "/" <= file;
      } else {
        match e
        case Directory(_) => LiteralHasNoSuffix(p, dir); assert false;
        case Tree(b, s) =>
          var suffix :| suffix in {"/**", "/**/*", "/*", "**"} && CoversBy(p, suffix, dir);
          TreeCoverage(b, s, suffix, dir);
          TreeMatches(glob, b, s, dir, file);
      }
    }
  }

  /** `entry` is a recursion suffix on exactly `path`. */
  predicate TreeOf(entry: string, path: string) {
    exists s :: s in TREE_SUFFIXES && Clean(entry) == path + s
  }

  /** A tree entry that covers a path other than its base matches a file of that path. */
  lemma TreeMatchesBelow(glob: Glob, b: string, s: string, path: string)
    requires TreesMatch(glob) && Sound(Tree(b, s)) && GlobCovers(b + s, path)
    requires path != "" && path[|path| - 1] != '/' && path != b
    ensures glob(b + s, path)
  {
    var suffix :| suffix in {"/**", "/**/*", "/*", "**"} && CoversBy(b + s, suffix, path);
    TreeCoverage(b, s, suffix, path);
    var rest := path[|b| + 1..];
    assert path == b + "/" + rest && rest != "";
  }

  /** A sound entry that covers a path matches a file of exactly that path, unless it asks for what is below it. */
  lemma CoveredMatchesItself(glob: Glob, entry: string, path: string)
    requires TreesMatch(glob) && SoundEntry(entry) && EntryCovers(entry, path)
    requires Clean(path) == path && path != "" && path[|path| - 1] != '/' && !TreeOf(entry, path)
    ensures PathMatches(glob, entry, path)
  {
    var p := Clean(entry);
    if !WholeRepo(p) && path != p && !(p + "/" <= path) {
      var e :| Sound(e) && Spell(e) == p;
      match e
      case Directory(_) => LiteralHasNoSuffix(p, path); assert false;
      case Tree(b, s) => TreeMatchesBelow(glob, b, s, path);
    }
  }

  /** What a glob library must not do: match the base of a recursion suffix itself. */
  ghost predicate BaseIsOutside(glob: Glob) {
    forall b, s :: Literal(b) && b != "" && s in TREE_SUFFIXES ==> !glob(b + s, b)
  }

  /** For a file that is itself a derived path (a manifest), a sound tree entry errs exactly on its own base. */
  lemma TreeMatchesItselfExactly(glob: Glob, b: string, s: string, path: string)
    requires TreesMatch(glob) && BaseIsOutside(glob) && Sound(Tree(b, s)) && Clean(b + s) == b + s
    requires EntryCovers(b + s, path) && Clean(path) == path && path != "" && path[|path| - 1] != '/'
    ensures PathMatches(glob, b + s, path) <==> path != b
  {
    var p := b + s;
    if path == b {
      assert |p| > |b|;
    } else if path != p && !(p + "/" <= path) {
      TreeMatchesBelow(glob, b, s, path);
    }
  }

  lemma {:induction false} NonBlankAre(paths: seq<string>, p: string)
    ensures p in NonBlank(paths) <==> p in paths && !Blank(p)
  {
    if paths != [] {
      NonBlankAre(paths[1..], p);
      assert paths == [paths[0]] + paths[1..];
    }
  }

  /**
   * Dropping the filter changes no verdict: when narrowing resolves to none for
   * a path list with something in it, every commit that touches a file strictly
   * under a derived directory survives the filter it would have had. So does one
   * that touches a derived path itself, unless an entry asks only for what is below it.
   */
  lemma DroppedFilterIsSuperset(glob: Glob, derived: seq<string>, paths: seq<string>, dir: string, touched: seq<string>, file: string)
    requires TreesMatch(glob) && forall p :: p in paths ==> SoundEntry(p)
    requires NonBlank(paths) != [] && ResolveNarrow(derived, paths) == None
    requires dir in derived && file in touched && Clean(file) == file
    requires Under(file, dir) || (file == dir && dir != "" && dir[|dir| - 1] != '/' && forall p :: p in paths ==> !TreeOf(p, dir))
    ensures Survives(glob, Some(NonBlank(paths)), touched)
  {
    var kept := NonBlank(paths);
    var d :| 0 <= d < |derived| && derived[d] == dir;
    assert DirCovered(derived[d], kept);
    var j :| 0 <= j < |kept| && EntryCovers(kept[j], dir);
    NonBlankAre(paths, kept[j]);
    if Under(file, dir) {
      CoveredMatches(glob, kept[j], dir, file);
    } else {
      CoveredMatchesItself(glob, kept[j], dir);
    }
    var i :| 0 <= i < |touched| && touched[i] == file;
    assert PathMatches(glob, kept[j], touched[i]);
  }

  // --------------------------------------------------------- where it is not sound

  /** What a glob library must not do: match a relative path with an absolute pattern. */
  ghost predicate AbsoluteStaysAbsolute(glob: Glob) {
    forall p, f :: glob(p, f) && p != "" && p[0] == '/' ==> f != "" && f[0] == '/'
  }

  lemma CleanAbsolute(p: string)
    requires p != "" && p[0] == '/' && p[|p| - 1] == '*'
    ensures Clean(p) == p
  {
    assert TrimStart(p) == p && TrimEnd(p) == p;
  }

  /**
   * A recursion suffix with nothing before it counts as covering every directory,
   * yet matches no relative file: the dropped filter would have dropped the commit.
   */
  lemma RootSuffixIsUnsound(glob: Glob, suffix: string, dir: string, file: string)
    requires AbsoluteStaysAbsolute(glob) && suffix in TREE_SUFFIXES
    requires file != "" && file[0] != '/' && Clean(file) == file
    ensures EntryCovers(suffix, dir) && !PathMatches(glob, suffix, file)
    ensures ResolveNarrow([dir], [suffix]) == None
    ensures !Survives(glob, Some([suffix]), [file])
  {
    CleanAbsolute(suffix);
    assert suffix[|suffix| - |suffix|..] == suffix && suffix[..0] == "";
    assert CoversBy(suffix, suffix, dir);
    assert !Blank(suffix);
    var kept := NonBlank([suffix]);
    assert [suffix][1..] == [] && NonBlank([]) == [] && [suffix] + [] == [suffix];
    assert kept == [suffix];
    assert EntryCovers(kept[0], dir);
    assert DirCovered(dir, kept);
    assert !PathMatches(glob, suffix, file);
  }

  /** How the glob library reads `**`: alone it matches everything; glued to a name it does not parse. */
  ghost predicate DoubleStarLaw(glob: Glob) {
    && (forall f :: glob("**", f))
    && (forall b, f :: b != "" && b[|b| - 1] != '/' ==> !glob(b + "**", f))
  }

  /** `name**` counts as covering directory `name`, yet the pattern does not parse and nothing below it matches. */
  lemma GluedStarsAreUnsound(glob: Glob, b: string, rest: string)
    requires DoubleStarLaw(glob) && Literal(b) && b != "" && b[|b| - 1] != '/'
    requires Clean(b + "**") == b + "**" && Clean(b + "/" + rest) == b + "/" + rest
    ensures EntryCovers(b + "**", b) && !PathMatches(glob, b + "**", b + "/" + rest)
  {
    var p, f := b + "**", b + "/" + rest;
    assert p[|p| - 2..] == "**" && p[..|p| - 2] == b;
    assert DropSlashes(b) == b;
    assert CoversBy(p, "**", b);
    assert f[|b|] == '/' && p[|b|] == '*';
    assert (p + "/")[|b|] == '*';
  }

  /** A file under the head of a clean entry is clean. */
  lemma CleanUnder(p: string, c: string, rest: string)
    requires Clean(p) == p && c <= p && c != "" && c != "." && rest != "" && !IsWs(rest[|rest| - 1])
    ensures Clean(c + "/" + rest) == c + "/" + rest
  {
    var f := c + "/" + rest;
    CleanKeepsHead(p);
    assert f[0] == p[0] && f[|f| - 1] == rest[|rest| - 1];
    assert |c| == 1 ==> c == [c[0]] && c[0] != '.';
    assert |c| > 1 ==> f[1] == p[1];
    CleanWhen(f);
  }

  lemma CleanKeepsHead(p: string)
    requires Clean(p) == p && p != ""
    ensures !IsWs(p[0]) && !("./" <= p)
  {
    TrimStartShrinks(p);
    TrimEndShrinks(TrimStart(p));
    DropDotSlashShrinks(Trim(p));
    TrimEndPrefix(TrimStart(p));
  }

  lemma {:induction false} DropDotSlashShrinks(s: string)
    ensures |DropDotSlash(s)| <= |s|
    ensures "./" <= s ==> |DropDotSlash(s)| < |s|
  {
    if "./" <= s { DropDotSlashShrinks(s[2..]); }
  }

  lemma {:induction false} TrimStartShrinks(s: string)
    ensures |TrimStart(s)| <= |s|
    ensures s != "" && IsWs(s[0]) ==> |TrimStart(s)| < |s|
  {
    if s != "" && IsWs(s[0]) { TrimStartShrinks(s[1..]); }
  }

  lemma {:induction false} TrimEndShrinks(s: string)
    ensures |TrimEnd(s)| <= |s|
  {
    if s != "" && IsWs(s[|s| - 1]) { TrimEndShrinks(s[..|s| - 1]); }
  }

  lemma {:induction false} TrimEndPrefix(s: string)
    ensures TrimEnd(s) <= s
  {
    if s != "" && IsWs(s[|s| - 1]) { TrimEndPrefix(s[..|s| - 1]); }
  }

  lemma CleanWhen(f: string)
    requires f != "" && !IsWs(f[0]) && !IsWs(f[|f| - 1]) && !("./" <= f)
    ensures Clean(f) == f
  {
    TrimmedIsFixed(f);
  }

  /** The bare `**` covers everything and matches everything. */
  lemma BareStarsAreSound(glob: Glob, file: string)
    requires DoubleStarLaw(glob)
    ensures PathMatches(glob, "**", file)
  {
    assert Trim("**") == "**" by { TrimmedIsFixed("**"); }
    assert Clean("**") == "**";
  }

  lemma DotStarsAreSound(glob: Glob)
    ensures EntrySound(glob, ".**")
  {
    var p := ".**";
    assert p[0] == '.' && p[1] == '*' && p[2] == '*' && |p| == 3;
    assert "./"[1] == '/' && !("./" <= p);
    CleanWhen(p);
    forall dir, file | EntryCovers(p, dir) && Under(file, dir) && Clean(file) == file ensures PathMatches(glob, p, file) {
      assert dir == p || p + "/" <= dir || GlobCovers(p, dir);
      if dir == p || p + "/" <= dir {
        assert p + "/" <= file;
      } else {
        assert p[|p| - 3..] == ".**" && p[|p| - 2..] == "**" && p[..1] == "." && DropSlashes(".") == ".";
        assert CoversBy(p, "**", dir);
        assert dir == "." || "./" <= dir;
        assert "./" <= file;
        CleanKeepsHead(file);
        assert false;
      }
    }
  }

  /** What a literal base means to the glob library: a match begins with it. */
  ghost predicate BaseIsLiteral(glob: Glob) {
    forall b, s, f :: Literal(b) && s in TREE_SUFFIXES && glob(b + s, f) ==> b + "/" <= f
  }

  lemma {:induction false} DropSlashesStops(b: string)
    ensures DropSlashes(b) <= b
    ensures DropSlashes(b) != b ==> |DropSlashes(b)| < |b| && b[|DropSlashes(b)|] == '/'
    ensures b != "" && b[|b| - 1] == '/' ==> DropSlashes(b) != b
  {
    if b != "" && b[|b| - 1] == '/' {
      DropSlashesStops(b[..|b| - 1]);
      DropSlashesKeeps(b[..|b| - 1]);
    }
  }

  /** The character after a slashed base's first slash is another slash. */
  lemma SecondSlash(b: string, s: string, c: string)
    requires s in TREE_SUFFIXES && c < b && c == DropSlashes(b)
    ensures (b + s)[|c|] == '/' && (b + s)[|c| + 1] == '/'
  {
    DropSlashesStops(b);
    AllSlashes(b);
    assert s[0] == '/';
  }

  lemma {:induction false} AllSlashes(b: string)
    ensures |DropSlashes(b)| <= |b| && forall i :: |DropSlashes(b)| <= i < |b| ==> b[i] == '/'
  {
    if b != "" && b[|b| - 1] == '/' {
      AllSlashes(b[..|b| - 1]);
    }
  }

  /** A base with a slash too many counts as covering the directory, yet matches nothing below it. */
  lemma SlashedBaseWitness(glob: Glob, b: string, s: string) returns (dir: string, file: string)
    requires BaseIsLiteral(glob) && Literal(b) && s in TREE_SUFFIXES && Clean(b + s) == b + s && b != "" && b[|b| - 1] == '/'
    ensures EntryCovers(b + s, dir) && Under(file, dir) && Clean(file) == file && !PathMatches(glob, b + s, file)
  {
    var p, c := b + s, DropSlashes(b);
    DropSlashesStops(b);
    SecondSlash(b, s, c);
    assert p[|p| - |s|..] == s && p[..|p| - |s|] == b;
    assert p[|p| - 1] == '*' && |p| > 2;
    dir := if c == "" then "a" else c;
    file := dir + "/x";
    assert CoversBy(p, s, dir);
    CleanKeepsHead(p);
    if c == "" {
      CleanWhen(file);
      assert p[0] == '/' && file[0] == 'a';
    } else {
      assert c <= p && c != ".";
      assert file == c + "/" + "x";
      CleanUnder(p, c, "x");
      assert file[|c| + 1] == 'x';
    }
    assert !(p + "/" <= file) && file != p && !(b + "/" <= file) by {
      assert |b + "/"| > |c| + 1 && (b + "/")[|c|] == '/' && (b + "/")[|c| + 1] == '/';
    }
  }

  /** A character class matches the character it lists. */
  ghost predicate ClassLaw(glob: Glob) {
    forall pre, c, s, f :: Literal(pre) && c !in "]!" && s in TREE_SUFFIXES && glob(pre + ['[', c, ']'] + s, f) ==>
      |f| > |pre| && f[|pre|] == c
  }

  lemma NotLiterally(dir: string, s: string, rest: string)
    requires s in TREE_SUFFIXES && rest != "" && rest[0] != '*'
    ensures dir + "/" + rest != dir + s && !(dir + s + "/" <= dir + "/" + rest)
  {
    var p, f := dir + s, dir + "/" + rest;
    assert p[|dir| + 1] == '*' && f[|dir| + 1] == rest[0];
  }

  lemma CoversItsBase(dir: string, s: string)
    requires s in TREE_SUFFIXES && dir != "" && dir[|dir| - 1] != '/' && Clean(dir + s) == dir + s
    ensures EntryCovers(dir + s, dir)
  {
    var p := dir + s;
    assert p[|p| - |s|..] == s && p[..|p| - |s|] == dir && DropSlashes(dir) == dir;
    assert CoversBy(p, s, dir);
  }

  /** A base with a class counts as covering the directory of that literal name, while the pattern reads the class. */
  lemma BracketBaseIsUnsound(glob: Glob, pre: string, c: char, s: string, rest: string, dir: string)
    requires ClassLaw(glob) && Literal(pre) && c !in "]!" && c != '[' && s in TREE_SUFFIXES && rest != "" && rest[0] != '*'
    requires dir == pre + ['[', c, ']'] && Clean(dir + s) == dir + s && Clean(dir + "/" + rest) == dir + "/" + rest
    ensures EntryCovers(dir + s, dir) && !PathMatches(glob, dir + s, dir + "/" + rest)
  {
    var f := dir + "/" + rest;
    assert dir[|dir| - 1] == ']';
    CoversItsBase(dir, s);
    NotLiterally(dir, s, rest);
    assert f[|pre|] == '[';
    assert !glob(dir + s, f);
    assert |dir + s| > 1;
  }

  /** Every file an entry is taken to cover really matches it. */
  ghost predicate EntrySound(glob: Glob, entry: string) {
    forall dir, file :: EntryCovers(entry, dir) && Under(file, dir) && Clean(file) == file ==> PathMatches(glob, entry, file)
  }

  /**
   * Of the entries made of a literal base and one of the four suffixes the source
   * strips: the three that begin with a slash are sound exactly with a base that
   * does not end in a slash, the bare double star exactly without a base (or with
   * `.`, which names no directory). A base before `**` that ends in a slash is a
   * shorter base with the suffix that begins with one.
   */
  lemma SuffixSoundExactly(glob: Glob, b: string, s: string)
    requires TreesMatch(glob) && AbsoluteStaysAbsolute(glob) && DoubleStarLaw(glob) && BaseIsLiteral(glob)
    requires Literal(b) && s in TREE_SUFFIXES + {"**"} && Clean(b + s) == b + s
    requires s == "**" && b != "" ==> b[|b| - 1] != '/'
    ensures EntrySound(glob, b + s) <==>
      if s in TREE_SUFFIXES then b != "" && b[|b| - 1] != '/' else b == "" || b == "."
  {
    if s in TREE_SUFFIXES && b != "" && b[|b| - 1] == '/' {
      var dir, file := SlashedBaseWitness(glob, b, s);
      assert !PathMatches(glob, b + s, file);
    } else if s in TREE_SUFFIXES {
      TreeSoundExactly(glob, b, s);
    } else if b == "" {
      assert b + s == "**";
      forall dir, file | EntryCovers(b + s, dir) && Under(file, dir) && Clean(file) == file
        ensures PathMatches(glob, b + s, file)
      {
        BareStarsAreSound(glob, file);
      }
    } else if b == "." {
      DotStarsAreSound(glob);
      assert b + s == ".**";
    } else {
      assert b <= b + "**";
      CleanUnder(b + "**", b, "x");
      GluedStarsAreUnsound(glob, b, "x");
      assert Under(b + "/" + "x", b);
    }
  }

  /** So, of the entries `base` + suffix, those with a base are sound and the bare suffix is not. */
  lemma TreeSoundExactly(glob: Glob, b: string, s: string)
    requires TreesMatch(glob) && AbsoluteStaysAbsolute(glob)
    requires Literal(b) && s in TREE_SUFFIXES && Clean(b + s) == b + s && (b != "" ==> b[|b| - 1] != '/')
    ensures EntrySound(glob, b + s) <==> b != ""
  {
    if b != "" {
      assert Sound(Tree(b, s)) && Spell(Tree(b, s)) == b + s;
      forall dir, file | EntryCovers(b + s, dir) && Under(file, dir) && Clean(file) == file
        ensures PathMatches(glob, b + s, file)
      {
        CoveredMatches(glob, b + s, dir, file);
      }
    } else {
      assert b + s == s;
      assert Clean("a/b") == "a/b" && Under("a/b", "a");
      RootSuffixIsUnsound(glob, s, "a", "a/b");
    }
  }

  // ------------------------------------------------------------------ the whole scope

  const MANIFESTS: seq<string> := ["Cargo.toml", "Cargo.lock"]

  /** The directories that normalise to something, in order. */
  function Normalized(dirs: seq<string>): seq<string> {
    if dirs == [] then [] else
      Normalized(dirs[..|dirs| - 1]) +
      match NormalizeDir(dirs[|dirs| - 1]) case Some(d) => [d] case None => []
  }

  /** A crate's own directory; for the aggregate or a sole crate, all of them and the manifests. */
  function Derived(cratePath: string, all: seq<string>, monorepo: Option<string>): seq<string> {
    var own, dirs := NormalizeDir(cratePath), Dedup(Normalized(all));
    if own.Some? && Normalized(all) != [own.value] then [own.value]
    else if dirs != [] then dirs + MANIFESTS
    else if monorepo.Some? && NormalizeDir(monorepo.value).Some? then [NormalizeDir(monorepo.value).value]
    else []
  }

  lemma {:induction false} NormalizedAre(dirs: seq<string>, d: string)
    ensures d in Normalized(dirs) <==> exists x :: x in dirs && NormalizeDir(x) == Some(d)
  {
    if dirs != [] {
      var init, last := dirs[..|dirs| - 1], dirs[|dirs| - 1];
      NormalizedAre(init, d);
      assert forall x :: x in dirs <==> x in init || x == last;
    }
  }

  /** The track of the whole workspace: no directory of its own, or the only one there is. */
  predicate Aggregate(cratePath: string, all: seq<string>) {
    NormalizeDir(cratePath) == None || Normalized(all) == [NormalizeDir(cratePath).value]
  }

  /** An aggregate track's scope: every declared directory once, then the manifests. */
  lemma AggregateScope(cratePath: string, all: seq<string>, monorepo: Option<string>, d: string)
    requires Aggregate(cratePath, all) && Normalized(all) != []
    ensures var dirs := Derived(cratePath, all, monorepo);
      && |dirs| > 2 && dirs[|dirs| - 2..] == MANIFESTS && NoDuplicates(dirs[..|dirs| - 2])
      && (d in dirs[..|dirs| - 2] <==> exists x :: x in all && NormalizeDir(x) == Some(d))
  {
    var norm := Normalized(all);
    DedupElements(norm);
    DedupIn(norm, d);
    DedupIn(norm, norm[0]);
    NormalizedAre(all, d);
    var dirs := Dedup(norm) + MANIFESTS;
    assert dirs[..|dirs| - 2] == Dedup(norm) && dirs[|dirs| - 2..] == MANIFESTS;
  }

  /** A crate that is one of several is scoped to its own directory alone. */
  lemma PerCrateScope(cratePath: string, all: seq<string>, monorepo: Option<string>)
    requires !Aggregate(cratePath, all)
    ensures NormalizeDir(cratePath).Some? && Derived(cratePath, all, monorepo) == [NormalizeDir(cratePath).value]
  {
  }

  /** The scope is the whole repository exactly for an aggregate track with no directory declared anywhere. */
  lemma WholeRepoScope(cratePath: string, all: seq<string>, monorepo: Option<string>)
    ensures Derived(cratePath, all, monorepo) == [] <==>
      && NormalizeDir(cratePath).None? && (monorepo.Some? ==> NormalizeDir(monorepo.value).None?)
      && forall x :: x in all ==> NormalizeDir(x).None?
  {
    forall x | x in all && NormalizeDir(x).Some? ensures Normalized(all) != [] {
      NormalizedAre(all, NormalizeDir(x).value);
    }
    if Normalized(all) != [] {
      NormalizedAre(all, Normalized(all)[0]);
      DedupIn(Normalized(all), Normalized(all)[0]);
    }
  }

  method ResolveChangelogScope(cratePath: string, all: seq<string>, monorepo: Option<string>, paths: seq<string>)
    returns (dirs: seq<string>, narrow: Option<seq<string>>)
    ensures dirs == Derived(cratePath, all, monorepo)
    ensures narrow == ResolveNarrow(dirs, paths)
  {
    var own := NormalizeDir(cratePath);
    if own.Some? && Normalized(all) != [own.value] {
      dirs := [own.value];
    } else {
      dirs := [];
      var i := 0;
      while i < |all|
        invariant 0 <= i <= |all|
        invariant dirs == Dedup(Normalized(all[..i]))
      {
        assert all[..i + 1][..i] == all[..i];
        var d := NormalizeDir(all[i]);
        ghost var soFar := Normalized(all[..i]);
        assert Normalized(all[..i + 1]) == soFar + if d.Some? then [d.value] else [];
        if d.Some? {
          DedupSnoc(soFar, d.value);
          if d.value !in dirs {
            dirs := dirs + [d.value];
          }
        } else {
          assert soFar + [] == soFar;
        }
        i := i + 1;
      }
      assert all[..i] == all;
      if dirs == [] {
        var m := if monorepo.Some? then NormalizeDir(monorepo.value) else None;
        dirs := if m.Some? then [m.value] else [];
      } else {
        dirs := dirs + MANIFESTS;
      }
    }
    narrow := ResolveNarrow(dirs, paths);
  }
}
