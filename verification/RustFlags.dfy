/** CPU-level detection from rustc flags, and the reproducibility-flag merges around it. */
module RustFlags {
  import opened Prelude
  import opened Text

  const JOINED := "-Ctarget-cpu="
  const LONG := "--codegen="
  const CPU := "target-cpu="
  const X86 := "x86-64-"

  function StripPrefix(s: string, p: string): Option<string> {
    if p <= s then Some(s[|p|..]) else None
  }

  // ------------------------------------------------------------------- detection

  /** The CPU that the tokens from `i` on select at `i`, in any of rustc's spellings. */
  function CpuAt(ts: seq<string>, i: nat): Option<string>
    requires i < |ts|
  {
    if JOINED <= ts[i] then StripPrefix(ts[i], JOINED)
    else if LONG + CPU <= ts[i] then StripPrefix(ts[i], LONG + CPU)
    else if (ts[i] == "-C" || ts[i] == "--codegen") && i + 1 < |ts| then StripPrefix(ts[i + 1], CPU)
    else None
  }

  /** The x86-64 level named at `i`, if any. */
  function LevelAt(ts: seq<string>, i: nat): Option<string>
    requires i < |ts|
  {
    var cpu := CpuAt(ts, i);
    if cpu.Some? then StripPrefix(cpu.value, X86) else None
  }

  /** The first level named at or after `i`. */
  function LevelFrom(ts: seq<string>, i: nat): Option<string>
    requires i <= |ts|
    decreases |ts| - i
  {
    if i == |ts| then None
    else if LevelAt(ts, i).Some? then LevelAt(ts, i)
    else LevelFrom(ts, i + 1)
  }

  function Level(ts: seq<string>): Option<string> {
    LevelFrom(ts, 0)
  }

  function Detect(flags: string): Option<string> {
    Level(Tokens(flags))
  }

  /** The token loop: a `-C` consumes the `target-cpu=` token after it. */
  method Amd64VariantFromRustflags(flags: string) returns (r: Option<string>)
    ensures r == Detect(flags)
  {
    var ts := Tokens(flags);
    var i := 0;
    while i < |ts|
      invariant 0 <= i <= |ts|
      invariant LevelFrom(ts, i) == Level(ts)
      decreases |ts| - i
    {
      var cpu: Option<string> := None;
      var at := i;
      if JOINED <= ts[i] {
        cpu := StripPrefix(ts[i], JOINED);
      } else if LONG <= ts[i] && CPU <= ts[i][|LONG|..] {
        LongSpelling(ts[i]);
        cpu := StripPrefix(ts[i][|LONG|..], CPU);
      } else {
        LongSpelling(ts[i]);
        if (ts[i] == "-C" || ts[i] == "--codegen") && i + 1 < |ts| && CPU <= ts[i + 1] {
          i := i + 1;
          cpu := StripPrefix(ts[i], CPU);
          ConsumedHasNoLevel(ts, i);
        }
      }
      assert cpu == CpuAt(ts, at);
      if cpu.Some? && X86 <= cpu.value {
        return StripPrefix(cpu.value, X86);
      }
      assert LevelFrom(ts, at + 1) == Level(ts);
      i := i + 1;
    }
    r := None;
  }

  lemma LongSpelling(t: string)
    ensures LONG + CPU <= t <==> LONG <= t && CPU <= t[|LONG|..]
    ensures LONG + CPU <= t ==> t[|LONG + CPU|..] == t[|LONG|..][|CPU|..]
  {
    if LONG <= t && CPU <= t[|LONG|..] {
      assert t == LONG + t[|LONG|..];
      assert t[..|LONG + CPU|] == LONG + CPU;
    }
    if LONG + CPU <= t {
      assert t == (LONG + CPU) + t[|LONG + CPU|..];
      assert t[|LONG|..] == CPU + t[|LONG + CPU|..];
    }
  }

  /** A token that starts with `target-cpu=` names no level of its own. */
  lemma ConsumedHasNoLevel(ts: seq<string>, i: nat)
    requires i < |ts| && CPU <= ts[i]
    ensures LevelAt(ts, i) == None
  {
    assert ts[i][0] == 't' && JOINED[0] == '-' && (LONG + CPU)[0] == '-';
  }

  /** Token `i` names an x86-64 level, in one of the three spellings. */
  predicate NamesLevel(ts: seq<string>, i: nat)
    requires i < |ts|
  {
    || JOINED + X86 <= ts[i]
    || LONG + CPU + X86 <= ts[i]
    || ((ts[i] == "-C" || ts[i] == "--codegen") && i + 1 < |ts| && CPU + X86 <= ts[i + 1])
  }

  lemma PrefixOfPrefix(a: string, b: string, t: string)
    ensures a + b <= t <==> a <= t && b <= t[|a|..]
  {
    if a <= t && b <= t[|a|..] {
      assert t == a + t[|a|..];
      assert t[..|a + b|] == a + b;
    }
    if a + b <= t {
      assert t == (a + b) + t[|a + b|..];
      assert t[|a|..] == b + t[|a + b|..];
    }
  }

  lemma LevelAtExactly(ts: seq<string>, i: nat)
    requires i < |ts|
    ensures LevelAt(ts, i).Some? <==> NamesLevel(ts, i)
  {
    PrefixOfPrefix(JOINED, X86, ts[i]);
    PrefixOfPrefix(LONG + CPU, X86, ts[i]);
    if i + 1 < |ts| { PrefixOfPrefix(CPU, X86, ts[i + 1]); }
    assert JOINED[1] == 'C' && (LONG + CPU)[1] == '-' && "-C"[1] == 'C' && |"-C"| == 2;
  }

  /** No level is detected exactly when no token names one. */
  lemma {:induction false} LevelFromExactly(ts: seq<string>, i: nat)
    requires i <= |ts|
    ensures LevelFrom(ts, i) == None <==> forall j :: i <= j < |ts| ==> !NamesLevel(ts, j)
    decreases |ts| - i
  {
    if i < |ts| {
      LevelAtExactly(ts, i);
      LevelFromExactly(ts, i + 1);
    }
  }

  /** Token `i` spells level `v`, in one of the three ways. */
  predicate SpellsLevel(ts: seq<string>, i: nat, v: string)
    requires i < |ts|
  {
    || ts[i] == JOINED + X86 + v
    || ts[i] == LONG + CPU + X86 + v
    || ((ts[i] == "-C" || ts[i] == "--codegen") && i + 1 < |ts| && ts[i + 1] == CPU + X86 + v)
  }

  lemma StripTwice(a: string, b: string, t: string, v: string)
    ensures t == a + b + v <==> a <= t && b <= t[|a|..] && t[|a|..][|b|..] == v
  {
    if a <= t && b <= t[|a|..] {
      assert t == a + t[|a|..] && t[|a|..] == b + t[|a|..][|b|..];
    }
    if t == a + b + v {
      assert t == a + (b + v) && t[|a|..] == b + v;
    }
  }

  /** What is read at a token is the level it spells, and nothing else. */
  lemma LevelAtText(ts: seq<string>, i: nat, v: string)
    requires i < |ts|
    ensures LevelAt(ts, i) == Some(v) <==> SpellsLevel(ts, i, v)
  {
    StripTwice(JOINED, X86, ts[i], v);
    StripTwice(LONG + CPU, X86, ts[i], v);
    if i + 1 < |ts| { StripTwice(CPU, X86, ts[i + 1], v); }
    SpellingsApart(ts[i]);
  }

  /** A token begins with at most one of the spellings. */
  lemma SpellingsApart(t: string)
    ensures !(JOINED <= t && LONG + CPU <= t)
    ensures t == "-C" || t == "--codegen" ==> !(JOINED <= t) && !(LONG + CPU <= t)
  {
    assert JOINED[1] == 'C' && (LONG + CPU)[1] == '-' && |"-C"| == 2 && |"--codegen"| == 9 && |JOINED| > 2 && |LONG + CPU| > 9;
    assert "--codegen"[1] == '-';
  }

  lemma {:induction false} FirstLevelFrom(ts: seq<string>, i: nat, k: nat)
    requires k <= i < |ts| && LevelAt(ts, i).Some? && forall j :: k <= j < i ==> LevelAt(ts, j).None?
    ensures LevelFrom(ts, k) == LevelAt(ts, i)
    decreases i - k
  {
    if k < i { FirstLevelFrom(ts, i, k + 1); }
  }

  lemma {:induction false} LevelFromHit(ts: seq<string>, k: nat) returns (i: nat)
    requires k <= |ts| && LevelFrom(ts, k).Some?
    ensures k <= i < |ts| && LevelAt(ts, i) == LevelFrom(ts, k) && forall j :: k <= j < i ==> LevelAt(ts, j).None?
    decreases |ts| - k
  {
    i := k;
    if LevelAt(ts, k).None? { i := LevelFromHit(ts, k + 1); }
  }

  /** The detected text: exactly what follows `x86-64-` in the first token that spells a level. */
  lemma LevelText(ts: seq<string>, v: string)
    ensures Level(ts) == Some(v) <==>
      exists i :: 0 <= i < |ts| && SpellsLevel(ts, i, v) && forall j :: 0 <= j < i ==> !NamesLevel(ts, j)
  {
    forall j | 0 <= j < |ts| ensures LevelAt(ts, j).Some? <==> NamesLevel(ts, j) {
      LevelAtExactly(ts, j);
    }
    forall j | 0 <= j < |ts| ensures LevelAt(ts, j) == Some(v) <==> SpellsLevel(ts, j, v) {
      LevelAtText(ts, j, v);
    }
    if Level(ts) == Some(v) {
      var i := LevelFromHit(ts, 0);
      assert SpellsLevel(ts, i, v);
    }
    if i :| 0 <= i < |ts| && SpellsLevel(ts, i, v) && forall j :: 0 <= j < i ==> !NamesLevel(ts, j) {
      FirstLevelFrom(ts, i, 0);
    }
  }

  // ------------------------------------------------------------ appending tokens

  lemma {:induction false} LevelFromShift(a: seq<string>, b: seq<string>, i: nat)
    requires i <= |b|
    ensures LevelFrom(a + b, |a| + i) == LevelFrom(b, i)
    decreases |b| - i
  {
    if i < |b| {
      assert (a + b)[|a| + i] == b[i];
      if i + 1 < |b| { assert (a + b)[|a| + i + 1] == b[i + 1]; }
      LevelFromShift(a, b, i + 1);
    }
  }

  lemma {:induction false} LevelAppendFrom(a: seq<string>, b: seq<string>, i: nat)
    requires i <= |a| && (b == [] || !(CPU <= b[0]))
    ensures LevelFrom(a + b, i) == if LevelFrom(a, i).Some? then LevelFrom(a, i) else Level(b)
    decreases |a| - i
  {
    if i == |a| {
      LevelFromShift(a, b, 0);
    } else {
      assert (a + b)[i] == a[i];
      if i + 1 < |a| {
        assert (a + b)[i + 1] == a[i + 1];
      } else if b != [] {
        assert (a + b)[i + 1] == b[0];
      }
      LevelAppendFrom(a, b, i + 1);
    }
  }

  /** Appended tokens decide only when the base names no level, even after a dangling `-C`. */
  lemma LevelAppend(a: seq<string>, b: seq<string>)
    requires b == [] || !(CPU <= b[0])
    ensures Level(a + b) == if Level(a).Some? then Level(a) else Level(b)
  {
    LevelAppendFrom(a, b, 0);
  }

  /** A token that begins with none of the recognised spellings. */
  predicate Neutral(t: string) {
    !(JOINED <= t) && !(LONG + CPU <= t) && !(CPU <= t)
  }

  lemma {:induction false} NeutralLevel(b: seq<string>, i: nat)
    requires i <= |b| && forall j :: 0 <= j < |b| ==> Neutral(b[j])
    ensures LevelFrom(b, i) == None
    decreases |b| - i
  {
    if i < |b| {
      assert LevelAt(b, i) == None;
      NeutralLevel(b, i + 1);
    }
  }

  /** Neutral tokens never change the detected level, whatever the base ends in. */
  lemma NeutralTokensKeepLevel(a: seq<string>, b: seq<string>)
    requires forall j :: 0 <= j < |b| ==> Neutral(b[j])
    ensures Level(a + b) == Level(a)
  {
    LevelAppend(a, b);
    NeutralLevel(b, 0);
  }

  // -------------------------------------------------------------- cargo's sources

  const ENCODED := "CARGO_ENCODED_RUSTFLAGS"
  const PLAIN := "RUSTFLAGS"

  type Env = map<string, string>

  /** Encoded flags with every unit separator turned into a space. */
  function Spaced(s: string): string {
    seq(|s|, i requires 0 <= i < |s| => if s[i] == UNIT_SEP then ' ' else s[i])
  }

  function LookupEither(config: Env, process: Env, key: string): Option<string> {
    if key in config then Some(config[key]) else if key in process then Some(process[key]) else None
  }

  /** The flags string in force: the first source present wins, config before process at each. */
  function EffectiveRustflags(config: Env, process: Env, targetKey: string): Option<string> {
    var encoded := LookupEither(config, process, ENCODED);
    if encoded.Some? then Some(Spaced(encoded.value))
    else
      var plain := LookupEither(config, process, PLAIN);
      if plain.Some? then plain else LookupEither(config, process, targetKey)
  }

  /** Where cargo itself takes its flags from, in the one environment it is spawned with. */
  datatype Source = EncodedArgs(s: string) | FlagText(s: string) | NoFlags

  function CargoSource(child: Env, targetKey: string): Source {
    if ENCODED in child then EncodedArgs(child[ENCODED])
    else if PLAIN in child then FlagText(child[PLAIN])
    else if targetKey in child then FlagText(child[targetKey])
    else NoFlags
  }

  /** The child sees the process environment with the config overlaid per key. */
  function ChildEnv(config: Env, process: Env): Env {
    process + config
  }

  /** Tier-by-tier lookup over the two maps is cargo's precedence on the overlaid one. */
  lemma EffectiveIsCargoSource(config: Env, process: Env, targetKey: string)
    ensures EffectiveRustflags(config, process, targetKey) ==
      match CargoSource(ChildEnv(config, process), targetKey)
      case EncodedArgs(s) => Some(Spaced(s))
      case FlagText(s) => Some(s)
      case NoFlags => None
  {
  }

  /** Arguments that survive a trip through the encoded form and the whitespace splitter. */
  predicate PlainArg(t: string) {
    t != "" && NoWs(t) && UNIT_SEP !in t
  }

  lemma {:induction false} SpacedJoin(ts: seq<string>)
    requires forall t :: t in ts ==> UNIT_SEP !in t
    ensures Spaced(Join(ts, [UNIT_SEP])) == Join(ts, " ")
    decreases |ts|
  {
    if |ts| == 1 {
      assert ts[0] in ts;
      assert Spaced(ts[0]) == ts[0];
    } else if |ts| > 1 {
      assert ts[0] in ts;
      SpacedJoin(ts[1..]);
      var rest := Join(ts[1..], [UNIT_SEP]);
      assert Spaced(ts[0] + [UNIT_SEP] + rest) == ts[0] + " " + Spaced(rest);
    }
  }

  lemma {:induction false} TokensOfJoin(ts: seq<string>)
    requires forall t :: t in ts ==> t != "" && NoWs(t)
    ensures Tokens(Join(ts, " ")) == ts
    decreases |ts|
  {
    if |ts| >= 1 {
      assert ts[0] in ts;
      TokensOfWord(ts[0]);
      if |ts| > 1 {
        assert forall t :: t in ts[1..] ==> t in ts;
        TokensOfJoin(ts[1..]);
        TokensSplit(ts[0], ' ', Join(ts[1..], " "));
        assert [ts[0]] + ts[1..] == ts;
      } else {
        assert ts == [ts[0]];
      }
    }
  }

  /** An encoded argument list is scanned argument by argument. */
  lemma EncodedArgsKeepLevel(ts: seq<string>)
    requires forall t :: t in ts ==> PlainArg(t)
    ensures Tokens(Spaced(Join(ts, [UNIT_SEP]))) == ts
    ensures Detect(Spaced(Join(ts, [UNIT_SEP]))) == Level(ts) == Detect(Join(ts, " "))
  {
    SpacedJoin(ts);
    TokensOfJoin(ts);
  }

  /** Exactly the plain argument lists come back from the encoded form as they went in. */
  lemma EncodedArgsExactly(ts: seq<string>)
    requires forall t :: t in ts ==> UNIT_SEP !in t
    ensures Tokens(Spaced(Join(ts, [UNIT_SEP]))) == ts <==> forall t :: t in ts ==> PlainArg(t)
  {
    if forall t :: t in ts ==> PlainArg(t) {
      EncodedArgsKeepLevel(ts);
    }
  }

  /** An argument with a space in it comes back as two. */
  lemma SpacedArgIsSplit(a: string, b: string)
    requires PlainArg(a) && PlainArg(b)
    ensures Tokens(Spaced(Join([a + " " + b], [UNIT_SEP]))) == [a, b]
  {
    SpacedJoin([a + " " + b]);
    assert a + " " + b == a + [' '] + b;
    TokensSplit(a, ' ', b);
    TokensOfWord(a);
    TokensOfWord(b);
  }

  /** An empty argument is lost on the way. */
  lemma EmptyArgIsLost(a: string, b: string)
    requires PlainArg(a) && PlainArg(b)
    ensures Tokens(Spaced(Join([a, "", b], [UNIT_SEP]))) == [a, b]
  {
    var ts := [a, "", b];
    SpacedJoin(ts);
    assert ts[1..] == ["", b] && ["", b][1..] == [b];
    assert Join([b], " ") == b && Join(["", b], " ") == "" + " " + b;
    assert Join(ts, " ") == a + [' '] + ("" + [' '] + b);
    TokensSplit(a, ' ', "" + [' '] + b);
    TokensSplit("", ' ', b);
    TokensOfWord(a);
    TokensOfWord(b);
  }

  /** So the splitter can see a level in arguments that cargo keeps apart. */
  lemma EmptyArgChangesLevel(v: string)
    requires NoWs(v) && UNIT_SEP !in v
    ensures var ts := ["-C", "", CPU + (X86 + v)];
      Level(ts) == None && Detect(Spaced(Join(ts, [UNIT_SEP]))) == Some(v)
  {
    var cpu := CPU + (X86 + v);
    EmptyArgIsLost("-C", cpu);
    assert CpuAt(["-C", cpu], 0) == Some(X86 + v);
    assert StripPrefix(X86 + v, X86) == Some(v);
    var ts := ["-C", "", cpu];
    ConsumedHasNoLevel(ts, 2);
    assert LevelAt(ts, 0) == None && LevelAt(ts, 1) == None;
    assert LevelFrom(ts, 3) == None && LevelFrom(ts, 2) == None && LevelFrom(ts, 1) == None;
  }

  function SourceLevel(source: Source): Option<string> {
    match source
    case EncodedArgs(s) => Detect(Spaced(s))
    case FlagText(s) => Detect(s)
    case NoFlags => None
  }

  /** Off x86-64 there is no level; on it, the level of whatever flags cargo itself would take. */
  lemma VariantFromEnvIs(target: string, config: Env, process: Env, targetKey: string)
    ensures !("x86_64" <= target) ==> Amd64VariantFromEnv(target, config, process, targetKey) == None
    ensures "x86_64" <= target ==>
      Amd64VariantFromEnv(target, config, process, targetKey) == SourceLevel(CargoSource(ChildEnv(config, process), targetKey))
  {
    EffectiveIsCargoSource(config, process, targetKey);
  }

  /** The micro-architecture level of a build: only x86_64 targets have one. */
  function Amd64VariantFromEnv(target: string, config: Env, process: Env, targetKey: string): Option<string> {
    if !("x86_64" <= target) then None
    else
      var flags := EffectiveRustflags(config, process, targetKey);
      if flags.None? then None else Detect(flags.value)
  }
}
