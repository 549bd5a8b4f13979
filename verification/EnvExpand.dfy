/** Shell-style `$VAR` and `${VAR}` expansion with a pluggable lookup. */
module EnvExpand {
  import opened Prelude

  type Lookup = string -> Option<string>

  predicate IsNameStart(c: char) {
    'a' <= c <= 'z' || 'A' <= c <= 'Z' || c == '_'
  }

  predicate IsNameChar(c: char) {
    IsNameStart(c) || '0' <= c <= '9'
  }

  /** A string cut into literal characters and variable references. */
  datatype Seg = Text(c: char) | Bare(name: string) | Braced(name: string)

  function Raw(g: Seg): string {
    match g
    case Text(c) => [c]
    case Bare(n) => "$" + n
    case Braced(n) => "${" + n + "}"
  }

  function Flatten(gs: seq<Seg>): string {
    if gs == [] then "" else Raw(gs[0]) + Flatten(gs[1..])
  }

  /** Offset of the first `}`, the length when there is none. */
  function CloseAt(s: string): (n: nat)
    ensures n <= |s|
    ensures n < |s| ==> s[n] == '}'
    ensures forall i :: 0 <= i < n ==> s[i] != '}'
  {
    if s == [] || s[0] == '}' then 0 else 1 + CloseAt(s[1..])
  }

  /** Length of the leading run of name characters. */
  function NameLen(s: string): (n: nat)
    ensures n <= |s|
    ensures n < |s| ==> !IsNameChar(s[n])
    ensures forall i :: 0 <= i < n ==> IsNameChar(s[i])
  {
    if s == [] || !IsNameChar(s[0]) then 0 else 1 + NameLen(s[1..])
  }

  /** The first segment of a non-empty string. */
  function First(s: string): (g: Seg)
    requires s != []
    ensures Raw(g) <= s && |Raw(g)| > 0
  {
    if s[0] != '$' || |s| == 1 then Text(s[0])
    else if s[1] == '{' then
      var close := CloseAt(s[2..]);
      if close < |s[2..]| then
        assert s[..3 + close] == "${" + s[2..2 + close] + "}";
        Braced(s[2..2 + close])
      else Text('$')
    else if !IsNameStart(s[1]) then Text('$')
    else
      assert s[..1 + NameLen(s[1..])] == "$" + s[1..1 + NameLen(s[1..])];
      Bare(s[1..1 + NameLen(s[1..])])
  }

  function Scan(s: string): seq<Seg>
    decreases |s|
  {
    if s == [] then [] else [First(s)] + Scan(s[|Raw(First(s))|..])
  }

  // ------------------------------------------------------------ what the cut is

  /** The segments concatenate back to the input. */
  lemma {:induction false} ScanCovers(s: string)
    ensures Flatten(Scan(s)) == s
    decreases |s|
  {
    if s != [] {
      var g := First(s);
      ScanCovers(s[|Raw(g)|..]);
      assert ([g] + Scan(s[|Raw(g)|..]))[1..] == Scan(s[|Raw(g)|..]);
    }
  }

  /** Whether a `$` followed by `rest` begins a reference. */
  predicate BeginsRef(rest: string) {
    rest != "" && (if rest[0] == '{' then '}' in rest[1..] else IsNameStart(rest[0]))
  }

  /** The grammar: one segment, given the text after it. */
  predicate Fits(g: Seg, rest: string) {
    match g
    case Text(c) => c == '$' ==> !BeginsRef(rest)
    case Bare(n) =>
      && n != "" && IsNameStart(n[0]) && (forall i :: 0 <= i < |n| ==> IsNameChar(n[i]))
      && (rest == "" || !IsNameChar(rest[0]))
    case Braced(n) => '}' !in n
  }

  predicate Grammatical(gs: seq<Seg>) {
    gs != [] ==> Fits(gs[0], Flatten(gs[1..])) && Grammatical(gs[1..])
  }

  lemma CloseAtIs(a: string, b: string)
    requires '}' !in a
    ensures CloseAt(a + "}" + b) == |a|
  {
    var s := a + "}" + b;
    assert s[|a|] == '}';
    assert forall i :: 0 <= i < |a| ==> s[i] == a[i] && a[i] in a;
  }

  lemma NameLenIs(n: string, rest: string)
    requires forall i :: 0 <= i < |n| ==> IsNameChar(n[i])
    requires rest == "" || !IsNameChar(rest[0])
    ensures NameLen(n + rest) == |n|
  {
    var s := n + rest;
    assert forall i :: 0 <= i < |n| ==> s[i] == n[i];
    assert rest != "" ==> s[|n|] == rest[0];
  }

  lemma TextIsFirst(c: char, rest: string)
    requires Fits(Text(c), rest)
    ensures First([c] + rest) == Text(c)
  {
    var s := [c] + rest;
    assert rest != "" ==> s[1] == rest[0];
    if c == '$' && rest != "" && rest[0] == '{' {
      assert s[2..] == rest[1..];
    }
  }

  lemma BareIsFirst(n: string, rest: string)
    requires Fits(Bare(n), rest)
    ensures First(Raw(Bare(n)) + rest) == Bare(n)
  {
    var s := Raw(Bare(n)) + rest;
    assert s[1] == n[0] && n[0] != '{';
    assert s[1..] == n + rest;
    NameLenIs(n, rest);
    assert s[1..1 + |n|] == n;
  }

  lemma BracedIsFirst(n: string, rest: string)
    requires Fits(Braced(n), rest)
    ensures First(Raw(Braced(n)) + rest) == Braced(n)
  {
    var s := Raw(Braced(n)) + rest;
    assert s[2..] == n + "}" + rest;
    CloseAtIs(n, rest);
    assert s[2..2 + |n|] == n;
  }

  /** A segment that fits is the one the scanner takes. */
  lemma FitsIsFirst(g: Seg, rest: string)
    requires Fits(g, rest)
    ensures First(Raw(g) + rest) == g
  {
    match g
    case Text(c) => TextIsFirst(c, rest);
    case Bare(n) => BareIsFirst(n, rest);
    case Braced(n) => BracedIsFirst(n, rest);
  }

  lemma FirstFits(s: string)
    requires s != []
    ensures Fits(First(s), s[|Raw(First(s))|..])
  {
    var g := First(s);
    var rest := s[|Raw(g)|..];
    match g
    case Text(c) =>
      if c == '$' && |s| > 1 && s[1] == '{' {
        assert rest[1..] == s[2..];
      }
    case Bare(n) =>
      assert forall i :: 0 <= i < |n| ==> n[i] == s[1..][i];
      assert rest != "" ==> rest[0] == s[1..][|n|];
    case Braced(n) =>
      assert forall i :: 0 <= i < |n| ==> n[i] == s[2..][i];
  }

  /** The scanner's cut is grammatical. */
  lemma {:induction false} ScanGrammatical(s: string)
    ensures Grammatical(Scan(s))
    decreases |s|
  {
    if s != [] {
      var rest := s[|Raw(First(s))|..];
      FirstFits(s);
      ScanGrammatical(rest);
      ScanCovers(rest);
      assert Scan(s)[1..] == Scan(rest);
    }
  }

  lemma RawIsNotEmpty(g: Seg)
    ensures Raw(g) != ""
  {
  }

  lemma ScanStep(s: string, g: Seg, rest: string)
    requires s == Raw(g) + rest && Raw(g) != "" && First(s) == g
    ensures Scan(s) == [g] + Scan(rest)
  {
    assert s[|Raw(g)|..] == rest;
  }

  /** And it is the only grammatical cut of the string: the grammar is unambiguous. */
  lemma {:induction false} ScanUnique(gs: seq<Seg>)
    requires Grammatical(gs)
    ensures Scan(Flatten(gs)) == gs
    decreases |gs|
  {
    if gs != [] {
      var rest := Flatten(gs[1..]);
      FitsIsFirst(gs[0], rest);
      ScanUnique(gs[1..]);
      RawIsNotEmpty(gs[0]);
      ScanStep(Raw(gs[0]) + rest, gs[0], rest);
      assert gs == [gs[0]] + gs[1..];
    }
  }

  // ------------------------------------------------------------------- expansion

  /** A segment's replacement; `keep` says whether an unknown reference stays as written. */
  function Value(g: Seg, lookup: Lookup, keep: bool): string {
    if g.Text? then [g.c]
    else match lookup(g.name)
      case Some(v) => v
      case None => if keep then Raw(g) else ""
  }

  /** Values are pasted in place of the references of the input and never scanned. */
  function Expanded(gs: seq<Seg>, lookup: Lookup, keep: bool): string {
    if gs == [] then "" else Value(gs[0], lookup, keep) + Expanded(gs[1..], lookup, keep)
  }

  lemma {:induction false} ExpandedAppend(a: seq<Seg>, b: seq<Seg>, lookup: Lookup, keep: bool)
    ensures Expanded(a + b, lookup, keep) == Expanded(a, lookup, keep) + Expanded(b, lookup, keep)
    decreases |a|
  {
    if a == [] {
      assert a + b == b;
    } else {
      assert (a + b)[1..] == a[1..] + b;
      ExpandedAppend(a[1..], b, lookup, keep);
    }
  }

  /**
   * What stands in the result for one segment of a grammatical string, in either
   * mode: a character is itself, a known reference its value, an unknown one
   * nothing or, preserving, its own text.
   */
  lemma Substituted(pre: seq<Seg>, g: Seg, post: seq<Seg>, lookup: Lookup, keep: bool)
    requires Grammatical(pre + [g] + post)
    ensures var put := if g.Text? then [g.c]
                       else if lookup(g.name).Some? then lookup(g.name).value
                       else if keep then Raw(g) else "";
      Expanded(Scan(Flatten(pre + [g] + post)), lookup, keep) ==
        Expanded(pre, lookup, keep) + put + Expanded(post, lookup, keep)
  {
    ScanUnique(pre + [g] + post);
    ExpandedAppend(pre + [g], post, lookup, keep);
    ExpandedAppend(pre, [g], lookup, keep);
    assert [g][1..] == [] && Value(g, lookup, keep) + "" == Value(g, lookup, keep);
  }

  /** A reference that fits what follows it is replaced, and what follows expands on its own. */
  lemma HeadSubstituted(g: Seg, tail: string, lookup: Lookup, keep: bool)
    requires Fits(g, tail)
    ensures Expanded(Scan(Raw(g) + tail), lookup, keep) == Value(g, lookup, keep) + Expanded(Scan(tail), lookup, keep)
  {
    FitsIsFirst(g, tail);
    RawIsNotEmpty(g);
    ScanStep(Raw(g) + tail, g, tail);
    var gs := [g] + Scan(tail);
    assert gs[1..] == Scan(tail);
  }

  /** For example a known variable before a slash. */
  lemma KnownIsReplaced(name: string, v: string, rest: string, lookup: Lookup, keep: bool)
    requires name != "" && IsNameStart(name[0]) && (forall i :: 0 <= i < |name| ==> IsNameChar(name[i]))
    requires lookup(name) == Some(v) && rest != "" && rest[0] == '/' && '$' !in rest
    ensures Expanded(Scan("$" + name + rest), lookup, keep) == v + rest
  {
    assert Raw(Bare(name)) == "$" + name;
    HeadSubstituted(Bare(name), rest, lookup, keep);
    PlainText(rest, lookup, keep);
  }

  lemma {:induction false} PlainText(s: string, lookup: Lookup, keep: bool)
    requires '$' !in s
    ensures Expanded(Scan(s), lookup, keep) == s
    decreases |s|
  {
    if s != "" {
      assert s[0] in s && First(s) == Text(s[0]);
      assert Raw(Text(s[0])) == [s[0]];
      PlainText(s[1..], lookup, keep);
      ExpandedStep(s, lookup, keep);
      assert s == [s[0]] + s[1..];
    }
  }

  /** One step of the scanner's loop, as a fact about the whole result. */
  lemma ExpandedStep(s: string, lookup: Lookup, keep: bool)
    requires s != []
    ensures Expanded(Scan(s), lookup, keep)
         == Value(First(s), lookup, keep) + Expanded(Scan(s[|Raw(First(s))|..]), lookup, keep)
  {
    assert Scan(s)[1..] == Scan(s[|Raw(First(s))|..]);
  }

  /** `position` of the closing brace from `from` on. */
  method FindClose(s: string, from: nat) returns (n: Option<nat>)
    requires from <= |s|
    ensures n.None? ==> '}' !in s[from..]
    ensures n.Some? ==> from + n.value < |s| && s[from + n.value] == '}' && '}' !in s[from..from + n.value]
  {
    var i := from;
    while i < |s|
      invariant from <= i <= |s|
      invariant '}' !in s[from..i]
    {
      if s[i] == '}' {
        return Some(i - from);
      }
      i := i + 1;
    }
    n := None;
  }

  method NameEnd(s: string, from: nat) returns (end: nat)
    requires from <= |s|
    ensures from <= end <= |s| && (end < |s| ==> !IsNameChar(s[end]))
    ensures forall i :: from <= i < end ==> IsNameChar(s[i])
  {
    end := from;
    while end < |s| && IsNameChar(s[end])
      invariant from <= end <= |s|
      invariant forall i :: from <= i < end ==> IsNameChar(s[i])
    {
      end := end + 1;
    }
  }

  /** The text of `s` between `i` and `next` is segment `g`, cut as the grammar says. */
  ghost predicate SegmentAt(s: string, i: nat, next: nat, g: Seg) {
    i < next <= |s| && s[i..next] == Raw(g) && Fits(g, s[next..])
  }

  lemma DollarAt(s: string, i: nat)
    requires i + 1 < |s| && s[i] == '$'
    requires if s[i + 1] == '{' then '}' !in s[i + 2..] else !IsNameStart(s[i + 1])
    ensures SegmentAt(s, i, i + 1, Text('$'))
  {
    assert s[i..i + 1] == "$" && s[i + 1..][0] == s[i + 1] && s[i + 1..][1..] == s[i + 2..];
  }

  lemma BracedAt(s: string, i: nat, end: nat)
    requires i + 2 <= end < |s| && s[i] == '$' && s[i + 1] == '{' && s[end] == '}' && '}' !in s[i + 2..end]
    ensures SegmentAt(s, i, end + 1, Braced(s[i + 2..end]))
  {
    assert s[i..end + 1] == "${" + s[i + 2..end] + "}";
  }

  lemma BareAt(s: string, i: nat, next: nat)
    requires i + 1 < next <= |s| && s[i] == '$' && IsNameStart(s[i + 1])
    requires forall j :: i + 1 <= j < next ==> IsNameChar(s[j])
    requires next < |s| ==> !IsNameChar(s[next])
    ensures SegmentAt(s, i, next, Bare(s[i + 1..next]))
  {
    var name := s[i + 1..next];
    assert s[i..next] == "$" + name && name[0] == s[i + 1];
    assert forall j :: 0 <= j < |name| ==> name[j] == s[i + 1 + j];
    assert next < |s| ==> s[next..][0] == s[next];
  }

  /** One turn of the expanding loop: what it pushes and where it goes on. */
  method StepExpand(s: string, i: nat, lookup: Lookup) returns (piece: string, next: nat, ghost g: Seg)
    requires i < |s|
    ensures SegmentAt(s, i, next, g) && piece == Value(g, lookup, false)
  {
    if s[i] != '$' || i + 1 >= |s| {
      return [s[i]], i + 1, Text(s[i]);
    } else if s[i + 1] == '{' {
      var close := FindClose(s, i + 2);
      if close.Some? {
        next := i + 2 + close.value + 1;
        var name := s[i + 2..i + 2 + close.value];
        BracedAt(s, i, i + 2 + close.value);
        return if lookup(name).Some? then lookup(name).value else "", next, Braced(name);
      }
      DollarAt(s, i);
      return "$", i + 1, Text('$');
    } else if !IsNameStart(s[i + 1]) {
      DollarAt(s, i);
      return "$", i + 1, Text('$');
    }
    next := NameEnd(s, i + 1);
    var name := s[i + 1..next];
    BareAt(s, i, next);
    return if lookup(name).Some? then lookup(name).value else "", next, Bare(name);
  }

  /** One turn of the preserving loop. */
  method StepPreserve(s: string, i: nat, lookup: Lookup) returns (piece: string, next: nat, ghost g: Seg)
    requires i < |s|
    ensures SegmentAt(s, i, next, g) && piece == Value(g, lookup, true)
  {
    if s[i] != '$' || i + 1 >= |s| {
      return [s[i]], i + 1, Text(s[i]);
    } else if s[i + 1] == '{' {
      var close := FindClose(s, i + 2);
      if close.Some? {
        next := i + 2 + close.value + 1;
        var name := s[i + 2..i + 2 + close.value];
        BracedAt(s, i, i + 2 + close.value);
        return match lookup(name) case Some(v) => v case None => "${" + name + "}", next, Braced(name);
      }
      DollarAt(s, i);
      return "$", i + 1, Text('$');
    } else if !IsNameStart(s[i + 1]) {
      DollarAt(s, i);
      return "$", i + 1, Text('$');
    }
    next := NameEnd(s, i + 1);
    var name := s[i + 1..next];
    BareAt(s, i, next);
    return match lookup(name) case Some(v) => v case None => "$" + name, next, Bare(name);
  }

  lemma SegmentIsFirst(s: string, i: nat, next: nat, g: Seg)
    requires SegmentAt(s, i, next, g)
    ensures s[i..] != [] && First(s[i..]) == g && s[i..][|Raw(g)|..] == s[next..]
  {
    assert s[i..] == Raw(g) + s[next..];
    FitsIsFirst(g, s[next..]);
  }

  /** What is produced from offset `i` on, and how a turn of the loop advances it. */
  lemma Advance(s: string, i: nat, next: nat, g: Seg, lookup: Lookup, keep: bool, result: string)
    requires SegmentAt(s, i, next, g)
    ensures result + Expanded(Scan(s[i..]), lookup, keep)
         == (result + Value(g, lookup, keep)) + Expanded(Scan(s[next..]), lookup, keep)
  {
    SegmentIsFirst(s, i, next, g);
    ExpandedStep(s[i..], lookup, keep);
  }

  /** Unknown variables expand to nothing. */
  method ExpandWith(s: string, lookup: Lookup) returns (result: string)
    ensures result == Expanded(Scan(s), lookup, false)
  {
    result := "";
    var i := 0;
    assert s[0..] == s;
    while i < |s|
      invariant 0 <= i <= |s|
      invariant result + Expanded(Scan(s[i..]), lookup, false) == Expanded(Scan(s), lookup, false)
      decreases |s| - i
    {
      var piece, next, g := StepExpand(s, i, lookup);
      Advance(s, i, next, g, lookup, false, result);
      result := result + piece;
      i := next;
    }
    assert s[i..] == [];
  }

  /** Unknown variables stay as they were written. */
  method ExpandWithPreserve(s: string, lookup: Lookup) returns (result: string)
    ensures result == Expanded(Scan(s), lookup, true)
  {
    result := "";
    var i := 0;
    assert s[0..] == s;
    while i < |s|
      invariant 0 <= i <= |s|
      invariant result + Expanded(Scan(s[i..]), lookup, true) == Expanded(Scan(s), lookup, true)
      decreases |s| - i
    {
      var piece, next, g := StepPreserve(s, i, lookup);
      Advance(s, i, next, g, lookup, true, result);
      result := result + piece;
      i := next;
    }
    assert s[i..] == [];
  }

  // ------------------------------------------------------------- how the two relate

  /** A lookup that answers every name, unknown ones with the empty string. */
  function OrEmpty(lookup: Lookup): Lookup {
    (n: string) => match lookup(n) case Some(v) => Some(v) case None => Some("")
  }

  lemma {:induction false} ExpandIsPreserveOrEmpty(gs: seq<Seg>, lookup: Lookup)
    ensures Expanded(gs, lookup, false) == Expanded(gs, OrEmpty(lookup), true)
  {
    if gs != [] {
      ExpandIsPreserveOrEmpty(gs[1..], lookup);
    }
  }

  lemma {:induction false} PreserveUnknown(gs: seq<Seg>, lookup: Lookup)
    requires forall g :: g in gs && !g.Text? ==> lookup(g.name).None?
    ensures Expanded(gs, lookup, true) == Flatten(gs)
  {
    if gs != [] {
      assert gs[0] in gs && forall g :: g in gs[1..] ==> g in gs;
      PreserveUnknown(gs[1..], lookup);
    }
  }

  /** With none of its names known, a string is preserved to the character. */
  lemma PreserveIsIdentity(s: string, lookup: Lookup)
    requires forall g :: g in Scan(s) && !g.Text? ==> lookup(g.name).None?
    ensures Expanded(Scan(s), lookup, true) == s
  {
    PreserveUnknown(Scan(s), lookup);
    ScanCovers(s);
  }
}
