/** String operations of the source's standard library, with the laws the models use. */
module Text {
  import opened Prelude

  // -------------------------------------------------------------- occurrences

  /** `p` occurs in `s` at offset `i`. */
  predicate At(s: string, p: string, i: nat) {
    i + |p| <= |s| && s[i..i + |p|] == p
  }

  predicate Contains(s: string, p: string) {
    exists i :: 0 <= i <= |s| && At(s, p, i)
  }

  /** `str::replace`: occurrences are taken left to right and do not overlap. */
  function Replace(s: string, pat: string, to: string): string
    requires pat != []
  {
    if |s| < |pat| then s
    else if At(s, pat, 0) then to + Replace(s[|pat|..], pat, to)
    else [s[0]] + Replace(s[1..], pat, to)
  }

  lemma AtShift(r: string, s: string, pat: string, k: nat)
    requires r != [] && !At(r + s, pat, k + 1)
    ensures !At(r[1..] + s, pat, k)
  {
    assert (r + s)[1..] == r[1..] + s;
    if k + |pat| <= |r[1..] + s| {
      assert (r + s)[k + 1..k + 1 + |pat|] == (r + s)[1..][k..k + |pat|];
    }
  }

  /** Text before the first occurrence passes through unchanged. */
  lemma {:induction false} ReplaceSkips(r: string, s: string, pat: string, to: string)
    requires pat != []
    requires forall k :: 0 <= k < |r| ==> !At(r + s, pat, k)
    ensures Replace(r + s, pat, to) == r + Replace(s, pat, to)
  {
    if r == [] {
      assert r + s == s;
    } else {
      assert (r + s)[1..] == r[1..] + s;
      assert !At(r + s, pat, 0);
      forall k | 0 <= k < |r| - 1 ensures !At(r[1..] + s, pat, k) {
        AtShift(r, s, pat, k);
      }
      if |r + s| < |pat| {
        assert Replace(r[1..] + s, pat, to) == r[1..] + s;
      }
      ReplaceSkips(r[1..], s, pat, to);
      assert [r[0]] + (r[1..] + Replace(s, pat, to)) == r + Replace(s, pat, to);
    }
  }

  /** At an occurrence the pattern is swapped for the replacement. */
  lemma ReplaceHit(pat: string, s: string, to: string)
    requires pat != []
    ensures Replace(pat + s, pat, to) == to + Replace(s, pat, to)
  {
    assert (pat + s)[0..|pat|] == pat && (pat + s)[|pat|..] == s;
  }

  /** The first occurrence of a pattern that occurs somewhere before `bound`. */
  lemma FirstAt(s: string, pat: string, k: nat) returns (j: nat)
    requires At(s, pat, k)
    ensures j <= k && At(s, pat, j)
    ensures forall i :: 0 <= i < j ==> !At(s, pat, i)
  {
    j := 0;
    while !At(s, pat, j)
      invariant j <= k
      invariant forall i :: 0 <= i < j ==> !At(s, pat, i)
      decreases k - j
    {
      j := j + 1;
    }
  }

  // ------------------------------------------------------------------ splitting

  /** `str::split` on one character: always at least one field. */
  function SplitOn(s: string, c: char): (fields: seq<string>)
    ensures fields != []
  {
    if s == [] then [[]]
    else
      var rest := SplitOn(s[1..], c);
      if s[0] == c then [[]] + rest else [[s[0]] + rest[0]] + rest[1..]
  }

  /** The text before the first separator is the first field. */
  lemma {:induction false} SplitFirst(a: string, c: char, b: string)
    requires c !in a
    ensures SplitOn(a + [c] + b, c) == [a] + SplitOn(b, c)
    decreases |a|
  {
    var s := a + [c] + b;
    if a == "" {
      assert s[1..] == b;
    } else {
      assert s[1..] == a[1..] + [c] + b;
      SplitFirst(a[1..], c, b);
      assert [a[0]] + a[1..] == a;
    }
  }

  /** The fields on both sides of a separator are the fields of the whole. */
  lemma {:induction false} SplitJoined(a: string, c: char, b: string)
    ensures SplitOn(a + [c] + b, c) == SplitOn(a, c) + SplitOn(b, c)
    decreases |a|
  {
    var s := a + [c] + b;
    if a == "" {
      assert s[1..] == b;
    } else {
      assert s[1..] == a[1..] + [c] + b;
      SplitJoined(a[1..], c, b);
    }
  }

  lemma {:induction false} SplitNone(s: string, c: char)
    requires c !in s
    ensures SplitOn(s, c) == [s]
    decreases |s|
  {
    if s != "" {
      assert s[0] in s && forall x :: x in s[1..] ==> x in s;
      SplitNone(s[1..], c);
      assert [s[0]] + s[1..] == s;
    }
  }

  // ----------------------------------------------------------------- whitespace

  /** `char::is_whitespace`: the Unicode White_Space property. */
  predicate IsWs(c: char) {
    var n := c as int;
    || 0x9 <= n <= 0xD || n == 0x20 || n == 0x85 || n == 0xA0 || n == 0x1680
    || 0x2000 <= n <= 0x200A || n == 0x2028 || n == 0x2029 || n == 0x202F
    || n == 0x205F || n == 0x3000
  }

  predicate NoWs(s: string) {
    forall i :: 0 <= i < |s| ==> !IsWs(s[i])
  }

  /** Length of the leading run of non-whitespace. */
  function WordLen(s: string): (n: nat)
    ensures n <= |s| && NoWs(s[..n])
    ensures n < |s| ==> IsWs(s[n])
  {
    if s == [] || IsWs(s[0]) then 0 else 1 + WordLen(s[1..])
  }

  /** `str::split_whitespace`. */
  function Tokens(s: string): (ts: seq<string>)
    ensures forall i :: 0 <= i < |ts| ==> ts[i] != [] && NoWs(ts[i])
    decreases |s|
  {
    if s == [] then []
    else if IsWs(s[0]) then Tokens(s[1..])
    else [s[..WordLen(s)]] + Tokens(s[WordLen(s)..])
  }

  lemma {:induction false} WordLenStops(w: string, s: string)
    requires NoWs(w) && (s == [] || IsWs(s[0]))
    ensures WordLen(w + s) == |w|
  {
    if w == [] {
      assert w + s == s;
    } else {
      assert (w + s)[1..] == w[1..] + s;
      WordLenStops(w[1..], s);
    }
  }

  /** A whitespace character cuts a string into two independently tokenised halves. */
  lemma {:induction false} TokensSplit(a: string, ws: char, b: string)
    requires IsWs(ws)
    ensures Tokens(a + [ws] + b) == Tokens(a) + Tokens(b)
    decreases |a|
  {
    var s := a + [ws] + b;
    if a == [] {
      assert s[1..] == b;
    } else if IsWs(a[0]) {
      assert s[1..] == a[1..] + [ws] + b;
      TokensSplit(a[1..], ws, b);
    } else {
      var n := WordLen(a);
      var rest := a[n..] + [ws] + b;
      assert s == a[..n] + rest;
      assert IsWs(rest[0]) by { assert n < |a| ==> rest[0] == a[n]; }
      WordLenStops(a[..n], rest);
      assert s[..n] == a[..n] && s[n..] == rest;
      TokensSplit(a[n..], ws, b);
      assert Tokens(s) == [a[..n]] + (Tokens(a[n..]) + Tokens(b));
    }
  }

  lemma TokensOfWord(w: string)
    requires w != [] && NoWs(w)
    ensures Tokens(w) == [w]
  {
    WordLenStops(w, []);
    assert w + [] == w && w[..|w|] == w && w[|w|..] == [];
  }

  function TrimStart(s: string): string {
    if s != [] && IsWs(s[0]) then TrimStart(s[1..]) else s
  }

  function TrimEnd(s: string): string {
    if s != [] && IsWs(s[|s| - 1]) then TrimEnd(s[..|s| - 1]) else s
  }

  /** `str::trim`. */
  function Trim(s: string): string {
    TrimEnd(TrimStart(s))
  }

  lemma {:induction false} TrimEndTokens(s: string)
    ensures Tokens(TrimEnd(s)) == Tokens(s)
    decreases |s|
  {
    if s != [] && IsWs(s[|s| - 1]) {
      var a := s[..|s| - 1];
      assert s == a + [s[|s| - 1]] + [];
      TokensSplit(a, s[|s| - 1], []);
      TrimEndTokens(a);
    }
  }

  /** Trimming does not change the tokens. */
  lemma {:induction false} TrimTokens(s: string)
    ensures Tokens(Trim(s)) == Tokens(s)
    decreases |s|
  {
    TrimEndTokens(TrimStart(s));
    if s != [] && IsWs(s[0]) {
      TrimTokens(s[1..]);
      TrimEndTokens(TrimStart(s[1..]));
    }
  }

  predicate Blank(s: string) {
    Trim(s) == ""
  }

  /** No whitespace at either end. */
  predicate Trimmed(s: string) {
    s != "" ==> !IsWs(s[0]) && !IsWs(s[|s| - 1])
  }

  lemma TrimmedIsFixed(s: string)
    requires Trimmed(s)
    ensures Trim(s) == s
  {
  }

  lemma {:induction false} TrimEndKeepsFirst(s: string)
    requires s != "" ==> !IsWs(s[0])
    ensures Trimmed(TrimEnd(s))
    decreases |s|
  {
    if s != "" && IsWs(s[|s| - 1]) {
      TrimEndKeepsFirst(s[..|s| - 1]);
    }
  }

  lemma {:induction false} TrimIsTrimmed(s: string)
    ensures Trimmed(Trim(s))
    decreases |s|
  {
    if s != "" && IsWs(s[0]) {
      TrimIsTrimmed(s[1..]);
    } else {
      TrimEndKeepsFirst(s);
    }
  }

  // ------------------------------------------------------------------ truth values

  function LowerChar(c: char): char {
    if 'A' <= c <= 'Z' then (c as int + 32) as char else c
  }

  /** `to_ascii_lowercase`. */
  function Lower(s: string): string {
    seq(|s|, i requires 0 <= i < |s| => LowerChar(s[i]))
  }

  /** `true` or `1` in any letter case, surrounding whitespace aside. */
  predicate IsTrueSpelling(s: string) {
    Lower(Trim(s)) == "true" || Lower(Trim(s)) == "1"
  }

  /** The true spellings letter by letter. */
  lemma TrueSpellings(s: string)
    ensures IsTrueSpelling(s) <==>
      var t := Trim(s);
      t == "1" || (|t| == 4 && t[0] in {'t', 'T'} && t[1] in {'r', 'R'} && t[2] in {'u', 'U'} && t[3] in {'e', 'E'})
  {
    var t := Trim(s);
    var l := Lower(t);
    assert |l| == |t| && forall i :: 0 <= i < |t| ==> l[i] == LowerChar(t[i]);
    assert |"true"| == 4 && "true"[0] == 't' && "true"[1] == 'r' && "true"[2] == 'u' && "true"[3] == 'e';
    assert |"1"| == 1 && "1"[0] == '1';
    if |t| == 1 { assert t == [t[0]] && l == [l[0]]; }
    if |t| == 4 { assert l == [l[0], l[1], l[2], l[3]]; }
  }

  // -------------------------------------------------------------------- joining

  /** The ASCII unit separator. */
  const UNIT_SEP: char := 31 as char

  /** `slice::join`. */
  function Join(ts: seq<string>, sep: string): string {
    if |ts| == 0 then [] else if |ts| == 1 then ts[0] else ts[0] + sep + Join(ts[1..], sep)
  }
}
