/**
 * Temp-file naming of the crash-safe writer: `<file>.<pid>.<nanos>.tmp`.
 */
module TempNames {

  const DOT: char := '.'

  function DigitChar(d: nat): (c: char)
    requires d < 10
    ensures c != DOT
  {
    "0123456789"[d]
  }

  lemma DigitInjective(a: nat, b: nat)
    requires a < 10 && b < 10
    requires DigitChar(a) == DigitChar(b)
    ensures a == b
  {
  }

  /** Decimal rendering of a natural number, most significant digit first. */
  function Decimal(n: nat): (s: string)
    ensures s != []
    ensures DOT !in s
  {
    if n < 10 then [DigitChar(n)] else Decimal(n / 10) + [DigitChar(n % 10)]
  }

  lemma {:induction false} DecimalInjective(a: nat, b: nat)
    requires Decimal(a) == Decimal(b)
    ensures a == b
  {
    var s, t := Decimal(a), Decimal(b);
    assert s[|s| - 1] == DigitChar(a % 10) && t[|t| - 1] == DigitChar(b % 10);
    DigitInjective(a % 10, b % 10);
    if a >= 10 && b >= 10 {
      assert Decimal(a / 10) == s[..|s| - 1] == t[..|t| - 1] == Decimal(b / 10);
      DecimalInjective(a / 10, b / 10);
    } else {
      assert a >= 10 ==> |s| >= 2;
      assert b >= 10 ==> |t| >= 2;
    }
  }

  /** A dot followed by a dot-free tail can be split off the end in one way only. */
  lemma LastDotUnique(p: string, d: string, q: string, e: string)
    requires DOT !in d && DOT !in e
    requires p + [DOT] + d == q + [DOT] + e
    ensures p == q && d == e
  {
    var s := p + [DOT] + d;
    assert s[|p|] == DOT && s[|q|] == DOT;
    assert forall k :: |p| < k < |s| ==> s[k] == d[k - |p| - 1];
    assert forall k :: |q| < k < |s| ==> s[k] == e[k - |q| - 1];
    assert |p| == |q|;
    assert p == s[..|p|] == s[..|q|] == q;
    assert d == s[|p| + 1..] == e;
  }

  /** The temp-file name one write builds beside its target. */
  function TempName(file: string, pid: nat, nanos: nat): (s: string)
  {
    file + [DOT] + Decimal(pid) + [DOT] + Decimal(nanos) + ".tmp"
  }

  /** Temp names are injective in (file name, process id, timestamp). */
  lemma TempNameInjective(f: string, p: nat, n: nat, f': string, p': nat, n': nat)
    requires TempName(f, p, n) == TempName(f', p', n')
    ensures f == f' && p == p' && n == n'
  {
    var s, t := TempName(f, p, n), TempName(f', p', n');
    var a, b := f + [DOT] + Decimal(p), f' + [DOT] + Decimal(p');
    assert a + [DOT] + Decimal(n) == s[..|s| - 4] == t[..|t| - 4] == b + [DOT] + Decimal(n');
    LastDotUnique(a, Decimal(n), b, Decimal(n'));
    LastDotUnique(f, Decimal(p), f', Decimal(p'));
    DecimalInjective(n, n');
    DecimalInjective(p, p');
  }

  /** Every temp name ends in `.tmp`. */
  lemma TempNameSuffix(f: string, p: nat, n: nat)
    ensures var s := TempName(f, p, n); |s| >= 4 && s[|s| - 4..] == ".tmp"
  {
  }
}
