/** A target's environment: every matching pattern key merged in sorted key order. */
module TargetEnv {
  import opened Prelude

  // ------------------------------------------------------------ lexicographic order

  predicate Less(a: string, b: string) {
    b != [] && (a == [] || a[0] < b[0] || (a[0] == b[0] && Less(a[1..], b[1..])))
  }

  lemma {:induction false} LessTotal(a: string, b: string)
    ensures a == b || Less(a, b) || Less(b, a)
  {
    if a != [] && b != [] {
      LessTotal(a[1..], b[1..]);
      assert a == [a[0]] + a[1..] && b == [b[0]] + b[1..];
    }
  }

  lemma {:induction false} LessTransitive(a: string, b: string, c: string)
    requires Less(a, b) && Less(b, c)
    ensures Less(a, c)
  {
    if a != [] && a[0] == b[0] && b[0] == c[0] {
      LessTransitive(a[1..], b[1..], c[1..]);
    }
  }

  lemma {:induction false} LessIrreflexive(a: string)
    ensures !Less(a, a)
  {
    if a != [] {
      LessIrreflexive(a[1..]);
    }
  }

  /** The two strings first part at index `i`, where `a` has ended or has the smaller character. */
  predicate PartsAt(a: string, b: string, i: nat) {
    && i <= |a| && i < |b| && a[..i] == b[..i]
    && (i == |a| || a[i] < b[i])
  }

  /** The order is the one by first difference, a proper prefix first. */
  lemma {:induction false} LessExactly(a: string, b: string)
    ensures Less(a, b) <==> exists i: nat :: PartsAt(a, b, i)
  {
    if a == [] || b == [] || a[0] < b[0] {
      if b != [] {
        assert PartsAt(a, b, 0);
      }
    } else {
      LessExactly(a[1..], b[1..]);
      if a[0] == b[0] && Less(a[1..], b[1..]) {
        var i: nat :| PartsAt(a[1..], b[1..], i);
        PartsLater(a, b, i);
      }
      if i: nat :| PartsAt(a, b, i) {
        PartsSooner(a, b, i);
      }
    }
  }

  lemma PartsLater(a: string, b: string, i: nat)
    requires a != [] && b != [] && a[0] == b[0] && PartsAt(a[1..], b[1..], i)
    ensures PartsAt(a, b, i + 1)
  {
    assert a[..i + 1] == [a[0]] + a[1..][..i] && b[..i + 1] == [b[0]] + b[1..][..i];
  }

  lemma PartsSooner(a: string, b: string, i: nat)
    requires a != [] && b != [] && !(a[0] < b[0]) && PartsAt(a, b, i)
    ensures a[0] == b[0] && i > 0 && PartsAt(a[1..], b[1..], i - 1)
  {
    assert a[..i][0] == a[0] && b[..i][0] == b[0];
    assert a[1..][..i - 1] == a[..i][1..] && b[1..][..i - 1] == b[..i][1..];
  }

  ghost predicate Sorted(ks: seq<string>) {
    forall i, j :: 0 <= i < j < |ks| ==> Less(ks[i], ks[j])
  }

  function Elements(ks: seq<string>): set<string> {
    set k | k in ks
  }

  /** `keys().collect()` then `sort()`: the keys come out of the map in any order. */
  method SortKeys(keys: set<string>) returns (ks: seq<string>)
    ensures ks == SortedOf(keys)
  {
    ks := [];
    var todo := keys;
    while todo != {}
      invariant todo <= keys && Sorted(ks) && Elements(ks) == keys - todo
    {
      var k :| k in todo;
      var i := 0;
      while i < |ks| && Less(ks[i], k)
        invariant 0 <= i <= |ks|
        invariant forall j :: 0 <= j < i ==> Less(ks[j], k)
      {
        i := i + 1;
      }
      assert k !in ks;
      InsertSorted(ks, k, i);
      ks := ks[..i] + [k] + ks[i..];
      todo := todo - {k};
    }
    SortedUnique(ks, SortedOf(keys));
  }

  lemma {:induction false} InsertSorted(ks: seq<string>, k: string, i: nat)
    requires Sorted(ks) && i <= |ks| && k !in ks
    requires forall j :: 0 <= j < i ==> Less(ks[j], k)
    requires i < |ks| ==> !Less(ks[i], k)
    ensures Sorted(ks[..i] + [k] + ks[i..])
    ensures Elements(ks[..i] + [k] + ks[i..]) == Elements(ks) + {k}
  {
    var out := ks[..i] + [k] + ks[i..];
    forall j | i <= j < |ks| ensures Less(k, ks[j]) {
      LessTotal(ks[i], k);
      if j > i { LessTransitive(k, ks[i], ks[j]); }
    }
    assert forall x :: x in out <==> x in ks || x == k by {
      assert ks == ks[..i] + ks[i..];
    }
  }

  /** There is one sorted enumeration of a set. */
  lemma {:induction false} SortedUnique(a: seq<string>, b: seq<string>)
    requires Sorted(a) && Sorted(b) && Elements(a) == Elements(b)
    ensures a == b
    decreases |a|
  {
    assert b != [] ==> b[0] in Elements(b);
    if a != [] {
      assert a[0] in Elements(a) && a[0] in b;
      var j :| 0 <= j < |b| && b[j] == a[0];
      assert b[0] in Elements(b) && b[0] in a;
      var i :| 0 <= i < |a| && a[i] == b[0];
      if i > 0 && j > 0 {
        LessTransitive(a[0], b[0], a[0]);
        LessIrreflexive(a[0]);
        assert false;
      }
      assert a[0] == b[0];
      TailElements(a);
      TailElements(b);
      SortedUnique(a[1..], b[1..]);
      assert a == [a[0]] + a[1..] && b == [b[0]] + b[1..];
    }
  }

  ghost function InsertKey(ks: seq<string>, k: string): seq<string> {
    if ks == [] || !Less(ks[0], k) then [k] + ks else [ks[0]] + InsertKey(ks[1..], k)
  }

  lemma {:induction false} InsertKeySorted(ks: seq<string>, k: string)
    requires Sorted(ks) && k !in ks
    ensures Sorted(InsertKey(ks, k)) && Elements(InsertKey(ks, k)) == Elements(ks) + {k}
  {
    if ks == [] || !Less(ks[0], k) {
      InsertSorted(ks, k, 0);
      assert ks[..0] + [k] + ks[0..] == [k] + ks;
    } else {
      InsertKeySorted(ks[1..], k);
      var t := InsertKey(ks[1..], k);
      forall j | 0 <= j < |t| ensures Less(ks[0], t[j]) {
        assert t[j] in Elements(t);
        if t[j] in ks[1..] {
          var n :| 0 <= n < |ks[1..]| && ks[1..][n] == t[j];
          assert ks[n + 1] == t[j];
        }
      }
      assert ks == [ks[0]] + ks[1..];
      assert forall x :: x in [ks[0]] + t <==> x == ks[0] || x in Elements(t);
    }
  }

  /** The sorted enumeration of a set. */
  ghost function SortedOf(keys: set<string>): (ks: seq<string>)
    ensures Sorted(ks) && Elements(ks) == keys
    decreases |keys|
  {
    if keys == {} then [] else
      var k :| k in keys;
      var rest := SortedOf(keys - {k});
      assert k !in Elements(rest);
      InsertKeySorted(rest, k);
      InsertKey(rest, k)
  }

  lemma TailElements(a: seq<string>)
    requires Sorted(a) && a != []
    ensures Sorted(a[1..]) && Elements(a[1..]) == Elements(a) - {a[0]}
  {
    LessIrreflexive(a[0]);
    forall x | x in a[1..] ensures x != a[0] {
      var j :| 0 <= j < |a[1..]| && a[1..][j] == x;
      assert Less(a[0], a[j + 1]);
    }
    assert a == [a[0]] + a[1..];
  }

  // ------------------------------------------------------------------- the merge

  type Env = map<string, string>

  /** How keys are read as patterns; `strict` turns a malformed pattern into an error. */
  datatype Globs = Globs(valid: string -> bool, matches: (string, string) -> bool, strict: bool)

  predicate Applies(g: Globs, key: string, target: string) {
    g.valid(key) && g.matches(key, target)
  }

  /** The keys that match the target and set `v`. */
  function Setters(env: map<string, Env>, g: Globs, target: string, v: string): set<string> {
    set k | k in env && Applies(g, k, target) && v in env[k]
  }

  /** `m` gives each variable the value of the greatest matching key that sets it. */
  ghost predicate GreatestWins(env: map<string, Env>, g: Globs, target: string, m: Env) {
    && (forall v :: v in m <==> Setters(env, g, target, v) != {})
    && (forall v :: v in m ==> exists k ::
          && k in Setters(env, g, target, v) && m[v] == env[k][v]
          && forall j :: j in Setters(env, g, target, v) && j != k ==> Less(j, k))
  }

  /** That determines the merged environment: iteration order cannot show. */
  lemma GreatestWinsUnique(env: map<string, Env>, g: Globs, target: string, a: Env, b: Env)
    requires GreatestWins(env, g, target, a) && GreatestWins(env, g, target, b)
    ensures a == b
  {
    assert forall v :: v in a <==> v in b;
    forall v | v in a ensures a[v] == b[v] {
      var s := Setters(env, g, target, v);
      var k :| k in s && a[v] == env[k][v] && forall j :: j in s && j != k ==> Less(j, k);
      var k' :| k' in s && b[v] == env[k'][v] && forall j :: j in s && j != k' ==> Less(j, k');
      if k != k' {
        LessTransitive(k, k', k);
        LessIrreflexive(k);
        assert false;
      }
    }
  }

  ghost predicate SomeApplies(env: map<string, Env>, g: Globs, target: string) {
    exists k :: k in env && Applies(g, k, target)
  }

  predicate Malformed(env: map<string, Env>, g: Globs) {
    exists k :: k in env && !g.valid(k)
  }

  /** What the resolution returns, for every input. */
  ghost predicate Resolves(env: Option<map<string, Env>>, g: Globs, target: string, r: Result<Option<Env>>) {
    if env.None? then r == Ok(None)
    else if g.strict && Malformed(env.value, g) then r == Err
    else
      && r.Ok?
      && (r.value.Some? <==> SomeApplies(env.value, g, target))
      && (r.value.Some? ==> GreatestWins(env.value, g, target, r.value.value))
  }

  lemma ResolvesUnique(env: Option<map<string, Env>>, g: Globs, target: string,
                       a: Result<Option<Env>>, b: Result<Option<Env>>)
    requires Resolves(env, g, target, a) && Resolves(env, g, target, b)
    ensures a == b
  {
    if a.Ok? && a.value.Some? {
      GreatestWinsUnique(env.value, g, target, a.value.value, b.value.value);
    }
  }

  /** The matching blocks overlaid in key order. */
  ghost function MergeInOrder(env: map<string, Env>, g: Globs, target: string, ks: seq<string>): Env
    requires forall k :: k in ks ==> k in env
  {
    if ks == [] then map[] else
      var before, key := MergeInOrder(env, g, target, ks[..|ks| - 1]), ks[|ks| - 1];
      if Applies(g, key, target) then before + env[key] else before
  }

  lemma {:induction false} MergeInOrderIsLatest(env: map<string, Env>, g: Globs, target: string, ks: seq<string>)
    requires forall k :: k in ks ==> k in env
    ensures Latest(env, g, target, ks, MergeInOrder(env, g, target, ks))
    decreases |ks|
  {
    if ks != [] {
      var init, key := ks[..|ks| - 1], ks[|ks| - 1];
      MergeInOrderIsLatest(env, g, target, init);
      var before := MergeInOrder(env, g, target, init);
      assert ks == init + [key];
      if Applies(g, key, target) {
        LatestTakes(env, g, target, init, key, before);
      } else {
        LatestSkips(env, g, target, init, key, before);
      }
    }
  }

  /** The resolution as a function: ResolvesUnique says there is no other. */
  ghost function Resolution(env: Option<map<string, Env>>, g: Globs, target: string): (r: Result<Option<Env>>)
    ensures Resolves(env, g, target, r)
  {
    if env.None? then Ok(None)
    else if g.strict && Malformed(env.value, g) then Err
    else if !SomeApplies(env.value, g, target) then Ok(None)
    else
      var ks := SortedOf(env.value.Keys);
      assert forall k :: k in ks <==> k in Elements(ks);
      MergeInOrderIsLatest(env.value, g, target, ks);
      LatestIsGreatest(env.value, g, target, ks, MergeInOrder(env.value, g, target, ks));
      Ok(Some(MergeInOrder(env.value, g, target, ks)))
  }

  method ResolveTargetEnv(env: Option<map<string, Env>>, g: Globs, target: string) returns (r: Result<Option<Env>>)
    ensures Resolves(env, g, target, r)
  {
    if env.None? || env.value == map[] {
      return Ok(None);
    }
    var e := env.value;
    var ks := SortKeys(e.Keys);
    assert forall k :: k in e <==> k in Elements(ks);
    var merged := MergeMatching(e, g, target, ks);
    if merged.Err? {
      return Err;
    }
    var (matched, m) := merged.value;
    LatestIsGreatest(e, g, target, ks, m);
    r := Ok(if matched then Some(m) else None);
  }

  /** The key loop; `matched` says whether any key applied. */
  method MergeMatching(e: map<string, Env>, g: Globs, target: string, ks: seq<string>)
    returns (r: Result<(bool, Env)>)
    requires forall k :: k in ks ==> k in e
    ensures r.Err? <==> g.strict && exists k :: k in ks && !g.valid(k)
    ensures r.Ok? ==> (r.value.0 <==> exists k :: k in ks && Applies(g, k, target))
    ensures r.Ok? ==> Latest(e, g, target, ks, r.value.1)
  {
    var merged: Env := map[];
    var matched := false;
    var i := 0;
    while i < |ks|
      invariant 0 <= i <= |ks|
      invariant g.strict ==> forall j :: 0 <= j < i ==> g.valid(ks[j])
      invariant matched ==> exists k :: k in ks && Applies(g, k, target)
      invariant !matched ==> forall j :: 0 <= j < i ==> !Applies(g, ks[j], target)
      invariant Latest(e, g, target, ks[..i], merged)
    {
      var key := ks[i];
      assert ks[..i + 1] == ks[..i] + [key];
      if g.strict && !g.valid(key) {
        return Err;
      }
      if Applies(g, key, target) {
        matched := true;
        LatestTakes(e, g, target, ks[..i], key, merged);
        merged := InsertAll(merged, e[key]);
      } else {
        LatestSkips(e, g, target, ks[..i], key, merged);
      }
      i := i + 1;
    }
    assert ks[..i] == ks;
    r := Ok((matched, merged));
  }

  /** One block's variables inserted one at a time, in any order. */
  method InsertAll(m: Env, vals: Env) returns (r: Env)
    ensures r == m + vals
  {
    r := m;
    var todo := vals.Keys;
    while todo != {}
      invariant todo <= vals.Keys
      invariant r == m + (map k | k in vals && k !in todo :: vals[k])
    {
      var k :| k in todo;
      r := r[k := vals[k]];
      todo := todo - {k};
    }
    assert (map k | k in vals && k !in todo :: vals[k]) == vals;
  }

  /** `m` gives each variable the value of the last key of `ks` that applies and sets it. */
  ghost predicate Latest(env: map<string, Env>, g: Globs, target: string, ks: seq<string>, m: Env)
    requires forall k :: k in ks ==> k in env
  {
    && (forall v, i :: 0 <= i < |ks| && Applies(g, ks[i], target) && v in env[ks[i]] ==> v in m)
    && (forall v :: v in m ==> exists i ::
          && 0 <= i < |ks| && Applies(g, ks[i], target) && v in env[ks[i]] && m[v] == env[ks[i]][v]
          && forall j :: i < j < |ks| && Applies(g, ks[j], target) ==> v !in env[ks[j]])
  }

  lemma LatestSkips(env: map<string, Env>, g: Globs, target: string, ks: seq<string>, key: string, m: Env)
    requires (forall k :: k in ks ==> k in env) && key in env
    requires Latest(env, g, target, ks, m) && !Applies(g, key, target)
    ensures Latest(env, g, target, ks + [key], m)
  {
    var ks' := ks + [key];
    forall v | v in m
      ensures exists i ::
        && 0 <= i < |ks'| && Applies(g, ks'[i], target) && v in env[ks'[i]] && m[v] == env[ks'[i]][v]
        && forall j :: i < j < |ks'| && Applies(g, ks'[j], target) ==> v !in env[ks'[j]]
    {
      var i :| && 0 <= i < |ks| && Applies(g, ks[i], target) && v in env[ks[i]] && m[v] == env[ks[i]][v]
               && forall j :: i < j < |ks| && Applies(g, ks[j], target) ==> v !in env[ks[j]];
      assert ks'[i] == ks[i];
    }
  }

  lemma LatestTakes(env: map<string, Env>, g: Globs, target: string, ks: seq<string>, key: string, m: Env)
    requires (forall k :: k in ks ==> k in env) && key in env
    requires Latest(env, g, target, ks, m) && Applies(g, key, target)
    ensures Latest(env, g, target, ks + [key], m + env[key])
  {
    var ks', m' := ks + [key], m + env[key];
    forall v | v in m'
      ensures exists i ::
        && 0 <= i < |ks'| && Applies(g, ks'[i], target) && v in env[ks'[i]] && m'[v] == env[ks'[i]][v]
        && forall j :: i < j < |ks'| && Applies(g, ks'[j], target) ==> v !in env[ks'[j]]
    {
      if v in env[key] {
        assert ks'[|ks|] == key;
      } else {
        var i :| && 0 <= i < |ks| && Applies(g, ks[i], target) && v in env[ks[i]] && m[v] == env[ks[i]][v]
                 && forall j :: i < j < |ks| && Applies(g, ks[j], target) ==> v !in env[ks[j]];
        assert ks'[i] == ks[i];
      }
    }
  }

  /** In sorted order, a key after which no setter comes is above every other setter. */
  lemma LastSetterIsGreatest(env: map<string, Env>, g: Globs, target: string, ks: seq<string>, v: string, i: nat, j: string)
    requires Sorted(ks) && (forall k :: k in ks <==> k in env) && i < |ks|
    requires forall n :: i < n < |ks| && Applies(g, ks[n], target) ==> v !in env[ks[n]]
    requires j in Setters(env, g, target, v) && j != ks[i]
    ensures Less(j, ks[i])
  {
    assert j in ks;
    var n :| 0 <= n < |ks| && ks[n] == j;
  }

  /** In sorted order the last key is the greatest one. */
  lemma LatestIsGreatest(env: map<string, Env>, g: Globs, target: string, ks: seq<string>, m: Env)
    requires Sorted(ks) && (forall k :: k in ks <==> k in env) && Latest(env, g, target, ks, m)
    ensures GreatestWins(env, g, target, m)
  {
    forall v | Setters(env, g, target, v) != {} ensures v in m {
      var k :| k in Setters(env, g, target, v);
      assert k in ks;
    }
    forall v | v in m
      ensures exists k ::
        && k in Setters(env, g, target, v) && m[v] == env[k][v]
        && forall j :: j in Setters(env, g, target, v) && j != k ==> Less(j, k)
    {
      var i :| && 0 <= i < |ks| && Applies(g, ks[i], target) && v in env[ks[i]] && m[v] == env[ks[i]][v]
               && forall j :: i < j < |ks| && Applies(g, ks[j], target) ==> v !in env[ks[j]];
      var k := ks[i];
      assert k in ks;
      forall j | j in Setters(env, g, target, v) && j != k ensures Less(j, k) {
        LastSetterIsGreatest(env, g, target, ks, v, i, j);
      }
    }
  }
}
