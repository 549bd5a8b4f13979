/** Which build decides a target's CPU level: the three-pass search over planned builds. */
module BuildSelect {
  import opened Prelude

  /** What the search reads of a build; `skip` is its rendered skip expression. */
  datatype Candidate = Candidate(
    prebuilt: bool,
    copyFrom: bool,
    produces: bool,
    skip: Result<bool>,
    targets: Option<seq<string>>,
    ignored: bool)

  /** The order artifacts are registered in: imports, then compiles, then copies. */
  function Class(b: Candidate): (c: nat)
    ensures c < 3
  {
    if b.prebuilt then 0 else if !b.copyFrom then 1 else 2
  }

  predicate PassMatches(pass: nat, b: Candidate) {
    match pass
    case 0 => b.prebuilt
    case 1 => !b.prebuilt && !b.copyFrom
    case _ => !b.prebuilt && b.copyFrom
  }

  /** Each build is judged in exactly one of the three passes: its class. */
  lemma OnePassEach(b: Candidate, pass: nat)
    requires pass < 3
    ensures PassMatches(pass, b) <==> pass == Class(b)
  {
  }

  datatype Verdict = Passed | Broken | Chosen

  /** Imports have no default targets to fall back to. */
  predicate Covers(b: Candidate, target: string, defaults: seq<string>) {
    target in if b.targets.Some? then b.targets.value else if b.prebuilt then [] else defaults
  }

  function Judge(b: Candidate, target: string, defaults: seq<string>): Verdict {
    if !b.produces then Passed
    else if b.skip.Err? then Broken
    else if b.skip.value || !Covers(b, target, defaults) || b.ignored then Passed
    else Chosen
  }

  predicate Stops(b: Candidate, target: string, defaults: seq<string>) {
    Judge(b, target, defaults) != Passed
  }

  /** `k` comes before `j` in (class, position) order. */
  predicate Before(bs: seq<Candidate>, k: nat, j: nat)
    requires k < |bs| && j < |bs|
  {
    Class(bs[k]) < Class(bs[j]) || (Class(bs[k]) == Class(bs[j]) && k <= j)
  }

  /** The deciding build: the first in (class, position) order that stops the search. */
  ghost predicate Decides(bs: seq<Candidate>, target: string, defaults: seq<string>, k: nat) {
    && k < |bs| && Stops(bs[k], target, defaults)
    && forall j :: 0 <= j < |bs| && Stops(bs[j], target, defaults) ==> Before(bs, k, j)
  }

  /** Three passes over the builds; the first build that stops the search decides. */
  method Select(bs: seq<Candidate>, target: string, defaults: seq<string>) returns (r: Option<nat>)
    ensures r.None? <==> forall j :: 0 <= j < |bs| ==> !Stops(bs[j], target, defaults)
    ensures r.Some? ==> Decides(bs, target, defaults, r.value)
  {
    var pass := 0;
    while pass < 3
      invariant 0 <= pass <= 3
      invariant forall j :: 0 <= j < |bs| && Stops(bs[j], target, defaults) ==> Class(bs[j]) >= pass
    {
      var i := 0;
      while i < |bs|
        invariant 0 <= i <= |bs|
        invariant forall j :: 0 <= j < |bs| && Stops(bs[j], target, defaults) ==>
          Class(bs[j]) > pass || (Class(bs[j]) == pass && j >= i)
      {
        OnePassEach(bs[i], pass);
        if PassMatches(pass, bs[i]) && bs[i].produces {
          if bs[i].skip.Err? {
            return Some(i);
          }
          var targets := if bs[i].targets.Some? then bs[i].targets.value else if pass == 0 then [] else defaults;
          if !bs[i].skip.value && target in targets && !bs[i].ignored {
            return Some(i);
          }
        }
        i := i + 1;
      }
      pass := pass + 1;
    }
    r := None;
  }

  // ------------------------------------------------------- the reference: a stable sort

  function Insert(b: Candidate, s: seq<Candidate>): seq<Candidate> {
    if s == [] || Class(b) <= Class(s[0]) then [b] + s else [s[0]] + Insert(b, s[1..])
  }

  function StableSort(s: seq<Candidate>): seq<Candidate> {
    if s == [] then [] else Insert(s[0], StableSort(s[1..]))
  }

  /** The builds of one class, in order. */
  function Of(s: seq<Candidate>, c: nat): seq<Candidate> {
    if s == [] then [] else (if Class(s[0]) == c then [s[0]] else []) + Of(s[1..], c)
  }

  ghost predicate ByClass(s: seq<Candidate>) {
    forall i, j :: 0 <= i < j < |s| ==> Class(s[i]) <= Class(s[j])
  }

  lemma {:induction false} InsertElements(b: Candidate, s: seq<Candidate>)
    ensures |Insert(b, s)| == |s| + 1
    ensures forall x :: x in Insert(b, s) <==> x == b || x in s
  {
    if s != [] && Class(b) > Class(s[0]) {
      InsertElements(b, s[1..]);
      assert s == [s[0]] + s[1..];
    }
  }

  lemma {:induction false} InsertByClass(b: Candidate, s: seq<Candidate>)
    requires ByClass(s)
    ensures ByClass(Insert(b, s))
  {
    if s != [] && Class(b) > Class(s[0]) {
      var t := Insert(b, s[1..]);
      InsertByClass(b, s[1..]);
      InsertElements(b, s[1..]);
      forall j | 0 <= j < |t| ensures Class(s[0]) <= Class(t[j]) {
        assert t[j] in t;
        if t[j] in s[1..] {
          var n :| 0 <= n < |s[1..]| && s[1..][n] == t[j];
          assert s[n + 1] == t[j];
        }
      }
    }
  }

  lemma {:induction false} InsertOf(b: Candidate, s: seq<Candidate>, c: nat)
    ensures Of(Insert(b, s), c) == (if Class(b) == c then [b] else []) + Of(s, c)
  {
    if s == [] || Class(b) <= Class(s[0]) {
      assert ([b] + s)[1..] == s;
    } else {
      var t := Insert(b, s[1..]);
      InsertOf(b, s[1..], c);
      assert ([s[0]] + t)[1..] == t;
      assert Class(b) == c ==> Class(s[0]) != c;
    }
  }

  /** The sort orders by class and keeps each class's builds in their order. */
  lemma {:induction false} StableSortIsStable(s: seq<Candidate>, c: nat)
    ensures ByClass(StableSort(s))
    ensures Of(StableSort(s), c) == Of(s, c)
    ensures |StableSort(s)| == |s|
  {
    if s != [] {
      StableSortIsStable(s[1..], c);
      InsertByClass(s[0], StableSort(s[1..]));
      InsertElements(s[0], StableSort(s[1..]));
      InsertOf(s[0], StableSort(s[1..]), c);
    }
  }

  function Stopping(s: seq<Candidate>, target: string, defaults: seq<string>): seq<Candidate> {
    if s == [] then []
    else (if Stops(s[0], target, defaults) then [s[0]] else []) + Stopping(s[1..], target, defaults)
  }

  lemma {:induction false} SortedHead(s: seq<Candidate>, target: string, defaults: seq<string>, k: nat)
    requires Decides(s, target, defaults, k)
    ensures var t := StableSort(Stopping(s, target, defaults)); t != [] && t[0] == s[k]
  {
    var tail := s[1..];
    assert forall j :: 0 <= j < |tail| ==> tail[j] == s[j + 1];
    var u := Stopping(tail, target, defaults);
    if j :| 0 <= j < |tail| && Stops(tail[j], target, defaults) {
      var k' := FirstDecides(tail, target, defaults, j);
      SortedHead(tail, target, defaults, k');
      if Stops(s[0], target, defaults) {
        assert Stopping(s, target, defaults) == [s[0]] + u && ([s[0]] + u)[1..] == u;
        if k != 0 {
          assert Before(s, k, k' + 1) && Before(s, k, 0);
          assert Before(tail, k', k - 1);
          assert k' == k - 1;
        } else {
          assert Before(s, 0, k' + 1);
        }
      } else {
        assert Stopping(s, target, defaults) == [] + u == u;
        assert k != 0 && Before(tail, k', k - 1) && Before(s, k, k' + 1);
        assert k' == k - 1;
      }
    } else {
      NoneStopping(tail, target, defaults);
      assert k == 0;
      assert Stopping(s, target, defaults) == [s[0]] + [] == [s[0]];
      assert [s[0]][1..] == [];
    }
  }

  lemma {:induction false} NoneStopping(s: seq<Candidate>, target: string, defaults: seq<string>)
    requires forall j :: 0 <= j < |s| ==> !Stops(s[j], target, defaults)
    ensures Stopping(s, target, defaults) == []
  {
    if s != [] {
      NoneStopping(s[1..], target, defaults);
    }
  }

  lemma {:induction false} FirstDecides(s: seq<Candidate>, target: string, defaults: seq<string>, j: nat) returns (k: nat)
    requires j < |s| && Stops(s[j], target, defaults)
    ensures Decides(s, target, defaults, k)
  {
    k := j;
    var i := 0;
    while i < |s|
      invariant 0 <= i <= |s| && k < |s| && Stops(s[k], target, defaults)
      invariant forall n :: 0 <= n < i && Stops(s[n], target, defaults) ==> Before(s, k, n)
    {
      if Stops(s[i], target, defaults) && !Before(s, k, i) {
        k := i;
      }
      i := i + 1;
    }
  }

  /** The search is "drop what does not stop it, stable-sort by class, take the head". */
  lemma SelectIsSortedHead(s: seq<Candidate>, target: string, defaults: seq<string>, r: Option<nat>)
    requires r.None? <==> forall j :: 0 <= j < |s| ==> !Stops(s[j], target, defaults)
    requires r.Some? ==> Decides(s, target, defaults, r.value)
    ensures var t := StableSort(Stopping(s, target, defaults));
      if r.None? then t == [] else t != [] && t[0] == s[r.value]
  {
    if r.None? {
      NoneStopping(s, target, defaults);
    } else {
      SortedHead(s, target, defaults, r.value);
    }
  }
}
