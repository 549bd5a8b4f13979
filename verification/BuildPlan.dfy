/** Which builds a crate releases, on which targets, and what an archive packs of them. */
module BuildPlan {
  import opened Prelude
  import opened Text
  import opened Lists
  import opened Builds

  type Gate = Build -> bool

  /** An explicit id is compared verbatim; a fallback id is rendered first. */
  datatype BuildId = Explicit(s: string) | BinaryFallback(s: string)

  datatype Entry = Entry(id: BuildId, binary: string, targets: seq<string>)

  function EntryOf(k: Krate, defaults: seq<string>, b: Build): Entry {
    Entry(if b.id.Some? then Explicit(b.id.value) else BinaryFallback(BinaryOrName(k, b)),
          BinaryOrName(k, b),
          if b.targets.Some? then b.targets.value else defaults)
  }

  /** The builds that survive, as entries, in order. */
  function Entries(k: Krate, defaults: seq<string>, skipped: Gate, bs: seq<Build>): seq<Entry> {
    if bs == [] then [] else
      var last := bs[|bs| - 1];
      Entries(k, defaults, skipped, bs[..|bs| - 1]) +
      if Produces(k, last) && !skipped(last) then [EntryOf(k, defaults, last)] else []
  }

  function PlannedEntries(k: Krate, defaults: seq<string>, skipped: Gate): seq<Entry> {
    if PlannedBuilds(k).None? then [] else Entries(k, defaults, skipped, PlannedBuilds(k).value)
  }

  method CrateBuildTargetEntries(k: Krate, defaults: seq<string>, skipped: Gate) returns (out: seq<Entry>)
    ensures out == PlannedEntries(k, defaults, skipped)
  {
    out := [];
    var planned := PlannedBuilds(k);
    if planned.None? {
      return;
    }
    var bs := planned.value;
    var i := 0;
    while i < |bs|
      invariant 0 <= i <= |bs|
      invariant out == Entries(k, defaults, skipped, bs[..i])
    {
      assert bs[..i + 1][..i] == bs[..i];
      if Produces(k, bs[i]) && !skipped(bs[i]) {
        out := out + [EntryOf(k, defaults, bs[i])];
      } else {
        assert out + [] == out;
      }
      i := i + 1;
    }
    assert bs[..i] == bs;
  }

  /** The targets of a list of entries, one after the other. */
  function AllTargets(es: seq<Entry>): seq<string> {
    if es == [] then [] else AllTargets(es[..|es| - 1]) + es[|es| - 1].targets
  }

  function TargetList(k: Krate, defaults: seq<string>, skipped: Gate): seq<string> {
    Dedup(AllTargets(PlannedEntries(k, defaults, skipped)))
  }

  method CrateTargetList(k: Krate, defaults: seq<string>, skipped: Gate) returns (out: seq<string>)
    ensures out == TargetList(k, defaults, skipped)
  {
    var es := CrateBuildTargetEntries(k, defaults, skipped);
    out := [];
    var i := 0;
    while i < |es|
      invariant 0 <= i <= |es|
      invariant out == Dedup(AllTargets(es[..i]))
    {
      out := PushNew(out, es[i].targets, AllTargets(es[..i]));
      assert es[..i + 1][..i] == es[..i];
      i := i + 1;
    }
    assert es[..i] == es;
  }

  lemma PushStep(soFar: seq<string>, ts: seq<string>, j: nat)
    requires j < |ts|
    ensures var done := Dedup(soFar + ts[..j]);
      Dedup(soFar + ts[..j + 1]) == if ts[j] in done then done else done + [ts[j]]
  {
    DedupSnoc(soFar + ts[..j], ts[j]);
    assert soFar + ts[..j + 1] == (soFar + ts[..j]) + [ts[j]];
  }

  /** Push the targets not yet in the list. */
  method PushNew(out0: seq<string>, ts: seq<string>, ghost soFar: seq<string>) returns (out: seq<string>)
    requires out0 == Dedup(soFar)
    ensures out == Dedup(soFar + ts)
  {
    out := out0;
    var j := 0;
    assert soFar + ts[..0] == soFar;
    while j < |ts|
      invariant 0 <= j <= |ts|
      invariant out == Dedup(soFar + ts[..j])
    {
      PushStep(soFar, ts, j);
      if ts[j] !in out {
        out := out + [ts[j]];
      }
      j := j + 1;
    }
    assert ts[..j] == ts;
  }

  lemma {:induction false} InAllTargets(es: seq<Entry>, t: string)
    ensures t in AllTargets(es) <==> exists i :: 0 <= i < |es| && t in es[i].targets
    decreases |es|
  {
    if es != [] {
      var n := |es| - 1;
      InAllTargets(es[..n], t);
      if i :| 0 <= i < |es[..n]| && t in es[..n][i].targets {
        assert es[i] == es[..n][i];
      }
      if i :| 0 <= i < |es| && t in es[i].targets {
        assert i < n ==> es[..n][i] == es[i];
      }
    }
  }

  /** The list is the duplicate-free union of the surviving builds' targets, first occurrence first. */
  lemma TargetListIs(k: Krate, defaults: seq<string>, skipped: Gate, t: string)
    ensures var es := PlannedEntries(k, defaults, skipped);
      && NoDuplicates(TargetList(k, defaults, skipped))
      && (t in TargetList(k, defaults, skipped) <==> exists i :: 0 <= i < |es| && t in es[i].targets)
      && forall i, j :: 0 <= i < j < |TargetList(k, defaults, skipped)| ==>
           && TargetList(k, defaults, skipped)[i] in AllTargets(es)
           && TargetList(k, defaults, skipped)[j] in AllTargets(es)
           && FirstIndex(AllTargets(es), TargetList(k, defaults, skipped)[i])
              < FirstIndex(AllTargets(es), TargetList(k, defaults, skipped)[j])
  {
    var all := AllTargets(PlannedEntries(k, defaults, skipped));
    DedupElements(all);
    DedupIn(all, t);
    InAllTargets(PlannedEntries(k, defaults, skipped), t);
    forall i, j | 0 <= i < j < |Dedup(all)|
      ensures Dedup(all)[i] in all && Dedup(all)[j] in all && FirstIndex(all, Dedup(all)[i]) < FirstIndex(all, Dedup(all)[j])
    {
      DedupOrder(all, i, j);
    }
  }

  function TargetsOf(b: Build, defaults: seq<string>): seq<string> {
    if b.targets.Some? then b.targets.value else defaults
  }

  lemma {:induction false} EntryTargets(k: Krate, defaults: seq<string>, skipped: Gate, bs: seq<Build>, t: string)
    ensures var es := Entries(k, defaults, skipped, bs);
      (exists i :: 0 <= i < |es| && t in es[i].targets) <==>
      exists b :: b in bs && Produces(k, b) && !skipped(b) && t in TargetsOf(b, defaults)
  {
    if bs != [] {
      var n := |bs| - 1;
      var init, es := Entries(k, defaults, skipped, bs[..n]), Entries(k, defaults, skipped, bs);
      EntryTargets(k, defaults, skipped, bs[..n], t);
      assert forall b :: b in bs <==> b in bs[..n] || b == bs[n];
      assert forall i :: 0 <= i < |init| ==> es[i] == init[i];
      if Produces(k, bs[n]) && !skipped(bs[n]) {
        assert es[|init|] == EntryOf(k, defaults, bs[n]) && |es| == |init| + 1;
      } else {
        assert es == init;
      }
    }
  }

  /** A target is in the list exactly when some planned build that produces and is not skipped names or inherits it. */
  lemma TargetListSurvivors(k: Krate, defaults: seq<string>, skipped: Gate, t: string)
    ensures t in TargetList(k, defaults, skipped) <==>
      PlannedBuilds(k).Some? &&
      exists b :: b in PlannedBuilds(k).value && Produces(k, b) && !skipped(b) && t in TargetsOf(b, defaults)
  {
    TargetListIs(k, defaults, skipped, t);
    if PlannedBuilds(k).Some? {
      EntryTargets(k, defaults, skipped, PlannedBuilds(k).value, t);
    }
  }

  // ------------------------------------------------------------------ what an archive packs

  function RenderedOr(render: Renderer, s: string): string {
    match render(s) case Ok(v) => v case Err => s
  }

  /** An absent or empty id list selects every build. */
  predicate SelectsId(ids: Option<seq<string>>, id: string) {
    ids.None? || ids.value == [] || id in ids.value
  }

  /** An absent binary list selects every binary, an empty one none. */
  predicate PacksBinary(binaries: Option<seq<string>>, binary: string) {
    binaries.None? || binary in binaries.value
  }

  function IdText(render: Renderer, id: BuildId): string {
    match id case Explicit(s) => s case BinaryFallback(s) => RenderedOr(render, s)
  }

  predicate Packs(render: Renderer, ids: Option<seq<string>>, binaries: Option<seq<string>>, target: string, e: Entry) {
    && target in e.targets
    && SelectsId(ids, IdText(render, e.id))
    && PacksBinary(binaries, RenderedOr(render, e.binary))
  }

  function Packed(render: Renderer, ids: Option<seq<string>>, binaries: Option<seq<string>>, target: string, es: seq<Entry>): seq<string> {
    if es == [] then [] else
      (if Packs(render, ids, binaries, target, es[0]) then [RenderedOr(render, es[0].binary)] else [])
      + Packed(render, ids, binaries, target, es[1..])
  }

  function ArchiveTargetBinaries(k: Krate, ids: Option<seq<string>>, binaries: Option<seq<string>>, target: string,
                                 defaults: seq<string>, render: Renderer): seq<string> {
    Packed(render, ids, binaries, target, PlannedEntries(k, defaults, b => Skips(render, b)))
  }

  function ArchiveBinaryName(k: Krate, ids: Option<seq<string>>, binaries: Option<seq<string>>, target: string,
                             defaults: seq<string>, render: Renderer): string {
    var bins := ArchiveTargetBinaries(k, ids, binaries, target, defaults, render);
    if bins != [] then bins[0] else BinaryOrName(k, NO_BUILD)
  }

  /** The name a build's binary gets: its text rendered, or raw when that fails. */
  function BinaryText(k: Krate, render: Renderer, b: Build): string {
    match render(BinaryOrName(k, b)) case Ok(s) => s case Err => BinaryOrName(k, b)
  }

  /**
   * Whether an archive packs a build on a target, read off the build itself: it
   * produces, is not skipped and has the target; its explicit id, else its
   * binary's name, is among the archive's ids when it lists any; its binary's
   * name is among the archive's binaries when it lists them.
   */
  predicate ArchiveTakes(k: Krate, render: Renderer, ids: Option<seq<string>>, binaries: Option<seq<string>>,
                         target: string, defaults: seq<string>, b: Build) {
    && (b.prebuilt || b.binary.Some? || k.declaresBin)
    && TrySkip(render, b) != Ok(true)
    && target in (if b.targets.Some? then b.targets.value else defaults)
    && (ids.Some? && ids.value != [] ==> (if b.id.Some? then b.id.value else BinaryText(k, render, b)) in ids.value)
    && (binaries.Some? ==> BinaryText(k, render, b) in binaries.value)
  }

  /** The binaries of the builds an archive takes, in config order. */
  function TakenNames(k: Krate, render: Renderer, ids: Option<seq<string>>, binaries: Option<seq<string>>,
                      target: string, defaults: seq<string>, bs: seq<Build>): seq<string> {
    if bs == [] then [] else
      var last := bs[|bs| - 1];
      TakenNames(k, render, ids, binaries, target, defaults, bs[..|bs| - 1]) +
      if ArchiveTakes(k, render, ids, binaries, target, defaults, last) then [BinaryText(k, render, last)] else []
  }

  lemma {:induction false} PackedAppend(render: Renderer, ids: Option<seq<string>>, binaries: Option<seq<string>>, target: string, a: seq<Entry>, b: seq<Entry>)
    ensures Packed(render, ids, binaries, target, a + b) == Packed(render, ids, binaries, target, a) + Packed(render, ids, binaries, target, b)
    decreases |a|
  {
    if a == [] {
      assert a + b == b;
    } else {
      assert (a + b)[1..] == a[1..] + b;
      PackedAppend(render, ids, binaries, target, a[1..], b);
    }
  }

  lemma PackedOne(k: Krate, render: Renderer, ids: Option<seq<string>>, binaries: Option<seq<string>>, target: string, defaults: seq<string>, b: Build)
    requires Produces(k, b) && !Skips(render, b)
    ensures Packed(render, ids, binaries, target, [EntryOf(k, defaults, b)]) ==
      if ArchiveTakes(k, render, ids, binaries, target, defaults, b) then [BinaryText(k, render, b)] else []
  {
    var e := EntryOf(k, defaults, b);
    assert [e][1..] == [] && Packed(render, ids, binaries, target, []) == [];
  }

  lemma {:induction false} PackedIsTaken(k: Krate, render: Renderer, g: Gate, ids: Option<seq<string>>, binaries: Option<seq<string>>,
                                         target: string, defaults: seq<string>, bs: seq<Build>)
    requires forall b :: g(b) == Skips(render, b)
    ensures Packed(render, ids, binaries, target, Entries(k, defaults, g, bs)) == TakenNames(k, render, ids, binaries, target, defaults, bs)
    decreases |bs|
  {
    if bs != [] {
      var init, last := bs[..|bs| - 1], bs[|bs| - 1];
      PackedIsTaken(k, render, g, ids, binaries, target, defaults, init);
      var es := Entries(k, defaults, g, init);
      if Produces(k, last) && !g(last) {
        PackedAppend(render, ids, binaries, target, es, [EntryOf(k, defaults, last)]);
        PackedOne(k, render, ids, binaries, target, defaults, last);
      } else {
        assert es + [] == es;
      }
    }
  }

  /** An archive packs exactly the binaries of the builds it takes, in config order. */
  lemma ArchivePacksExactly(k: Krate, ids: Option<seq<string>>, binaries: Option<seq<string>>, target: string,
                            defaults: seq<string>, render: Renderer)
    ensures ArchiveTargetBinaries(k, ids, binaries, target, defaults, render) ==
      if PlannedBuilds(k).None? then [] else TakenNames(k, render, ids, binaries, target, defaults, PlannedBuilds(k).value)
  {
    if PlannedBuilds(k).Some? {
      PackedIsTaken(k, render, b => Skips(render, b), ids, binaries, target, defaults, PlannedBuilds(k).value);
    }
  }

  lemma {:induction false} TakenMembers(k: Krate, render: Renderer, ids: Option<seq<string>>, binaries: Option<seq<string>>,
                                        target: string, defaults: seq<string>, bs: seq<Build>, x: string)
    ensures x in TakenNames(k, render, ids, binaries, target, defaults, bs) <==>
      exists b :: b in bs && ArchiveTakes(k, render, ids, binaries, target, defaults, b) && BinaryText(k, render, b) == x
    decreases |bs|
  {
    if bs != [] {
      var n := |bs| - 1;
      TakenMembers(k, render, ids, binaries, target, defaults, bs[..n], x);
      assert forall b :: b in bs <==> b in bs[..n] || b == bs[n];
    }
  }

  /** So a binary is packed if and only if some planned build that the archive takes renders to it. */
  lemma PackedMembers(k: Krate, ids: Option<seq<string>>, binaries: Option<seq<string>>, target: string,
                      defaults: seq<string>, render: Renderer, x: string)
    ensures x in ArchiveTargetBinaries(k, ids, binaries, target, defaults, render) <==>
      && PlannedBuilds(k).Some?
      && exists b ::
           && b in PlannedBuilds(k).value
           && ArchiveTakes(k, render, ids, binaries, target, defaults, b) && BinaryText(k, render, b) == x
  {
    ArchivePacksExactly(k, ids, binaries, target, defaults, render);
    if PlannedBuilds(k).Some? {
      TakenMembers(k, render, ids, binaries, target, defaults, PlannedBuilds(k).value, x);
    }
  }

  lemma {:induction false} TakenFirst(k: Krate, render: Renderer, ids: Option<seq<string>>, binaries: Option<seq<string>>,
                                      target: string, defaults: seq<string>, bs: seq<Build>, i: nat)
    requires i <= |bs| && forall j :: 0 <= j < i ==> !ArchiveTakes(k, render, ids, binaries, target, defaults, bs[j])
    requires i < |bs| ==> ArchiveTakes(k, render, ids, binaries, target, defaults, bs[i])
    ensures var names := TakenNames(k, render, ids, binaries, target, defaults, bs);
      if i == |bs| then names == [] else names != [] && names[0] == BinaryText(k, render, bs[i])
    decreases |bs|
  {
    if bs != [] {
      var n := |bs| - 1;
      TakenFirst(k, render, ids, binaries, target, defaults, bs[..n], if i < n then i else n);
    }
  }

  /** An asset is named after the first planned build the archive takes on its target, else after the crate. */
  lemma ArchiveNamedAfterFirst(k: Krate, ids: Option<seq<string>>, binaries: Option<seq<string>>, target: string,
                               defaults: seq<string>, render: Renderer, bs: seq<Build>, i: nat)
    requires bs == (if PlannedBuilds(k).Some? then PlannedBuilds(k).value else []) && i <= |bs|
    requires forall j :: 0 <= j < i ==> !ArchiveTakes(k, render, ids, binaries, target, defaults, bs[j])
    requires i < |bs| ==> ArchiveTakes(k, render, ids, binaries, target, defaults, bs[i])
    ensures ArchiveBinaryName(k, ids, binaries, target, defaults, render) == if i == |bs| then k.name else BinaryText(k, render, bs[i])
  {
    ArchivePacksExactly(k, ids, binaries, target, defaults, render);
    TakenFirst(k, render, ids, binaries, target, defaults, bs, i);
  }

  /** An id filter at work: of two builds of a target only the listed one is packed and names the asset. */
  lemma IdsSelect(k: Krate, daemon: Build, cli: Build, target: string, defaults: seq<string>, render: Renderer)
    requires k.builds == Some([daemon, cli]) && daemon.id == Some("daemon") && cli.id == Some("cli")
    requires cli.binary.Some? && cli.skip.None? && cli.targets == Some([target])
    ensures ArchiveTargetBinaries(k, Some(["cli"]), None, target, defaults, render) == [BinaryText(k, render, cli)]
    ensures ArchiveBinaryName(k, Some(["cli"]), None, target, defaults, render) == BinaryText(k, render, cli)
  {
    var bs := [daemon, cli];
    ArchivePacksExactly(k, Some(["cli"]), None, target, defaults, render);
    assert |"daemon"| != |"cli"| && "cli" in ["cli"] && target in [target];
    assert !ArchiveTakes(k, render, Some(["cli"]), None, target, defaults, daemon);
    assert ArchiveTakes(k, render, Some(["cli"]), None, target, defaults, cli);
    assert bs[..1] == [daemon] && [daemon][..0] == [];
    assert TakenNames(k, render, Some(["cli"]), None, target, defaults, [daemon]) == [];
  }

  /** The planned builds: the crate's own list when it has entries, else one named after the crate when it has that binary. */
  lemma PlannedExactly(k: Krate)
    ensures k.builds.Some? && k.builds.value != [] ==> PlannedBuilds(k) == k.builds
    ensures k.builds.None? || k.builds.value == [] ==>
      (if k.declaresBin
       then PlannedBuilds(k).Some? && |PlannedBuilds(k).value| == 1 && PlannedBuilds(k).value[0].binary == Some(k.name)
            && PlannedBuilds(k).value[0].targets == None && PlannedBuilds(k).value[0].skip == None
       else PlannedBuilds(k) == None)
  {
  }

  lemma {:induction false} PackedSome(render: Renderer, ids: Option<seq<string>>, target: string, es: seq<Entry>)
    requires ids.None? || ids.value == []
    ensures Packed(render, ids, None, target, es) != [] <==> exists i :: 0 <= i < |es| && target in es[i].targets
  {
    if es != [] {
      PackedSome(render, ids, target, es[1..]);
      if i :| 0 <= i < |es[1..]| && target in es[1..][i].targets {
        assert es[i + 1] == es[1..][i];
      }
      if i :| 0 <= i < |es| && target in es[i].targets {
        assert i > 0 ==> es[1..][i - 1] == es[i];
      }
    }
  }

  /** An archive without filters packs a binary on a target exactly when the crate releases that target. */
  lemma UnfilteredPacksReleasedTargets(k: Krate, ids: Option<seq<string>>, target: string, defaults: seq<string>, render: Renderer)
    requires ids.None? || ids.value == []
    ensures ArchiveTargetBinaries(k, ids, None, target, defaults, render) != []
       <==> target in TargetList(k, defaults, b => Skips(render, b))
  {
    var gate: Gate := b => Skips(render, b);
    PackedSome(render, ids, target, PlannedEntries(k, defaults, gate));
    TargetListIs(k, defaults, gate, target);
  }

  /** Filters only leave binaries out; what stays keeps its order. */
  lemma {:induction false} FiltersLeaveOut(render: Renderer, ids: Option<seq<string>>, binaries: Option<seq<string>>, target: string, es: seq<Entry>)
    ensures Subsequence(Packed(render, ids, binaries, target, es), Packed(render, None, None, target, es))
  {
    if es != [] {
      FiltersLeaveOut(render, ids, binaries, target, es[1..]);
      var a, b := Packed(render, ids, binaries, target, es[1..]), Packed(render, None, None, target, es[1..]);
      var x := RenderedOr(render, es[0].binary);
      assert ([x] + b)[1..] == b && ([x] + a)[1..] == a;
      assert [] + a == a && [] + b == b;
      if target in es[0].targets && !Packs(render, ids, binaries, target, es[0]) {
        assert Subsequence(a, [x] + b);
      }
    }
  }

  // ----------------------------------------------------- which texts a name depends on

  /** The texts of a build entry that planning renders. */
  function TextsOf(k: Krate, b: Build): set<string> {
    {BinaryOrName(k, b)} + if b.skip.Some? && b.skip.value.Expr? then {b.skip.value.text} else {}
  }

  /** Two renderers agree on every text of the crate's planned builds. */
  ghost predicate RenderAlike(k: Krate, r: Renderer, r': Renderer) {
    PlannedBuilds(k).Some? ==>
      forall b, t :: b in PlannedBuilds(k).value && t in TextsOf(k, b) ==> r(t) == r'(t)
  }

  lemma {:induction false} EntriesAlike(k: Krate, defaults: seq<string>, g: Gate, g': Gate, bs: seq<Build>)
    requires forall b :: b in bs ==> g(b) == g'(b)
    ensures Entries(k, defaults, g, bs) == Entries(k, defaults, g', bs)
    decreases |bs|
  {
    if bs != [] {
      EntriesAlike(k, defaults, g, g', bs[..|bs| - 1]);
    }
  }

  lemma {:induction false} EntriesAreBuilds(k: Krate, defaults: seq<string>, g: Gate, bs: seq<Build>)
    ensures forall e :: e in Entries(k, defaults, g, bs) ==> exists b :: b in bs && e == EntryOf(k, defaults, b)
    decreases |bs|
  {
    if bs != [] {
      var n := |bs| - 1;
      EntriesAreBuilds(k, defaults, g, bs[..n]);
      assert bs == bs[..n] + [bs[n]];
      forall e | e in Entries(k, defaults, g, bs) ensures exists b :: b in bs && e == EntryOf(k, defaults, b) {
        if e in Entries(k, defaults, g, bs[..n]) {
          var b :| b in bs[..n] && e == EntryOf(k, defaults, b);
          assert b in bs;
        } else {
          assert bs[n] in bs && e == EntryOf(k, defaults, bs[n]);
        }
      }
    }
  }

  lemma {:induction false} PackedAlike(r: Renderer, r': Renderer, ids: Option<seq<string>>, binaries: Option<seq<string>>, target: string, es: seq<Entry>)
    requires forall e :: e in es ==> r(e.binary) == r'(e.binary) && IdText(r, e.id) == IdText(r', e.id)
    ensures Packed(r, ids, binaries, target, es) == Packed(r', ids, binaries, target, es)
  {
    if es != [] {
      assert es[0] in es && forall e :: e in es[1..] ==> e in es;
      PackedAlike(r, r', ids, binaries, target, es[1..]);
    }
  }

  /** The binary's name depends on the scope only through the texts of the planned builds. */
  lemma ArchiveNameAlike(k: Krate, ids: Option<seq<string>>, binaries: Option<seq<string>>, target: string,
                         defaults: seq<string>, r: Renderer, r': Renderer)
    requires RenderAlike(k, r, r')
    ensures ArchiveBinaryName(k, ids, binaries, target, defaults, r) == ArchiveBinaryName(k, ids, binaries, target, defaults, r')
  {
    if PlannedBuilds(k).Some? {
      var bs := PlannedBuilds(k).value;
      var g: Gate, g': Gate := b => Skips(r, b), b => Skips(r', b);
      forall b | b in bs ensures g(b) == g'(b) {
        assert b.skip.Some? && b.skip.value.Expr? ==> b.skip.value.text in TextsOf(k, b);
      }
      EntriesAlike(k, defaults, g, g', bs);
      var es := Entries(k, defaults, g, bs);
      EntriesAreBuilds(k, defaults, g, bs);
      forall e | e in es ensures r(e.binary) == r'(e.binary) && IdText(r, e.id) == IdText(r', e.id) {
        var b :| b in bs && e == EntryOf(k, defaults, b);
        assert BinaryOrName(k, b) in TextsOf(k, b);
      }
      PackedAlike(r, r', ids, binaries, target, es);
    }
  }
}
