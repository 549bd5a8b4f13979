/** `apply_defaults`: the whole fold over crates, workspaces and top-level blocks. */
module ApplyDefaults {
  import opened Prelude
  import opened Json
  import opened JsonMerge
  import opened DefaultsMerge

  // ------------------------------------------------------------ one crate, as values

  function Lookup<K, V>(m: map<K, V>, k: K): Option<V> {
    if k in m then Some(m[k]) else None
  }

  function AppendList(t: Option<seq<Json>>, d: Option<seq<Json>>): Option<seq<Json>> {
    if d.None? then t else if t.None? then d else Some(t.value + d.value)
  }

  function MergeLists(dec: Decodes, t: map<Slot, seq<Json>>, d: map<Slot, Json>): map<Slot, seq<Json>> {
    map s | s in t.Keys + d.Keys ::
      if s !in d then t[s] else MergeOne(dec, ListKind(s), if s in t then t[s] else [], d[s])
  }

  function MergeArchives(dec: Decodes, t: Archives, d: Option<Json>): Archives {
    if d.None? || t.Disabled? then t else Configs(MergeOne(dec, ArchiveKind, t.entries, d.value))
  }

  function MergeBuilds(dec: Decodes, t: Option<seq<Json>>, d: Option<Json>): Option<seq<Json>> {
    if d.None? then t
    else if t.None? || t.value == [] then Some([d.value])
    else Some(seq(|t.value|, i requires 0 <= i < |t.value| => MergeBlock(dec, BuildKind, t.value[i], d.value)))
  }

  function MergePublish(dec: Decodes, t: Publish, d: Publish): Publish {
    Publish(
      map p | p in t.blocks.Keys + d.blocks.Keys ::
        MergeOption(dec, PublisherKind(p), Lookup(t.blocks, p), Lookup(d.blocks, p)).value,
      AppendList(t.onError, d.onError),
      AppendList(t.onRollback, d.onRollback))
  }

  const NO_PUBLISH := Publish(map[], None, None)

  function Fill<T>(t: Option<T>, d: Option<T>): Option<T> {
    if t.None? then d else t
  }

  function ApplyCrate(dec: Decodes, d: Defaults, c: Crate): Crate {
    Crate(
      Fill(c.cross, d.cross),
      FillTag(c.tagTemplate, d.tagTemplate),
      Fill(c.versionFiles, d.versionFiles),
      MergeOption(dec, ChecksumKind, c.checksum, d.checksum),
      MergeArchives(dec, c.archives, d.archives),
      MergeLists(dec, c.lists, d.lists),
      MergeBuilds(dec, c.builds, d.builds),
      MergePublishOption(dec, c.publish, d.publish))
  }

  // ---------------------------------------------------------------- a further pass

  /** What an unkeyed default adds to its list on every pass. */
  function Extra(kind: Kind, d: Option<Json>): seq<Json> {
    if d.Some? && Identity(kind, d.value).None? then [d.value] else []
  }

  function ExtraHooks(d: Option<seq<Json>>): seq<Json> {
    if d.Some? then d.value else []
  }

  function AddHooks(t: Option<seq<Json>>, d: Option<seq<Json>>): Option<seq<Json>> {
    if t.None? then None else Some(t.value + ExtraHooks(d))
  }

  function GrownLists(d: map<Slot, Json>, t: map<Slot, seq<Json>>): map<Slot, seq<Json>> {
    map s | s in t :: t[s] + Extra(ListKind(s), Lookup(d, s))
  }

  /** A crate that gains one copy of each unkeyed list default and of each publish hook list. */
  function Grown(d: Defaults, c: Crate): Crate {
    c.(archives := if c.archives.Disabled? then Disabled else Configs(c.archives.entries + Extra(ArchiveKind, d.archives)),
       lists := GrownLists(d.lists, c.lists),
       publish := if c.publish.None? || d.publish.None? then c.publish
                  else Some(c.publish.value.(
                    onError := AddHooks(c.publish.value.onError, d.publish.value.onError),
                    onRollback := AddHooks(c.publish.value.onRollback, d.publish.value.onRollback))))
  }

  lemma PublishAgain(dec: Decodes, t: Publish, d: Publish)
    ensures var once := MergePublish(dec, t, d);
      MergePublish(dec, once, d) == once.(onError := AddHooks(once.onError, d.onError),
                                          onRollback := AddHooks(once.onRollback, d.onRollback))
  {
    var once := MergePublish(dec, t, d);
    var twice := MergePublish(dec, once, d);
    assert twice.blocks.Keys == once.blocks.Keys;
    forall p | p in once.blocks ensures twice.blocks[p] == once.blocks[p] {
      MergeOptionTwice(dec, PublisherKind(p), Lookup(t.blocks, p), Lookup(d.blocks, p));
    }
    HooksAgain(t.onError, d.onError);
    HooksAgain(t.onRollback, d.onRollback);
  }

  lemma HooksAgain(t: Option<seq<Json>>, d: Option<seq<Json>>)
    ensures var once := AppendList(t, d); AppendList(once, d) == AddHooks(once, d)
  {
    if t.Some? { assert t.value + [] == t.value; }
  }

  lemma ListsAgain(dec: Decodes, t: map<Slot, seq<Json>>, d: map<Slot, Json>)
    ensures var once := MergeLists(dec, t, d);
      MergeLists(dec, once, d) == GrownLists(d, once)
  {
    var once := MergeLists(dec, t, d);
    forall s | s in once
      ensures MergeLists(dec, once, d)[s] == once[s] + Extra(ListKind(s), Lookup(d, s))
    {
      if s in d {
        MergeOneAgain(dec, ListKind(s), if s in t then t[s] else [], d[s]);
      } else {
        assert once[s] + [] == once[s];
      }
    }
  }

  lemma BuildsAgain(dec: Decodes, t: Option<seq<Json>>, d: Option<Json>)
    ensures var once := MergeBuilds(dec, t, d); MergeBuilds(dec, once, d) == once
  {
    if d.Some? {
      var once := MergeBuilds(dec, t, d).value;
      forall i | 0 <= i < |once| ensures MergeBlock(dec, BuildKind, once[i], d.value) == once[i] {
        MergeBlockTwice(dec, BuildKind, if t.Some? && t.value != [] then t.value[i] else d.value, d.value);
      }
      assert MergeBuilds(dec, Some(once), d).value == once;
    }
  }

  lemma ArchivesAgain(dec: Decodes, t: Archives, d: Option<Json>)
    ensures var once := MergeArchives(dec, t, d);
      MergeArchives(dec, once, d) == if once.Disabled? then Disabled else Configs(once.entries + Extra(ArchiveKind, d))
  {
    if !t.Disabled? {
      if d.Some? {
        MergeOneAgain(dec, ArchiveKind, t.entries, d.value);
      } else {
        assert t.entries + [] == t.entries;
      }
    }
  }

  function MergePublishOption(dec: Decodes, t: Option<Publish>, d: Option<Publish>): Option<Publish> {
    if d.None? then t else Some(MergePublish(dec, if t.Some? then t.value else NO_PUBLISH, d.value))
  }

  lemma PublishOptionAgain(dec: Decodes, t: Option<Publish>, d: Option<Publish>)
    ensures var once := MergePublishOption(dec, t, d);
      MergePublishOption(dec, once, d) ==
        if once.None? || d.None? then once
        else Some(once.value.(onError := AddHooks(once.value.onError, d.value.onError),
                              onRollback := AddHooks(once.value.onRollback, d.value.onRollback)))
  {
    if d.Some? {
      PublishAgain(dec, if t.Some? then t.value else NO_PUBLISH, d.value);
    }
  }

  /** Each pass after the first adds exactly one copy of what carries no identity, and changes nothing else. */
  lemma ExtraPass(dec: Decodes, d: Defaults, c: Crate)
    ensures var once := ApplyCrate(dec, d, c); ApplyCrate(dec, d, once) == Grown(d, once)
  {
    MergeOptionTwice(dec, ChecksumKind, c.checksum, d.checksum);
    ArchivesAgain(dec, c.archives, d.archives);
    ListsAgain(dec, c.lists, d.lists);
    BuildsAgain(dec, c.builds, d.builds);
    PublishOptionAgain(dec, c.publish, d.publish);
  }

  /** What a user can read off the two configs: no unkeyed list default, and no publish hooks to append. */
  predicate Stable(d: Defaults, c: Crate) {
    && (c.archives.Disabled? || Extra(ArchiveKind, d.archives) == [])
    && (forall s :: s in d.lists ==> Identity(ListKind(s), d.lists[s]).Some?)
    && (d.publish.Some? ==> ExtraHooks(d.publish.value.onError) == [] && ExtraHooks(d.publish.value.onRollback) == [])
  }

  lemma AppendNothing<T>(a: seq<T>, b: seq<T>)
    ensures a + b == a <==> b == []
  {
    if b != [] { assert |a + b| > |a|; }
  }

  lemma ListsStayExactly(d: map<Slot, Json>, t: map<Slot, seq<Json>>)
    requires d.Keys <= t.Keys
    ensures GrownLists(d, t) == t <==> forall s :: s in d ==> Identity(ListKind(s), d[s]).Some?
  {
    forall s | s in t
      ensures GrownLists(d, t)[s] == t[s] <==> (s in d ==> Identity(ListKind(s), d[s]).Some?)
    {
      AppendNothing(t[s], Extra(ListKind(s), Lookup(d, s)));
    }
    assert GrownLists(d, t) == t <==> forall s :: s in t ==> GrownLists(d, t)[s] == t[s];
  }

  lemma HooksStayExactly(t: Option<seq<Json>>, d: Option<seq<Json>>)
    requires d.Some? ==> t.Some?
    ensures AddHooks(t, d) == t <==> ExtraHooks(d) == []
  {
    if t.Some? { AppendNothing(t.value, ExtraHooks(d)); }
  }

  /** Folding the defaults into a crate twice is folding them once, exactly when the crate is stable. */
  lemma CrateTwiceExactly(dec: Decodes, d: Defaults, c: Crate)
    ensures var once := ApplyCrate(dec, d, c); ApplyCrate(dec, d, once) == once <==> Stable(d, c)
  {
    var once := ApplyCrate(dec, d, c);
    ExtraPass(dec, d, c);
    StaysExactly(d, once);
  }

  lemma StaysExactly(d: Defaults, c: Crate)
    requires d.lists.Keys <= c.lists.Keys
    requires d.publish.Some? ==> c.publish.Some?
    requires d.publish.Some? && d.publish.value.onError.Some? ==> c.publish.value.onError.Some?
    requires d.publish.Some? && d.publish.value.onRollback.Some? ==> c.publish.value.onRollback.Some?
    ensures Grown(d, c) == c <==> Stable(d, c)
  {
    if !c.archives.Disabled? {
      AppendNothing(c.archives.entries, Extra(ArchiveKind, d.archives));
    }
    ListsStayExactly(d.lists, c.lists);
    if d.publish.Some? {
      HooksStayExactly(c.publish.value.onError, d.publish.value.onError);
      HooksStayExactly(c.publish.value.onRollback, d.publish.value.onRollback);
    }
  }

  // --------------------------------------------------------------- the source's loops

  const SLOTS: seq<Slot> := [Nfpms, Snapcrafts, Dmgs, Pkgs, Msis, Nsis, AppBundles, Flatpaks, DockersV2]

  const PUBLISHERS: seq<Publisher> :=
    [Homebrew, HomebrewCask, Cargo, Scoop, Winget, Chocolatey, Krew, Nix, Aur, AurSource]

  lemma AllSlots(s: Slot)
    ensures s in SLOTS
  {
    assert SLOTS[0] == Nfpms && SLOTS[1] == Snapcrafts && SLOTS[2] == Dmgs && SLOTS[3] == Pkgs && SLOTS[4] == Msis
        && SLOTS[5] == Nsis && SLOTS[6] == AppBundles && SLOTS[7] == Flatpaks && SLOTS[8] == DockersV2;
  }

  lemma AllPublishers(p: Publisher)
    ensures p in PUBLISHERS
  {
    assert PUBLISHERS[0] == Homebrew && PUBLISHERS[1] == HomebrewCask && PUBLISHERS[2] == Cargo
        && PUBLISHERS[3] == Scoop && PUBLISHERS[4] == Winget && PUBLISHERS[5] == Chocolatey
        && PUBLISHERS[6] == Krew && PUBLISHERS[7] == Nix && PUBLISHERS[8] == Aur && PUBLISHERS[9] == AurSource;
  }

  function MergedSlot(dec: Decodes, t: Option<seq<Json>>, d: Option<Json>, s: Slot): Option<seq<Json>> {
    if d.None? then t else Some(MergeOne(dec, ListKind(s), if t.Some? then t.value else [], d.value))
  }

  lemma MergeListsAt(dec: Decodes, t: map<Slot, seq<Json>>, d: map<Slot, Json>, s: Slot)
    ensures Lookup(MergeLists(dec, t, d), s) == MergedSlot(dec, Lookup(t, s), Lookup(d, s), s)
  {
  }

  method MergeListFields(dec: Decodes, t: map<Slot, seq<Json>>, d: map<Slot, Json>) returns (r: map<Slot, seq<Json>>)
    ensures r == MergeLists(dec, t, d)
  {
    r := t;
    var i := 0;
    while i < |SLOTS|
      invariant 0 <= i <= |SLOTS|
      invariant forall s ::
        Lookup(r, s) == if s in SLOTS[..i] then MergedSlot(dec, Lookup(t, s), Lookup(d, s), s) else Lookup(t, s)
    {
      var s := SLOTS[i];
      assert s !in SLOTS[..i];
      assert Lookup(r, s) == Lookup(t, s);
      if s in d {
        var merged := MergeOneIntoList(dec, ListKind(s), if s in r then r[s] else [], d[s]);
        r := r[s := merged];
      }
      assert SLOTS[..i + 1] == SLOTS[..i] + [s];
      i := i + 1;
    }
    assert SLOTS[..i] == SLOTS;
    forall s ensures Lookup(r, s) == Lookup(MergeLists(dec, t, d), s) {
      AllSlots(s);
      MergeListsAt(dec, t, d, s);
    }
    SameMap(r, MergeLists(dec, t, d));
  }

  lemma SameMap<K, V>(a: map<K, V>, b: map<K, V>)
    requires forall k :: Lookup(a, k) == Lookup(b, k)
    ensures a == b
  {
    assert forall k :: k in a <==> Lookup(a, k).Some?;
    assert forall k :: k in b <==> Lookup(b, k).Some?;
    assert forall k :: k in a ==> a[k] == Lookup(a, k).value == b[k];
  }

  method MergePublishDefaults(dec: Decodes, t: Publish, d: Publish) returns (r: Publish)
    ensures r == MergePublish(dec, t, d)
  {
    var blocks := t.blocks;
    var i := 0;
    while i < |PUBLISHERS|
      invariant 0 <= i <= |PUBLISHERS|
      invariant forall p ::
        Lookup(blocks, p) == if p in PUBLISHERS[..i] then Lookup(MergePublish(dec, t, d).blocks, p) else Lookup(t.blocks, p)
    {
      var p := PUBLISHERS[i];
      assert p !in PUBLISHERS[..i];
      assert Lookup(blocks, p) == Lookup(t.blocks, p);
      var merged := DeepMergeOption(dec, PublisherKind(p), Lookup(blocks, p), Lookup(d.blocks, p));
      if merged.Some? {
        blocks := blocks[p := merged.value];
      }
      assert PUBLISHERS[..i + 1] == PUBLISHERS[..i] + [p];
      i := i + 1;
    }
    forall p ensures Lookup(blocks, p) == Lookup(MergePublish(dec, t, d).blocks, p) {
      AllPublishers(p);
      assert PUBLISHERS[..i] == PUBLISHERS;
    }
    SameMap(blocks, MergePublish(dec, t, d).blocks);
    r := Publish(blocks, AppendList(t.onError, d.onError), AppendList(t.onRollback, d.onRollback));
  }

  method MergeBuildList(dec: Decodes, t: Option<seq<Json>>, d: Option<Json>) returns (r: Option<seq<Json>>)
    ensures r == MergeBuilds(dec, t, d)
  {
    if d.None? {
      return t;
    }
    if t.None? || t.value == [] {
      return Some([d.value]);
    }
    var list := t.value;
    var i := 0;
    while i < |list|
      invariant 0 <= i <= |list| == |t.value|
      invariant forall j :: 0 <= j < |list| ==>
        list[j] == if j < i then MergeBlock(dec, BuildKind, t.value[j], d.value) else t.value[j]
    {
      var merged := DeepMergeStruct(dec, BuildKind, list[i], d.value);
      list := list[i := merged];
      i := i + 1;
    }
    assert list == MergeBuilds(dec, t, d).value;
    r := Some(list);
  }

  method ApplyToCrate(dec: Decodes, d: Defaults, c: Crate) returns (r: Crate)
    ensures r == ApplyCrate(dec, d, c)
  {
    r := FillFields(d, c);
    var checksum := DeepMergeOption(dec, ChecksumKind, r.checksum, d.checksum);
    r := r.(checksum := checksum);
    var archives := MergeArchiveList(dec, r.archives, d.archives);
    r := r.(archives := archives);
    var lists := MergeListFields(dec, r.lists, d.lists);
    r := r.(lists := lists);
    var builds := MergeBuildList(dec, r.builds, d.builds);
    r := r.(builds := builds);
    if d.publish.Some? {
      var target := if r.publish.Some? then r.publish.value else NO_PUBLISH;
      var merged := MergePublishDefaults(dec, target, d.publish.value);
      r := r.(publish := Some(merged));
    }
  }

  function FillTag(t: Option<string>, d: Option<string>): Option<string> {
    if (t.None? || t.value == "") && d.Some? then d else t
  }

  method FillFields(d: Defaults, c: Crate) returns (r: Crate)
    ensures r == c.(cross := Fill(c.cross, d.cross),
                    tagTemplate := FillTag(c.tagTemplate, d.tagTemplate),
                    versionFiles := Fill(c.versionFiles, d.versionFiles))
  {
    r := c;
    if r.cross.None? && d.cross.Some? {
      r := r.(cross := d.cross);
    }
    if (r.tagTemplate.None? || r.tagTemplate.value == "") && d.tagTemplate.Some? {
      r := r.(tagTemplate := d.tagTemplate);
    }
    if r.versionFiles.None? && d.versionFiles.Some? {
      r := r.(versionFiles := d.versionFiles);
    }
  }

  method MergeArchiveList(dec: Decodes, t: Archives, d: Option<Json>) returns (r: Archives)
    ensures r == MergeArchives(dec, t, d)
  {
    r := t;
    if d.Some? && r.Configs? {
      var entries := MergeOneIntoList(dec, ArchiveKind, r.entries, d.value);
      r := Configs(entries);
    }
  }

  // ------------------------------------------------------------------ the whole config

  datatype Settings = Settings(
    defaults: Option<Defaults>,
    crates: seq<Crate>,
    workspaces: Option<seq<seq<Crate>>>,
    blocks: map<TopBlock, Json>,
    lists: map<TopList, seq<Json>>,
    filled: set<TopList>)

  function ApplyAll(dec: Decodes, d: Defaults, cs: seq<Crate>): seq<Crate> {
    seq(|cs|, i requires 0 <= i < |cs| => ApplyCrate(dec, d, cs[i]))
  }

  function ApplyWorkspaces(dec: Decodes, d: Defaults, wss: Option<seq<seq<Crate>>>): Option<seq<seq<Crate>>> {
    if wss.None? then None
    else Some(seq(|wss.value|, i requires 0 <= i < |wss.value| => ApplyAll(dec, d, wss.value[i])))
  }

  function MergeTop(dec: Decodes, d: map<TopBlock, Json>, t: map<TopBlock, Json>): map<TopBlock, Json> {
    map b | b in t.Keys + d.Keys :: MergeOption(dec, TopKind(b), Lookup(t, b), Lookup(d, b)).value
  }

  /** The lists a fold fills: those with a default and no entry of their own. */
  function Unfilled(d: map<TopList, Json>, t: map<TopList, seq<Json>>): set<TopList> {
    set l | l in d && (l !in t || t[l] == [])
  }

  /** The signing lists whose origin is recorded for diagnostics. */
  const RECORDED: set<TopList> := {Signs, BinarySigns, DockerSigns}

  function FillLists(d: map<TopList, Json>, t: map<TopList, seq<Json>>): map<TopList, seq<Json>> {
    map l | l in t.Keys + d.Keys :: if l in Unfilled(d, t) then [d[l]] else t[l]
  }

  function Fold(dec: Decodes, s: Settings): Settings {
    if s.defaults.None? then s else
      var d := s.defaults.value;
      Settings(s.defaults, ApplyAll(dec, d, s.crates), ApplyWorkspaces(dec, d, s.workspaces),
               MergeTop(dec, d.blocks, s.blocks),
               FillLists(d.fills, s.lists),
               s.filled + Unfilled(d.fills, s.lists) * RECORDED)
  }

  ghost predicate AllStable(s: Settings) {
    s.defaults.Some? ==>
      && (forall i :: 0 <= i < |s.crates| ==> Stable(s.defaults.value, s.crates[i]))
      && (s.workspaces.Some? ==> forall i, j :: 0 <= i < |s.workspaces.value| && 0 <= j < |s.workspaces.value[i]| ==>
            Stable(s.defaults.value, s.workspaces.value[i][j]))
  }

  lemma AllTwiceExactly(dec: Decodes, d: Defaults, cs: seq<Crate>)
    ensures var once := ApplyAll(dec, d, cs);
      ApplyAll(dec, d, once) == once <==> forall i :: 0 <= i < |cs| ==> Stable(d, cs[i])
  {
    var once := ApplyAll(dec, d, cs);
    var twice := ApplyAll(dec, d, once);
    forall i | 0 <= i < |cs| ensures twice[i] == once[i] <==> Stable(d, cs[i]) {
      CrateTwiceExactly(dec, d, cs[i]);
    }
    assert twice == once <==> forall i :: 0 <= i < |cs| ==> twice[i] == once[i];
  }

  lemma WorkspacesTwiceExactly(dec: Decodes, d: Defaults, wss: seq<seq<Crate>>)
    ensures var once := ApplyWorkspaces(dec, d, Some(wss));
      ApplyWorkspaces(dec, d, once) == once <==>
      forall i, j :: 0 <= i < |wss| && 0 <= j < |wss[i]| ==> Stable(d, wss[i][j])
  {
    var once := ApplyWorkspaces(dec, d, Some(wss));
    var twice := ApplyWorkspaces(dec, d, once);
    forall i | 0 <= i < |wss|
      ensures twice.value[i] == once.value[i] <==> forall j :: 0 <= j < |wss[i]| ==> Stable(d, wss[i][j])
    {
      AllTwiceExactly(dec, d, wss[i]);
    }
    assert twice.value == once.value <==> forall i :: 0 <= i < |wss| ==> twice.value[i] == once.value[i];
  }

  lemma TopAgain(dec: Decodes, d: map<TopBlock, Json>, t: map<TopBlock, Json>)
    ensures var once := MergeTop(dec, d, t); MergeTop(dec, d, once) == once
  {
    var once := MergeTop(dec, d, t);
    forall b | b in once ensures MergeTop(dec, d, once)[b] == once[b] {
      MergeOptionTwice(dec, TopKind(b), Lookup(t, b), Lookup(d, b));
    }
  }

  lemma FillAgain(d: map<TopList, Json>, t: map<TopList, seq<Json>>)
    ensures var once := FillLists(d, t); Unfilled(d, once) == {} && FillLists(d, once) == once
  {
  }

  /**
   * Running the whole fold twice is running it once exactly when every crate is
   * stable; the top-level blocks never stand in the way.
   */
  lemma FoldTwiceExactly(dec: Decodes, s: Settings)
    ensures Fold(dec, Fold(dec, s)) == Fold(dec, s) <==> AllStable(s)
  {
    if s.defaults.Some? {
      var d, once := s.defaults.value, Fold(dec, s);
      AllTwiceExactly(dec, d, s.crates);
      if s.workspaces.Some? { WorkspacesTwiceExactly(dec, d, s.workspaces.value); }
      TopAgain(dec, d.blocks, s.blocks);
      FillAgain(d.fills, s.lists);
      assert once.filled + {} * RECORDED == once.filled;
      FoldAgain(dec, s, once);
    }
  }

  lemma FoldAgain(dec: Decodes, s: Settings, once: Settings)
    requires s.defaults.Some? && once == Fold(dec, s)
    requires MergeTop(dec, s.defaults.value.blocks, once.blocks) == once.blocks
    requires FillLists(s.defaults.value.fills, once.lists) == once.lists
    requires Unfilled(s.defaults.value.fills, once.lists) == {}
    ensures var d := s.defaults.value;
      Fold(dec, once) == once <==>
        ApplyAll(dec, d, once.crates) == once.crates && ApplyWorkspaces(dec, d, once.workspaces) == once.workspaces
  {
    assert once.filled + {} * RECORDED == once.filled;
  }

  const TOP_BLOCKS: seq<TopBlock> := [Source, Notarize, Srpms]

  const TOP_LISTS: seq<TopList> := [Upx, Signs, BinarySigns, Sboms, Makeselfs, InstallScripts, DockerSigns]

  lemma AllTop(b: TopBlock, l: TopList)
    ensures b in TOP_BLOCKS && l in TOP_LISTS
  {
    assert TOP_BLOCKS[0] == Source && TOP_BLOCKS[1] == Notarize && TOP_BLOCKS[2] == Srpms;
    assert TOP_LISTS[0] == Upx && TOP_LISTS[1] == Signs && TOP_LISTS[2] == BinarySigns && TOP_LISTS[3] == Sboms
        && TOP_LISTS[4] == Makeselfs && TOP_LISTS[5] == InstallScripts && TOP_LISTS[6] == DockerSigns;
  }

  class Config {
    var defaults: Option<Defaults>
    var crates: seq<Crate>
    var workspaces: Option<seq<seq<Crate>>>
    var blocks: map<TopBlock, Json>
    var lists: map<TopList, seq<Json>>
    var filled: set<TopList>

    function Value(): Settings
      reads this
    {
      Settings(defaults, crates, workspaces, blocks, lists, filled)
    }

    constructor (s: Settings)
      ensures Value() == s
    {
      defaults, crates, workspaces := s.defaults, s.crates, s.workspaces;
      blocks, lists, filled := s.blocks, s.lists, s.filled;
    }

    method ApplyDefaults(dec: Decodes)
      modifies this
      ensures Value() == Fold(dec, old(Value()))
    {
      if defaults.None? {
        return;
      }
      var d := defaults.value;
      crates := ApplyToCrates(dec, d, crates);
      if workspaces.Some? {
        var wss := ApplyToWorkspaces(dec, d, workspaces.value);
        workspaces := Some(wss);
      }
      ApplyTopLevel(dec, d);
    }

    method ApplyTopLevel(dec: Decodes, d: Defaults)
      modifies this`blocks, this`lists, this`filled
      ensures blocks == MergeTop(dec, d.blocks, old(blocks))
      ensures lists == FillLists(d.fills, old(lists))
      ensures filled == old(filled) + Unfilled(d.fills, old(lists)) * RECORDED
    {
      MergeTopBlocks(dec, d.blocks);
      FillTopLists(d.fills);
    }

    method MergeTopBlocks(dec: Decodes, d: map<TopBlock, Json>)
      modifies this`blocks
      ensures blocks == MergeTop(dec, d, old(blocks))
    {
      var t := blocks;
      var i := 0;
      while i < |TOP_BLOCKS|
        invariant 0 <= i <= |TOP_BLOCKS|
        invariant forall b ::
          Lookup(blocks, b) == if b in TOP_BLOCKS[..i] then Lookup(MergeTop(dec, d, t), b) else Lookup(t, b)
      {
        var b := TOP_BLOCKS[i];
        assert b !in TOP_BLOCKS[..i];
        assert Lookup(blocks, b) == Lookup(t, b);
        var merged := DeepMergeOption(dec, TopKind(b), Lookup(blocks, b), Lookup(d, b));
        if merged.Some? {
          blocks := blocks[b := merged.value];
        }
        assert TOP_BLOCKS[..i + 1] == TOP_BLOCKS[..i] + [b];
        i := i + 1;
      }
      forall b ensures Lookup(blocks, b) == Lookup(MergeTop(dec, d, t), b) {
        AllTop(b, Upx);
        assert TOP_BLOCKS[..i] == TOP_BLOCKS;
      }
      SameMap(blocks, MergeTop(dec, d, t));
    }

    /** Fill each top-level list from its default when it has no entry, and record the signing ones. */
    method FillTopLists(d: map<TopList, Json>)
      modifies this`lists, this`filled
      ensures lists == FillLists(d, old(lists))
      ensures filled == old(filled) + Unfilled(d, old(lists)) * RECORDED
    {
      var t := lists;
      var i := 0;
      while i < |TOP_LISTS|
        invariant 0 <= i <= |TOP_LISTS|
        invariant forall l ::
          Lookup(lists, l) == if l in TOP_LISTS[..i] then Lookup(FillLists(d, t), l) else Lookup(t, l)
        invariant forall l ::
          l in filled <==> l in old(filled) || (l in TOP_LISTS[..i] && l in Unfilled(d, t) * RECORDED)
      {
        var l := TOP_LISTS[i];
        assert l !in TOP_LISTS[..i];
        assert Lookup(lists, l) == Lookup(t, l);
        if l in d && (l !in lists || lists[l] == []) {
          lists := lists[l := [d[l]]];
          if l in RECORDED {
            filled := filled + {l};
          }
        }
        assert TOP_LISTS[..i + 1] == TOP_LISTS[..i] + [l];
        i := i + 1;
      }
      assert TOP_LISTS[..i] == TOP_LISTS;
      forall l ensures l in TOP_LISTS {
        AllTop(Source, l);
      }
      SameMap(lists, FillLists(d, t));
    }
  }

  method ApplyToCrates(dec: Decodes, d: Defaults, cs: seq<Crate>) returns (r: seq<Crate>)
    ensures r == ApplyAll(dec, d, cs)
  {
    r := cs;
    var i := 0;
    while i < |r|
      invariant 0 <= i <= |r| == |cs|
      invariant forall j :: 0 <= j < |cs| ==> r[j] == if j < i then ApplyCrate(dec, d, cs[j]) else cs[j]
    {
      var c := ApplyToCrate(dec, d, r[i]);
      r := r[i := c];
      i := i + 1;
    }
  }

  method ApplyToWorkspaces(dec: Decodes, d: Defaults, wss: seq<seq<Crate>>) returns (r: seq<seq<Crate>>)
    ensures Some(r) == ApplyWorkspaces(dec, d, Some(wss))
  {
    r := wss;
    var i := 0;
    while i < |r|
      invariant 0 <= i <= |r| == |wss|
      invariant forall j :: 0 <= j < |wss| ==> r[j] == if j < i then ApplyAll(dec, d, wss[j]) else wss[j]
    {
      var ws := ApplyToCrates(dec, d, r[i]);
      r := r[i := ws];
      i := i + 1;
    }
    assert r == ApplyWorkspaces(dec, d, Some(wss)).value;
  }
}
