/** What the defaults state reaches the crate wherever the crate states nothing. */
module DefaultsArrive {
  import opened Prelude
  import opened Text
  import opened Json
  import opened JsonMerge
  import opened DefaultsMerge
  import opened ApplyDefaults

  // ------------------------------------------------- the blocks and keys, in JSON terms

  /** A block is skipped by `skip: true`, or by a `skip` string that reads true. */
  lemma SkippedExactly(j: Json)
    ensures Skipped(j) <==>
      && j.Object? && "skip" in j.fields
      && (j.fields["skip"] == Bool(true) || (j.fields["skip"].Str? && Lower(Trim(j.fields["skip"].s)) in {"true", "1"}))
  {
  }

  /** An archive is known by its first format. */
  lemma ArchiveKey(j: Json, v: string)
    ensures Identity(ArchiveKind, j) == Some(v) <==>
      && j.Object? && "formats" in j.fields && j.fields["formats"].Array?
      && j.fields["formats"].items != [] && j.fields["formats"].items[0] == Str(v)
  {
  }

  /** An nfpm entry is known by its `id`, else by its `package_name`; a snapcraft by `name`; every other kind by `id`. */
  lemma EntryKeys(j: Json, v: string)
    ensures Identity(ListKind(Nfpms), j) == Some(v) <==>
      HasText(j, "id", v) || (HasText(j, "package_name", v) && !exists w :: HasText(j, "id", w))
    ensures Identity(ListKind(Snapcrafts), j) == Some(v) <==> HasText(j, "name", v)
    ensures forall s: Slot :: s != Nfpms && s != Snapcrafts ==> (Identity(ListKind(s), j) == Some(v) <==> HasText(j, "id", v))
  {
    TextExactly(j, "id", v);
    TextExactly(j, "package_name", v);
    TextExactly(j, "name", v);
    if TextField(j, "id").Some? {
      assert HasText(j, "id", TextField(j, "id").value);
    }
  }

  // ------------------------------------------------------------------------ one block

  /** The promised value decodes as the block's type. */
  ghost predicate Decodable(dec: Decodes, kind: Kind, t: Json, d: Json) {
    forall m :: Promises(m, t, d) ==> dec(kind, m)
  }

  /** The crate says nothing at `p`, and nothing it says stands in the way. */
  predicate Silent(t: Json, p: Path) {
    (ShapeAt(t, p) == Absent && !Blocked(t, p)) || ShapeAt(t, p) == Leaf(Null)
  }

  /** Wherever `t` is silent and the default `d` says something, `r` says what `d` says. */
  ghost predicate Arrives(t: Json, d: Json, r: Json) {
    forall p :: Silent(t, p) && ShapeAt(d, p) != Absent ==> ShapeAt(r, p) == ShapeAt(d, p)
  }

  lemma BlockArrives(dec: Decodes, kind: Kind, t: Json, d: Json)
    requires Decodable(dec, kind, t, d)
    ensures Arrives(t, d, MergeBlock(dec, kind, t, d))
  {
    var m := Merge(t, d);
    forall p ensures ShapeAt(m, p) == Promised(t, d, p) {
      MergeAt(t, d, p);
    }
    BlockKeepsPromise(dec, kind, t, d, m);
  }

  // ------------------------------------------------------------------ optional and listed

  /** An absent block takes the default whole; one that is neither skipped nor undecodable takes what it does not state. */
  ghost predicate OptionArrives(dec: Decodes, kind: Kind, t: Option<Json>, d: Option<Json>, r: Option<Json>) {
    d.Some? ==>
      && r.Some?
      && (t.None? ==> r == d)
      && (t.Some? && !Skipped(t.value) && Decodable(dec, kind, t.value, d.value) ==> Arrives(t.value, d.value, r.value))
  }

  lemma OptionDoesArrive(dec: Decodes, kind: Kind, t: Option<Json>, d: Option<Json>)
    ensures OptionArrives(dec, kind, t, d, MergeOption(dec, kind, t, d))
  {
    if t.Some? && d.Some? && Decodable(dec, kind, t.value, d.value) {
      BlockArrives(dec, kind, t.value, d.value);
    }
  }

  /** Entry `i` is the first with the default's identity. */
  ghost predicate FirstOf(kind: Kind, list: seq<Json>, d: Json, i: nat) {
    && i < |list| && Identity(kind, d).Some? && Identity(kind, list[i]) == Identity(kind, d)
    && forall j :: 0 <= j < i ==> Identity(kind, list[j]) != Identity(kind, d)
  }

  /** The first entry of the default's identity takes what it does not state; without one the default is appended. */
  ghost predicate ListArrives(dec: Decodes, kind: Kind, list: seq<Json>, d: Json, r: seq<Json>) {
    && (forall i: nat :: FirstOf(kind, list, d, i) && !Skipped(list[i]) && Decodable(dec, kind, list[i], d) ==>
          i < |r| && Arrives(list[i], d, r[i]))
    && ((forall i: nat :: !FirstOf(kind, list, d, i)) ==> r == list + [d])
  }

  lemma ListDoesArrive(dec: Decodes, kind: Kind, list: seq<Json>, d: Json)
    ensures ListArrives(dec, kind, list, d, MergeOne(dec, kind, list, d))
  {
    var f := FirstMatch(kind, list, Identity(kind, d));
    forall i: nat | FirstOf(kind, list, d, i) ensures f == i {
      FirstMatchIs(kind, list, Identity(kind, d), i);
    }
    if f < |list| {
      assert FirstOf(kind, list, d, f);
      if Decodable(dec, kind, list[f], d) { BlockArrives(dec, kind, list[f], d); }
    }
  }

  /** An absent or empty list of builds becomes the template; otherwise every build takes what it does not state. */
  ghost predicate BuildsArrive(dec: Decodes, t: Option<seq<Json>>, d: Option<Json>, r: Option<seq<Json>>) {
    d.Some? ==>
      && r.Some?
      && (t.None? || t.value == [] ==> r.value == [d.value])
      && (t.Some? && t.value != [] ==> |r.value| == |t.value| && forall i :: 0 <= i < |t.value| ==>
            Decodable(dec, BuildKind, t.value[i], d.value) ==> Arrives(t.value[i], d.value, r.value[i]))
  }

  lemma BuildsDoArrive(dec: Decodes, t: Option<seq<Json>>, d: Option<Json>)
    ensures BuildsArrive(dec, t, d, MergeBuilds(dec, t, d))
  {
    if d.Some? && t.Some? && t.value != [] {
      forall i | 0 <= i < |t.value| && Decodable(dec, BuildKind, t.value[i], d.value)
        ensures Arrives(t.value[i], d.value, MergeBuilds(dec, t, d).value[i])
      {
        BlockArrives(dec, BuildKind, t.value[i], d.value);
      }
    }
  }

  predicate HooksArrive(d: Option<seq<Json>>, r: Option<seq<Json>>) {
    d.Some? ==> r.Some? && |d.value| <= |r.value| && r.value[|r.value| - |d.value|..] == d.value
  }

  lemma HooksDoArrive(t: Option<seq<Json>>, d: Option<seq<Json>>)
    ensures HooksArrive(d, AppendList(t, d))
  {
  }

  /** Every publisher default arrives, and default hooks run after the crate's own. */
  ghost predicate PublishArrives(dec: Decodes, t: Publish, d: Publish, r: Publish) {
    && (forall p :: p in d.blocks ==>
          OptionArrives(dec, PublisherKind(p), Lookup(t.blocks, p), Lookup(d.blocks, p), Lookup(r.blocks, p)))
    && HooksArrive(d.onError, r.onError) && HooksArrive(d.onRollback, r.onRollback)
  }

  lemma PublishDoesArrive(dec: Decodes, t: Publish, d: Publish)
    ensures PublishArrives(dec, t, d, MergePublish(dec, t, d))
  {
    forall p | p in d.blocks
      ensures OptionArrives(dec, PublisherKind(p), Lookup(t.blocks, p), Lookup(d.blocks, p), Lookup(MergePublish(dec, t, d).blocks, p))
    {
      OptionDoesArrive(dec, PublisherKind(p), Lookup(t.blocks, p), Lookup(d.blocks, p));
    }
    HooksDoArrive(t.onError, d.onError);
    HooksDoArrive(t.onRollback, d.onRollback);
  }

  // ------------------------------------------------------------------------ one crate

  /** Every default is in the folded crate wherever the crate leaves room for it. */
  ghost predicate CrateArrives(dec: Decodes, d: Defaults, c: Crate, r: Crate) {
    && (c.cross.None? ==> r.cross == d.cross)
    && ((c.tagTemplate.None? || c.tagTemplate.value == "") && d.tagTemplate.Some? ==> r.tagTemplate == d.tagTemplate)
    && (c.versionFiles.None? ==> r.versionFiles == d.versionFiles)
    && OptionArrives(dec, ChecksumKind, c.checksum, d.checksum, r.checksum)
    && (c.archives.Configs? && d.archives.Some? ==>
          && r.archives.Configs?
          && ListArrives(dec, ArchiveKind, c.archives.entries, d.archives.value, r.archives.entries))
    && (forall s :: s in d.lists ==>
          && s in r.lists
          && ListArrives(dec, ListKind(s), if s in c.lists then c.lists[s] else [], d.lists[s], r.lists[s]))
    && BuildsArrive(dec, c.builds, d.builds, r.builds)
    && (d.publish.Some? ==>
          && r.publish.Some?
          && PublishArrives(dec, if c.publish.Some? then c.publish.value else NO_PUBLISH, d.publish.value, r.publish.value))
  }

  lemma SlotDoesArrive(dec: Decodes, t: map<Slot, seq<Json>>, d: map<Slot, Json>, s: Slot)
    requires s in d
    ensures s in MergeLists(dec, t, d) && ListArrives(dec, ListKind(s), if s in t then t[s] else [], d[s], MergeLists(dec, t, d)[s])
  {
    ListDoesArrive(dec, ListKind(s), if s in t then t[s] else [], d[s]);
  }

  /** The defaults arrive in every crate. */
  lemma DefaultsDoArrive(dec: Decodes, d: Defaults, c: Crate)
    ensures CrateArrives(dec, d, c, ApplyCrate(dec, d, c))
  {
    OptionDoesArrive(dec, ChecksumKind, c.checksum, d.checksum);
    if c.archives.Configs? && d.archives.Some? {
      ListDoesArrive(dec, ArchiveKind, c.archives.entries, d.archives.value);
    }
    forall s | s in d.lists
      ensures s in MergeLists(dec, c.lists, d.lists) &&
        ListArrives(dec, ListKind(s), if s in c.lists then c.lists[s] else [], d.lists[s], MergeLists(dec, c.lists, d.lists)[s])
    {
      SlotDoesArrive(dec, c.lists, d.lists, s);
    }
    BuildsDoArrive(dec, c.builds, d.builds);
    if d.publish.Some? {
      PublishDoesArrive(dec, if c.publish.Some? then c.publish.value else NO_PUBLISH, d.publish.value);
    }
  }

  // ------------------------------------------------------------------ the whole config

  /** Every crate, every workspace member and every top-level block and list takes its defaults. */
  ghost predicate ConfigArrives(dec: Decodes, s: Settings, r: Settings)
    requires s.defaults.Some?
  {
    var d := s.defaults.value;
    && |r.crates| == |s.crates| && (forall i :: 0 <= i < |s.crates| ==> CrateArrives(dec, d, s.crates[i], r.crates[i]))
    && (s.workspaces.Some? ==>
          && r.workspaces.Some? && |r.workspaces.value| == |s.workspaces.value|
          && forall i :: 0 <= i < |s.workspaces.value| ==>
               && |r.workspaces.value[i]| == |s.workspaces.value[i]|
               && forall j :: 0 <= j < |s.workspaces.value[i]| ==>
                    CrateArrives(dec, d, s.workspaces.value[i][j], r.workspaces.value[i][j]))
    && (forall b :: b in d.blocks ==> OptionArrives(dec, TopKind(b), Lookup(s.blocks, b), Lookup(d.blocks, b), Lookup(r.blocks, b)))
    && (forall l :: l in d.fills ==> l in r.lists && (l !in s.lists || s.lists[l] == [] ==> r.lists[l] == [d.fills[l]]))
    && (forall l :: l in r.filled <==>
          l in s.filled || (l in d.fills && (l !in s.lists || s.lists[l] == []) && (l == Signs || l == BinarySigns || l == DockerSigns)))
  }

  lemma ConfigDoesArrive(dec: Decodes, s: Settings)
    requires s.defaults.Some?
    ensures ConfigArrives(dec, s, Fold(dec, s))
  {
    var d := s.defaults.value;
    forall c ensures CrateArrives(dec, d, c, ApplyCrate(dec, d, c)) {
      DefaultsDoArrive(dec, d, c);
    }
    forall b | b in d.blocks
      ensures OptionArrives(dec, TopKind(b), Lookup(s.blocks, b), Lookup(d.blocks, b), Lookup(MergeTop(dec, d.blocks, s.blocks), b))
    {
      OptionDoesArrive(dec, TopKind(b), Lookup(s.blocks, b), Lookup(d.blocks, b));
    }
  }
}
