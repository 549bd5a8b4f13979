/** What a crate wrote for itself survives the defaults. */
module DefaultsKeep {
  import opened Prelude
  import opened Json
  import opened JsonMerge
  import opened DefaultsMerge
  import opened ApplyDefaults

  /** A value a crate states: neither an object, nor null, nor missing. */
  predicate Stated(s: Shape) {
    s.Leaf? && !s.v.Null?
  }

  /** Everything `t` states, `r` states at the same path. */
  ghost predicate Extends(t: Json, r: Json) {
    forall p :: Stated(ShapeAt(t, p)) ==> ShapeAt(r, p) == ShapeAt(t, p)
  }

  /** Every entry of `t` is at its own place in `r`, with all it states. */
  ghost predicate ListExtends(t: seq<Json>, r: seq<Json>) {
    |t| <= |r| && forall i :: 0 <= i < |t| ==> Extends(t[i], r[i])
  }

  ghost predicate OptionExtends(t: Option<Json>, r: Option<Json>) {
    t.Some? ==> r.Some? && Extends(t.value, r.value)
  }

  lemma BlockExtends(dec: Decodes, kind: Kind, t: Json, d: Json)
    ensures Extends(t, MergeBlock(dec, kind, t, d))
  {
    forall p | Stated(ShapeAt(t, p)) ensures ShapeAt(MergeBlock(dec, kind, t, d), p) == ShapeAt(t, p) {
      MergeAt(t, d, p);
    }
  }

  lemma OptionKeeps(dec: Decodes, kind: Kind, t: Option<Json>, d: Option<Json>)
    ensures OptionExtends(t, MergeOption(dec, kind, t, d))
    ensures t.Some? && Skipped(t.value) ==> MergeOption(dec, kind, t, d) == t
  {
    if t.Some? && d.Some? {
      BlockExtends(dec, kind, t.value, d.value);
    }
  }

  /** A default entry lands on one entry or at the end; every other entry is untouched. */
  lemma ListKeeps(dec: Decodes, kind: Kind, list: seq<Json>, d: Json)
    ensures var r := MergeOne(dec, kind, list, d);
      && ListExtends(list, r)
      && (exists i :: 0 <= i < |r| && (i < |list| ==> Identity(kind, list[i]) == Identity(kind, d) != None)
            && r[..i] == list[..i] && r[i + 1..] == (if i < |list| then list[i + 1..] else []))
  {
    var r, i := MergeOne(dec, kind, list, d), FirstMatch(kind, list, Identity(kind, d));
    if i < |list| {
      BlockExtends(dec, kind, list[i], d);
    }
    assert r[..i] == list[..i];
  }

  lemma BuildsKeep(dec: Decodes, t: seq<Json>, d: Option<Json>)
    requires t != []
    ensures var r := MergeBuilds(dec, Some(t), d); r.Some? && |r.value| == |t| && ListExtends(t, r.value)
  {
    if d.Some? {
      forall i | 0 <= i < |t| ensures Extends(t[i], MergeBlock(dec, BuildKind, t[i], d.value)) {
        BlockExtends(dec, BuildKind, t[i], d.value);
      }
    }
  }

  lemma SlotKeeps(dec: Decodes, t: map<Slot, seq<Json>>, d: map<Slot, Json>, s: Slot)
    requires s in t
    ensures s in MergeLists(dec, t, d) && ListExtends(t[s], MergeLists(dec, t, d)[s])
  {
    if s in d {
      ListKeeps(dec, ListKind(s), t[s], d[s]);
    }
  }

  ghost predicate PublishExtends(t: Publish, r: Publish) {
    && (forall p :: p in t.blocks ==> p in r.blocks && Extends(t.blocks[p], r.blocks[p]))
    && (t.onError.Some? ==> r.onError.Some? && t.onError.value <= r.onError.value)
    && (t.onRollback.Some? ==> r.onRollback.Some? && t.onRollback.value <= r.onRollback.value)
  }

  lemma PublishKeeps(dec: Decodes, t: Publish, d: Publish)
    ensures PublishExtends(t, MergePublish(dec, t, d))
  {
    forall p | p in t.blocks ensures Extends(t.blocks[p], MergePublish(dec, t, d).blocks[p]) {
      OptionKeeps(dec, PublisherKind(p), Lookup(t.blocks, p), Lookup(d.blocks, p));
    }
  }

  /** Everything a crate states is in the folded crate, where the crate stated it. */
  ghost predicate CrateExtends(c: Crate, r: Crate) {
    && (c.cross.Some? ==> r.cross == c.cross)
    && (c.tagTemplate.Some? && c.tagTemplate.value != "" ==> r.tagTemplate == c.tagTemplate)
    && (c.versionFiles.Some? ==> r.versionFiles == c.versionFiles)
    && OptionExtends(c.checksum, r.checksum)
    && (if c.archives.Disabled? then r.archives.Disabled?
        else r.archives.Configs? && ListExtends(c.archives.entries, r.archives.entries))
    && (forall s :: s in c.lists ==> s in r.lists && ListExtends(c.lists[s], r.lists[s]))
    && (c.builds.Some? && c.builds.value != [] ==>
          r.builds.Some? && |r.builds.value| == |c.builds.value| && ListExtends(c.builds.value, r.builds.value))
    && (c.publish.Some? ==> r.publish.Some? && PublishExtends(c.publish.value, r.publish.value))
  }

  /** The crate wins: no default displaces anything a crate states. */
  lemma CrateWins(dec: Decodes, d: Defaults, c: Crate)
    ensures CrateExtends(c, ApplyCrate(dec, d, c))
  {
    OptionKeeps(dec, ChecksumKind, c.checksum, d.checksum);
    if c.archives.Configs? && d.archives.Some? {
      ListKeeps(dec, ArchiveKind, c.archives.entries, d.archives.value);
    }
    forall s | s in c.lists ensures s in MergeLists(dec, c.lists, d.lists) && ListExtends(c.lists[s], MergeLists(dec, c.lists, d.lists)[s]) {
      SlotKeeps(dec, c.lists, d.lists, s);
    }
    if c.builds.Some? && c.builds.value != [] {
      BuildsKeep(dec, c.builds.value, d.builds);
    }
    if c.publish.Some? && d.publish.Some? {
      PublishKeeps(dec, c.publish.value, d.publish.value);
    }
  }

  /** However often the defaults are folded in, the crate still wins. */
  lemma {:induction false} CrateAlwaysWins(dec: Decodes, d: Defaults, c: Crate, passes: nat)
    ensures CrateExtends(c, Passes(dec, d, c, passes))
  {
    if passes > 0 {
      var before := Passes(dec, d, c, passes - 1);
      CrateAlwaysWins(dec, d, c, passes - 1);
      CrateWins(dec, d, before);
      ExtendsChain(c, before, ApplyCrate(dec, d, before));
    } else {
      assert forall l: seq<Json> :: ListExtends(l, l);
    }
  }

  function Passes(dec: Decodes, d: Defaults, c: Crate, n: nat): Crate {
    if n == 0 then c else ApplyCrate(dec, d, Passes(dec, d, c, n - 1))
  }

  lemma JsonChain(a: Json, b: Json, c: Json)
    requires Extends(a, b) && Extends(b, c)
    ensures Extends(a, c)
  {
    forall p | Stated(ShapeAt(a, p)) ensures ShapeAt(c, p) == ShapeAt(a, p) {
      assert ShapeAt(b, p) == ShapeAt(a, p);
    }
  }

  lemma ListChain(a: seq<Json>, b: seq<Json>, c: seq<Json>)
    requires ListExtends(a, b) && ListExtends(b, c)
    ensures ListExtends(a, c)
  {
    forall i | 0 <= i < |a| ensures Extends(a[i], c[i]) {
      JsonChain(a[i], b[i], c[i]);
    }
  }

  lemma PublishChain(a: Publish, b: Publish, c: Publish)
    requires PublishExtends(a, b) && PublishExtends(b, c)
    ensures PublishExtends(a, c)
  {
    forall p | p in a.blocks ensures p in c.blocks && Extends(a.blocks[p], c.blocks[p]) {
      JsonChain(a.blocks[p], b.blocks[p], c.blocks[p]);
    }
  }

  lemma ExtendsChain(a: Crate, b: Crate, c: Crate)
    requires CrateExtends(a, b) && CrateExtends(b, c)
    ensures CrateExtends(a, c)
  {
    if a.checksum.Some? { JsonChain(a.checksum.value, b.checksum.value, c.checksum.value); }
    if a.archives.Configs? { ListChain(a.archives.entries, b.archives.entries, c.archives.entries); }
    forall s | s in a.lists ensures s in c.lists && ListExtends(a.lists[s], c.lists[s]) {
      ListChain(a.lists[s], b.lists[s], c.lists[s]);
    }
    if a.builds.Some? && a.builds.value != [] { ListChain(a.builds.value, b.builds.value, c.builds.value); }
    if a.publish.Some? { PublishChain(a.publish.value, b.publish.value, c.publish.value); }
  }
}
