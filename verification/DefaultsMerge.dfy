/** Folding the workspace defaults into every crate and into the top-level config. */
module DefaultsMerge {
  import opened Prelude
  import opened Text
  import opened Json
  import opened JsonMerge

  /** The list-valued blocks of a crate that merge by identity key. */
  datatype Slot = Nfpms | Snapcrafts | Dmgs | Pkgs | Msis | Nsis | AppBundles | Flatpaks | DockersV2

  datatype Publisher =
    Homebrew | HomebrewCask | Cargo | Scoop | Winget | Chocolatey | Krew | Nix | Aur | AurSource

  /** Top-level blocks: merged field by field, or filled when empty. */
  datatype TopBlock = Source | Notarize | Srpms
  datatype TopList = Upx | Signs | BinarySigns | DockerSigns | Sboms | Makeselfs | InstallScripts

  /** Which config type a JSON value is decoded as. */
  datatype Kind =
    | ChecksumKind | ArchiveKind | BuildKind
    | ListKind(slot: Slot) | PublisherKind(publisher: Publisher) | TopKind(block: TopBlock)

  /** Whether a JSON value deserialises as a config type; a merge that does not is dropped. */
  type Decodes = (Kind, Json) -> bool

  datatype Archives = Disabled | Configs(entries: seq<Json>)
  datatype Publish = Publish(blocks: map<Publisher, Json>, onError: Option<seq<Json>>, onRollback: Option<seq<Json>>)

  datatype Crate = Crate(
    cross: Option<string>,
    tagTemplate: Option<string>,
    versionFiles: Option<Json>,
    checksum: Option<Json>,
    archives: Archives,
    lists: map<Slot, seq<Json>>,
    builds: Option<seq<Json>>,
    publish: Option<Publish>)

  datatype Defaults = Defaults(
    cross: Option<string>,
    tagTemplate: Option<string>,
    versionFiles: Option<Json>,
    checksum: Option<Json>,
    archives: Option<Json>,
    lists: map<Slot, Json>,
    builds: Option<Json>,
    publish: Option<Publish>,
    blocks: map<TopBlock, Json>,
    fills: map<TopList, Json>)

  // ------------------------------------------------------------------- one block

  /** A block whose `skip` reads true takes nothing from the defaults. */
  predicate Skipped(j: Json) {
    j.Object? && "skip" in j.fields &&
    match j.fields["skip"]
    case Bool(b) => b
    case Str(s) => IsTrueSpelling(s)
    case _ => false
  }

  /** The merged block, or the block as it was when the merged form does not decode. */
  function MergeBlock(dec: Decodes, kind: Kind, t: Json, d: Json): Json {
    if dec(kind, Merge(t, d)) then Merge(t, d) else t
  }

  lemma MergeBlockTwice(dec: Decodes, kind: Kind, t: Json, d: Json)
    ensures MergeBlock(dec, kind, MergeBlock(dec, kind, t, d), d) == MergeBlock(dec, kind, t, d)
    ensures MergeBlock(dec, kind, d, d) == d
  {
    MergeTwice(t, d);
    MergeSelf(d);
  }

  /** A block becomes the promised value when that decodes, and stays as it was when it does not. */
  lemma BlockKeepsPromise(dec: Decodes, kind: Kind, t: Json, d: Json, m: Json)
    requires Promises(m, t, d)
    ensures MergeBlock(dec, kind, t, d) == if dec(kind, m) then m else t
  {
    MergeIsTheOnlyOne(t, d, m);
  }

  method DeepMergeStruct(dec: Decodes, kind: Kind, t: Json, d: Json) returns (r: Json)
    ensures r == MergeBlock(dec, kind, t, d)
    ensures forall m :: Promises(m, t, d) ==> r == if dec(kind, m) then m else t
  {
    forall m | Promises(m, t, d) ensures MergeBlock(dec, kind, t, d) == if dec(kind, m) then m else t {
      BlockKeepsPromise(dec, kind, t, d, m);
    }
    var merged := DeepMergeJson(t, d);
    r := if dec(kind, merged) then merged else t;
  }

  function MergeOption(dec: Decodes, kind: Kind, t: Option<Json>, d: Option<Json>): Option<Json> {
    if d.None? then t
    else if t.None? then d
    else if Skipped(t.value) then t
    else Some(MergeBlock(dec, kind, t.value, d.value))
  }

  lemma MergeOptionTwice(dec: Decodes, kind: Kind, t: Option<Json>, d: Option<Json>)
    ensures var once := MergeOption(dec, kind, t, d); MergeOption(dec, kind, once, d) == once
  {
    if d.Some? {
      MergeBlockTwice(dec, kind, if t.Some? then t.value else d.value, d.value);
    }
  }

  method DeepMergeOption(dec: Decodes, kind: Kind, t: Option<Json>, d: Option<Json>) returns (r: Option<Json>)
    ensures r == MergeOption(dec, kind, t, d)
  {
    if d.None? {
      return t;
    }
    match t {
      case None => r := d;
      case Some(block) =>
        if Skipped(block) {
          return t;
        }
        var merged := DeepMergeStruct(dec, kind, block, d.value);
        r := Some(merged);
    }
  }

  // --------------------------------------------------------- lists by identity key

  /** The identity key of an entry; `None` never matches anything. */
  function Identity(kind: Kind, j: Json): Option<string> {
    match kind
    case ArchiveKind =>
      if j.Object? && "formats" in j.fields && j.fields["formats"].Array?
         && j.fields["formats"].items != [] && j.fields["formats"].items[0].Str?
      then Some(j.fields["formats"].items[0].s) else None
    case ListKind(Nfpms) => if TextField(j, "id").Some? then TextField(j, "id") else TextField(j, "package_name")
    case ListKind(Snapcrafts) => TextField(j, "name")
    case _ => TextField(j, "id")
  }

  lemma MergeText(t: Json, d: Json, key: string)
    requires t.Object? && d.Object?
    ensures TextField(t, key).Some? ==> TextField(Merge(t, d), key) == TextField(t, key)
    ensures TextField(t, key).None? ==> TextField(Merge(t, d), key) in {None, TextField(d, key)}
  {
    var m := Merge(t, d).fields;
    if key in t.fields && key in d.fields && !t.fields[key].Null? {
      assert m[key] == Merge(t.fields[key], d.fields[key]);
    }
  }

  /** A matched merge keeps the entry's identity, whichever field it came from. */
  lemma MergeKeepsIdentity(dec: Decodes, kind: Kind, t: Json, d: Json)
    requires Identity(kind, t).Some? && Identity(kind, t) == Identity(kind, d)
    ensures Identity(kind, MergeBlock(dec, kind, t, d)) == Identity(kind, t)
  {
    MergeText(t, d, "id");
    MergeText(t, d, "name");
    MergeText(t, d, "package_name");
    if kind.ArchiveKind? {
      assert Merge(t, d).fields["formats"] == t.fields["formats"];
    }
  }

  /** Index of the first entry with identity `id`, the list's length when there is none. */
  function FirstMatch(kind: Kind, list: seq<Json>, id: Option<string>): (i: nat)
    ensures i <= |list|
    ensures i < |list| ==> id.Some? && Identity(kind, list[i]) == id
    ensures forall j :: 0 <= j < i ==> id.None? || Identity(kind, list[j]) != id
  {
    if list == [] then 0
    else if id.Some? && Identity(kind, list[0]) == id then 0
    else
      var i := FirstMatch(kind, list[1..], id);
      assert forall j :: 0 < j < 1 + i ==> list[j] == list[1..][j - 1];
      1 + i
  }

  function MergeOne(dec: Decodes, kind: Kind, list: seq<Json>, d: Json): seq<Json> {
    var i := FirstMatch(kind, list, Identity(kind, d));
    if i == |list| then list + [d]
    else if Skipped(list[i]) then list
    else list[i := MergeBlock(dec, kind, list[i], d)]
  }

  method MergeOneIntoList(dec: Decodes, kind: Kind, list: seq<Json>, d: Json) returns (r: seq<Json>)
    ensures r == MergeOne(dec, kind, list, d)
  {
    if list == [] {
      return [d];
    }
    var id := Identity(kind, d);
    var i := 0;
    while i < |list|
      invariant 0 <= i <= |list|
      invariant forall j :: 0 <= j < i ==> id.None? || Identity(kind, list[j]) != id
    {
      if id.Some? && Identity(kind, list[i]) == id {
        FirstMatchIs(kind, list, id, i);
        r := list;
        if !Skipped(list[i]) {
          var merged := DeepMergeStruct(dec, kind, list[i], d);
          r := list[i := merged];
        }
        return;
      }
      i := i + 1;
    }
    FirstMatchIs(kind, list, id, i);
    r := list + [d];
  }

  /** The first match is the only index with its defining property. */
  lemma FirstMatchIs(kind: Kind, list: seq<Json>, id: Option<string>, i: nat)
    requires i <= |list|
    requires i < |list| ==> id.Some? && Identity(kind, list[i]) == id
    requires forall j :: 0 <= j < i ==> id.None? || Identity(kind, list[j]) != id
    ensures FirstMatch(kind, list, id) == i
  {
    var f := FirstMatch(kind, list, id);
    assert f < |list| ==> Identity(kind, list[f]) == id;
  }

  /** A keyed default merged again finds the same entry and leaves it alone. */
  lemma MergeOneKeyed(dec: Decodes, kind: Kind, list: seq<Json>, d: Json)
    requires Identity(kind, d).Some?
    ensures var once := MergeOne(dec, kind, list, d); MergeOne(dec, kind, once, d) == once
  {
    var once := MergeOne(dec, kind, list, d);
    var id := Identity(kind, d);
    var i := FirstMatch(kind, list, id);
    if i == |list| {
      FirstMatchIs(kind, once, id, i);
      MergeBlockTwice(dec, kind, d, d);
    } else {
      if !Skipped(list[i]) {
        MergeKeepsIdentity(dec, kind, list[i], d);
        MergeBlockTwice(dec, kind, list[i], d);
      }
      FirstMatchIs(kind, once, id, i);
    }
  }

  /** An unkeyed default is appended by every pass. */
  lemma MergeOneUnkeyed(dec: Decodes, kind: Kind, list: seq<Json>, d: Json)
    requires Identity(kind, d).None?
    ensures MergeOne(dec, kind, list, d) == list + [d]
  {
    FirstMatchIs(kind, list, None, |list|);
  }

  /** What one further pass does to a list that has had one. */
  lemma MergeOneAgain(dec: Decodes, kind: Kind, list: seq<Json>, d: Json)
    ensures var once := MergeOne(dec, kind, list, d);
      MergeOne(dec, kind, once, d) == once + if Identity(kind, d).Some? then [] else [d]
  {
    if Identity(kind, d).Some? {
      MergeOneKeyed(dec, kind, list, d);
    } else {
      MergeOneUnkeyed(dec, kind, list, d);
      MergeOneUnkeyed(dec, kind, MergeOne(dec, kind, list, d), d);
    }
  }
}
