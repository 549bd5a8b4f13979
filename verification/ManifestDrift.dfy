/** Drift between two dist manifests, in terms of the JSON entries themselves. */
module ManifestDrift {
  import opened Prelude
  import opened Text
  import opened Json
  import opened Checksums

  /** The entry records digest `sha`: under `sha256`, else `SHA256`, else `Checksum`, whichever its metadata has first. */
  predicate Records(entry: Json, sha: string) {
    && entry.Object? && "metadata" in entry.fields && entry.fields["metadata"].Object?
    && var m := entry.fields["metadata"];
       || HasText(m, "sha256", sha)
       || ("sha256" !in m.fields && HasText(m, "SHA256", sha))
       || ("sha256" !in m.fields && "SHA256" !in m.fields && HasText(m, "Checksum", sha))
  }

  /** An entry with a path and a digest is told by the two; one without a digest by its whole text. */
  lemma ItemIs(entry: Json, path: string, serialize: Json -> string)
    requires HasText(entry, "path", path)
    ensures forall sha :: Records(entry, sha) ==> ItemOf(entry, serialize) == Ok(Item(path, sha))
    ensures (forall sha :: !Records(entry, sha)) ==> ItemOf(entry, serialize) == Ok(Item(path, serialize(entry)))
  {
    if DigestIn(entry).Some? {
      assert Records(entry, DigestIn(entry).value);
    }
  }

  lemma PathIsNeeded(entry: Json, serialize: Json -> string)
    requires forall path :: !HasText(entry, "path", path)
    ensures ItemOf(entry, serialize) == Err
  {
    if TextField(entry, "path").Some? {
      assert HasText(entry, "path", TextField(entry, "path").value);
    }
  }

  lemma {:induction false} ItemsAre(entries: seq<Json>, serialize: Json -> string)
    requires ItemsOf(entries, serialize).Ok?
    ensures |ItemsOf(entries, serialize).value| == |entries|
    ensures forall i :: 0 <= i < |entries| ==> ItemOf(entries[i], serialize) == Ok(ItemsOf(entries, serialize).value[i])
    decreases |entries|
  {
    if entries != [] {
      var n := |entries| - 1;
      ItemsAre(entries[..n], serialize);
      assert forall i :: 0 <= i < n ==> entries[..n][i] == entries[i];
    }
  }

  /**
   * Two manifests, an entry of one recording a digest for a path under which the
   * other records only different ones: that file's base name drifts.
   */
  lemma DigestChangeDrifts(a: seq<Json>, b: seq<Json>, serialize: Json -> string, j: nat, path: string, sha: string)
    requires ItemsOf(a, serialize).Ok? && ItemsOf(b, serialize).Ok? && j < |a|
    requires PlainPaths(ItemsOf(a, serialize).value) && PlainPaths(ItemsOf(b, serialize).value)
    requires HasText(a[j], "path", path) && Records(a[j], sha)
    requires forall i :: 0 <= i < |b| && HasText(b[i], "path", path) ==> exists other :: other != sha && Records(b[i], other)
    ensures Basename(path) in Drifted(ManifestUnits(ItemsOf(a, serialize).value), ManifestUnits(ItemsOf(b, serialize).value))
    ensures Basename(path) in Drifted(ManifestUnits(ItemsOf(b, serialize).value), ManifestUnits(ItemsOf(a, serialize).value))
  {
    var ia, ib, it := ItemsOf(a, serialize).value, ItemsOf(b, serialize).value, Item(path, sha);
    ItemsAre(a, serialize);
    ItemsAre(b, serialize);
    ItemIs(a[j], path, serialize);
    assert ia[j] == it;
    forall i | 0 <= i < |ib| ensures ib[i] != it {
      if HasText(b[i], "path", path) {
        ItemIs(b[i], path, serialize);
        var other :| other != sha && Records(b[i], other);
        assert ib[i] == Item(path, other);
      } else {
        OtherPath(b[i], path, serialize);
      }
    }
    assert it in ia && it !in ib;
    ManifestDriftIsItemChange(ia, ib, Basename(path));
    ManifestDriftIsItemChange(ib, ia, Basename(path));
  }

  lemma OtherPath(entry: Json, path: string, serialize: Json -> string)
    requires !HasText(entry, "path", path) && ItemOf(entry, serialize).Ok?
    ensures ItemOf(entry, serialize).value.path != path
  {
  }

  /** The same entries in both, in any order: nothing drifts. */
  lemma SameEntriesDoNotDrift(a: seq<Json>, b: seq<Json>, serialize: Json -> string, n: string)
    requires ItemsOf(a, serialize).Ok? && ItemsOf(b, serialize).Ok?
    requires PlainPaths(ItemsOf(a, serialize).value) && PlainPaths(ItemsOf(b, serialize).value)
    requires forall e :: e in a <==> e in b
    ensures n !in Drifted(ManifestUnits(ItemsOf(a, serialize).value), ManifestUnits(ItemsOf(b, serialize).value))
  {
    var ia, ib := ItemsOf(a, serialize).value, ItemsOf(b, serialize).value;
    OneWay(a, b, serialize);
    OneWay(b, a, serialize);
    assert forall it :: it in ia <==> it in ib;
    ManifestDriftIsItemChange(ia, ib, n);
  }

  lemma OneWay(a: seq<Json>, b: seq<Json>, serialize: Json -> string)
    requires ItemsOf(a, serialize).Ok? && ItemsOf(b, serialize).Ok? && forall e :: e in a ==> e in b
    ensures forall it :: it in ItemsOf(a, serialize).value ==> it in ItemsOf(b, serialize).value
  {
    ItemsAre(a, serialize);
    ItemsAre(b, serialize);
    var ia, ib := ItemsOf(a, serialize).value, ItemsOf(b, serialize).value;
    forall it | it in ia ensures it in ib {
      var i :| 0 <= i < |ia| && ia[i] == it;
      assert a[i] in b;
      var k :| 0 <= k < |b| && b[k] == a[i];
      assert ib[k] == it;
    }
  }

  // -------------------------------------------------------------------- the member's name

  predicate NoSeparator(s: string) {
    '/' !in s && '\\' !in s
  }

  lemma {:induction false} AfterSlashIs(dir: string, name: string)
    requires NoSeparator(name) && (dir == "" || dir[|dir| - 1] == '/' || dir[|dir| - 1] == '\\')
    ensures AfterSlash(dir + name) == name
    decreases |name|
  {
    var s := dir + name;
    if name == "" {
      assert s == dir;
    } else {
      assert name[|name| - 1] in name && s[|s| - 1] == name[|name| - 1];
      assert s[..|s| - 1] == dir + name[..|name| - 1];
      AfterSlashIs(dir, name[..|name| - 1]);
      assert name == name[..|name| - 1] + [name[|name| - 1]];
    }
  }

  /** A member is named by the last component of its path. */
  lemma BasenameIs(dir: string, name: string)
    requires NoSeparator(name) && name != "" && (dir == "" || dir[|dir| - 1] == '/' || dir[|dir| - 1] == '\\')
    ensures Basename(dir + name) == name
  {
    AfterSlashIs(dir, name);
  }
}
