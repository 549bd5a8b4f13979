/** Aggregate artifacts read as units, so that a change in a run shows which member drifted. */
module Checksums {
  import opened Prelude
  import opened Text
  import opened Json

  // ----------------------------------------------------------------------- lines

  /** `str::lines`, before the carriage returns are dropped. */
  function Lines(s: string): seq<string> {
    var parts := SplitOn(s, '\n');
    if parts[|parts| - 1] == "" then parts[..|parts| - 1] else parts
  }

  function DropReturns(s: string): string {
    if s != "" && (s[|s| - 1] == '\r' || s[|s| - 1] == '\n') then DropReturns(s[..|s| - 1]) else s
  }

  /** `rsplit("  ").next()`: what follows the last double space. */
  function AfterLast(s: string): string {
    if !Contains(s, "  ") then s
    else if At(s, "  ", 0) && !Contains(s[1..], "  ") then s[2..]
    else AfterLast(s[1..])
  }

  function Member(line: string): string {
    Trim(AfterLast(line))
  }

  type Units = map<string, string>

  /** The units of a listing: each non-blank line and the member it names. */
  function UnitsOf(lines: seq<string>): Result<Units> {
    if lines == [] then Ok(map[]) else
      var init, line := UnitsOf(lines[..|lines| - 1]), DropReturns(lines[|lines| - 1]);
      if init.Err? || Blank(line) then init
      else if Member(line) == "" then Err
      else Ok(init.value[line := Member(line)])
  }

  /** A line with text but no member after its last double space. */
  predicate Nameless(line: string) {
    !Blank(DropReturns(line)) && Member(DropReturns(line)) == ""
  }

  lemma UnitsErrSnoc(lines: seq<string>, line: string)
    ensures UnitsOf(lines + [line]).Err? <==> UnitsOf(lines).Err? || Nameless(line)
  {
    assert (lines + [line])[..|lines|] == lines;
  }

  /** A listing is refused exactly when some line has text but no member. */
  lemma {:induction false} RefusedExactly(lines: seq<string>)
    ensures UnitsOf(lines).Err? <==> exists i :: 0 <= i < |lines| && Nameless(lines[i])
    decreases |lines|
  {
    if lines != [] {
      var n := |lines| - 1;
      RefusedExactly(lines[..n]);
      UnitsErrSnoc(lines[..n], lines[n]);
      assert lines == lines[..n] + [lines[n]];
      assert forall i :: 0 <= i < n ==> lines[..n][i] == lines[i];
    }
  }

  /** A carriage return at the end of a line makes no difference. */
  lemma CrlfIsSame(line: string)
    ensures DropReturns(line + "\r") == DropReturns(line)
  {
    var s := line + "\r";
    assert s[..|s| - 1] == line;
  }

  method MembersByUnit(text: string) returns (r: Result<Units>)
    ensures r == UnitsOf(Lines(text))
  {
    var lines := Lines(text);
    var out: Units := map[];
    var i := 0;
    while i < |lines|
      invariant 0 <= i <= |lines|
      invariant UnitsOf(lines[..i]) == Ok(out)
    {
      var line := DropReturns(lines[i]);
      assert lines[..i + 1][..i] == lines[..i];
      if !Blank(line) {
        var member := Member(line);
        if member == "" {
          ErrSticks(lines, i + 1);
          return Err;
        }
        out := out[line := member];
      }
      i := i + 1;
    }
    assert lines[..i] == lines;
    r := Ok(out);
  }

  lemma {:induction false} ErrSticks(lines: seq<string>, i: nat)
    requires i <= |lines| && UnitsOf(lines[..i]).Err?
    ensures UnitsOf(lines).Err?
    decreases |lines|
  {
    if i < |lines| {
      assert lines[..|lines| - 1][..i] == lines[..i];
      ErrSticks(lines[..|lines| - 1], i);
    } else {
      assert lines[..i] == lines;
    }
  }

  // ------------------------------------------------------------ well-formed listings

  datatype Entry = Entry(digest: string, name: string)

  predicate IsHex(c: char) {
    '0' <= c <= '9' || 'a' <= c <= 'f'
  }

  /** A hex digest, and a name without newline, double space or edge whitespace. */
  predicate WellFormed(e: Entry) {
    && (forall i :: 0 <= i < |e.digest| ==> IsHex(e.digest[i]))
    && e.name != "" && Trimmed(e.name)
    && '\n' !in e.name && !Contains(e.name, "  ")
  }

  function Line(e: Entry): string {
    e.digest + "  " + e.name
  }

  function Format(es: seq<Entry>): string {
    if es == [] then "" else Line(es[0]) + "\n" + Format(es[1..])
  }

  lemma LineHasNoNewline(e: Entry)
    requires WellFormed(e)
    ensures '\n' !in Line(e)
  {
  }

  function LinesOf(es: seq<Entry>): seq<string> {
    seq(|es|, i requires 0 <= i < |es| => Line(es[i]))
  }

  lemma {:induction false} SplitFormat(es: seq<Entry>)
    requires forall i :: 0 <= i < |es| ==> WellFormed(es[i])
    ensures SplitOn(Format(es), '\n') == LinesOf(es) + [""]
    decreases |es|
  {
    if es != [] {
      LineHasNoNewline(es[0]);
      assert Format(es) == Line(es[0]) + ['\n'] + Format(es[1..]);
      SplitFirst(Line(es[0]), '\n', Format(es[1..]));
      SplitFormat(es[1..]);
      assert LinesOf(es) == [Line(es[0])] + LinesOf(es[1..]);
    }
  }

  lemma {:induction false} AfterLastIs(d: string, n: string)
    requires n != "" && n[0] != ' ' && !Contains(n, "  ")
    ensures AfterLast(d + "  " + n) == n
    decreases |d|
  {
    var s := d + "  " + n;
    assert s[|d|..|d| + 2] == "  ";
    assert At(s, "  ", |d|);
    if d == "" {
      assert s[1..] == " " + n;
      forall i | 0 <= i && At(s[1..], "  ", i) ensures i >= 1 && At(n, "  ", i - 1) {
        assert s[1..][i..i + 2][1] == ' ' && (" " + n)[1] == n[0];
        assert n[i - 1..i + 1] == s[1..][i..i + 2];
      }
      assert !Contains(s[1..], "  ");
      assert s[2..] == n;
    } else {
      assert s[1..] == d[1..] + "  " + n;
      assert s[1..][|d| - 1..|d| + 1] == "  ";
      assert At(s[1..], "  ", |d| - 1);
      AfterLastIs(d[1..], n);
    }
  }

  /** A well-formed line is its own unit, and names its entry's member. */
  lemma LineReads(e: Entry)
    requires WellFormed(e)
    ensures DropReturns(Line(e)) == Line(e) && !Blank(Line(e)) && Member(Line(e)) == e.name
  {
    AfterLastIs(e.digest, e.name);
    TrimmedIsFixed(e.name);
    var line := Line(e);
    assert line[|line| - 1] == e.name[|e.name| - 1];
    assert IsWs('\r') && IsWs('\n') && IsWs(' ');
    TrimEndsIn(line);
  }

  lemma {:induction false} TrimEndsIn(s: string)
    requires s != "" && !IsWs(s[|s| - 1])
    ensures Trim(s) != ""
    decreases |s|
  {
    if IsWs(s[0]) {
      assert s[1..][|s[1..]| - 1] == s[|s| - 1];
      TrimEndsIn(s[1..]);
    }
  }

  /** `u` holds one unit per entry, named after the entry's member. */
  ghost predicate ReadsAs(u: Units, es: seq<Entry>) {
    && (forall k :: k in u ==> exists i :: 0 <= i < |es| && k == Line(es[i]))
    && (forall i :: 0 <= i < |es| ==> Line(es[i]) in u && u[Line(es[i])] == es[i].name)
  }

  lemma ReadsAsSnoc(u: Units, init: seq<Entry>, last: Entry)
    requires (forall i :: 0 <= i < |init| ==> WellFormed(init[i])) && WellFormed(last) && ReadsAs(u, init)
    ensures ReadsAs(u[Line(last) := last.name], init + [last])
  {
    var u', es := u[Line(last) := last.name], init + [last];
    forall i | 0 <= i < |es| ensures Line(es[i]) in u' && u'[Line(es[i])] == es[i].name {
      if Line(es[i]) == Line(last) {
        assert WellFormed(es[i]);
        LineReads(es[i]);
        LineReads(last);
      } else {
        assert es[i] == init[i];
      }
    }
    forall k | k in u' ensures exists i :: 0 <= i < |es| && k == Line(es[i]) {
      if k in u {
        var i :| 0 <= i < |init| && k == Line(init[i]);
        assert es[i] == init[i];
      } else {
        assert k == Line(es[|init|]);
      }
    }
  }

  lemma UnitsSnoc(lines: seq<string>, line: string)
    requires UnitsOf(lines).Ok? && DropReturns(line) == line && !Blank(line) && Member(line) != ""
    ensures UnitsOf(lines + [line]) == Ok(UnitsOf(lines).value[line := Member(line)])
  {
    assert (lines + [line])[..|lines|] == lines;
  }

  /** The units of a listing, entry by entry. */
  function Listed(es: seq<Entry>): Units {
    if es == [] then map[] else Listed(es[..|es| - 1])[Line(es[|es| - 1]) := es[|es| - 1].name]
  }

  lemma {:induction false} ListedReadsAs(es: seq<Entry>)
    requires forall i :: 0 <= i < |es| ==> WellFormed(es[i])
    ensures ReadsAs(Listed(es), es)
    decreases |es|
  {
    if es != [] {
      var init, last := es[..|es| - 1], es[|es| - 1];
      ListedReadsAs(init);
      ReadsAsSnoc(Listed(init), init, last);
      assert es == init + [last];
    }
  }

  lemma EntrySnoc(lines: seq<string>, e: Entry)
    requires WellFormed(e) && UnitsOf(lines).Ok?
    ensures UnitsOf(lines + [Line(e)]) == Ok(UnitsOf(lines).value[Line(e) := e.name])
  {
    LineReads(e);
    UnitsSnoc(lines, Line(e));
  }

  lemma {:induction false} UnitsOfFormat(es: seq<Entry>, lines: seq<string>)
    requires forall i :: 0 <= i < |es| ==> WellFormed(es[i])
    requires |lines| == |es| && forall i :: 0 <= i < |es| ==> lines[i] == Line(es[i])
    ensures UnitsOf(lines) == Ok(Listed(es))
    decreases |es|
  {
    if es != [] {
      var n := |es| - 1;
      UnitsOfFormat(es[..n], lines[..n]);
      EntrySnoc(lines[..n], es[n]);
      assert lines == lines[..n] + [lines[n]];
    }
  }

  lemma {:induction false} LinesOfFormat(es: seq<Entry>)
    requires forall i :: 0 <= i < |es| ==> WellFormed(es[i])
    ensures Lines(Format(es)) == LinesOf(es)
  {
    SplitFormat(es);
    assert (LinesOf(es) + [""])[..|es|] == LinesOf(es);
  }

  /** The parser reads a formatted listing back. */
  lemma {:induction false} ParseFormat(es: seq<Entry>)
    requires forall i :: 0 <= i < |es| ==> WellFormed(es[i])
    ensures UnitsOf(Lines(Format(es))).Ok? && ReadsAs(UnitsOf(Lines(Format(es))).value, es)
  {
    LinesOfFormat(es);
    UnitsOfFormat(es, LinesOf(es));
    ListedReadsAs(es);
  }

  // ------------------------------------------------------------------ drift between runs

  /** The members of the units that only one of the runs has. */
  function Drifted(a: Units, b: Units): set<string> {
    (set k | k in a && k !in b :: a[k]) + (set k | k in b && k !in a :: b[k])
  }

  /** The digests a listing records for a name. */
  function DigestsOf(es: seq<Entry>, n: string): set<string> {
    set i | 0 <= i < |es| && es[i].name == n :: es[i].digest
  }

  lemma LineInjective(e: Entry, f: Entry)
    requires WellFormed(e) && WellFormed(f) && Line(e) == Line(f)
    ensures e == f
  {
    LineReads(e);
    LineReads(f);
    assert e.digest == Line(e)[..|Line(e)| - |e.name| - 2];
    assert f.digest == Line(f)[..|Line(f)| - |f.name| - 2];
  }

  lemma InListing(u: Units, es: seq<Entry>, e: Entry)
    requires (forall i :: 0 <= i < |es| ==> WellFormed(es[i])) && ReadsAs(u, es) && WellFormed(e)
    ensures Line(e) in u <==> e.digest in DigestsOf(es, e.name)
    ensures Line(e) in u ==> u[Line(e)] == e.name
  {
    if Line(e) in u {
      var i :| 0 <= i < |es| && Line(e) == Line(es[i]);
      LineInjective(e, es[i]);
      assert es[i].digest in DigestsOf(es, e.name);
    }
    if e.digest in DigestsOf(es, e.name) {
      var i :| 0 <= i < |es| && es[i].name == e.name && es[i].digest == e.digest;
      assert es[i] == e;
    }
  }

  /** A unit on one side only comes from a digest on one side only. */
  lemma OneSided(ua: Units, a: seq<Entry>, ub: Units, b: seq<Entry>, n: string)
    requires (forall i :: 0 <= i < |a| ==> WellFormed(a[i])) && ReadsAs(ua, a)
    requires (forall i :: 0 <= i < |b| ==> WellFormed(b[i])) && ReadsAs(ub, b)
    ensures (exists k :: k in ua && k !in ub && ua[k] == n) <==> !(DigestsOf(a, n) <= DigestsOf(b, n))
  {
    if k :| k in ua && k !in ub && ua[k] == n {
      var i :| 0 <= i < |a| && k == Line(a[i]);
      InListing(ua, a, a[i]);
      InListing(ub, b, a[i]);
      assert a[i].digest in DigestsOf(a, n) && a[i].digest !in DigestsOf(b, n);
    }
    if d :| d in DigestsOf(a, n) && d !in DigestsOf(b, n) {
      var i :| 0 <= i < |a| && a[i].name == n && a[i].digest == d;
      InListing(ua, a, a[i]);
      InListing(ub, b, a[i]);
    }
  }

  /**
   * For any two well-formed listings, the members reported as drifted are exactly
   * the names whose digests differ between the runs.
   */
  lemma {:induction false} DriftIsDigestChange(a: seq<Entry>, b: seq<Entry>, n: string)
    requires forall i :: 0 <= i < |a| ==> WellFormed(a[i])
    requires forall i :: 0 <= i < |b| ==> WellFormed(b[i])
    ensures UnitsOf(Lines(Format(a))).Ok? && UnitsOf(Lines(Format(b))).Ok?
    ensures n in Drifted(UnitsOf(Lines(Format(a))).value, UnitsOf(Lines(Format(b))).value)
        <==> DigestsOf(a, n) != DigestsOf(b, n)
  {
    ParseFormat(a);
    ParseFormat(b);
    var ua, ub := UnitsOf(Lines(Format(a))).value, UnitsOf(Lines(Format(b))).value;
    OneSided(ua, a, ub, b, n);
    OneSided(ub, b, ua, a, n);
  }

  // ------------------------------------------------------------------ the dist manifest

  /** A manifest entry reduced to what makes its unit: its path and its content token. */
  datatype Item = Item(path: string, token: string)

  /** The first of the digest keys the metadata has; one that is no string does not count. */
  function DigestIn(entry: Json): Option<string> {
    if !entry.Object? || "metadata" !in entry.fields || !entry.fields["metadata"].Object? then None else
      var m := entry.fields["metadata"];
      if "sha256" in m.fields then TextField(m, "sha256")
      else if "SHA256" in m.fields then TextField(m, "SHA256")
      else TextField(m, "Checksum")
  }

  /** An entry without a string path is an error; one without a digest is told by its whole text. */
  function ItemOf(entry: Json, serialize: Json -> string): Result<Item> {
    var path := TextField(entry, "path");
    if path.None? then Err
    else Ok(Item(path.value, if DigestIn(entry).Some? then DigestIn(entry).value else serialize(entry)))
  }

  function AfterSlash(s: string): string {
    if s == "" then ""
    else if s[|s| - 1] == '/' || s[|s| - 1] == '\\' then ""
    else AfterSlash(s[..|s| - 1]) + [s[|s| - 1]]
  }

  function Basename(path: string): string {
    if AfterSlash(path) == "" then path else AfterSlash(path)
  }

  function Key(it: Item): string {
    it.path + [UNIT_SEP] + it.token
  }

  function ItemsOf(entries: seq<Json>, serialize: Json -> string): Result<seq<Item>> {
    if entries == [] then Ok([]) else
      var init, last := ItemsOf(entries[..|entries| - 1], serialize), ItemOf(entries[|entries| - 1], serialize);
      if init.Err? || last.Err? then Err else Ok(init.value + [last.value])
  }

  function ManifestUnits(items: seq<Item>): Units {
    if items == [] then map[]
    else ManifestUnits(items[..|items| - 1])[Key(items[|items| - 1]) := Basename(items[|items| - 1].path)]
  }

  lemma ItemsSnoc(entries: seq<Json>, i: nat, serialize: Json -> string, item: Result<Item>)
    requires i < |entries| && ItemsOf(entries[..i], serialize).Ok? && item == ItemOf(entries[i], serialize)
    ensures ItemsOf(entries[..i + 1], serialize) ==
      if item.Err? then Err else Ok(ItemsOf(entries[..i], serialize).value + [item.value])
  {
    assert entries[..i + 1][..i] == entries[..i];
  }

  lemma ManifestUnitsSnoc(items: seq<Item>, it: Item)
    ensures ManifestUnits(items + [it]) == ManifestUnits(items)[Key(it) := Basename(it.path)]
  {
    assert (items + [it])[..|items|] == items;
  }

  method ManifestMembersByUnit(manifest: Json, serialize: Json -> string) returns (r: Result<Units>)
    ensures r == if !manifest.Array? || ItemsOf(manifest.items, serialize).Err? then Err
                 else Ok(ManifestUnits(ItemsOf(manifest.items, serialize).value))
  {
    if !manifest.Array? {
      return Err;
    }
    var entries := manifest.items;
    var out: Units := map[];
    var i := 0;
    while i < |entries|
      invariant 0 <= i <= |entries|
      invariant ItemsOf(entries[..i], serialize).Ok?
      invariant out == ManifestUnits(ItemsOf(entries[..i], serialize).value)
    {
      var it := ItemOf(entries[i], serialize);
      ItemsSnoc(entries, i, serialize, it);
      if it.Err? {
        ItemsErrSticks(entries, i + 1, serialize);
        return Err;
      }
      ManifestUnitsSnoc(ItemsOf(entries[..i], serialize).value, it.value);
      out := out[Key(it.value) := Basename(it.value.path)];
      i := i + 1;
    }
    assert entries[..i] == entries;
    r := Ok(out);
  }

  lemma {:induction false} ItemsErrSticks(entries: seq<Json>, i: nat, serialize: Json -> string)
    requires i <= |entries| && ItemsOf(entries[..i], serialize).Err?
    ensures ItemsOf(entries, serialize).Err?
    decreases |entries|
  {
    if i < |entries| {
      assert entries[..|entries| - 1][..i] == entries[..i];
      ItemsErrSticks(entries[..|entries| - 1], i, serialize);
    } else {
      assert entries[..i] == entries;
    }
  }

  predicate PlainPaths(items: seq<Item>) {
    forall i :: 0 <= i < |items| ==> UNIT_SEP !in items[i].path
  }

  /** The separator cannot occur in a path, so a key tells its path and token apart. */
  lemma KeyInjective(a: Item, b: Item)
    requires UNIT_SEP !in a.path && UNIT_SEP !in b.path && Key(a) == Key(b)
    ensures a == b
  {
    var k := Key(a);
    assert k[|a.path|] == UNIT_SEP && k[|b.path|] == UNIT_SEP;
    assert forall i :: 0 <= i < |a.path| ==> k[i] == a.path[i];
    assert forall i :: 0 <= i < |b.path| ==> k[i] == b.path[i];
    assert |a.path| == |b.path|;
    assert a.path == k[..|a.path|] == b.path;
    assert a.token == k[|a.path| + 1..] == b.token;
  }

  lemma {:induction false} ManifestHas(items: seq<Item>)
    requires PlainPaths(items)
    ensures forall k :: k in ManifestUnits(items) ==> exists i :: 0 <= i < |items| && k == Key(items[i])
    ensures forall i :: 0 <= i < |items| ==>
      Key(items[i]) in ManifestUnits(items) && ManifestUnits(items)[Key(items[i])] == Basename(items[i].path)
    decreases |items|
  {
    if items != [] {
      var init, last := items[..|items| - 1], items[|items| - 1];
      ManifestHas(init);
      var u := ManifestUnits(items);
      forall i | 0 <= i < |items| ensures Key(items[i]) in u && u[Key(items[i])] == Basename(items[i].path) {
        if Key(items[i]) == Key(last) {
          KeyInjective(items[i], last);
        } else {
          assert items[i] == init[i];
        }
      }
      forall k | k in u ensures exists i :: 0 <= i < |items| && k == Key(items[i]) {
        if k in ManifestUnits(init) {
          var i :| 0 <= i < |init| && k == Key(init[i]);
          assert items[i] == init[i];
        } else {
          assert k == Key(items[|items| - 1]);
        }
      }
    }
  }

  lemma InManifest(items: seq<Item>, it: Item)
    requires PlainPaths(items) && UNIT_SEP !in it.path
    ensures Key(it) in ManifestUnits(items) <==> it in items
    ensures it in items ==> ManifestUnits(items)[Key(it)] == Basename(it.path)
  {
    ManifestHas(items);
    if Key(it) in ManifestUnits(items) {
      var j :| 0 <= j < |items| && Key(it) == Key(items[j]);
      KeyInjective(it, items[j]);
    }
  }

  lemma OneSidedItems(a: seq<Item>, b: seq<Item>, n: string)
    requires PlainPaths(a) && PlainPaths(b)
    ensures (exists k :: k in ManifestUnits(a) && k !in ManifestUnits(b) && ManifestUnits(a)[k] == n)
       <==> exists it: Item :: Basename(it.path) == n && it in a && it !in b
  {
    var ua, ub := ManifestUnits(a), ManifestUnits(b);
    if k :| k in ua && k !in ub && ua[k] == n {
      ManifestHas(a);
      var i :| 0 <= i < |a| && k == Key(a[i]);
      InManifest(a, a[i]);
      InManifest(b, a[i]);
    }
    if it: Item :| Basename(it.path) == n && it in a && it !in b {
      var i :| 0 <= i < |a| && a[i] == it;
      InManifest(a, it);
      InManifest(b, it);
    }
  }

  /** A member drifts exactly when some entry of that name is in one run only. */
  lemma ManifestDriftIsItemChange(a: seq<Item>, b: seq<Item>, n: string)
    requires PlainPaths(a) && PlainPaths(b)
    ensures n in Drifted(ManifestUnits(a), ManifestUnits(b)) <==>
      exists it: Item :: Basename(it.path) == n && (it in a) != (it in b)
  {
    OneSidedItems(a, b, n);
    OneSidedItems(b, a, n);
  }
}
