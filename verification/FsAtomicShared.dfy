/**
 * The exact condition for the crash-safe writer: calls may share a temp name as
 * long as all of them write nothing.
 */
module FsAtomicShared {
  import opened Prelude
  import opened TempNames
  import opened FsAtomic
  import opened FsAtomicSafety

  /** No call targets a temp name, and calls that share a temp name all write nothing. */
  ghost predicate Compatible(ws: seq<Writer>) {
    && (forall i, j :: 0 <= i < |ws| && 0 <= j < |ws| ==> ws[i].target != ws[j].Temp())
    && (forall i, j :: 0 <= i < |ws| && 0 <= j < |ws| && i != j && ws[i].Temp() == ws[j].Temp() ==> ws[i].contents == [])
  }

  /** `e` leads to the whole contents of a call on `n` that renamed; an empty file needs no sync to stay whole. */
  ghost predicate Published(ws: seq<Writer>, s: Sys, n: Name, e: Option<Ino>)
    requires |s.stamps| == |ws|
  {
    && e.Some? && e.value in s.fs.inodes && (s.fs.inodes[e.value].synced || s.fs.inodes[e.value].data == [])
    && exists j :: 0 <= j < |ws| && ws[j].target == n && 0 < s.stamps[j] && s.fs.inodes[e.value].data == ws[j].contents
  }

  ghost predicate NamesWhole(ws: seq<Writer>, base: Fs, s: Sys)
    requires |s.stamps| == |ws|
  {
    forall n, e :: !IsTemp(ws, n) && e in s.fs.MayHold(n) ==> Original(base, s.fs, n, e) || Published(ws, s, n, e)
  }

  /** A file of a call that writes nothing: known under no other name, except empty and published at the target. */
  ghost predicate Fenced(ws: seq<Writer>, s: Sys, i: nat, x: Ino)
    requires |s.stamps| == |ws| && i < |ws|
  {
    forall m :: m != ws[i].Temp() && Some(x) in s.fs.MayHold(m) ==>
      m == ws[i].target && Published(ws, s, m, Some(x)) && s.fs.inodes[x].data == []
  }

  function Handle(pc: Pc): Option<Ino> {
    match pc
    case Writing(h, _) => Some(h)
    case Flushed(h) => Some(h)
    case _ => None
  }

  /** What is known of a call that writes nothing, whoever else uses its temp name. */
  ghost predicate EmptyCallOk(ws: seq<Writer>, s: Sys, i: nat)
    requires |s.pcs| == |s.stamps| == |ws| && i < |ws|
  {
    && (forall x :: Some(x) in s.fs.MayHold(ws[i].Temp()) ==> Fenced(ws, s, i, x))
    && (Handle(s.pcs[i]).Some? ==>
          var h, e := Handle(s.pcs[i]).value, s.fs.Entry(ws[i].Temp());
          && h in s.fs.inodes && s.fs.inodes[h].data == [] && Fenced(ws, s, i, h)
          && (e.Some? && e.value in s.fs.inodes ==> s.fs.inodes[e.value].data == []))
  }

  ghost predicate CallOk(ws: seq<Writer>, s: Sys, i: nat)
    requires |s.pcs| == |s.stamps| == |ws| && i < |ws|
  {
    if ws[i].contents == [] then EmptyCallOk(ws, s, i) else WriterOk(ws[i], s.fs, s.pcs[i])
  }

  ghost predicate SharedInv(ws: seq<Writer>, base: Fs, s: Sys) {
    && |s.pcs| == |s.stamps| == |ws| && 0 < s.clock
    && s.fs.WellFormed()
    && NamesWhole(ws, base, s)
    && forall i :: 0 <= i < |ws| ==> CallOk(ws, s, i)
  }

  // ------------------------------------------------------- changes confined to one temp name

  /** Files `hs` and the temp entry of call `i` change; what other names see of `hs` was and stays empty. */
  ghost predicate Confined(ws: seq<Writer>, s: Sys, s': Sys, i: nat, hs: set<Ino>)
    requires |s.stamps| == |ws| && i < |ws|
  {
    var t := ws[i].Temp();
    && |s'.pcs| == |ws| && |s.pcs| == |ws| && s'.stamps == s.stamps && s'.clock == s.clock
    && (forall j :: 0 <= j < |ws| && j != i ==> s'.pcs[j] == s.pcs[j])
    && (forall n :: n != t ==> s'.fs.MayHold(n) == s.fs.MayHold(n) && s'.fs.Entry(n) == s.fs.Entry(n))
    && (forall x :: x in s'.fs.inodes <==> x in s.fs.inodes || x in hs)
    && (forall x :: x in s.fs.inodes && x !in hs ==> s'.fs.inodes[x] == s.fs.inodes[x])
    && (forall x :: Some(x) in s'.fs.MayHold(t) ==> Some(x) in s.fs.MayHold(t) || x !in s.fs.inodes)
    && (s'.fs.Entry(t).Some? ==> s'.fs.Entry(t) == s.fs.Entry(t) || s'.fs.Entry(t).value in hs)
    && (forall x :: x in hs ==> Fenced(ws, s, i, x))
    && (ws[i].contents == [] ==> forall x :: x in hs ==> s'.fs.inodes[x].data == [])
    && (ws[i].contents != [] ==> forall x :: x in hs ==> Some(x) in s.fs.MayHold(t) || x !in s.fs.inodes)
    && (ws[i].contents != [] ==> forall x, n :: x in hs && n != t ==> Some(x) !in s.fs.MayHold(n))
  }

  lemma PublishedStays(ws: seq<Writer>, s: Sys, s': Sys, i: nat, hs: set<Ino>, n: Name, e: Option<Ino>)
    requires |s.stamps| == |ws| && i < |ws| && Confined(ws, s, s', i, hs)
    requires Published(ws, s, n, e) && (e.value in hs ==> ws[i].contents == [] && s.fs.inodes[e.value].data == [])
    ensures Published(ws, s', n, e) && s'.fs.inodes[e.value].data == s.fs.inodes[e.value].data
  {
  }

  lemma FencedStays(ws: seq<Writer>, s: Sys, s': Sys, i: nat, hs: set<Ino>, j: nat, x: Ino)
    requires |s.stamps| == |ws| && i < |ws| && j < |ws| && Confined(ws, s, s', i, hs) && s.fs.WellFormed()
    requires Fenced(ws, s, j, x) && x in s.fs.inodes
    requires forall k, l :: 0 <= k < |ws| && 0 <= l < |ws| ==> ws[k].target != ws[l].Temp()
    ensures Fenced(ws, s', j, x)
  {
    forall m | m != ws[j].Temp() && Some(x) in s'.fs.MayHold(m)
      ensures m == ws[j].target && Published(ws, s', m, Some(x)) && s'.fs.inodes[x].data == []
    {
      assert Some(x) in s.fs.MayHold(m);
      assert m == ws[j].target && Published(ws, s, m, Some(x)) && s.fs.inodes[x].data == [];
      if x in hs {
        assert m != ws[i].Temp();
        assert ws[i].contents == [];
      }
      PublishedStays(ws, s, s', i, hs, m, Some(x));
    }
  }

  lemma NamesStay(ws: seq<Writer>, base: Fs, s: Sys, s': Sys, i: nat, hs: set<Ino>)
    requires |s.stamps| == |ws| && i < |ws| && Confined(ws, s, s', i, hs) && NamesWhole(ws, base, s)
    ensures NamesWhole(ws, base, s')
  {
    forall n, e | !IsTemp(ws, n) && e in s'.fs.MayHold(n) ensures Original(base, s'.fs, n, e) || Published(ws, s', n, e) {
      assert n != ws[i].Temp() && e in s.fs.MayHold(n);
      if e.Some? && e.value in hs {
        assert Fenced(ws, s, i, e.value);
        PublishedStays(ws, s, s', i, hs, n, e);
      } else if Published(ws, s, n, e) {
        PublishedStays(ws, s, s', i, hs, n, e);
      }
    }
  }

  /** The changed files are under no name that is neither the call's temp name nor a target. */
  lemma ElsewhereUntouched(ws: seq<Writer>, s: Sys, s': Sys, i: nat, hs: set<Ino>, t: Name)
    requires |s.stamps| == |ws| && i < |ws| && Confined(ws, s, s', i, hs) && t != ws[i].Temp() && t != ws[i].target
    ensures forall x :: x in hs ==> Some(x) !in s.fs.MayHold(t)
  {
    forall x | x in hs ensures Some(x) !in s.fs.MayHold(t) {
      assert Fenced(ws, s, i, x);
    }
  }

  lemma StrictCallStays(ws: seq<Writer>, s: Sys, s': Sys, i: nat, hs: set<Ino>, j: nat)
    requires Compatible(ws) && |s.stamps| == |ws| && i < |ws| && j < |ws| && j != i && Confined(ws, s, s', i, hs)
    requires s.fs.WellFormed() && ws[j].contents != [] && WriterOk(ws[j], s.fs, s.pcs[j])
    ensures WriterOk(ws[j], s'.fs, s'.pcs[j])
  {
    var t := ws[j].Temp();
    assert t != ws[i].Temp() && t != ws[i].target;
    assert s.fs.Entry(t) in s.fs.MayHold(t);
    ElsewhereUntouched(ws, s, s', i, hs, t);
  }

  /** A call with something to write does not touch the file another call holds. */
  lemma HandleUntouched(ws: seq<Writer>, s: Sys, s': Sys, i: nat, hs: set<Ino>, j: nat, h: Ino)
    requires Compatible(ws) && |s.stamps| == |ws| && i < |ws| && j < |ws| && j != i && Confined(ws, s, s', i, hs)
    requires ws[i].contents != [] && h in s.fs.inodes && Fenced(ws, s, j, h)
    ensures h !in hs
  {
  }

  lemma EmptyCallStays(ws: seq<Writer>, s: Sys, s': Sys, i: nat, hs: set<Ino>, j: nat)
    requires Compatible(ws) && |s.stamps| == |ws| && i < |ws| && j < |ws| && j != i && Confined(ws, s, s', i, hs)
    requires s.fs.WellFormed() && s'.fs.WellFormed() && ws[j].contents == [] && EmptyCallOk(ws, s, j)
    requires ws[i].contents == [] ==> EmptyCallOk(ws, s', i)
    ensures EmptyCallOk(ws, s', j)
  {
    var t := ws[j].Temp();
    forall x | Some(x) in s'.fs.MayHold(t) ensures Fenced(ws, s', j, x) {
      if x in s.fs.inodes {
        assert Some(x) in s.fs.MayHold(t);
        FencedStays(ws, s, s', i, hs, j, x);
      } else {
        assert t == ws[i].Temp();
        FreshIsFenced(ws, s, s', i, hs, j, x);
      }
    }
    if Handle(s.pcs[j]).Some? {
      var h, e := Handle(s.pcs[j]).value, s'.fs.Entry(t);
      FencedStays(ws, s, s', i, hs, j, h);
      if ws[i].contents != [] { HandleUntouched(ws, s, s', i, hs, j, h); }
      assert s'.fs.inodes[h].data == [];
      assert s.fs.Entry(t) in s.fs.MayHold(t);
      if t != ws[i].Temp() { ElsewhereUntouched(ws, s, s', i, hs, t); }
    }
  }

  lemma FreshIsFenced(ws: seq<Writer>, s: Sys, s': Sys, i: nat, hs: set<Ino>, j: nat, x: Ino)
    requires |s.stamps| == |ws| && i < |ws| && j < |ws| && Confined(ws, s, s', i, hs) && s.fs.WellFormed()
    requires ws[j].Temp() == ws[i].Temp() && x !in s.fs.inodes
    ensures Fenced(ws, s', j, x)
  {
    assert forall m :: Some(x) !in s.fs.MayHold(m);
  }

  lemma ConfinedKeeps(ws: seq<Writer>, base: Fs, s: Sys, s': Sys, i: nat, hs: set<Ino>)
    requires Compatible(ws) && SharedInv(ws, base, s) && i < |ws| && Confined(ws, s, s', i, hs)
    requires s'.fs.WellFormed() && CallOk(ws, s', i)
    ensures SharedInv(ws, base, s')
  {
    NamesStay(ws, base, s, s', i, hs);
    forall j | 0 <= j < |ws| ensures CallOk(ws, s', j) {
      assert CallOk(ws, s, j);
      if j != i && ws[j].contents == [] {
        EmptyCallStays(ws, s, s', i, hs, j);
      } else if j != i {
        StrictCallStays(ws, s, s', i, hs, j);
      }
    }
  }

  // --------------------------------------------------------------------- the steps

  lemma QuietKeeps(ws: seq<Writer>, base: Fs, s: Sys, i: nat, a: Action)
    requires Compatible(ws) && SharedInv(ws, base, s) && Possible(ws, s, Act(i, a))
    requires a in {CreateFail, WriteFail, SyncFail, RenameFail, CleanupFail, DirSyncFail}
    ensures SharedInv(ws, base, Step(ws, s, Act(i, a)))
  {
    var s' := Step(ws, s, Act(i, a));
    assert CallOk(ws, s, i);
    forall x | Fenced(ws, s, i, x) ensures Fenced(ws, s', i, x) {
      assert forall m, e :: Published(ws, s, m, e) ==> Published(ws, s', m, e);
    }
    ConfinedKeeps(ws, base, s, s', i, {});
  }

  /** The files of the call's own temp name stay fenced. */
  lemma OwnStaysFenced(ws: seq<Writer>, s: Sys, s': Sys, i: nat, hs: set<Ino>)
    requires Compatible(ws) && |s.stamps| == |ws| && i < |ws| && Confined(ws, s, s', i, hs) && s.fs.WellFormed()
    requires forall x :: Some(x) in s.fs.MayHold(ws[i].Temp()) ==> Fenced(ws, s, i, x)
    ensures forall x :: Some(x) in s'.fs.MayHold(ws[i].Temp()) ==> Fenced(ws, s', i, x)
  {
    forall x | Some(x) in s'.fs.MayHold(ws[i].Temp()) ensures Fenced(ws, s', i, x) {
      if x in s.fs.inodes {
        FencedStays(ws, s, s', i, hs, i, x);
      } else {
        FreshIsFenced(ws, s, s', i, hs, i, x);
      }
    }
  }

  lemma CleanupKeeps(ws: seq<Writer>, base: Fs, s: Sys, i: nat)
    requires Compatible(ws) && SharedInv(ws, base, s) && Possible(ws, s, Act(i, CleanupOk))
    ensures SharedInv(ws, base, Step(ws, s, Act(i, CleanupOk)))
  {
    var s' := Step(ws, s, Act(i, CleanupOk));
    assert CallOk(ws, s, i);
    RemoveFacts(s.fs, ws[i].Temp());
    assert Confined(ws, s, s', i, {});
    if ws[i].contents == [] { OwnStaysFenced(ws, s, s', i, {}); }
    ConfinedKeeps(ws, base, s, s', i, {});
  }

  lemma RemoveFacts(fs: Fs, t: Name)
    requires fs.WellFormed()
    ensures var fs' := fs.Remove(t);
      && fs'.WellFormed() && fs'.inodes == fs.inodes && fs'.Entry(t) == None
      && (forall n :: n != t ==> fs'.MayHold(n) == fs.MayHold(n) && fs'.Entry(n) == fs.Entry(n))
      && fs'.MayHold(t) <= fs.MayHold(t) + {None}
  {
    var fs' := fs.Remove(t);
    assert forall m :: fs.Entry(m) in fs.MayHold(m);
    assert forall m :: m != t ==> fs'.MayHold(m) == fs.MayHold(m) && fs'.Entry(m) == fs.Entry(m);
    assert fs'.MayHold(t) <= fs.MayHold(t) + {None};
  }

  lemma CreateFacts(fs: Fs, t: Name) returns (h: Ino)
    requires fs.WellFormed()
    ensures h == (if t in fs.dir then fs.dir[t] else fs.next)
    ensures var fs' := fs.Create(t);
      && fs'.WellFormed() && fs'.Entry(t) == Some(h) && fs'.inodes == fs.inodes[h := Inode([], false)]
      && (forall n :: n != t ==> fs'.MayHold(n) == fs.MayHold(n) && fs'.Entry(n) == fs.Entry(n))
      && fs'.MayHold(t) <= fs.MayHold(t) + {Some(h)}
    ensures Some(h) in fs.MayHold(t) || (h !in fs.inodes && forall n :: Some(h) !in fs.MayHold(n))
  {
    h := if t in fs.dir then fs.dir[t] else fs.next;
    var fs' := fs.Create(t);
    assert forall m :: fs.Entry(m) in fs.MayHold(m);
    assert forall m :: m != t ==> fs'.MayHold(m) == fs.MayHold(m) && fs'.Entry(m) == fs.Entry(m);
    assert fs'.MayHold(t) == fs.MayHold(t) + {fs'.Entry(t)};
    assert t !in fs.dir ==> forall m :: Some(fs.next) !in fs.MayHold(m);
  }

  lemma CreateKeeps(ws: seq<Writer>, base: Fs, s: Sys, i: nat)
    requires Compatible(ws) && SharedInv(ws, base, s) && Possible(ws, s, Act(i, CreateOk))
    ensures SharedInv(ws, base, Step(ws, s, Act(i, CreateOk)))
  {
    var s' := Step(ws, s, Act(i, CreateOk));
    var h := CreateFacts(s.fs, ws[i].Temp());
    assert CallOk(ws, s, i);
    assert Fenced(ws, s, i, h);
    assert Confined(ws, s, s', i, {h});
    CreatedCall(ws, s, s', i, h);
    ConfinedKeeps(ws, base, s, s', i, {h});
  }

  lemma CreatedCall(ws: seq<Writer>, s: Sys, s': Sys, i: nat, h: Ino)
    requires Compatible(ws) && |s.pcs| == |s.stamps| == |ws| && i < |ws| && s.fs.WellFormed() && Confined(ws, s, s', i, {h})
    requires s.pcs[i] == Start && CallOk(ws, s, i) && s'.pcs[i] == Writing(h, 0)
    requires s'.fs.Entry(ws[i].Temp()) == Some(h) && h in s'.fs.inodes && s'.fs.inodes[h].data == []
    requires Some(h) in s'.fs.MayHold(ws[i].Temp()) && (Some(h) in s.fs.MayHold(ws[i].Temp()) || forall n :: Some(h) !in s.fs.MayHold(n))
    ensures CallOk(ws, s', i)
  {
    if ws[i].contents == [] { OwnStaysFenced(ws, s, s', i, {h}); }
  }

  /** Changing one file's body changes no entry. */
  lemma BodyFacts(fs: Fs, h: Ino, body: Inode)
    requires fs.WellFormed() && h in fs.inodes
    ensures var fs' := fs.(inodes := fs.inodes[h := body]);
      fs'.WellFormed() && forall n :: fs'.MayHold(n) == fs.MayHold(n) && fs'.Entry(n) == fs.Entry(n)
  {
    var fs' := fs.(inodes := fs.inodes[h := body]);
    assert forall n :: fs'.MayHold(n) == fs.MayHold(n) && fs'.Entry(n) == fs.Entry(n);
  }

  lemma WriteKeeps(ws: seq<Writer>, base: Fs, s: Sys, i: nat, m: nat)
    requires Compatible(ws) && SharedInv(ws, base, s) && Possible(ws, s, Act(i, WriteChunk(m)))
    ensures SharedInv(ws, base, Step(ws, s, Act(i, WriteChunk(m))))
  {
    var s' := Step(ws, s, Act(i, WriteChunk(m)));
    assert CallOk(ws, s, i) && ws[i].contents != [];
    var Writing(h, k) := s.pcs[i];
    var c := ws[i].contents;
    BodyFacts(s.fs, h, s'.fs.inodes[h]);
    assert s.fs.Entry(ws[i].Temp()) in s.fs.MayHold(ws[i].Temp());
    assert Splice(c[..k], k, c[k..k + m]) == c[..k + m];
    assert Confined(ws, s, s', i, {h});
    ConfinedKeeps(ws, base, s, s', i, {h});
  }

  lemma SyncKeeps(ws: seq<Writer>, base: Fs, s: Sys, i: nat)
    requires Compatible(ws) && SharedInv(ws, base, s) && Possible(ws, s, Act(i, SyncOk))
    ensures SharedInv(ws, base, Step(ws, s, Act(i, SyncOk)))
  {
    var s' := Step(ws, s, Act(i, SyncOk));
    assert CallOk(ws, s, i);
    var h := s.pcs[i].h;
    BodyFacts(s.fs, h, s'.fs.inodes[h]);
    assert s.fs.Entry(ws[i].Temp()) in s.fs.MayHold(ws[i].Temp());
    assert Confined(ws, s, s', i, {h});
    SyncedCall(ws, s, s', i, h);
    ConfinedKeeps(ws, base, s, s', i, {h});
  }

  lemma SyncedCall(ws: seq<Writer>, s: Sys, s': Sys, i: nat, h: Ino)
    requires Compatible(ws) && |s.pcs| == |s.stamps| == |ws| && i < |ws| && s.fs.WellFormed() && Confined(ws, s, s', i, {h})
    requires s.pcs[i] == Writing(h, |ws[i].contents|) && h in s.fs.inodes && CallOk(ws, s, i) && s'.pcs[i] == Flushed(h)
    requires s'.fs == s.fs.(inodes := s.fs.inodes[h := s.fs.inodes[h].(synced := true)])
    requires forall n :: s'.fs.MayHold(n) == s.fs.MayHold(n) && s'.fs.Entry(n) == s.fs.Entry(n)
    ensures CallOk(ws, s', i)
  {
    if ws[i].contents == [] {
      FencedStays(ws, s, s', i, {h}, i, h);
      OwnStaysFenced(ws, s, s', i, {h});
    } else {
      assert ws[i].contents[..|ws[i].contents|] == ws[i].contents;
    }
  }

  // -------------------------------------------------------------------- the rename

  lemma SameTempSameTarget(a: Writer, b: Writer)
    requires a.Temp() == b.Temp()
    ensures a.target == b.target
  {
    TempNameInjective(a.target, a.pid, a.nanos, b.target, b.pid, b.nanos);
  }

  /** The file a rename moves: whole, and under no name but the temp name and perhaps, empty, the target. */
  lemma RenamedFile(ws: seq<Writer>, base: Fs, s: Sys, i: nat) returns (x: Ino)
    requires Compatible(ws) && SharedInv(ws, base, s) && Possible(ws, s, Act(i, RenameOk))
    ensures s.fs.Entry(ws[i].Temp()) == Some(x) && Some(x) in s.fs.MayHold(ws[i].Temp()) && x in s.fs.inodes
    ensures s.fs.inodes[x].data == ws[i].contents && (s.fs.inodes[x].synced || s.fs.inodes[x].data == [])
    ensures Published(ws, Step(ws, s, Act(i, RenameOk)), ws[i].target, Some(x))
    ensures forall n, e :: Published(ws, s, n, e) ==> Published(ws, Step(ws, s, Act(i, RenameOk)), n, e)
  {
    assert CallOk(ws, s, i);
    x := s.fs.dir[ws[i].Temp()];
    assert s.fs.Entry(ws[i].Temp()) in s.fs.MayHold(ws[i].Temp());
    RenameFacts(s.fs, ws[i].Temp(), ws[i].target);
    var s' := Step(ws, s, Act(i, RenameOk));
    assert 0 < s'.stamps[i] && s'.fs.inodes == s.fs.inodes;
    assert forall j :: 0 <= j < |ws| && 0 < s.stamps[j] ==> 0 < s'.stamps[j];
  }

  /** A fenced file under a temp name is under its own call's. */
  lemma FencedName(ws: seq<Writer>, s: Sys, i: nat, j: nat, x: Ino)
    requires Compatible(ws) && |s.stamps| == |ws| && i < |ws| && j < |ws|
    requires Fenced(ws, s, j, x) && Some(x) in s.fs.MayHold(ws[i].Temp())
    ensures ws[i].Temp() == ws[j].Temp()
  {
  }

  lemma RenameFenced(ws: seq<Writer>, base: Fs, s: Sys, i: nat, j: nat, x: Ino, y: Ino)
    requires Compatible(ws) && SharedInv(ws, base, s) && Possible(ws, s, Act(i, RenameOk)) && j < |ws|
    requires s.fs.Entry(ws[i].Temp()) == Some(x) && Some(x) in s.fs.MayHold(ws[i].Temp())
    requires Published(ws, Step(ws, s, Act(i, RenameOk)), ws[i].target, Some(x))
    requires forall n, e :: Published(ws, s, n, e) ==> Published(ws, Step(ws, s, Act(i, RenameOk)), n, e)
    requires Fenced(ws, s, j, y) && y in s.fs.inodes && (y == x ==> s.fs.inodes[x].data == [])
    ensures Fenced(ws, Step(ws, s, Act(i, RenameOk)), j, y)
  {
    var s' := Step(ws, s, Act(i, RenameOk));
    RenameFacts(s.fs, ws[i].Temp(), ws[i].target);
    forall m | m != ws[j].Temp() && Some(y) in s'.fs.MayHold(m)
      ensures m == ws[j].target && Published(ws, s', m, Some(y)) && s'.fs.inodes[y].data == []
    {
      if Some(y) !in s.fs.MayHold(m) {
        assert m == ws[i].target && y == x;
        FencedName(ws, s, i, j, x);
        SameTempSameTarget(ws[i], ws[j]);
      }
    }
  }

  lemma RenameCall(ws: seq<Writer>, base: Fs, s: Sys, i: nat, j: nat)
    requires Compatible(ws) && SharedInv(ws, base, s) && Possible(ws, s, Act(i, RenameOk)) && j < |ws|
    ensures CallOk(ws, Step(ws, s, Act(i, RenameOk)), j)
  {
    var s' := Step(ws, s, Act(i, RenameOk));
    var x := RenamedFile(ws, base, s, i);
    RenameFacts(s.fs, ws[i].Temp(), ws[i].target);
    assert CallOk(ws, s, j);
    var t := ws[j].Temp();
    assert t != ws[i].target;
    if ws[j].contents == [] {
      forall y | Some(y) in s'.fs.MayHold(t) ensures Fenced(ws, s', j, y) {
        assert Some(y) in s.fs.MayHold(t);
        SharedFileIsEmpty(ws, base, s, i, j, x, y);
        RenameFenced(ws, base, s, i, j, x, y);
      }
      if Handle(s'.pcs[j]).Some? {
        var h := Handle(s.pcs[j]).value;
        RenameFenced(ws, base, s, i, j, x, h);
        assert s.fs.Entry(t) in s.fs.MayHold(t);
      }
    } else if j != i {
      StrictRename(ws, s, i, j, x);
    }
  }

  lemma SharedFileIsEmpty(ws: seq<Writer>, base: Fs, s: Sys, i: nat, j: nat, x: Ino, y: Ino)
    requires Compatible(ws) && SharedInv(ws, base, s) && i < |ws| && j < |ws|
    requires ws[j].contents == [] && Some(y) in s.fs.MayHold(ws[j].Temp()) && Some(x) in s.fs.MayHold(ws[i].Temp())
    requires x in s.fs.inodes && s.fs.inodes[x].data == ws[i].contents
    ensures Fenced(ws, s, j, y) && y in s.fs.inodes && (y == x ==> s.fs.inodes[x].data == [])
  {
    assert CallOk(ws, s, j);
    if y == x { FencedName(ws, s, i, j, x); }
  }

  lemma StrictRename(ws: seq<Writer>, s: Sys, i: nat, j: nat, x: Ino)
    requires Compatible(ws) && |s.pcs| == |s.stamps| == |ws| && s.fs.WellFormed() && Possible(ws, s, Act(i, RenameOk)) && j < |ws| && j != i
    requires s.fs.Entry(ws[i].Temp()) == Some(x) && Some(x) in s.fs.MayHold(ws[i].Temp())
    requires ws[j].contents != [] && WriterOk(ws[j], s.fs, s.pcs[j])
    ensures WriterOk(ws[j], Step(ws, s, Act(i, RenameOk)).fs, s.pcs[j])
  {
    var t := ws[j].Temp();
    RenameFacts(s.fs, ws[i].Temp(), ws[i].target);
    assert t != ws[i].Temp() && t != ws[i].target;
    if s.fs.Exclusive(t) {
      assert Some(x) !in s.fs.MayHold(t);
    }
  }

  lemma RenameKeeps(ws: seq<Writer>, base: Fs, s: Sys, i: nat)
    requires Compatible(ws) && SharedInv(ws, base, s) && Possible(ws, s, Act(i, RenameOk))
    ensures SharedInv(ws, base, Step(ws, s, Act(i, RenameOk)))
  {
    var s' := Step(ws, s, Act(i, RenameOk));
    var x := RenamedFile(ws, base, s, i);
    RenameFacts(s.fs, ws[i].Temp(), ws[i].target);
    forall n, e | !IsTemp(ws, n) && e in s'.fs.MayHold(n) ensures Original(base, s'.fs, n, e) || Published(ws, s', n, e) {
      assert n != ws[i].Temp();
      if e in s.fs.MayHold(n) {
        assert Original(base, s.fs, n, e) || Published(ws, s, n, e);
      }
    }
    forall j | 0 <= j < |ws| ensures CallOk(ws, s', j) {
      RenameCall(ws, base, s, i, j);
    }
  }

  // ---------------------------------------------------------------- shrinking entries

  /** `s'` may hold no more than `s` may, its files are no less whole, and calls stand where they stood or are lost. */
  ghost predicate Settles(ws: seq<Writer>, s: Sys, s': Sys) {
    && |s.pcs| == |s.stamps| == |ws| && |s'.pcs| == |ws| && s'.stamps == s.stamps && s'.clock == s.clock
    && (forall n :: s'.fs.MayHold(n) <= s.fs.MayHold(n))
    && s'.fs.inodes.Keys == s.fs.inodes.Keys
    && (forall x :: x in s.fs.inodes && s.fs.inodes[x].synced ==> s'.fs.inodes[x] == s.fs.inodes[x])
    && (forall x :: x in s.fs.inodes && s.fs.inodes[x].data == [] ==> s'.fs.inodes[x].data == [])
    && (forall i :: 0 <= i < |ws| ==> Handle(s'.pcs[i]).None? || (s'.pcs[i] == s.pcs[i] && s'.fs.inodes == s.fs.inodes && s'.fs.dir == s.fs.dir))
    && (forall i :: 0 <= i < |ws| ==> s'.pcs[i].Start? ==> s.pcs[i].Start?)
  }

  lemma SettledKeeps(ws: seq<Writer>, base: Fs, s: Sys, s': Sys)
    requires base.AtRest(ws) && SharedInv(ws, base, s) && Settles(ws, s, s') && s'.fs.WellFormed()
    ensures SharedInv(ws, base, s')
  {
    assert forall n, e :: Published(ws, s, n, e) ==> Published(ws, s', n, e);
    forall n, e | !IsTemp(ws, n) && e in s'.fs.MayHold(n) ensures Original(base, s'.fs, n, e) || Published(ws, s', n, e) {
      assert e in s.fs.MayHold(n);
      assert Original(base, s.fs, n, e) || Published(ws, s, n, e);
    }
    forall i | 0 <= i < |ws| ensures CallOk(ws, s', i) {
      assert CallOk(ws, s, i);
      if ws[i].contents == [] {
        forall x | Fenced(ws, s, i, x) && x in s.fs.inodes ensures Fenced(ws, s', i, x) {
        }
      }
    }
  }

  lemma CrashKeeps(ws: seq<Writer>, base: Fs, s: Sys, image: Fs)
    requires base.AtRest(ws) && SharedInv(ws, base, s) && Possible(ws, s, Crash(image))
    ensures SharedInv(ws, base, Step(ws, s, Crash(image)))
  {
    assert forall m :: image.MayHold(m) == {image.Entry(m)} && image.Entry(m) in s.fs.MayHold(m);
    SettledKeeps(ws, base, s, Step(ws, s, Crash(image)));
  }

  lemma DirSyncKeeps(ws: seq<Writer>, base: Fs, s: Sys, i: nat)
    requires base.AtRest(ws) && SharedInv(ws, base, s) && Possible(ws, s, Act(i, DirSyncOk))
    ensures SharedInv(ws, base, Step(ws, s, Act(i, DirSyncOk)))
  {
    var s' := Step(ws, s, Act(i, DirSyncOk));
    assert forall m :: s'.fs.MayHold(m) == {s.fs.Entry(m)} && s.fs.Entry(m) in s.fs.MayHold(m);
    SettledKeeps(ws, base, s, s');
  }

  /** Every step of every call, and every crash, keeps the invariant. */
  lemma SharedStep(ws: seq<Writer>, base: Fs, s: Sys, e: Event)
    requires Compatible(ws) && base.AtRest(ws) && SharedInv(ws, base, s) && Possible(ws, s, e)
    ensures SharedInv(ws, base, Step(ws, s, e))
  {
    match e
    case Crash(image) => CrashKeeps(ws, base, s, image);
    case Act(i, a) =>
      match a
      case CreateOk => CreateKeeps(ws, base, s, i);
      case WriteChunk(m) => WriteKeeps(ws, base, s, i, m);
      case SyncOk => SyncKeeps(ws, base, s, i);
      case RenameOk => RenameKeeps(ws, base, s, i);
      case CleanupOk => CleanupKeeps(ws, base, s, i);
      case DirSyncOk => DirSyncKeeps(ws, base, s, i);
      case _ => QuietKeeps(ws, base, s, i, a);
  }

  lemma SharedBoot(ws: seq<Writer>, fs: Fs)
    requires fs.AtRest(ws)
    ensures SharedInv(ws, fs, Boot(ws, fs))
  {
    var s := Boot(ws, fs);
    forall n, e | !IsTemp(ws, n) && e in s.fs.MayHold(n) ensures Original(fs, s.fs, n, e) {
    }
    forall i | 0 <= i < |ws| ensures CallOk(ws, s, i) {
      assert s.pcs[i] == Start && fs.Exclusive(ws[i].Temp());
    }
  }

  lemma {:induction false} SharedRun(ws: seq<Writer>, base: Fs, es: seq<Event>)
    requires Compatible(ws) && base.AtRest(ws) && Exec(ws, Boot(ws, base), es).Some?
    ensures SharedInv(ws, base, Exec(ws, Boot(ws, base), es).value)
    decreases |es|
  {
    if es == [] {
      SharedBoot(ws, base);
    } else {
      var es' := es[..|es| - 1];
      SharedRun(ws, base, es');
      SharedStep(ws, base, Exec(ws, Boot(ws, base), es').value, es[|es| - 1]);
    }
  }

  // --------------------------------------------------------------------- the theorem

  /**
   * Every run from every directory at rest keeps every target whole if and only
   * if no call targets a temp name and calls that share one all write nothing.
   */
  lemma AlwaysWholeExactly(ws: seq<Writer>)
    ensures AlwaysWhole(ws) <==> Compatible(ws)
  {
    if Compatible(ws) {
      forall base: Fs, es: seq<Event>, i: nat | base.AtRest(ws) && 0 <= i < |ws| && Exec(ws, Boot(ws, base), es).Some?
        ensures var s := Exec(ws, Boot(ws, base), es).value;
          Whole(ws, base, s.stamps, ws[i].target, s.fs.Read(ws[i].target))
      {
        SharedRun(ws, base, es);
        SharedWhole(ws, base, Exec(ws, Boot(ws, base), es).value, ws[i].target);
      }
    } else if i, j :| 0 <= i < |ws| && 0 <= j < |ws| && ws[i].target == ws[j].Temp() {
      TornByTarget(ws, i, j);
    } else {
      var i, j :| 0 <= i < |ws| && 0 <= j < |ws| && i != j && ws[i].Temp() == ws[j].Temp() && ws[i].contents != [];
      TornByTemp(ws, i, j);
    }
  }

  lemma SharedWhole(ws: seq<Writer>, base: Fs, s: Sys, n: Name)
    requires Compatible(ws) && SharedInv(ws, base, s) && exists i :: 0 <= i < |ws| && ws[i].target == n
    ensures Whole(ws, base, s.stamps, n, s.fs.Read(n))
  {
    assert !IsTemp(ws, n);
    var e := s.fs.Entry(n);
    assert e in s.fs.MayHold(n);
    assert Original(base, s.fs, n, e) || Published(ws, s, n, e);
  }
}
