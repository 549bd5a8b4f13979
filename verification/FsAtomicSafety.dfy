/**
 * Safety of the crash-safe writer: every step and every crash keeps the
 * invariant, so no target is ever seen torn.
 */
module FsAtomicSafety {
  import opened Prelude
  import opened TempNames
  import opened FsAtomic

  /** Steps that leave the file system alone. */
  lemma InvQuiet(ws: seq<Writer>, base: Fs, s: Sys, i: nat, a: Action)
    requires Inv(ws, base, s) && Possible(ws, s, Act(i, a))
    requires a in {CreateFail, WriteFail, SyncFail, RenameFail, CleanupFail, DirSyncFail}
    ensures Inv(ws, base, Step(ws, s, Act(i, a)))
  {
    var s' := Step(ws, s, Act(i, a));
    assert s'.fs == s.fs && s'.stamps == s.stamps;
    WrittenKept(ws, s, s');
    forall j | 0 <= j < |ws| ensures RenameHolds(ws, s', j) {
      assert RenameHolds(ws, s, j);
    }
  }

  /** A change confined to writer i's temp entry and to files (`hs`) reachable from no other name. */
  lemma OthersKeep(ws: seq<Writer>, base: Fs, s: Sys, s': Sys, i: nat, hs: set<Ino>)
    requires Separate(ws) && Inv(ws, base, s) && i < |ws|
    requires |s'.pcs| == |s'.stamps| == |ws| && s'.stamps == s.stamps && s'.clock == s.clock
    requires s.stamps[i] == 0 && !s'.pcs[i].Renamed? && s'.pcs[i] != Returned(true, true)
    requires forall j :: 0 <= j < |ws| && j != i ==> s'.pcs[j] == s.pcs[j]
    requires forall n :: n != ws[i].Temp() ==> s'.fs.MayHold(n) == s.fs.MayHold(n) && s'.fs.Entry(n) == s.fs.Entry(n)
    requires forall n, x :: n != ws[i].Temp() && x in hs ==> Some(x) !in s.fs.MayHold(n)
    requires forall x :: x in s'.fs.inodes <==> x in s.fs.inodes || x in hs
    requires forall x :: x in s.fs.inodes && x !in hs ==> s'.fs.inodes[x] == s.fs.inodes[x]
    requires forall x :: Some(x) in s'.fs.MayHold(ws[i].Temp()) ==> x in hs || Some(x) in s.fs.MayHold(ws[i].Temp())
    requires s'.fs.WellFormed() && WriterOk(ws[i], s'.fs, s'.pcs[i])
    ensures Inv(ws, base, s')
  {
    forall n, e, t: nat | n != ws[i].Temp() && e in s.fs.MayHold(n) && WrittenSince(ws, s, n, e, t)
      ensures WrittenSince(ws, s', n, e, t)
    {
    }
    forall n, e | !IsTemp(ws, n) && e in s'.fs.MayHold(n)
      ensures Original(base, s'.fs, n, e) || WrittenSince(ws, s', n, e, 1)
    {
      assert n != ws[i].Temp();
      assert Original(base, s.fs, n, e) || WrittenSince(ws, s, n, e, 1);
    }
    forall j | 0 <= j < |ws| && j != i
      ensures WriterOk(ws[j], s'.fs, s'.pcs[j])
    {
      assert WriterOk(ws[j], s.fs, s.pcs[j]);
      assert ws[j].Temp() != ws[i].Temp();
    }
    forall j | 0 <= j < |ws| ensures RenameHolds(ws, s', j) {
      assert RenameHolds(ws, s, j);
      assert s.fs.Entry(ws[j].target) in s.fs.MayHold(ws[j].target);
    }
  }

  lemma InvCreate(ws: seq<Writer>, base: Fs, s: Sys, i: nat)
    requires Separate(ws) && Inv(ws, base, s) && Possible(ws, s, Act(i, CreateOk))
    ensures Inv(ws, base, Step(ws, s, Act(i, CreateOk)))
  {
    var s' := Step(ws, s, Act(i, CreateOk));
    var n := ws[i].Temp();
    assert WriterOk(ws[i], s.fs, s.pcs[i]) && RenameHolds(ws, s, i);
    var h := if n in s.fs.dir then s.fs.dir[n] else s.fs.next;
    assert s.fs.Entry(n) in s.fs.MayHold(n);
    OthersKeep(ws, base, s, s', i, {h});
  }

  lemma InvWrite(ws: seq<Writer>, base: Fs, s: Sys, i: nat, m: nat)
    requires Separate(ws) && Inv(ws, base, s) && Possible(ws, s, Act(i, WriteChunk(m)))
    ensures Inv(ws, base, Step(ws, s, Act(i, WriteChunk(m))))
  {
    var s' := Step(ws, s, Act(i, WriteChunk(m)));
    assert WriterOk(ws[i], s.fs, s.pcs[i]) && RenameHolds(ws, s, i);
    var Writing(h, k) := s.pcs[i];
    var c := ws[i].contents;
    assert s.fs.Entry(ws[i].Temp()) in s.fs.MayHold(ws[i].Temp());
    assert Splice(c[..k], k, c[k..k + m]) == c[..k + m];
    OthersKeep(ws, base, s, s', i, {h});
  }

  lemma InvSync(ws: seq<Writer>, base: Fs, s: Sys, i: nat)
    requires Separate(ws) && Inv(ws, base, s) && Possible(ws, s, Act(i, SyncOk))
    ensures Inv(ws, base, Step(ws, s, Act(i, SyncOk)))
  {
    var s' := Step(ws, s, Act(i, SyncOk));
    assert WriterOk(ws[i], s.fs, s.pcs[i]) && RenameHolds(ws, s, i);
    var Writing(h, k) := s.pcs[i];
    assert ws[i].contents[..k] == ws[i].contents;
    assert s.fs.Entry(ws[i].Temp()) in s.fs.MayHold(ws[i].Temp());
    OthersKeep(ws, base, s, s', i, {h});
  }

  lemma RenameFacts(fs: Fs, from: Name, to: Name)
    requires from in fs.dir && from != to && fs.WellFormed()
    ensures var fs' := fs.Rename(from, to);
      && fs'.inodes == fs.inodes
      && fs'.MayHold(to) == fs.MayHold(to) + {fs.Entry(from)}
      && fs'.MayHold(from) == fs.MayHold(from) + {None}
      && fs'.Entry(to) == fs.Entry(from) && fs'.Entry(from) == None
      && (forall m :: m != from && m != to ==> fs'.MayHold(m) == fs.MayHold(m) && fs'.Entry(m) == fs.Entry(m))
      && fs'.WellFormed()
  {
    var mid := fs.Point(to, fs.Entry(from));
    assert mid.MayHold(from) == fs.MayHold(from);
    assert fs.Rename(from, to) == mid.Point(from, None);
  }

  /** Facts about finished writes survive when no synced file changes and stamps only grow. */
  lemma WrittenKept(ws: seq<Writer>, s: Sys, s': Sys)
    requires |s.stamps| == |s'.stamps| == |ws|
    requires forall x :: x in s.fs.inodes && s.fs.inodes[x].synced ==> x in s'.fs.inodes && s'.fs.inodes[x] == s.fs.inodes[x]
    requires forall j :: 0 <= j < |ws| ==> s.stamps[j] <= s'.stamps[j]
    ensures forall n, e, t: nat :: WrittenSince(ws, s, n, e, t) ==> WrittenSince(ws, s', n, e, t)
  {
  }

  lemma RenameNames(ws: seq<Writer>, base: Fs, s: Sys, i: nat)
    requires Separate(ws) && Inv(ws, base, s) && Possible(ws, s, Act(i, RenameOk))
    ensures var s' := Step(ws, s, Act(i, RenameOk));
      && (forall j :: 0 <= j < |ws| ==> s.stamps[j] <= s'.stamps[j])
      && (forall t: nat :: t <= s.clock ==> WrittenSince(ws, s', ws[i].target, s.fs.Entry(ws[i].Temp()), t))
      && NamesIntact(ws, base, s')
  {
    var s' := Step(ws, s, Act(i, RenameOk));
    assert WriterOk(ws[i], s.fs, s.pcs[i]) && RenameHolds(ws, s, i);
    RenameFacts(s.fs, ws[i].Temp(), ws[i].target);
    WrittenKept(ws, s, s');
    var n, h := ws[i].target, s.pcs[i].h;
    forall t: nat | t <= s.clock ensures WrittenSince(ws, s', n, Some(h), t) {
      assert ws[i].target == n && t <= s'.stamps[i] && s'.fs.inodes[h].data == ws[i].contents;
    }
    forall m, e | !IsTemp(ws, m) && e in s'.fs.MayHold(m)
      ensures Original(base, s'.fs, m, e) || WrittenSince(ws, s', m, e, 1)
    {
      assert m != ws[i].Temp();
      if e in s.fs.MayHold(m) {
        assert Original(base, s.fs, m, e) || WrittenSince(ws, s, m, e, 1);
      }
    }
  }

  /** A rename out of an exclusive temp name leaves a third name exclusive. */
  lemma RenameKeepsExclusive(fs: Fs, from: Name, to: Name, other: Name)
    requires fs.WellFormed() && from in fs.dir && from != to && other != from && other != to
    requires fs.Exclusive(from) && fs.Exclusive(other)
    ensures fs.Rename(from, to).Exclusive(other)
  {
    RenameFacts(fs, from, to);
    assert fs.Entry(from) in fs.MayHold(from);
  }

  lemma RenameWriters(ws: seq<Writer>, base: Fs, s: Sys, i: nat)
    requires Separate(ws) && Inv(ws, base, s) && Possible(ws, s, Act(i, RenameOk))
    ensures var s' := Step(ws, s, Act(i, RenameOk));
      forall j :: 0 <= j < |ws| ==> WriterOk(ws[j], s'.fs, s'.pcs[j])
  {
    var s' := Step(ws, s, Act(i, RenameOk));
    RenameFacts(s.fs, ws[i].Temp(), ws[i].target);
    forall j | 0 <= j < |ws| && j != i
      ensures WriterOk(ws[j], s'.fs, s'.pcs[j])
    {
      assert WriterOk(ws[i], s.fs, s.pcs[i]) && WriterOk(ws[j], s.fs, s.pcs[j]);
      assert ws[j].Temp() != ws[i].Temp() && ws[j].Temp() != ws[i].target;
      if s.fs.Exclusive(ws[j].Temp()) {
        RenameKeepsExclusive(s.fs, ws[i].Temp(), ws[i].target, ws[j].Temp());
      }
    }
  }

  lemma InvRename(ws: seq<Writer>, base: Fs, s: Sys, i: nat)
    requires Separate(ws) && Inv(ws, base, s) && Possible(ws, s, Act(i, RenameOk))
    ensures Inv(ws, base, Step(ws, s, Act(i, RenameOk)))
  {
    var s' := Step(ws, s, Act(i, RenameOk));
    RenameFacts(s.fs, ws[i].Temp(), ws[i].target);
    RenameNames(ws, base, s, i);
    RenameWriters(ws, base, s, i);
    WrittenKept(ws, s, s');
    forall j | 0 <= j < |ws| ensures RenameHolds(ws, s', j) {
      assert RenameHolds(ws, s, j);
      assert ws[j].target != ws[i].Temp();
    }
  }

  lemma InvCleanup(ws: seq<Writer>, base: Fs, s: Sys, i: nat)
    requires Separate(ws) && Inv(ws, base, s) && Possible(ws, s, Act(i, CleanupOk))
    ensures Inv(ws, base, Step(ws, s, Act(i, CleanupOk)))
  {
    var s' := Step(ws, s, Act(i, CleanupOk));
    assert RenameHolds(ws, s, i);
    OthersKeep(ws, base, s, s', i, {});
  }

  lemma InvDirSync(ws: seq<Writer>, base: Fs, s: Sys, i: nat)
    requires Inv(ws, base, s) && Possible(ws, s, Act(i, DirSyncOk))
    ensures Inv(ws, base, Step(ws, s, Act(i, DirSyncOk)))
  {
    var s' := Step(ws, s, Act(i, DirSyncOk));
    assert forall m :: s'.fs.MayHold(m) == {s.fs.Entry(m)};
    WrittenKept(ws, s, s');
    forall m, e | !IsTemp(ws, m) && e in s'.fs.MayHold(m)
      ensures Original(base, s'.fs, m, e) || WrittenSince(ws, s', m, e, 1)
    {
      assert e in s.fs.MayHold(m);
    }
    forall j | 0 <= j < |ws| ensures WriterOk(ws[j], s'.fs, s'.pcs[j]) {
      assert WriterOk(ws[j], s.fs, s.pcs[j]);
      assert forall m :: s.fs.Entry(m) in s.fs.MayHold(m);
    }
    forall j | 0 <= j < |ws| ensures RenameHolds(ws, s', j) {
      assert RenameHolds(ws, s, j);
      assert s.fs.Entry(ws[j].target) in s.fs.MayHold(ws[j].target);
    }
  }

  lemma InvCrash(ws: seq<Writer>, base: Fs, s: Sys, image: Fs)
    requires base.AtRest(ws) && Inv(ws, base, s) && Possible(ws, s, Crash(image))
    ensures Inv(ws, base, Step(ws, s, Crash(image)))
  {
    var s' := Step(ws, s, Crash(image));
    assert forall m :: image.MayHold(m) == {image.Entry(m)} && image.Entry(m) in s.fs.MayHold(m);
    WrittenKept(ws, s, s');
    forall m, e | !IsTemp(ws, m) && e in image.MayHold(m)
      ensures Original(base, image, m, e) || WrittenSince(ws, s', m, e, 1)
    {
      assert e in s.fs.MayHold(m);
      assert Original(base, s.fs, m, e) || WrittenSince(ws, s, m, e, 1);
    }
    forall j | 0 <= j < |ws| ensures WriterOk(ws[j], image, s'.pcs[j]) {
      assert WriterOk(ws[j], s.fs, s.pcs[j]);
    }
    forall j | 0 <= j < |ws| ensures RenameHolds(ws, s', j) {
      assert RenameHolds(ws, s, j);
    }
  }

  /** Every step of every writer, and every crash, keeps the invariant. */
  lemma InvStep(ws: seq<Writer>, base: Fs, s: Sys, e: Event)
    requires Separate(ws) && base.AtRest(ws) && Inv(ws, base, s) && Possible(ws, s, e)
    ensures Inv(ws, base, Step(ws, s, e))
  {
    match e
    case Crash(image) => InvCrash(ws, base, s, image);
    case Act(i, a) =>
      match a
      case CreateOk => InvCreate(ws, base, s, i);
      case WriteChunk(m) => InvWrite(ws, base, s, i, m);
      case SyncOk => InvSync(ws, base, s, i);
      case RenameOk => InvRename(ws, base, s, i);
      case CleanupOk => InvCleanup(ws, base, s, i);
      case DirSyncOk => InvDirSync(ws, base, s, i);
      case _ => InvQuiet(ws, base, s, i, a);
  }

  lemma {:induction false} InvRun(ws: seq<Writer>, base: Fs, es: seq<Event>)
    requires Separate(ws) && base.AtRest(ws)
    requires Exec(ws, Boot(ws, base), es).Some?
    ensures Inv(ws, base, Exec(ws, Boot(ws, base), es).value)
    decreases |es|
  {
    if es == [] {
      InvBoot(ws, base);
    } else {
      var es' := es[..|es| - 1];
      InvRun(ws, base, es');
      InvStep(ws, base, Exec(ws, Boot(ws, base), es').value, es[|es| - 1]);
    }
  }

  // ------------------------------------------------------------------ theorems

  /** `r` is what `n` held at the start, or all of what some call that renamed onto `n` wrote. */
  ghost predicate Whole(ws: seq<Writer>, base: Fs, stamps: seq<nat>, n: Name, r: Option<Bytes>)
    requires |stamps| == |ws|
  {
    || r == base.Read(n)
    || exists j :: 0 <= j < |ws| && ws[j].target == n && 0 < stamps[j] && r == Some(ws[j].contents)
  }

  /**
   * Whatever the interleaving, the failures and the crashes, every name that is
   * not a temp name reads whole: now, and after a crash at this very point.
   */
  lemma NeverTorn(ws: seq<Writer>, base: Fs, es: seq<Event>, n: Name)
    requires Separate(ws) && base.AtRest(ws) && !IsTemp(ws, n)
    requires Exec(ws, Boot(ws, base), es).Some?
    ensures var s := Exec(ws, Boot(ws, base), es).value;
      && Whole(ws, base, s.stamps, n, s.fs.Read(n))
      && forall image :: CrashImage(s.fs, image) ==> Whole(ws, base, s.stamps, n, image.Read(n))
  {
    InvRun(ws, base, es);
    var s := Exec(ws, Boot(ws, base), es).value;
    assert s.fs.Entry(n) in s.fs.MayHold(n);
    forall image | CrashImage(s.fs, image)
      ensures Whole(ws, base, s.stamps, n, image.Read(n))
    {
      var e := image.Entry(n);
      assert e in s.fs.MayHold(n);
      assert Original(base, s.fs, n, e) || WrittenSince(ws, s, n, e, 1);
    }
    assert Original(base, s.fs, n, s.fs.Entry(n)) || WrittenSince(ws, s, n, s.fs.Entry(n), 1);
  }

  /**
   * Once a call has returned Ok with its directory fsync done, every later
   * state, and every crash of it, shows that call's contents or those of a call
   * on the same target that renamed later: never the old contents.
   */
  lemma DurableWriteStays(ws: seq<Writer>, base: Fs, es: seq<Event>, i: nat, image: Fs)
    requires Separate(ws) && base.AtRest(ws) && i < |ws|
    requires Exec(ws, Boot(ws, base), es).Some?
    requires var s := Exec(ws, Boot(ws, base), es).value;
      s.pcs[i] == Returned(true, true) && (image == s.fs || CrashImage(s.fs, image))
    ensures var s := Exec(ws, Boot(ws, base), es).value;
      exists j :: 0 <= j < |ws| && ws[j].target == ws[i].target && s.stamps[i] <= s.stamps[j]
                  && image.Read(ws[i].target) == Some(ws[j].contents)
  {
    InvRun(ws, base, es);
    var s := Exec(ws, Boot(ws, base), es).value;
    assert RenameHolds(ws, s, i);
    var e := image.Entry(ws[i].target);
    assert s.fs.Entry(ws[i].target) in s.fs.MayHold(ws[i].target);
    assert WrittenSince(ws, s, ws[i].target, e, s.stamps[i]);
  }

  /** A step of one writer, seen from a name that is neither its temp nor its renamed target. */
  lemma StepInvisible(w: Writer, fs: Fs, pc: Pc, a: Action, n: Name)
    requires fs.WellFormed() && WriterOk(w, fs, pc) && Enabled(w, fs, pc, a)
    requires n != w.Temp() && (a.RenameOk? ==> n != w.target)
    ensures FsAfter(w, fs, pc, a).Read(n) == fs.Read(n)
  {
    assert fs.Entry(n) in fs.MayHold(n) && fs.Entry(w.Temp()) in fs.MayHold(w.Temp());
    if a.CreateOk? || a.WriteChunk? || a.SyncOk? {
      assert fs.Exclusive(w.Temp());
      var h := if pc.Writing? then pc.h else if w.Temp() in fs.dir then fs.dir[w.Temp()] else fs.next;
      assert fs.Entry(n) != Some(h);
    }
  }

  /** Only a successful rename changes what a name other than a temp name reads. */
  lemma OnlyRenameIsVisible(ws: seq<Writer>, base: Fs, es: seq<Event>, i: nat, a: Action, n: Name)
    requires Separate(ws) && base.AtRest(ws) && !IsTemp(ws, n)
    requires Exec(ws, Boot(ws, base), es).Some?
    requires Possible(ws, Exec(ws, Boot(ws, base), es).value, Act(i, a))
    requires !a.RenameOk? || n != ws[i].target
    ensures var s := Exec(ws, Boot(ws, base), es).value;
      Step(ws, s, Act(i, a)).fs.Read(n) == s.fs.Read(n)
  {
    InvRun(ws, base, es);
    var s := Exec(ws, Boot(ws, base), es).value;
    assert n != ws[i].Temp();
    StepInvisible(ws[i], s.fs, s.pcs[i], a, n);
  }

  /** A call that returns an error has never renamed: its bytes were never at the target. */
  lemma ErrorMeansNoRename(ws: seq<Writer>, base: Fs, es: seq<Event>, i: nat)
    requires Separate(ws) && base.AtRest(ws) && i < |ws|
    requires Exec(ws, Boot(ws, base), es).Some?
    requires Exec(ws, Boot(ws, base), es).value.pcs[i] == Returned(false, false)
    ensures Exec(ws, Boot(ws, base), es).value.stamps[i] == 0
  {
    InvRun(ws, base, es);
    assert RenameHolds(ws, Exec(ws, Boot(ws, base), es).value, i);
  }

  // -------------------------------------------------- when the names are separate

  ghost predicate EndsInTmp(n: Name) {
    |n| >= 4 && n[|n| - 4..] == ".tmp"
  }

  /** Targets that do not end in `.tmp`, and calls on one target that differ in pid or time. */
  lemma NamesSeparate(ws: seq<Writer>)
    requires forall i :: 0 <= i < |ws| ==> !EndsInTmp(ws[i].target)
    requires forall i, j :: 0 <= i < j < |ws| && ws[i].target == ws[j].target ==>
               ws[i].pid != ws[j].pid || ws[i].nanos != ws[j].nanos
    ensures Separate(ws)
  {
    forall i, j | 0 <= i < j < |ws| ensures ws[i].Temp() != ws[j].Temp() {
      if ws[i].Temp() == ws[j].Temp() {
        TempNameInjective(ws[i].target, ws[i].pid, ws[i].nanos, ws[j].target, ws[j].pid, ws[j].nanos);
      }
    }
    forall i, j | 0 <= i < |ws| && 0 <= j < |ws| ensures ws[i].target != ws[j].Temp() {
      TempNameSuffix(ws[j].target, ws[j].pid, ws[j].nanos);
    }
  }

  /** Every run of these calls, from every directory at rest, keeps every target whole. */
  ghost predicate AlwaysWhole(ws: seq<Writer>) {
    forall base: Fs, es: seq<Event>, i: nat :: base.AtRest(ws) && 0 <= i < |ws| && Exec(ws, Boot(ws, base), es).Some? ==>
      var s := Exec(ws, Boot(ws, base), es).value;
      Whole(ws, base, s.stamps, ws[i].target, s.fs.Read(ws[i].target))
  }

  const EMPTY_DIR := Fs(map[], map[], map[], 0)

  lemma ExecSnoc(ws: seq<Writer>, s: Sys, es: seq<Event>, e: Event)
    requires |s.pcs| == |s.stamps| == |ws|
    requires Exec(ws, s, es).Some? && Possible(ws, Exec(ws, s, es).value, e)
    ensures Exec(ws, s, es + [e]) == Some(Step(ws, Exec(ws, s, es).value, e))
  {
    assert (es + [e])[..|es|] == es;
  }

  /** Extend a run by one step of writer i. */
  lemma Extend(ws: seq<Writer>, s0: Sys, es: seq<Event>, s: Sys, i: nat, a: Action)
    returns (es': seq<Event>, s': Sys)
    requires |s0.pcs| == |s0.stamps| == |ws| && Exec(ws, s0, es) == Some(s)
    requires i < |ws| && Enabled(ws[i], s.fs, s.pcs[i], a)
    ensures Exec(ws, s0, es') == Some(s') && |s'.pcs| == |s'.stamps| == |ws|
    ensures s'.fs == FsAfter(ws[i], s.fs, s.pcs[i], a)
    ensures s'.pcs == s.pcs[i := PcAfter(ws[i], s.fs, s.pcs[i], a)]
    ensures s'.stamps == if a.RenameOk? then s.stamps[i := s.clock] else s.stamps
  {
    ExecSnoc(ws, s0, es, Act(i, a));
    es', s' := es + [Act(i, a)], Step(ws, s, Act(i, a));
  }

  /** A target that reads empty is torn when no call that renamed wrote empty contents. */
  lemma EmptyIsTorn(ws: seq<Writer>, es: seq<Event>, i: nat)
    requires i < |ws| && Exec(ws, Boot(ws, EMPTY_DIR), es).Some?
    requires forall k :: 0 <= k < |ws| && ws[k].contents == [] ==> Exec(ws, Boot(ws, EMPTY_DIR), es).value.stamps[k] == 0
    requires Exec(ws, Boot(ws, EMPTY_DIR), es).value.fs.Read(ws[i].target) == Some([])
    ensures !AlwaysWhole(ws)
  {
    var s := Exec(ws, Boot(ws, EMPTY_DIR), es).value;
    assert EMPTY_DIR.AtRest(ws);
    assert !Whole(ws, EMPTY_DIR, s.stamps, ws[i].target, s.fs.Read(ws[i].target));
  }

  /** A call that targets another's temp name sees that file half-written. */
  lemma TornByTarget(ws: seq<Writer>, i: nat, j: nat)
    requires i < |ws| && j < |ws| && ws[i].target == ws[j].Temp()
    ensures !AlwaysWhole(ws)
  {
    var s0 := Boot(ws, EMPTY_DIR);
    var es, s := Extend(ws, s0, [], s0, j, CreateOk);
    EmptyIsTorn(ws, es, i);
  }

  /** One call writes all its bytes, and a second open of the same temp name truncates them. */
  lemma TruncatedTemp(ws: seq<Writer>, i: nat, j: nat) returns (es: seq<Event>, s: Sys)
    requires i < |ws| && j < |ws| && i != j && ws[i].Temp() == ws[j].Temp() && ws[i].contents != []
    ensures Exec(ws, Boot(ws, EMPTY_DIR), es) == Some(s) && |s.pcs| == |s.stamps| == |ws|
    ensures s.fs.dir == map[ws[i].Temp() := 0] && s.fs.inodes == map[0 := Inode([], false)]
    ensures s.pcs[i] == Writing(0, |ws[i].contents|) && forall k :: 0 <= k < |ws| ==> s.stamps[k] == 0
  {
    var s0 := Boot(ws, EMPTY_DIR);
    es, s := Extend(ws, s0, [], s0, i, CreateOk);
    es, s := Extend(ws, s0, es, s, i, WriteChunk(|ws[i].contents|));
    es, s := Extend(ws, s0, es, s, j, CreateOk);
  }

  /** Two calls with one temp name: the second open truncates what the first then publishes. */
  lemma TornByTemp(ws: seq<Writer>, i: nat, j: nat)
    requires i < |ws| && j < |ws| && i != j && ws[i].Temp() == ws[j].Temp() && ws[i].contents != []
    ensures !AlwaysWhole(ws)
  {
    var s0 := Boot(ws, EMPTY_DIR);
    var es, s := TruncatedTemp(ws, i, j);
    es, s := Extend(ws, s0, es, s, i, SyncOk);
    es, s := Extend(ws, s0, es, s, i, RenameOk);
    EmptyIsTorn(ws, es, i);
  }

  /**
   * Why a temp name must not be a second name of another file: opening it
   * truncates that file under its other name.
   */
  lemma LinkedTempTears(ws: seq<Writer>, base: Fs, i: nat, n: Name, x: Ino) returns (es: seq<Event>)
    requires i < |ws| && n != ws[i].Temp() && base.Entry(ws[i].Temp()) == Some(x) && base.Entry(n) == Some(x)
    requires x in base.inodes && base.inodes[x].data != []
    ensures Exec(ws, Boot(ws, base), es).Some?
    ensures !Whole(ws, base, Exec(ws, Boot(ws, base), es).value.stamps, n, Exec(ws, Boot(ws, base), es).value.fs.Read(n))
  {
    var s0, s := Boot(ws, base), Boot(ws, base);
    es, s := Extend(ws, s0, [], s0, i, CreateOk);
    assert s.fs.Read(n) == Some([]);
    assert base.Read(n) != Some([]);
    assert forall j :: 0 <= j < |ws| ==> s.stamps[j] == 0;
  }
}
