/**
 * `atomic_write` as the source writes it: a sequence of system calls on one
 * mutable directory with early exits, given the outcome of each system call.
 */
module AtomicWrite {
  import opened Prelude
  import opened FsAtomic
  import opened FsAtomicSafety

  /** Which system calls of one write succeed; a failing write fails at some point before its last byte. */
  datatype Calls = Calls(create: bool, write: bool, sync: bool, rename: bool, cleanup: bool, dirSync: bool)
  {
    /** Everything up to and including the rename succeeds; writing nothing makes no write call. */
    predicate Publishes(contents: Bytes) {
      create && (write || contents == []) && sync && rename
    }
  }

  /** A write running alone: the state reached by `es` and what holds there. */
  ghost predicate Reached(w: Writer, start: Fs, es: seq<Event>, s: Sys) {
    && Exec([w], Alone(start), es) == Some(s)
    && SingleOk(w, start, s)
  }

  function Alone(start: Fs): (s: Sys)
    ensures |s.pcs| == |s.stamps| == 1
  {
    Sys(start, [Start], [0], 1)
  }

  ghost predicate SingleOk(w: Writer, start: Fs, s: Sys) {
    && |s.pcs| == |s.stamps| == 1
    && s.fs.WellFormed()
    && WriterOk(w, s.fs, s.pcs[0])
    && (forall n :: n != w.target && n != w.Temp() ==> s.fs.Read(n) == start.Read(n))
    && match s.pcs[0]
       case Renamed => s.fs.Read(w.target) == Some(w.contents) && w.Temp() !in s.fs.dir
       case Returned(ok, durable) =>
         && (ok ==> s.fs.Read(w.target) == Some(w.contents) && w.Temp() !in s.fs.dir)
         && (!ok ==> s.fs.Read(w.target) == start.Read(w.target))
         && (durable ==> s.fs.MayHold(w.target) == {s.fs.Entry(w.target)})
       case _ => s.fs.Read(w.target) == start.Read(w.target)
  }

  class Disk {
    var fs: Fs

    constructor (fs: Fs)
      ensures this.fs == fs
    {
      this.fs := fs;
    }

    /** `write_all` on the open temp file: the kernel takes a chunk of its choosing each time. */
    method WriteAll(w: Writer, calls: Calls, h: Ino, ghost start: Fs, ghost es0: seq<Event>, ghost s0: Sys)
      returns (ok: bool, ghost es: seq<Event>, ghost s: Sys)
      requires Reached(w, start, es0, s0) && s0.fs == fs && s0.pcs[0] == Writing(h, 0)
      modifies this
      ensures Reached(w, start, es, s) && s.fs == fs
      ensures s.pcs[0] == if ok then Writing(h, |w.contents|) else Failed
      ensures ok <==> calls.write || w.contents == []
    {
      es, s := es0, s0;
      var k := 0;
      while k < |w.contents|
        invariant k <= |w.contents|
        invariant Reached(w, start, es, s) && s.fs == fs && s.pcs[0] == Writing(h, k)
        invariant k == |w.contents| ==> calls.write || w.contents == []
      {
        var m :| 0 < m <= |w.contents| - k;
        var now := *;
        if !calls.write && (now || k + m == |w.contents|) {
          es, s := Log(w, start, es, s, WriteFail);
          return false, es, s;
        }
        es, s := Log(w, start, es, s, WriteChunk(m));
        fs := fs.WriteAt(h, k, w.contents[k..k + m]);
        k := k + m;
      }
      ok := true;
    }

    /** Create, fill and fsync the temp file; stop at the first call that fails. */
    method WriteTemp(w: Writer, calls: Calls) returns (ok: bool, ghost es: seq<Event>, ghost s: Sys)
      requires fs.WellFormed() && fs.Exclusive(w.Temp())
      modifies this
      ensures Reached(w, old(fs), es, s) && s.fs == fs
      ensures if ok then s.pcs[0].Flushed? else s.pcs[0] == Failed
      ensures ok <==> calls.create && (calls.write || w.contents == []) && calls.sync
    {
      ghost var start := fs;
      es, s := [], Alone(start);
      if !calls.create {
        es, s := Log(w, start, es, s, CreateFail);
        return false, es, s;
      }
      var h := if w.Temp() in fs.dir then fs.dir[w.Temp()] else fs.next;
      es, s := Log(w, start, es, s, CreateOk);
      fs := fs.Create(w.Temp());
      ok, es, s := WriteAll(w, calls, h, start, es, s);
      if !ok {
        return;
      }
      if !calls.sync {
        es, s := Log(w, start, es, s, SyncFail);
        return false, es, s;
      }
      es, s := Log(w, start, es, s, SyncOk);
      fs := fs.SyncFile(h);
    }

    /** Fill the temp file, then rename it over the target. */
    method Publish(w: Writer, calls: Calls) returns (ok: bool, ghost es: seq<Event>, ghost s: Sys)
      requires fs.WellFormed() && fs.Exclusive(w.Temp())
      modifies this
      ensures Reached(w, old(fs), es, s) && s.fs == fs
      ensures s.pcs[0] == if ok then Renamed else Failed
      ensures ok <==> calls.Publishes(w.contents)
    {
      ghost var start := fs;
      ok, es, s := WriteTemp(w, calls);
      if ok {
        if !calls.rename {
          es, s := Log(w, start, es, s, RenameFail);
          ok := false;
        } else {
          es, s := Log(w, start, es, s, RenameOk);
          fs := fs.Rename(w.Temp(), w.target);
        }
      }
    }

    /**
     * One write. `fileName` is the last path component, absent for paths such as
     * `..`. Every run of this method is the run `es` of the protocol.
     */
    method Write(fileName: Option<Name>, pid: nat, nanos: nat, contents: Bytes, calls: Calls)
      returns (r: Result<()>, ghost es: seq<Event>)
      requires fs.WellFormed()
      requires fileName.Some? ==> fs.Exclusive(Writer(fileName.value, pid, nanos, contents).Temp())
      modifies this
      ensures fs.WellFormed()
      ensures fileName.None? ==> r.Err? && fs == old(fs)
      ensures r.Ok? <==> fileName.Some? && calls.Publishes(contents)
      ensures fileName.Some? ==>
        var w := Writer(fileName.value, pid, nanos, contents);
        var final := Exec([w], Alone(old(fs)), es);
        && (r.Ok? ==> fs.Read(w.target) == Some(contents) && w.Temp() !in fs.dir)
        && (r.Err? ==> fs.Read(w.target) == old(fs).Read(w.target))
        && (r.Err? && calls.cleanup ==> w.Temp() !in fs.dir)
        && (r.Ok? && calls.dirSync ==> fs.MayHold(w.target) == {fs.Entry(w.target)})
        && (forall n :: n != w.target && n != w.Temp() ==> fs.Read(n) == old(fs).Read(n))
        && final.Some? && final.value.fs == fs
        && final.value.pcs[0].Returned? && final.value.pcs[0].ok == r.Ok?
        && final.value.pcs[0].durable == (r.Ok? && calls.dirSync)
    {
      es := [];
      if fileName.None? {
        return Err, es;
      }
      var w := Writer(fileName.value, pid, nanos, contents);
      ghost var start := fs;
      ghost var s;
      var ok;
      ok, es, s := Publish(w, calls);
      if !ok {
        if !calls.cleanup {
          es, s := Log(w, start, es, s, CleanupFail);
        } else {
          es, s := Log(w, start, es, s, CleanupOk);
          fs := fs.Remove(w.Temp());
        }
        return Err, es;
      }
      if !calls.dirSync {
        es, s := Log(w, start, es, s, DirSyncFail);
      } else {
        es, s := Log(w, start, es, s, DirSyncOk);
        fs := fs.SyncDir();
      }
      return Ok(()), es;
    }
  }

  /** Record one step of the running write. */
  lemma Log(w: Writer, start: Fs, es: seq<Event>, s: Sys, a: Action)
    returns (es': seq<Event>, s': Sys)
    requires Reached(w, start, es, s) && Enabled(w, s.fs, s.pcs[0], a)
    ensures Reached(w, start, es', s')
    ensures es' == es + [Act(0, a)]
    ensures s'.fs == FsAfter(w, s.fs, s.pcs[0], a)
    ensures s'.pcs == [PcAfter(w, s.fs, s.pcs[0], a)]
  {
    ExecSnoc([w], Alone(start), es, Act(0, a));
    es', s' := es + [Act(0, a)], Step([w], s, Act(0, a));
    SingleStep(w, start, s, s', a);
  }

  lemma SingleStep(w: Writer, start: Fs, s: Sys, s': Sys, a: Action)
    requires SingleOk(w, start, s) && Enabled(w, s.fs, s.pcs[0], a)
    requires s'.pcs == [PcAfter(w, s.fs, s.pcs[0], a)] && |s'.stamps| == 1
    requires s'.fs == FsAfter(w, s.fs, s.pcs[0], a)
    ensures SingleOk(w, start, s')
  {
    assert w.target != w.Temp();
    forall n | n != w.Temp() && (a.RenameOk? ==> n != w.target)
      ensures s'.fs.Read(n) == s.fs.Read(n)
    {
      StepInvisible(w, s.fs, s.pcs[0], a, n);
    }
    StepWellFormed(w, s.fs, s.pcs[0], a);
  }

  /** One step keeps the directory well formed and the writer's own facts. */
  lemma StepWellFormed(w: Writer, fs: Fs, pc: Pc, a: Action)
    requires fs.WellFormed() && WriterOk(w, fs, pc) && Enabled(w, fs, pc, a)
    ensures var fs' := FsAfter(w, fs, pc, a);
      fs'.WellFormed() && WriterOk(w, fs', PcAfter(w, fs, pc, a))
  {
    match a
    case CreateOk => CreateWellFormed(fs, w.Temp());
    case WriteChunk(m) => WriteWellFormed(w, fs, pc, m);
    case SyncOk => SyncWellFormed(w, fs, pc);
    case RenameOk => RenameFacts(fs, w.Temp(), w.target);
    case CleanupOk => RemoveWellFormed(fs, w.Temp());
    case DirSyncOk => assert forall n :: fs.SyncDir().MayHold(n) == {fs.Entry(n)} && fs.Entry(n) in fs.MayHold(n);
    case _ =>
  }

  lemma WriteWellFormed(w: Writer, fs: Fs, pc: Pc, m: nat)
    requires fs.WellFormed() && WriterOk(w, fs, pc) && Enabled(w, fs, pc, WriteChunk(m))
    ensures var fs' := FsAfter(w, fs, pc, WriteChunk(m)); fs'.WellFormed() && WriterOk(w, fs', PcAfter(w, fs, pc, WriteChunk(m)))
  {
    var fs' := FsAfter(w, fs, pc, WriteChunk(m));
    assert forall n :: fs'.MayHold(n) == fs.MayHold(n) && fs'.Entry(n) == fs.Entry(n);
    assert Splice(w.contents[..pc.k], pc.k, w.contents[pc.k..pc.k + m]) == w.contents[..pc.k + m];
  }

  lemma SyncWellFormed(w: Writer, fs: Fs, pc: Pc)
    requires fs.WellFormed() && WriterOk(w, fs, pc) && Enabled(w, fs, pc, SyncOk)
    ensures var fs' := FsAfter(w, fs, pc, SyncOk); fs'.WellFormed() && WriterOk(w, fs', PcAfter(w, fs, pc, SyncOk))
  {
    var fs' := FsAfter(w, fs, pc, SyncOk);
    assert forall n :: fs'.MayHold(n) == fs.MayHold(n) && fs'.Entry(n) == fs.Entry(n);
    assert w.contents[..pc.k] == w.contents;
  }

  lemma RemoveWellFormed(fs: Fs, n: Name)
    requires fs.WellFormed()
    ensures fs.Remove(n).WellFormed()
  {
    var fs' := fs.Remove(n);
    assert forall m :: fs.Entry(m) in fs.MayHold(m);
    assert forall m :: m != n ==> fs'.MayHold(m) == fs.MayHold(m);
    assert fs'.MayHold(n) <= fs.MayHold(n) + {None};
  }

  lemma CreateWellFormed(fs: Fs, n: Name)
    requires fs.WellFormed() && fs.Exclusive(n)
    ensures fs.Create(n).WellFormed() && fs.Create(n).Exclusive(n)
  {
    var fs' := fs.Create(n);
    assert fs.Entry(n) in fs.MayHold(n);
    assert forall m :: m != n ==> fs'.MayHold(m) == fs.MayHold(m) && fs'.Entry(m) == fs.Entry(m);
    assert fs'.MayHold(n) == fs.MayHold(n) + {fs'.Entry(n)};
    assert n !in fs.dir ==> forall m :: Some(fs.next) !in fs.MayHold(m);
  }
}
