/**
 * The crash-safe writer as a step protocol: several writers share one
 * directory, each system call is one step, any call may fail, and the machine
 * may crash (and come back) between any two steps, any number of times.
 */
module FsAtomic {
  import opened Prelude
  import opened TempNames

  type Name = string
  type Ino = nat

  /** A file body; `synced` says whether its bytes have all reached the disk. */
  datatype Inode = Inode(data: Bytes, synced: bool)

  /** `data` overwritten from offset `off`, zero-filled when `off` lies past its end. */
  function Splice(data: Bytes, off: nat, chunk: Bytes): Bytes {
    (if off <= |data| then data[..off] else data + seq(off - |data|, _ => 0 as byte))
    + chunk
    + (if off + |chunk| < |data| then data[off + |chunk|..] else [])
  }

  /**
   * One directory. `dir` is what running processes see. `unsettled` lists, for
   * each name changed since the last directory fsync, every entry a crash may
   * leave behind for it; names not listed are settled.
   */
  datatype Fs = Fs(
    dir: map<Name, Ino>,
    unsettled: map<Name, set<Option<Ino>>>,
    inodes: map<Ino, Inode>,
    next: Ino)
  {
    function Entry(n: Name): Option<Ino> {
      if n in dir then Some(dir[n]) else None
    }

    /** The entries a crash right now may leave under `n`. */
    function MayHold(n: Name): set<Option<Ino>> {
      if n in unsettled then unsettled[n] else {Entry(n)}
    }

    /** Change one directory entry; the change is unsettled until a directory fsync. */
    function Point(n: Name, e: Option<Ino>): Fs {
      this.(dir := if e.Some? then dir[n := e.value] else dir - {n},
            unsettled := unsettled[n := MayHold(n) + {e}])
    }

    /** Open for writing: an existing file is truncated, a missing one is created. */
    function Create(n: Name): Fs {
      if n in dir then this.(inodes := inodes[dir[n] := Inode([], false)])
      else Point(n, Some(next)).(inodes := inodes[next := Inode([], false)], next := next + 1)
    }

    function WriteAt(h: Ino, off: nat, chunk: Bytes): Fs
      requires h in inodes
    {
      this.(inodes := inodes[h := Inode(Splice(inodes[h].data, off, chunk), false)])
    }

    function SyncFile(h: Ino): Fs
      requires h in inodes
    {
      this.(inodes := inodes[h := inodes[h].(synced := true)])
    }

    function Rename(from: Name, to: Name): Fs
      requires from in dir
    {
      Point(to, Some(dir[from])).Point(from, None)
    }

    function Remove(n: Name): Fs {
      if n in dir then Point(n, None) else this
    }

    function SyncDir(): Fs {
      this.(unsettled := map[])
    }

    /** What a reader of `n` sees: `None` when there is no such file. */
    function Read(n: Name): Option<Bytes> {
      if n in dir && dir[n] in inodes then Some(inodes[dir[n]].data) else None
    }

    ghost predicate WellFormed() {
      && (forall n :: Entry(n) in MayHold(n))
      && (forall n, x :: Some(x) in MayHold(n) ==> x in inodes)
      && (forall x :: x in inodes ==> x < next)
    }

    /** No file reachable through `n` is, or may become, reachable through another name. */
    ghost predicate Exclusive(n: Name) {
      forall x, m :: m != n && Some(x) in MayHold(n) ==> Some(x) !in MayHold(m)
    }

    /** At rest: everything is on disk. Files may have several names, but a temp name of these calls is no second name. */
    ghost predicate AtRest(ws: seq<Writer>) {
      && WellFormed()
      && unsettled == map[]
      && (forall x :: x in inodes ==> inodes[x].synced)
      && (forall i :: 0 <= i < |ws| ==> Exclusive(ws[i].Temp()))
    }
  }

  /**
   * `after` is a state the machine may come back in when it crashes in `before`:
   * each name holds one of the entries it may hold, and a file that was not
   * synced is cut to some prefix of its bytes.
   */
  ghost predicate CrashImage(before: Fs, after: Fs) {
    && after.unsettled == map[]
    && after.next == before.next
    && after.inodes.Keys == before.inodes.Keys
    && (forall n :: after.Entry(n) in before.MayHold(n))
    && (forall x :: x in before.inodes ==>
          && after.inodes[x].synced
          && after.inodes[x].data <= before.inodes[x].data
          && (before.inodes[x].synced ==> after.inodes[x] == before.inodes[x]))
  }

  /** One call of `atomic_write`. */
  datatype Writer = Writer(target: Name, pid: nat, nanos: nat, contents: Bytes) {
    function Temp(): Name { TempName(target, pid, nanos) }
  }

  /** Where a call stands. `Writing(h, k)` holds file handle `h` with `k` bytes written. */
  datatype Pc =
    | Start
    | Writing(h: Ino, k: nat)
    | Flushed(h: Ino)
    | Renamed
    | Failed
    | Returned(ok: bool, durable: bool)
    | Lost

  datatype Action =
    | CreateOk | CreateFail
    | WriteChunk(m: nat) | WriteFail
    | SyncOk | SyncFail
    | RenameOk | RenameFail
    | CleanupOk | CleanupFail
    | DirSyncOk | DirSyncFail

  /** `stamps[i]` is the clock reading of writer i's rename, 0 before it. */
  datatype Sys = Sys(fs: Fs, pcs: seq<Pc>, stamps: seq<nat>, clock: nat)

  predicate Enabled(w: Writer, fs: Fs, pc: Pc, a: Action) {
    match a
    case CreateOk => pc.Start?
    case CreateFail => pc.Start?
    case WriteChunk(m) => pc.Writing? && pc.h in fs.inodes && 0 < m && pc.k + m <= |w.contents|
    case WriteFail => pc.Writing? && pc.k < |w.contents|
    case SyncOk => pc.Writing? && pc.h in fs.inodes && pc.k == |w.contents|
    case SyncFail => pc.Writing? && pc.k == |w.contents|
    case RenameOk => pc.Flushed? && w.Temp() in fs.dir
    case RenameFail => pc.Flushed?
    case CleanupOk => pc.Failed?
    case CleanupFail => pc.Failed?
    case DirSyncOk => pc.Renamed?
    case DirSyncFail => pc.Renamed?
  }

  function FsAfter(w: Writer, fs: Fs, pc: Pc, a: Action): Fs
    requires Enabled(w, fs, pc, a)
  {
    match a
    case CreateOk => fs.Create(w.Temp())
    case WriteChunk(m) => fs.WriteAt(pc.h, pc.k, w.contents[pc.k..pc.k + m])
    case SyncOk => fs.SyncFile(pc.h)
    case RenameOk => fs.Rename(w.Temp(), w.target)
    case CleanupOk => fs.Remove(w.Temp())
    case DirSyncOk => fs.SyncDir()
    case _ => fs
  }

  function PcAfter(w: Writer, fs: Fs, pc: Pc, a: Action): Pc
    requires Enabled(w, fs, pc, a)
  {
    match a
    case CreateOk => Writing(if w.Temp() in fs.dir then fs.dir[w.Temp()] else fs.next, 0)
    case WriteChunk(m) => Writing(pc.h, pc.k + m)
    case SyncOk => Flushed(pc.h)
    case RenameOk => Renamed
    case CleanupOk => Returned(false, false)
    case CleanupFail => Returned(false, false)
    case DirSyncOk => Returned(true, true)
    case DirSyncFail => Returned(true, false)
    case _ => Failed
  }

  datatype Event = Act(i: nat, a: Action) | Crash(image: Fs)

  ghost predicate Possible(ws: seq<Writer>, s: Sys, e: Event)
    requires |s.pcs| == |s.stamps| == |ws|
  {
    match e
    case Act(i, a) => i < |ws| && Enabled(ws[i], s.fs, s.pcs[i], a)
    case Crash(image) => CrashImage(s.fs, image)
  }

  /** A crash kills every call in flight; calls not yet begun belong to a later boot. */
  function PcAfterCrash(pc: Pc): Pc {
    if pc.Start? || pc.Returned? then pc else Lost
  }

  ghost function Step(ws: seq<Writer>, s: Sys, e: Event): (r: Sys)
    requires |s.pcs| == |s.stamps| == |ws| && Possible(ws, s, e)
    ensures |r.pcs| == |r.stamps| == |ws|
  {
    match e
    case Act(i, a) =>
      Sys(FsAfter(ws[i], s.fs, s.pcs[i], a),
          s.pcs[i := PcAfter(ws[i], s.fs, s.pcs[i], a)],
          if a.RenameOk? then s.stamps[i := s.clock] else s.stamps,
          if a.RenameOk? then s.clock + 1 else s.clock)
    case Crash(image) =>
      s.(fs := image, pcs := seq(|ws|, j requires 0 <= j < |ws| => PcAfterCrash(s.pcs[j])))
  }

  /** The state a list of events leads to, `None` when some event is not possible. */
  ghost function Exec(ws: seq<Writer>, s: Sys, es: seq<Event>): (r: Option<Sys>)
    requires |s.pcs| == |s.stamps| == |ws|
    ensures r.Some? ==> |r.value.pcs| == |r.value.stamps| == |ws|
    decreases |es|
  {
    if es == [] then Some(s) else
      var prev := Exec(ws, s, es[..|es| - 1]);
      if prev.Some? && Possible(ws, prev.value, es[|es| - 1])
      then Some(Step(ws, prev.value, es[|es| - 1])) else None
  }

  function Boot(ws: seq<Writer>, fs: Fs): (s: Sys)
    ensures |s.pcs| == |s.stamps| == |ws|
  {
    Sys(fs, seq(|ws|, _ => Start), seq(|ws|, _ => 0), 1)
  }

  // ---------------------------------------------------------------- hypotheses

  /** No two calls share a temp name, and no call targets another's temp name. */
  ghost predicate Separate(ws: seq<Writer>) {
    && (forall i, j :: 0 <= i < j < |ws| ==> ws[i].Temp() != ws[j].Temp())
    && (forall i, j :: 0 <= i < |ws| && 0 <= j < |ws| ==> ws[i].target != ws[j].Temp())
  }

  ghost predicate IsTemp(ws: seq<Writer>, n: Name) {
    exists i :: 0 <= i < |ws| && n == ws[i].Temp()
  }

  // ----------------------------------------------------------------- invariant

  /** `e` leads to a synced file holding the whole contents of a call on `n` that renamed at or after `t`. */
  ghost predicate WrittenSince(ws: seq<Writer>, s: Sys, n: Name, e: Option<Ino>, t: nat)
    requires |s.stamps| == |ws|
  {
    && e.Some? && e.value in s.fs.inodes && s.fs.inodes[e.value].synced
    && exists j :: 0 <= j < |ws| && ws[j].target == n && t <= s.stamps[j]
                   && s.fs.inodes[e.value].data == ws[j].contents
  }

  /** `e` is the entry `n` had at the start, its file untouched. */
  ghost predicate Original(base: Fs, fs: Fs, n: Name, e: Option<Ino>) {
    && e == base.Entry(n)
    && (e.Some? ==> e.value in base.inodes && e.value in fs.inodes
                    && fs.inodes[e.value] == base.inodes[e.value])
  }

  ghost predicate NamesIntact(ws: seq<Writer>, base: Fs, s: Sys)
    requires |s.stamps| == |ws|
  {
    forall n, e :: !IsTemp(ws, n) && e in s.fs.MayHold(n) ==>
      Original(base, s.fs, n, e) || WrittenSince(ws, s, n, e, 1)
  }

  ghost predicate WriterOk(w: Writer, fs: Fs, pc: Pc) {
    match pc
    case Start => fs.Exclusive(w.Temp())
    case Writing(h, k) =>
      && fs.Exclusive(w.Temp()) && fs.Entry(w.Temp()) == Some(h) && h in fs.inodes
      && k <= |w.contents| && fs.inodes[h].data == w.contents[..k]
    case Flushed(h) =>
      && fs.Exclusive(w.Temp()) && fs.Entry(w.Temp()) == Some(h) && h in fs.inodes
      && fs.inodes[h] == Inode(w.contents, true)
    case _ => true
  }

  /** A call past its rename is never undone, except by a call that renamed later. */
  ghost predicate RenameHolds(ws: seq<Writer>, s: Sys, i: nat)
    requires |s.pcs| == |s.stamps| == |ws| && i < |ws|
  {
    var n := ws[i].target;
    && s.stamps[i] < s.clock
    && (0 < s.stamps[i] ==> s.pcs[i].Renamed? || s.pcs[i].Lost? || (s.pcs[i].Returned? && s.pcs[i].ok))
    && (s.pcs[i].Renamed? ==>
          0 < s.stamps[i] && WrittenSince(ws, s, n, s.fs.Entry(n), s.stamps[i]))
    && (s.pcs[i] == Returned(true, true) ==>
          0 < s.stamps[i] && forall e :: e in s.fs.MayHold(n) ==> WrittenSince(ws, s, n, e, s.stamps[i]))
  }

  ghost predicate Inv(ws: seq<Writer>, base: Fs, s: Sys) {
    && |s.pcs| == |s.stamps| == |ws|
    && s.fs.WellFormed()
    && NamesIntact(ws, base, s)
    && (forall i :: 0 <= i < |ws| ==> WriterOk(ws[i], s.fs, s.pcs[i]))
    && (forall i :: 0 <= i < |ws| ==> RenameHolds(ws, s, i))
  }

  lemma InvBoot(ws: seq<Writer>, fs: Fs)
    requires fs.AtRest(ws)
    ensures Inv(ws, fs, Boot(ws, fs))
  {
    var s := Boot(ws, fs);
    forall n, e | !IsTemp(ws, n) && e in s.fs.MayHold(n)
      ensures Original(fs, s.fs, n, e)
    {
    }
  }
}
