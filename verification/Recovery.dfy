/** Taking a rollover back, repairing it at startup and confirming it; and what holds over every run. */
module Recovery {
  import opened FileSystem
  import opened StagedTree
  import opened Rollover

  ghost predicate FallbackIsDir(m: Fs, d: nat) {
    Fallback(m, d).Some? && Fallback(m, d).value.Dir?
  }

  /** The directory is its fallback, and nothing is left beside it. */
  ghost predicate RestoredAt(m: Fs, m': Fs, d: nat) {
    && FallbackIsDir(m, d)
    && Get(m', Path(d, Current)) == Fallback(m, d)
    && Get(m', Path(d, Old)) == None
    && Get(m', Path(d, Failed)) == None
  }

  /** Wherever restoring stops, the directory is untouched, or restored, or waiting whole beside its backup. */
  ghost predicate RestoreShape(m: Fs, m': Fs, d: nat) {
    || Unswapped(m, m', d)
    || (Get(m', Path(d, Current)) == Fallback(m, d) && Get(m', Path(d, Old)) == None)
    || (&& Get(m', Path(d, Current)) == None
        && Get(m', Path(d, Old)) == Get(m, Path(d, Old))
        && Get(m', Path(d, Failed)) == Get(m, Path(d, Current)))
  }

  ghost predicate BackupDirAt(m: Fs, d: nat) {
    RealDirAt(m, Path(d, Old))
  }

  /** One round of restoreEdgeMTLSMaterial. */
  method RestoreOne(fs: Disk<Path>, ghost pki: Pki, d: nat) returns (ok: bool, undone: bool)
    modifies fs`m, fs`crashed
    ensures old(fs.crashed) ==> fs.crashed && fs.m == old(fs.m)
    ensures fs.crashed ==> !ok
    ensures SameElsewhere(old(fs.m), fs.m, d) && SameStages(old(fs.m), fs.m, d)
    ensures KeptAt(pki, old(fs.m), fs.m, {}, d)
    ensures RestoreShape(old(fs.m), fs.m, d)
    ensures ok ==> RestoredAt(old(fs.m), fs.m, d)
    ensures undone ==> !ok && Unswapped(old(fs.m), fs.m, d)
    ensures !fs.faulty && !old(fs.crashed) ==> !fs.crashed && ok == FallbackIsDir(old(fs.m), d)
  {
    undone := false;
    var saved := fs.Lstat(Path(d, Old));
    if saved == Missing {
      var current := fs.Lstat(Path(d, Current));
      if current != RealDir {
        return false, false;
      }
      ok := Discard(fs, pki, d, Failed);
      if ok {
        ok := fs.Touch();
      }
      return;
    }
    if saved != RealDir {
      return false, false;
    }
    ok, undone := RestoreBackup(fs, pki, d);
  }

  /** The part of that round for a directory that has a backup. */
  method RestoreBackup(fs: Disk<Path>, ghost pki: Pki, d: nat) returns (ok: bool, undone: bool)
    requires BackupDirAt(fs.m, d)
    modifies fs`m, fs`crashed
    ensures old(fs.crashed) ==> fs.crashed && fs.m == old(fs.m)
    ensures fs.crashed ==> !ok
    ensures SameElsewhere(old(fs.m), fs.m, d) && SameStages(old(fs.m), fs.m, d)
    ensures KeptAt(pki, old(fs.m), fs.m, {}, d)
    ensures RestoreShape(old(fs.m), fs.m, d)
    ensures ok ==> RestoredAt(old(fs.m), fs.m, d)
    ensures undone ==> !ok && Unswapped(old(fs.m), fs.m, d)
    ensures !fs.faulty && !old(fs.crashed) ==> !fs.crashed && ok
  {
    hide KeptAt;
    undone := false;
    ghost var start := fs.m;
    ok := ClearTheWay(fs, pki, d);
    if !ok {
      return;
    }
    ghost var cleared := fs.m;
    ok, undone := PutBack(fs, pki, d);
    KeptAtTrans(pki, start, cleared, fs.m, {}, d);
    if !ok {
      return;
    }
    ghost var back := fs.m;
    ok := Discard(fs, pki, d, Failed);
    KeptAtTrans(pki, start, back, fs.m, {}, d);
    if ok {
      ok := fs.Touch();
    }
  }

  /** Moves a directory that is there to `dir.rollover-failed`. */
  method ClearTheWay(fs: Disk<Path>, ghost pki: Pki, d: nat) returns (ok: bool)
    requires BackupDirAt(fs.m, d)
    modifies fs`m, fs`crashed
    ensures old(fs.crashed) ==> fs.crashed && fs.m == old(fs.m)
    ensures fs.crashed ==> !ok
    ensures SameElsewhere(old(fs.m), fs.m, d) && SameStages(old(fs.m), fs.m, d)
    ensures KeptAt(pki, old(fs.m), fs.m, {}, d)
    ensures Get(fs.m, Path(d, Old)) == Get(old(fs.m), Path(d, Old))
    ensures Path(d, Current) in fs.m ==> Unswapped(old(fs.m), fs.m, d) && (ok ==> Path(d, Failed) !in fs.m)
    ensures Path(d, Current) !in fs.m && Path(d, Current) in old(fs.m) ==>
              Get(fs.m, Path(d, Failed)) == Get(old(fs.m), Path(d, Current))
    ensures ok && Path(d, Current) !in old(fs.m) ==> Path(d, Failed) !in fs.m
    ensures !fs.faulty && !old(fs.crashed) ==> ok && !fs.crashed && Path(d, Current) !in fs.m
  {
    hide KeptAt;
    ok := Discard(fs, pki, d, Failed);
    if !ok {
      return;
    }
    ghost var emptied := fs.m;
    var current := fs.Lstat(Path(d, Current));
    if current == RealDir || current == NotADir {
      ok := Move(fs, pki, d, Current, Failed, {});
      KeptAtTrans(pki, old(fs.m), emptied, fs.m, {}, d);
    }
  }

  /** Renames the backup into place; if that fails, puts the directory back, `undone` if that works. */
  method PutBack(fs: Disk<Path>, ghost pki: Pki, d: nat) returns (ok: bool, undone: bool)
    requires !fs.crashed ==> Path(d, Old) in fs.m
    modifies fs`m, fs`crashed
    ensures old(fs.crashed) ==> fs.crashed && fs.m == old(fs.m)
    ensures fs.crashed ==> !ok
    ensures SameElsewhere(old(fs.m), fs.m, d) && SameStages(old(fs.m), fs.m, d)
    ensures KeptAt(pki, old(fs.m), fs.m, {}, d)
    ensures !ok ==>
              || fs.m == old(fs.m)
              || (fs.crashed && Path(d, Old) in old(fs.m) && fs.m == Renamed(old(fs.m), Path(d, Old), Path(d, Current)))
              || (Path(d, Failed) in old(fs.m) && fs.m == Renamed(old(fs.m), Path(d, Failed), Path(d, Current)))
    ensures undone ==>
              !ok && Path(d, Failed) in old(fs.m) && fs.m == Renamed(old(fs.m), Path(d, Failed), Path(d, Current))
    ensures !fs.faulty && !old(fs.crashed) && !ok ==> undone == CanRename(old(fs.m), Path(d, Failed), Path(d, Current))
    ensures ok ==>
              && CanRename(old(fs.m), Path(d, Old), Path(d, Current))
              && fs.m == Renamed(old(fs.m), Path(d, Old), Path(d, Current))
    ensures !fs.faulty && !old(fs.crashed) && CanRename(old(fs.m), Path(d, Old), Path(d, Current)) ==> ok && !fs.crashed
  {
    undone := false;
    ok := Move(fs, pki, d, Old, Current, {});
    if !ok {
      undone := Move(fs, pki, d, Failed, Current, {});
    }
  }

  /** restoreEdgeMTLSMaterial, last directory first. */
  method Restore(fs: Disk<Path>, ghost pki: Pki, n: nat) returns (ok: bool)
    modifies fs`m, fs`crashed
    ensures old(fs.crashed) ==> fs.crashed && fs.m == old(fs.m)
    ensures ok && fs.crashed ==> old(fs.crashed)
    ensures Kept(pki, old(fs.m), fs.m, {})
    ensures forall d: nat | d >= n :: SameDir(old(fs.m), fs.m, d)
    ensures forall d: nat | d < n :: SameStages(old(fs.m), fs.m, d)
    ensures forall d: nat | d < n :: RestoreShape(old(fs.m), fs.m, d)
    ensures ok ==> forall d: nat | d < n :: RestoredAt(old(fs.m), fs.m, d)
    ensures !fs.faulty && !old(fs.crashed) ==>
              !fs.crashed && (ok <==> forall d: nat | d < n :: FallbackIsDir(old(fs.m), d))
  {
    ghost var start := fs.m;
    ok := true;
    var i := n;
    while i > 0
      invariant 0 <= i <= n
      invariant old(fs.crashed) ==> fs.crashed && fs.m == start
      invariant ok && (fs.crashed ==> old(fs.crashed))
      invariant Kept(pki, start, fs.m, {})
      invariant forall d: nat | d >= n || d < i :: SameDir(start, fs.m, d)
      invariant forall d: nat | d < n :: SameStages(start, fs.m, d)
      invariant forall d: nat | i <= d < n :: RestoredAt(start, fs.m, d)
    {
      i := i - 1;
      ghost var mid := fs.m;
      assert SameDir(start, mid, i);
      var undone: bool;
      ok, undone := RestoreOne(fs, pki, i);
      KeptFromOneDir(pki, mid, fs.m, {}, i);
      KeptTrans(pki, start, mid, fs.m, {});
      RestoreStep(start, mid, fs.m, i, i + 1, n);
      if !ok {
        assert !fs.faulty && !old(fs.crashed) ==> !FallbackIsDir(start, i);
        forall d: nat | d < n ensures RestoreShape(start, fs.m, d) {
          assert d < i ==> SameDir(start, fs.m, d);
          assert d > i ==> RestoredAt(start, fs.m, d);
        }
        return;
      }
    }
    forall d: nat | d < n ensures FallbackIsDir(start, d) && RestoreShape(start, fs.m, d) {
      assert RestoredAt(start, fs.m, d);
    }
  }

  lemma RestoreStep(m: Fs, mid: Fs, m': Fs, i: nat, from: nat, n: nat)
    requires SameDir(m, mid, i) && SameElsewhere(mid, m', i) && SameStages(mid, m', i)
    requires i < from
    requires forall d: nat | from <= d < n :: RestoredAt(m, mid, d)
    requires forall d: nat | d < n :: SameStages(m, mid, d)
    requires forall d: nat | d >= n || d < from :: SameDir(m, mid, d)
    ensures FallbackIsDir(mid, i) == FallbackIsDir(m, i)
    ensures RestoreShape(mid, m', i) ==> RestoreShape(m, m', i)
    ensures RestoredAt(mid, m', i) ==> RestoredAt(m, m', i)
    ensures forall d: nat | from <= d < n :: RestoredAt(m, m', d)
    ensures forall d: nat | d < n :: SameStages(m, m', d)
    ensures forall d: nat | d != i && (d >= n || d < from) :: SameDir(m, m', d)
  {
    SameDirsStep(m, mid, m', i);
    assert Get(mid, Path(i, Current)) == Get(m, Path(i, Current)) && Get(mid, Path(i, Old)) == Get(m, Path(i, Old));
    assert Get(mid, Path(i, Failed)) == Get(m, Path(i, Failed));
    forall d: nat | from <= d < n ensures RestoredAt(m, m', d) {
      assert RestoredAt(m, mid, d);
    }
    forall d: nat | d < n ensures SameStages(m, m', d) {
      assert SameStages(m, mid, d);
      forall k: nat ensures Get(m', Path(d, Stage(k))) == Get(m, Path(d, Stage(k))) {
        assert Get(mid, Path(d, Stage(k))) == Get(m, Path(d, Stage(k)));
        assert Get(m', Path(d, Stage(k))) == Get(mid, Path(d, Stage(k)));
      }
    }
  }

  /** edgeMTLSBackupsPresent.  An lstat that fails counts as no backup. */
  method BackupsPresent(fs: Disk<Path>, n: nat) returns (present: bool)
    ensures present ==> exists d: nat :: d < n && BackupDirAt(fs.m, d)
    ensures !fs.faulty && !fs.crashed ==> present == exists d: nat :: d < n && BackupDirAt(fs.m, d)
  {
    for d := 0 to n
      invariant !fs.faulty && !fs.crashed ==> forall e: nat | e < d :: !BackupDirAt(fs.m, e)
    {
      var saved := fs.Lstat(Path(d, Old));
      if saved == RealDir {
        assert BackupDirAt(fs.m, d);
        return true;
      }
    }
    return false;
  }

  /** All `n` directories in use stand for the client identity `serial`. */
  ghost predicate Agree(pki: Pki, m: Fs, n: nat, serial: int) {
    forall d: nat | d < n :: IdAt(pki, m, Path(d, Current)) == Some(serial)
  }

  ghost predicate SomeBackup(m: Fs, n: nat) {
    exists d: nat :: d < n && BackupDirAt(m, d)
  }

  /** What an undisturbed startup recovery that succeeds makes of a disk. */
  ghost predicate StartupOutcome(pki: Pki, m: Fs, m': Fs, n: nat) {
    if !SomeBackup(m, n) || exists serial :: Agree(pki, m, n, serial)
    then m' == m
    else forall d: nat | d < n :: RestoredAt(m, m', d)
  }

  ghost predicate StartupCan(pki: Pki, m: Fs, n: nat) {
    || !SomeBackup(m, n)
    || (exists serial :: Agree(pki, m, n, serial))
    || forall d: nat | d < n :: FallbackIsDir(m, d)
  }

  /** recoverEdgeMTLSStartup: if a backup is there and the directories do not agree, restore. */
  method RecoverStartup(fs: Disk<Path>, pki: Pki, n: nat) returns (ok: bool)
    modifies fs`m, fs`crashed
    ensures old(fs.crashed) ==> fs.crashed && fs.m == old(fs.m)
    ensures Kept(pki, old(fs.m), fs.m, {})
    ensures forall d: nat | d >= n :: SameDir(old(fs.m), fs.m, d)
    ensures forall d: nat | d < n :: SameStages(old(fs.m), fs.m, d)
    ensures NoBackupsAdded(old(fs.m), fs.m, n)
    // undisturbed, it succeeds if there is nothing to do, and else exactly if every directory can be restored
    ensures !fs.faulty && !old(fs.crashed) ==>
              && !fs.crashed && (ok ==> StartupOutcome(pki, old(fs.m), fs.m, n))
              && (ok <==> StartupCan(pki, old(fs.m), n))
  {
    var present := BackupsPresent(fs, n);
    SameIsKept(pki, fs.m, {});
    if !present {
      return true;
    }
    var serial: Option<int> := None;
    for d := 0 to n
      invariant fs.m == old(fs.m) && fs.crashed == old(fs.crashed)
      invariant serial.Some? ==> d > 0 && Agree(pki, fs.m, d, serial.value)
      invariant d > 0 ==> serial.Some?
    {
      var current := ReadIdentity(fs, pki, Path(d, Current));
      if current.None? || (serial.Some? && serial != current) {
        if !fs.faulty && !fs.crashed {
          NoAgreement(pki, fs.m, n, d, serial);
        }
        ok := Restore(fs, pki, n);
        RestoreAddsNone(old(fs.m), fs.m, n);
        return;
      }
      serial := current;
    }
    assert Agree(pki, fs.m, n, serial.value);
    return true;
  }

  lemma RestoreAddsNone(m: Fs, m': Fs, n: nat)
    requires forall d: nat | d < n :: RestoreShape(m, m', d)
    ensures NoBackupsAdded(m, m', n)
  {
    forall d: nat | d < n && Path(d, Old) in m' ensures Path(d, Old) in m {
      assert RestoreShape(m, m', d);
    }
  }

  /** A directory without an identity, or with another one than those before it, ends all agreement. */
  lemma NoAgreement(pki: Pki, m: Fs, n: nat, d: nat, serial: Option<int>)
    requires d < n && (serial.Some? ==> d > 0 && Agree(pki, m, d, serial.value))
    requires IdAt(pki, m, Path(d, Current)) == None || (serial.Some? && IdAt(pki, m, Path(d, Current)) != serial)
    ensures !exists s :: Agree(pki, m, n, s)
  {
    if s :| Agree(pki, m, n, s) {
      assert IdAt(pki, m, Path(d, Current)) == Some(s);
      assert serial.Some? ==> IdAt(pki, m, Path(d - 1, Current)) == Some(s);
    }
  }

  lemma SameIsKept(pki: Pki, m: Fs, extra: set<Option<int>>)
    ensures Kept(pki, m, m, extra)
  {}

  /** Reads the three files, validates them and extracts the serial; any of it may fail. */
  method ReadIdentity(fs: Disk<Path>, pki: Pki, p: Path) returns (id: Option<int>)
    ensures id.Some? ==> id == IdAt(pki, fs.m, p)
    ensures !fs.faulty && !fs.crashed ==> id == IdAt(pki, fs.m, p)
  {
    var readable: bool := true;
    if fs.faulty {
      readable := *;
    }
    id := if readable && !fs.crashed then IdAt(pki, fs.m, p) else None;
  }

  // ---------- Confirmation ----------

  /** `done` directories are clean, part of the next one's backup may be gone, and the rest is untouched. */
  ghost predicate CleanedTo(m: Fs, m': Fs, n: nat, done: nat) {
    && done <= n
    && (forall p: Path | p.dir >= n || (p.role != Old && p.role != Failed) :: Get(m', p) == Get(m, p))
    && (forall d: nat | d < done :: Get(m', Path(d, Old)) == None && Get(m', Path(d, Failed)) == None)
    && (forall d: nat | d > done :: SameDir(m, m', d))
    && (done < n ==> LeftOf(m, m', Path(done, Old)) && LeftOf(m, m', Path(done, Failed)))
  }

  ghost predicate LeftOf(m: Fs, m': Fs, p: Path) {
    p !in m' || (p in m && Remnant(m[p], m'[p]))
  }

  /** cleanupEdgeMTLSBackups.  `done` directories are clean and those after the next one untouched. */
  method Cleanup(fs: Disk<Path>, n: nat) returns (ok: bool, ghost done: nat)
    modifies fs`m, fs`crashed
    ensures old(fs.crashed) ==> fs.crashed && fs.m == old(fs.m)
    ensures ok && fs.crashed ==> old(fs.crashed)
    ensures CleanedTo(old(fs.m), fs.m, n, done)
    ensures ok ==> done == n
    ensures !fs.faulty && !old(fs.crashed) ==> ok
  {
    done := 0;
    ok := true;
    for d := 0 to n
      invariant ok && done == d
      invariant old(fs.crashed) ==> fs.crashed && fs.m == old(fs.m)
      invariant fs.crashed ==> old(fs.crashed)
      invariant forall p: Path | p.dir >= n || p.dir >= d || (p.role != Old && p.role != Failed) ::
                Get(fs.m, p) == Get(old(fs.m), p)
      invariant forall e: nat | e < d :: Get(fs.m, Path(e, Old)) == None && Get(fs.m, Path(e, Failed)) == None
    {
      ghost var before := fs.m;
      assert Get(before, Path(d, Old)) == Get(old(fs.m), Path(d, Old));
      assert Get(before, Path(d, Failed)) == Get(old(fs.m), Path(d, Failed));
      ok := CleanOne(fs, d);
      if !ok {
        return;
      }
      done := d + 1;
    }
  }

  /** One round of that loop. */
  method CleanOne(fs: Disk<Path>, d: nat) returns (ok: bool)
    modifies fs`m, fs`crashed
    ensures old(fs.crashed) ==> fs.crashed && fs.m == old(fs.m)
    ensures ok && fs.crashed ==> old(fs.crashed)
    ensures forall p: Path | p.dir != d || (p.role != Old && p.role != Failed) :: Get(fs.m, p) == Get(old(fs.m), p)
    ensures LeftOf(old(fs.m), fs.m, Path(d, Old)) && LeftOf(old(fs.m), fs.m, Path(d, Failed))
    ensures ok ==> Path(d, Old) !in fs.m && Path(d, Failed) !in fs.m
    ensures !fs.faulty && !old(fs.crashed) ==> ok && !fs.crashed
  {
    ok := fs.RemoveAll(Path(d, Old));
    if ok {
      ok := fs.RemoveAll(Path(d, Failed));
    }
    if ok {
      ok := fs.Touch();
    }
  }

  /** A cleanup cut short (`m'`), then a restore (`m''`): the directories agree afterwards exactly when
      every backup was gone or every backup was still whole. */
  lemma CleanupCutShort(pki: Pki, m': Fs, m'': Fs, n: nat, before: int, confirmed: int)
    requires before != confirmed && n > 0
    requires Agree(pki, m', n, confirmed)
    requires forall d: nat | d < n :: Path(d, Old) in m' ==> IdAt(pki, m', Path(d, Old)) in {None, Some(before)}
    requires forall d: nat | d < n :: RestoredAt(m', m'', d)
    ensures (exists serial :: Agree(pki, m'', n, serial)) <==>
            || (forall d: nat | d < n :: Path(d, Old) !in m')
            || (forall d: nat | d < n :: IdAt(pki, m', Path(d, Old)) == Some(before))
  {
    forall d: nat | d < n
      ensures IdAt(pki, m'', Path(d, Current)) == if Path(d, Old) in m' then IdAt(pki, m', Path(d, Old))
                else Some(confirmed)
    {
      assert RestoredAt(m', m'', d);
    }
    if serial :| Agree(pki, m'', n, serial) {
      assert IdAt(pki, m'', Path(0, Current)) == Some(serial);
    } else {
      assert !Agree(pki, m'', n, confirmed) && !Agree(pki, m'', n, before);
    }
  }

  /** Where a cleanup may stop without parting the directories: after the last backup, or before the first. */
  ghost predicate CutFits(pki: Pki, m': Fs, n: nat, done: nat, before: int) {
    || done == n
    || (done + 1 == n && Path(done, Old) !in m')
    || (done == 0 && IdAt(pki, m', Path(0, Old)) == Some(before))
  }

  /** A cleanup that stops anywhere, and a restore after the next boot: the directories agree afterwards
      exactly where the cleanup may stop. */
  method CleanupThenRestore(fs: Disk<Path>, pki: Pki, n: nat, before: int, confirmed: int)
    returns (ghost cut: Fs, ghost done: nat)
    requires before != confirmed && n > 0 && Agree(pki, fs.m, n, confirmed)
    requires forall d: nat | d < n :: BackupDirAt(fs.m, d) && IdAt(pki, fs.m, Path(d, Old)) == Some(before)
    modifies fs
    ensures CleanedTo(old(fs.m), cut, n, done)
    ensures Agree(pki, cut, n, confirmed)
    ensures (exists serial :: Agree(pki, fs.m, n, serial)) <==> CutFits(pki, cut, n, done, before)
  {
    ghost var start := fs.m;
    var cleaned: bool;
    cleaned, done := Cleanup(fs, n);
    cut := fs.m;
    forall d: nat | d < n ensures CutDirAt(pki, start, cut, d, done, before, confirmed) {
      CutDir(pki, start, cut, n, d, done, before, confirmed);
    }
    forall d: nat | d < n
      ensures FallbackIsDir(cut, d) && IdAt(pki, cut, Path(d, Current)) == Some(confirmed)
      ensures Path(d, Old) in cut ==> IdAt(pki, cut, Path(d, Old)) in {None, Some(before)}
    {
      assert CutDirAt(pki, start, cut, d, done, before, confirmed);
    }
    fs.Boot(false);
    var restored := Restore(fs, pki, n);
    CleanupCutShort(pki, cut, fs.m, n, before, confirmed);
    WhereItStopped(pki, start, cut, n, done, before, confirmed);
  }

  ghost predicate CutDirAt(pki: Pki, m: Fs, m': Fs, d: nat, done: nat, before: int, confirmed: int) {
    && IdAt(pki, m', Path(d, Current)) == Some(confirmed) && FallbackIsDir(m', d)
    && (d < done ==> Path(d, Old) !in m')
    && (d > done ==> IdAt(pki, m', Path(d, Old)) == Some(before))
    && (Path(d, Old) in m' ==> IdAt(pki, m', Path(d, Old)) in {None, Some(before)})
  }

  lemma CutDir(pki: Pki, m: Fs, m': Fs, n: nat, d: nat, done: nat, before: int, confirmed: int)
    requires d < n && CleanedTo(m, m', n, done)
    requires IdAt(pki, m, Path(d, Current)) == Some(confirmed)
    requires BackupDirAt(m, d) && IdAt(pki, m, Path(d, Old)) == Some(before)
    ensures CutDirAt(pki, m, m', d, done, before, confirmed)
  {
    assert Get(m', Path(d, Current)) == Get(m, Path(d, Current));
    if d < done {
      assert Get(m', Path(d, Old)) == None;
    } else if d > done {
      assert SameDir(m, m', d);
      assert Get(m', Path(d, Old)) == Get(m, Path(d, Old));
    } else if Path(d, Old) in m' {
      assert LeftOf(m, m', Path(d, Old));
      RemnantIdentity(pki, m[Path(d, Old)], m'[Path(d, Old)]);
    }
  }

  lemma WhereItStopped(pki: Pki, m: Fs, m': Fs, n: nat, done: nat, before: int, confirmed: int)
    requires n > 0 && done <= n
    requires forall d: nat | d < n :: CutDirAt(pki, m, m', d, done, before, confirmed)
    ensures CutFits(pki, m', n, done, before) <==>
            || (forall d: nat | d < n :: Path(d, Old) !in m')
            || (forall d: nat | d < n :: IdAt(pki, m', Path(d, Old)) == Some(before))
  {
    assert CutDirAt(pki, m, m', 0, done, before, confirmed);
    if done < n {
      assert CutDirAt(pki, m, m', done, done, before, confirmed);
    }
    if done + 1 < n {
      assert CutDirAt(pki, m, m', done + 1, done, before, confirmed);
    }
    if CutFits(pki, m', n, done, before) {
      forall d: nat | d < n
        ensures (done == n || Path(done, Old) !in m') ==> Path(d, Old) !in m'
        ensures done < n && Path(done, Old) in m' ==> IdAt(pki, m', Path(d, Old)) == Some(before)
      {
        assert CutDirAt(pki, m, m', d, done, before, confirmed);
      }
    }
  }

  /** A directory whose key is `key`. */
  function Keyed(key: Byte): Node {
    Dir(map["ca.crt" := File([0], OWNER_ONLY), "client.crt" := File([0], OWNER_ONLY),
        "client.key" := File([key], OWNER_ONLY)])
  }

  const TWO_SERIALS := Pki((mat: Material) => if mat.key == [1] then Some(1) else Some(2))

  /** Two directories before the cleanup of a rollover, after it stopped between them, and after a restore. */
  const TWO: Fs := CUT[Path(0, Old) := Keyed(1)]
  const CUT: Fs := map[Path(0, Current) := Keyed(2), Path(1, Current) := Keyed(2), Path(1, Old) := Keyed(1)]
  const MIXED: Fs := map[Path(0, Current) := Keyed(2), Path(1, Current) := Keyed(1)]

  /** For instance, two directories, and power that goes away between them: startup finds nothing to repair,
      and a later restore leaves one of each. */
  lemma TwoDirectoryCrash()
    ensures CleanedTo(TWO, CUT, 2, 1)
    ensures Agree(TWO_SERIALS, CUT, 2, 2) && SomeBackup(CUT, 2)
    ensures RestoredAt(CUT, MIXED, 0) && RestoredAt(CUT, MIXED, 1)
    ensures !exists serial :: Agree(TWO_SERIALS, MIXED, 2, serial)
  {
    KeyedIdentity(TWO_SERIALS, 1);
    KeyedIdentity(TWO_SERIALS, 2);
    hide Keyed, Identity;
    CutBetween();
    hide CleanedTo;
    assert BackupDirAt(CUT, 1);
    Parted(TWO_SERIALS, MIXED, 2, 0, 1);
  }

  lemma CutBetween()
    ensures CleanedTo(TWO, CUT, 2, 1)
  {
    hide Keyed;
  }

  lemma Parted(pki: Pki, m: Fs, n: nat, d: nat, e: nat)
    requires d < n && e < n && IdAt(pki, m, Path(d, Current)) != IdAt(pki, m, Path(e, Current))
    ensures !exists serial :: Agree(pki, m, n, serial)
  {
    forall serial ensures !Agree(pki, m, n, serial) {
      assert Agree(pki, m, n, serial) ==>
          IdAt(pki, m, Path(d, Current)) == Some(serial) == IdAt(pki, m, Path(e, Current));
    }
  }

  lemma KeyedIdentity(pki: Pki, key: Byte)
    ensures Keyed(key).Dir? && Identity(pki, Keyed(key)) == pki.identity(Material([0], [0], [key]))
  {}

  // ---------- Every run ----------

  function All(n: nat): (s: set<nat>)
    ensures forall d: nat :: d in s <==> d < n
  {
    if n == 0 then {} else All(n - 1) + {n - 1}
  }

  /** The directories in `holds` can go back to the confirmed identity, and the others to nothing, or to a
      directory that stands for no identity; none has a backup while one has nothing at all.  No identity is
      around but those in `known`. */
  ghost predicate Protected(pki: Pki, m: Fs, n: nat, holds: set<nat>, confirmed: int, known: set<int>) {
    && confirmed in known
    && (forall d: nat | d < n :: ProtectedAt(pki, m, d, d in holds, confirmed, known))
    && (AllThere(m, n) || NoBackups(m, n))
  }

  ghost predicate ProtectedAt(pki: Pki, m: Fs, d: nat, holds: bool, confirmed: int, known: set<int>) {
    && (Fallback(m, d).Some? ==> FallbackIsDir(m, d))
    && (if holds then FallbackId(pki, m, d) == Some(confirmed) else FallbackId(pki, m, d) == None)
    && forall id: int | Some(id) in Ids(pki, m, d) :: id in known
  }

  function FallbackId(pki: Pki, m: Fs, d: nat): Option<int> {
    if Fallback(m, d).Some? then Identity(pki, Fallback(m, d).value) else None
  }

  /** For instance, a router as it is provisioned: material in the first directory only. */
  lemma Provisioned(pki: Pki, node: Node, serial: int, n: nat)
    requires Identity(pki, node) == Some(serial)
    ensures Protected(pki, map[Path(0, Current) := node], n, {0}, serial, {serial})
  {
    var m: Fs, holds: set<nat> := map[Path(0, Current) := node], {0};
    forall d: nat ensures ProtectedAt(pki, m, d, d in holds, serial, {serial}) {
      assert d != 0 ==> Fallback(m, d) == None;
    }
  }

  lemma KeptProtects(pki: Pki, m: Fs, m': Fs, extra: set<Option<int>>, n: nat, holds: set<nat>, confirmed: int,
      known: set<int>, known': set<int>)
    requires Protected(pki, m, n, holds, confirmed, known) && Kept(pki, m, m', extra) && NewBackupsLast(m, m', n)
    requires known <= known' && forall id: int | Some(id) in extra :: id in known'
    ensures Protected(pki, m', n, holds, confirmed, known')
  {
    forall d: nat | d < n ensures ProtectedAt(pki, m', d, d in holds, confirmed, known') {
      assert ProtectedAt(pki, m, d, d in holds, confirmed, known) && KeptAt(pki, m, m', extra, d);
    }
    KeptThere(pki, m, m', extra, n);
  }

  /** All directories have one known serial, or each is what it could go back to, with nothing left beside
      it or nothing changed. */
  ghost predicate Converged(pki: Pki, m: Fs, m': Fs, n: nat, holds: set<nat>, confirmed: int, known: set<int>) {
    || (exists serial :: serial in known && Agree(pki, m', n, serial))
    || forall d: nat | d < n ::
         && Get(m', Path(d, Current)) == Fallback(m, d) && Path(d, Old) !in m'
         && IdAt(pki, m', Path(d, Current)) == if d in holds then Some(confirmed) else None
  }

  /** Crash convergence: startup recovery succeeds, and leaves all directories with one known serial or each
      with what it could go back to.  If all hold the confirmed identity they end with one serial in any case,
      the confirmed one unless they all held another one already. */
  lemma StartupConverges(pki: Pki, m: Fs, m': Fs, n: nat, holds: set<nat>, confirmed: int, known: set<int>)
    requires Protected(pki, m, n, holds, confirmed, known)
    ensures StartupCan(pki, m, n)
    ensures StartupOutcome(pki, m, m', n) ==>
              && Converged(pki, m, m', n, holds, confirmed, known)
              && ((forall d: nat | d < n :: Get(m', Path(d, Current)) == Fallback(m, d)) || m' == m)
              && (All(n) <= holds ==>
                    exists serial :: serial in known && Agree(pki, m', n, serial) && (serial == confirmed || m' == m))
  {
    forall d: nat | d < n && Path(d, Old) in m ensures BackupDirAt(m, d) {
      assert ProtectedAt(pki, m, d, d in holds, confirmed, known);
    }
    if SomeBackup(m, n) {
      forall d: nat | d < n ensures FallbackIsDir(m, d) {
        assert ProtectedAt(pki, m, d, d in holds, confirmed, known);
      }
    }
    if StartupOutcome(pki, m, m', n) {
      if SomeBackup(m, n) && exists serial :: Agree(pki, m, n, serial) {
        var serial :| Agree(pki, m, n, serial);
        AgreedIsKnown(pki, m, n, holds, confirmed, known, serial);
      } else {
        BackAtFallbacks(pki, m, m', n, holds, confirmed, known);
      }
    }
  }

  lemma AgreedIsKnown(pki: Pki, m: Fs, n: nat, holds: set<nat>, confirmed: int, known: set<int>, serial: int)
    requires Protected(pki, m, n, holds, confirmed, known) && Agree(pki, m, n, serial)
    ensures n > 0 ==> serial in known
    ensures exists s :: s in known && Agree(pki, m, n, s)
  {
    if n == 0 {
      assert Agree(pki, m, n, confirmed);
    } else {
      assert IdAt(pki, m, Path(0, Current)) == Some(serial);
      assert ProtectedAt(pki, m, 0, 0 in holds, confirmed, known);
      assert Some(serial) in Ids(pki, m, 0);
    }
  }

  lemma BackAtFallbacks(pki: Pki, m: Fs, m': Fs, n: nat, holds: set<nat>, confirmed: int, known: set<int>)
    requires Protected(pki, m, n, holds, confirmed, known)
    requires forall d: nat | d < n && Path(d, Old) in m :: BackupDirAt(m, d)
    requires if SomeBackup(m, n) then forall d: nat | d < n :: RestoredAt(m, m', d) else m' == m
    ensures Converged(pki, m, m', n, holds, confirmed, known)
    ensures forall d: nat | d < n :: Get(m', Path(d, Current)) == Fallback(m, d)
    ensures All(n) <= holds ==> Agree(pki, m', n, confirmed)
  {
    forall d: nat | d < n
      ensures Get(m', Path(d, Current)) == Fallback(m, d) && Path(d, Old) !in m'
      ensures IdAt(pki, m', Path(d, Current)) == if d in holds then Some(confirmed) else None
    {
      assert ProtectedAt(pki, m, d, d in holds, confirmed, known);
      assert SomeBackup(m, n) ==> RestoredAt(m, m', d);
      assert Get(m', Path(d, Old)) == None;
    }
    if All(n) <= holds {
      forall d: nat | d < n ensures IdAt(pki, m', Path(d, Current)) == Some(confirmed) {
        assert d in All(n);
      }
    }
  }

  /** One crash: directories that share a serial end, after an interrupted installation and one startup,
      sharing the old serial or the new one. */
  lemma InstallCrashConverges(pki: Pki, m: Fs, cut: Fs, m': Fs, n: nat, shared: int, mat: Material)
    requires Protected(pki, m, n, All(n), shared, {shared})
    requires Kept(pki, m, cut, {pki.identity(mat)}) && NewBackupsLast(m, cut, n)
    requires StartupOutcome(pki, cut, m', n)
    ensures exists serial :: Some(serial) in {Some(shared), pki.identity(mat)} && Agree(pki, m', n, serial)
  {
    var known := {shared} + (if pki.identity(mat).Some? then {pki.identity(mat).value} else {});
    KeptProtects(pki, m, cut, {pki.identity(mat)}, n, All(n), shared, {shared}, known);
    StartupConverges(pki, cut, m', n, All(n), shared, known);
  }

  /** Where only some directories held the serial, as on a provisioned router, the alternative is that each
      is as it was before, a missing one possibly made. */
  lemma FirstInstallCrashConverges(pki: Pki, m: Fs, cut: Fs, m': Fs, n: nat, holds: set<nat>, shared: int,
      mat: Material)
    requires Protected(pki, m, n, holds, shared, {shared}) && NoBackups(m, n)
    requires Kept(pki, m, cut, {pki.identity(mat)}) && NewBackupsLast(m, cut, n)
    requires StartupOutcome(pki, cut, m', n)
    ensures
      || (exists serial :: Some(serial) in {Some(shared), pki.identity(mat)} && Agree(pki, m', n, serial))
      || forall d: nat | d < n ::
           || Get(m', Path(d, Current)) == Get(m, Path(d, Current))
           || (Path(d, Current) !in m && Get(m', Path(d, Current)) == Some(Dir(map[])))
  {
    var known := {shared} + (if pki.identity(mat).Some? then {pki.identity(mat).value} else {});
    KeptProtects(pki, m, cut, {pki.identity(mat)}, n, holds, shared, {shared}, known);
    StartupConverges(pki, cut, m', n, holds, shared, known);
    forall d: nat | d < n
      ensures Fallback(cut, d) == Get(m, Path(d, Current))
                || (Path(d, Current) !in m && Fallback(cut, d) == Some(Dir(map[])))
    {
      assert KeptAt(pki, m, cut, {pki.identity(mat)}, d);
    }
  }

  datatype Event =
    | DoInstall(mat: Material, faults: bool)
    | DoRestore(faults: bool)
    | DoStartup(faults: bool)
    | DoConfirm(faults: bool)

  /** A confirmation that happened: the disk before and after it, and how far it came. */
  datatype Confirmation = Confirmation(m: Fs, m': Fs, done: nat)

  /** No two directories in use stand for different identities. */
  ghost predicate Uniform(pki: Pki, m: Fs, n: nat, serial: int) {
    forall d: nat | d < n ::
      && (Path(d, Current) in m ==> RealDirAt(m, Path(d, Current)))
      && IdAt(pki, m, Path(d, Current)) in {None, Some(serial)}
  }

  ghost predicate Cleared(m': Fs, n: nat, done: nat) {
    done == n || (done + 1 == n && Path(done, Old) !in m')
  }

  /** It stopped before the first backup, or left its identity alone. */
  ghost predicate Untouched(pki: Pki, m: Fs, m': Fs, done: nat) {
    && done == 0 && (Path(0, Old) in m' <==> Path(0, Old) in m)
    && IdAt(pki, m', Path(0, Old)) == IdAt(pki, m, Path(0, Old))
  }

  /** A confirmation that takes no directory's identity away without giving all of them another one: there
      was no backup, or none was reached, or all went and the directories do not contradict each other. */
  ghost predicate InOrder(pki: Pki, n: nat, c: Confirmation) {
    || NoBackups(c.m, n)
    || Untouched(pki, c.m, c.m', c.done)
    || (Cleared(c.m', n, c.done) && exists serial :: Uniform(pki, c.m, n, serial))
  }

  ghost predicate Agreed(pki: Pki, n: nat, c: Confirmation) {
    exists serial :: Agree(pki, c.m, n, serial)
  }

  /** Any sequence of installations, restores, startups and confirmations, each failing or losing power
      anywhere, from a disk on which some directories may be missing or empty.  As long as every confirmation
      was in order, the directories in `holds` can go back to the confirmed identity and no other one can
      come back, and one undisturbed startup succeeds and converges.  If all directories held it to begin
      with, and agreed at every confirmation, it ends with one known serial. */
  method Run(fs: Disk<Path>, pki: Pki, n: nat, events: seq<Event>, ghost holds0: set<nat>, ghost confirmed0: int,
      ghost known0: set<int>)
    returns (up: bool, ghost cut: Fs, ghost holds: set<nat>, ghost confirmed: int, ghost known: set<int>,
      ghost confirmations: seq<Confirmation>)
    requires Protected(pki, fs.m, n, holds0, confirmed0, known0)
    modifies fs
    ensures known == known0 + InstalledSerials(pki, events)
    ensures forall c | c in confirmations :: CleanedTo(c.m, c.m', n, c.done)
    ensures (forall e | e in events :: !e.DoConfirm?) ==>
              confirmations == [] && confirmed == confirmed0 && holds == holds0
    ensures !fs.crashed && !fs.faulty
    ensures (forall c | c in confirmations :: InOrder(pki, n, c)) ==>
              && up
              && Protected(pki, fs.m, n, holds, confirmed, known)
              && Converged(pki, cut, fs.m, n, holds, confirmed, known)
    ensures All(n) <= holds0 && (forall c | c in confirmations :: InOrder(pki, n, c) && Agreed(pki, n, c)) ==>
              exists serial :: serial in known && Agree(pki, fs.m, n, serial)
  {
    hide InOrder, Protected, Agreed, Converged, StartupCan, StartupOutcome;
    holds, confirmed, known, confirmations := holds0, confirmed0, known0, [];
    for i := 0 to |events|
      invariant known == known0 + InstalledSerials(pki, events[..i])
      invariant forall c | c in confirmations :: CleanedTo(c.m, c.m', n, c.done)
      invariant (forall e | e in events :: !e.DoConfirm?) ==>
                  confirmations == [] && confirmed == confirmed0 && holds == holds0
      invariant (forall c | c in confirmations :: InOrder(pki, n, c)) ==>
                  Protected(pki, fs.m, n, holds, confirmed, known)
      invariant All(n) <= holds0 && (forall c | c in confirmations :: InOrder(pki, n, c) && Agreed(pki, n, c)) ==>
                  All(n) <= holds
    {
      assert events[i] in events;
      ghost var before, was := fs.m, known;
      assert events[..i + 1] == events[..i] + [events[i]];
      known := known0 + InstalledSerials(pki, events[..i + 1]);
      InstalledNext(pki, events[..i], events[i]);
      ghost var extra: set<Option<int>> := {};
      if events[i].DoConfirm? {
        assert known == was;
        ghost var c: Confirmation;
        c, holds, confirmed := Confirm(fs, pki, n, events[i].faults, holds, confirmed, known);
        ghost var earlier := confirmations;
        confirmations := earlier + [c];
        assert c in confirmations && forall c' | c' in earlier :: c' in confirmations;
      } else {
        extra := Step(fs, pki, n, events[i]);
        if forall c | c in confirmations :: InOrder(pki, n, c) {
          KeptProtects(pki, before, fs.m, extra, n, holds, confirmed, was, known);
        }
      }
    }
    assert events[..|events|] == events;
    fs.Boot(false);
    cut := fs.m;
    up := RecoverStartup(fs, pki, n);
    if forall c | c in confirmations :: InOrder(pki, n, c) {
      KeptProtects(pki, cut, fs.m, {}, n, holds, confirmed, known, known);
      StartupConverges(pki, cut, fs.m, n, holds, confirmed, known);
    }
  }

  /** An event that is no confirmation. */
  method Step(fs: Disk<Path>, pki: Pki, n: nat, event: Event) returns (ghost extra: set<Option<int>>)
    requires !event.DoConfirm?
    modifies fs
    ensures Kept(pki, old(fs.m), fs.m, extra) && NewBackupsLast(old(fs.m), fs.m, n)
    ensures extra == if event.DoInstall? then {pki.identity(event.mat)} else {}
  {
    extra := {};
    match event {
      case DoInstall(mat, faults) =>
        fs.Boot(faults);
        extra := {pki.identity(mat)};
        var r, _, _ := Install(fs, pki, n, mat);
      case DoRestore(faults) =>
        fs.Boot(faults);
        ghost var before := fs.m;
        var ok := Restore(fs, pki, n);
        RestoreAddsNone(before, fs.m, n);
      case DoStartup(faults) =>
        fs.Boot(faults);
        var ok := RecoverStartup(fs, pki, n);
      case DoConfirm(_) =>
    }
  }

  /** A confirmation: the cleanup, whatever the directories hold. */
  method Confirm(fs: Disk<Path>, pki: Pki, n: nat, faults: bool, ghost holds: set<nat>, ghost before: int,
      ghost known: set<int>)
    returns (ghost c: Confirmation, ghost holds': set<nat>, ghost confirmed: int)
    modifies fs
    ensures c.m == old(fs.m) && c.m' == fs.m && CleanedTo(c.m, c.m', n, c.done)
    ensures Protected(pki, old(fs.m), n, holds, before, known) && InOrder(pki, n, c) ==>
              && Protected(pki, fs.m, n, holds', confirmed, known)
              && (Agreed(pki, n, c) && All(n) <= holds ==> All(n) <= holds')
  {
    fs.Boot(faults);
    ghost var start := fs.m;
    ghost var done: nat;
    var ok: bool;
    ok, done := Cleanup(fs, n);
    c, holds', confirmed := Confirmation(start, fs.m, done), holds, before;
    if Protected(pki, start, n, holds, before, known) && InOrder(pki, n, c) {
      holds', confirmed := ConfirmProtects(pki, n, c, holds, before, known);
    }
  }

  lemma InstalledNext(pki: Pki, events: seq<Event>, e: Event)
    ensures InstalledSerials(pki, events + [e]) ==
            InstalledSerials(pki, events) + if e.DoInstall? && pki.identity(e.mat).Some?
                then {pki.identity(e.mat).value} else {}
  {
    forall x | x in InstalledSerials(pki, events) ensures x in InstalledSerials(pki, events + [e]) {
      var e' :| e' in events && e'.DoInstall? && pki.identity(e'.mat) == Some(x);
      assert e' in events + [e];
    }
    assert e in events + [e];
  }

  ghost function InstalledSerials(pki: Pki, events: seq<Event>): (s: set<int>) {
    set e | e in events && e.DoInstall? && pki.identity(e.mat).Some? :: pki.identity(e.mat).value
  }

  /** A cleanup brings no identity. */
  lemma CleanedIds(pki: Pki, m: Fs, m': Fs, n: nat, done: nat, d: nat, known: set<int>)
    requires d < n && CleanedTo(m, m', n, done)
    requires forall id: int | Some(id) in Ids(pki, m, d) :: id in known
    ensures forall id: int | Some(id) in Ids(pki, m', d) :: id in known
  {
    assert Get(m', Path(d, Current)) == Get(m, Path(d, Current));
    if d > done {
      assert SameDir(m, m', d);
      assert Get(m', Path(d, Old)) == Get(m, Path(d, Old)) && Get(m', Path(d, Failed)) == Get(m, Path(d, Failed));
    } else if d < done {
      assert Get(m', Path(d, Old)) == None && Get(m', Path(d, Failed)) == None;
    } else {
      assert LeftOf(m, m', Path(d, Old)) && LeftOf(m, m', Path(d, Failed));
      if Path(d, Old) in m' {
        RemnantIdentity(pki, m[Path(d, Old)], m'[Path(d, Old)]);
      }
      if Path(d, Failed) in m' {
        RemnantIdentity(pki, m[Path(d, Failed)], m'[Path(d, Failed)]);
      }
    }
  }

  /** After a cleanup that passed the last backup, each directory can go back to what is in use and no more. */
  lemma ClearedFallback(m: Fs, m': Fs, n: nat, done: nat, d: nat)
    requires d < n && CleanedTo(m, m', n, done) && Cleared(m', n, done)
    ensures Path(d, Old) !in m' && Fallback(m', d) == Get(m, Path(d, Current))
  {
    assert Get(m', Path(d, Current)) == Get(m, Path(d, Current));
    if d < done {
      assert Get(m', Path(d, Old)) == None;
    }
  }

  /** A confirmation in order leaves every directory able to go back to one identity or to none. */
  lemma ConfirmProtects(pki: Pki, n: nat, c: Confirmation, holds: set<nat>, before: int, known: set<int>)
    returns (holds': set<nat>, confirmed: int)
    requires Protected(pki, c.m, n, holds, before, known) && CleanedTo(c.m, c.m', n, c.done) && InOrder(pki, n, c)
    ensures Protected(pki, c.m', n, holds', confirmed, known)
    ensures Agreed(pki, n, c) && All(n) <= holds ==> All(n) <= holds'
  {
    if NoBackups(c.m, n) || (Untouched(pki, c.m, c.m', c.done) && n > 0) {
      holds', confirmed := holds, before;
      StillThere(pki, n, c, holds, before, known);
    } else {
      holds', confirmed := ClearedProtects(pki, n, c, holds, before, known);
    }
  }

  lemma StillThere(pki: Pki, n: nat, c: Confirmation, holds: set<nat>, before: int, known: set<int>)
    requires Protected(pki, c.m, n, holds, before, known) && CleanedTo(c.m, c.m', n, c.done)
    requires NoBackups(c.m, n) || Untouched(pki, c.m, c.m', c.done)
    ensures Protected(pki, c.m', n, holds, before, known)
  {
    var m, m' := c.m, c.m';
    forall d: nat | d < n
      ensures Path(d, Old) in m' <==> Path(d, Old) in m
      ensures Fallback(m', d).Some? <==> Fallback(m, d).Some?
      ensures ProtectedAt(pki, m', d, d in holds, before, known)
    {
      assert ProtectedAt(pki, m, d, d in holds, before, known);
      CleanedIds(pki, m, m', n, c.done, d, known);
      assert Get(m', Path(d, Current)) == Get(m, Path(d, Current));
      if d < c.done {
        assert Get(m', Path(d, Old)) == None;
      } else if d > c.done {
        assert SameDir(m, m', d);
        assert Get(m', Path(d, Old)) == Get(m, Path(d, Old));
      } else {
        assert LeftOf(m, m', Path(d, Old));
      }
    }
  }

  lemma ClearedProtects(pki: Pki, n: nat, c: Confirmation, holds: set<nat>, before: int, known: set<int>)
    returns (holds': set<nat>, confirmed: int)
    requires Protected(pki, c.m, n, holds, before, known) && CleanedTo(c.m, c.m', n, c.done)
    requires n == 0 || (Cleared(c.m', n, c.done) && exists serial :: Uniform(pki, c.m, n, serial))
    ensures Protected(pki, c.m', n, holds', confirmed, known)
    ensures Agreed(pki, n, c) ==> All(n) <= holds'
  {
    var m, m' := c.m, c.m';
    if n == 0 {
      return {}, before;
    }
    var serial :| Uniform(pki, m, n, serial);
    holds' := set d: nat | d < n && IdAt(pki, m, Path(d, Current)) == Some(serial);
    confirmed := if holds' == {} then before else serial;
    forall d: nat | d < n ensures ProtectedAt(pki, m', d, d in holds', confirmed, known) && Path(d, Old) !in m' {
      assert ProtectedAt(pki, m, d, d in holds, before, known);
      CleanedIds(pki, m, m', n, c.done, d, known);
      ClearedFallback(m, m', n, c.done, d);
    }
    if holds' != {} {
      var d :| d in holds';
      assert ProtectedAt(pki, m, d, d in holds, before, known);
      assert Some(serial) in Ids(pki, m, d);
    }
    if Agreed(pki, n, c) {
      var s :| Agree(pki, m, n, s);
      assert IdAt(pki, m, Path(0, Current)) == Some(s);
      forall d: nat | d < n ensures d in holds' {
        assert IdAt(pki, m, Path(d, Current)) == Some(s);
      }
    }
  }

  /** All directories can go back to one identity. */
  ghost predicate Protectable(pki: Pki, m: Fs, n: nat) {
    exists serial, known :: Protected(pki, m, n, All(n), serial, known)
  }

  /** No two can go back to different ones. */
  ghost predicate Sane(pki: Pki, m: Fs, n: nat) {
    exists holds, serial, known :: Protected(pki, m, n, holds, serial, known)
  }

  /** A complete confirmation keeps the protection exactly when the directories agree, or, where some may have
      none, exactly when they do not contradict each other; the code does not look. */
  lemma ConfirmKeepsIff(pki: Pki, m: Fs, m': Fs, n: nat, holds: set<nat>, before: int, known: set<int>)
    requires Protected(pki, m, n, holds, before, known) && CleanedTo(m, m', n, n)
    ensures Protectable(pki, m', n) <==> exists serial :: Agree(pki, m, n, serial)
    ensures Sane(pki, m', n) <==> exists serial :: Uniform(pki, m, n, serial)
  {
    var c := Confirmation(m, m', n);
    forall d: nat | d < n ensures Fallback(m', d) == Get(m, Path(d, Current)) {
      ClearedFallback(m, m', n, n, d);
    }
    if Protectable(pki, m', n) {
      var s, k :| Protected(pki, m', n, All(n), s, k);
      forall d: nat | d < n ensures IdAt(pki, m, Path(d, Current)) == Some(s) {
        assert d in All(n) && ProtectedAt(pki, m', d, d in All(n), s, k);
      }
      assert Agree(pki, m, n, s);
    }
    if Sane(pki, m', n) {
      var h, s, k :| Protected(pki, m', n, h, s, k);
      forall d: nat | d < n
        ensures Path(d, Current) in m ==> RealDirAt(m, Path(d, Current))
        ensures IdAt(pki, m, Path(d, Current)) in {None, Some(s)}
      {
        assert ProtectedAt(pki, m', d, d in h, s, k);
      }
      assert Uniform(pki, m, n, s);
    }
    if serial :| Agree(pki, m, n, serial) {
      AgreedIsUniform(pki, m, n, serial);
      var h, s := ClearedProtects(pki, n, c, holds, before, known);
      HoldsAll(pki, m', n, h, s, known);
    }
    if serial :| Uniform(pki, m, n, serial) {
      var h, s := ClearedProtects(pki, n, c, holds, before, known);
    }
  }

  lemma AgreedIsUniform(pki: Pki, m: Fs, n: nat, serial: int)
    requires Agree(pki, m, n, serial)
    ensures Uniform(pki, m, n, serial)
  {
    forall d: nat | d < n
      ensures Path(d, Current) in m && RealDirAt(m, Path(d, Current)) && IdAt(pki, m, Path(d, Current)) == Some(serial)
    {
      assert IdAt(pki, m, Path(d, Current)) == Some(serial);
    }
  }

  lemma HoldsAll(pki: Pki, m: Fs, n: nat, holds: set<nat>, serial: int, known: set<int>)
    requires Protected(pki, m, n, holds, serial, known) && All(n) <= holds
    ensures Protected(pki, m, n, All(n), serial, known)
  {
    forall d: nat | d < n ensures ProtectedAt(pki, m, d, d in All(n), serial, known) {
      assert d in All(n) && ProtectedAt(pki, m, d, d in holds, serial, known);
    }
  }

  /** One that is cut short, of directories that agree on a new identity, keeps it exactly where it may stop. */
  lemma CutKeepsIff(pki: Pki, m: Fs, m': Fs, n: nat, done: nat, serial: int, before: int, known: set<int>)
    requires Protected(pki, m, n, All(n), before, known) && Agree(pki, m, n, serial) && serial != before && n > 0
    requires CleanedTo(m, m', n, done)
    ensures Protectable(pki, m', n) <==> CutFits(pki, m', n, done, before)
  {
    if CutFits(pki, m', n, done, before) {
      var c := Confirmation(m, m', done);
      BackedUp(pki, m, n, 0, serial, before, known);
      AgreedIsUniform(pki, m, n, serial);
      var h, s := ConfirmProtects(pki, n, c, All(n), before, known);
      HoldsAll(pki, m', n, h, s, known);
    } else {
      var other := if Path(done, Old) !in m' then done + 1 else 0;
      FallbackAfterCut(pki, m, m', n, done, done, serial, before, known);
      FallbackAfterCut(pki, m, m', n, done, other, serial, before, known);
      FallbacksPart(pki, m', n, done, other);
    }
  }

  lemma BackedUp(pki: Pki, m: Fs, n: nat, d: nat, serial: int, before: int, known: set<int>)
    requires Protected(pki, m, n, All(n), before, known) && Agree(pki, m, n, serial) && serial != before && d < n
    ensures Path(d, Old) in m && IdAt(pki, m, Path(d, Old)) == Some(before)
  {
    assert d in All(n) && ProtectedAt(pki, m, d, d in All(n), before, known);
    assert IdAt(pki, m, Path(d, Current)) == Some(serial);
  }

  lemma FallbacksPart(pki: Pki, m: Fs, n: nat, d: nat, e: nat)
    requires d < n && e < n
    requires FallbackId(pki, m, d) == None || FallbackId(pki, m, d) != FallbackId(pki, m, e)
    ensures !Protectable(pki, m, n)
  {
    forall s, k ensures !Protected(pki, m, n, All(n), s, k) {
      assert d in All(n) && e in All(n);
      assert Protected(pki, m, n, All(n), s, k) ==>
          ProtectedAt(pki, m, d, d in All(n), s, k) && ProtectedAt(pki, m, e, e in All(n), s, k);
    }
  }

  lemma FallbackAfterCut(pki: Pki, m: Fs, m': Fs, n: nat, done: nat, d: nat, serial: int, before: int, known: set<int>)
    requires Protected(pki, m, n, All(n), before, known) && Agree(pki, m, n, serial) && serial != before
    requires CleanedTo(m, m', n, done) && d < n && done < n
    ensures var id := FallbackId(pki, m', d);
      if d < done then id == Some(serial)
      else if d > done then id == Some(before)
      else if Path(d, Old) in m' then id == IdAt(pki, m', Path(d, Old)) && id in {None, Some(before)}
      else id == Some(serial)
  {
    BackedUp(pki, m, n, d, serial, before, known);
    assert IdAt(pki, m, Path(d, Current)) == Some(serial);
    assert Get(m', Path(d, Current)) == Get(m, Path(d, Current));
    if d < done {
      assert Get(m', Path(d, Old)) == None;
    } else if d > done {
      assert SameDir(m, m', d);
      assert Get(m', Path(d, Old)) == Get(m, Path(d, Old));
    } else if Path(d, Old) in m' {
      assert LeftOf(m, m', Path(d, Old));
      RemnantIdentity(pki, m[Path(d, Old)], m'[Path(d, Old)]);
    }
  }

  // ---------- Several installations, one restore ----------

  /** However many installations follow each other, completed or not, the restore that follows gives back
      each directory as it was before the first of them, and a second restore changes nothing. */
  lemma {:induction false} RepeatedInstalls(pki: Pki, states: seq<Fs>, restored: Fs, again: Fs, extra: set<Option<int>>,
      d: nat)
    requires |states| > 0
    requires forall i | 0 <= i < |states| - 1 :: Kept(pki, states[i], states[i + 1], extra)
    requires Path(d, Current) in states[0] && Path(d, Old) !in states[0]
    requires RestoredAt(states[|states| - 1], restored, d) && RestoredAt(restored, again, d)
    ensures Get(restored, Path(d, Current)) == Get(states[0], Path(d, Current))
    ensures Get(again, Path(d, Current)) == Get(restored, Path(d, Current))
    ensures Get(again, Path(d, Old)) == Get(restored, Path(d, Old)) == None
    ensures Get(again, Path(d, Failed)) == Get(restored, Path(d, Failed)) == None
  {
    FallbackAlong(pki, states, extra, d);
  }

  /** Any number of installations, whatever becomes of each, then two restores. */
  method InstallThenRestore(fs: Disk<Path>, pki: Pki, n: nat, mats: seq<Material>) returns (restored: bool)
    requires !fs.crashed
    requires forall d: nat | d < n :: RealDirAt(fs.m, Path(d, Current)) && Path(d, Old) !in fs.m
    modifies fs`m, fs`crashed
    ensures restored ==> forall d: nat | d < n ::
              && Get(fs.m, Path(d, Current)) == Get(old(fs.m), Path(d, Current))
              && Get(fs.m, Path(d, Old)) == None && Get(fs.m, Path(d, Failed)) == None
    ensures !fs.faulty ==> restored && !fs.crashed
  {
    hide Identity;
    ghost var start := fs.m;
    for i := 0 to |mats|
      invariant forall d: nat | d < n :: Fallback(fs.m, d) == Get(start, Path(d, Current))
      invariant !fs.faulty ==> !fs.crashed
    {
      ghost var before := fs.m;
      if fs.crashed {
        return false;
      }
      var r, _, _ := Install(fs, pki, n, mats[i]);
      forall d: nat | d < n ensures Fallback(fs.m, d) == Fallback(before, d) {
        assert RealDirAt(start, Path(d, Current));
        assert KeptAt(pki, before, fs.m, {pki.identity(mats[i])}, d);
      }
    }
    ghost var installed := fs.m;
    assert forall d: nat | d < n :: FallbackIsDir(installed, d);
    restored := Restore(fs, pki, n);
    ghost var first := fs.m;
    if restored {
      forall d: nat | d < n ensures FallbackIsDir(first, d) && Fallback(first, d) == Get(start, Path(d, Current)) {
        RestoredIsFallback(installed, first, d);
      }
      restored := Restore(fs, pki, n);
    }
    if restored {
      forall d: nat | d < n ensures Get(fs.m, Path(d, Current)) == Get(start, Path(d, Current))
          && RestoredAt(first, fs.m, d) {
        assert RestoredAt(first, fs.m, d);
      }
    }
  }

  lemma RestoredIsFallback(m: Fs, m': Fs, d: nat)
    requires RestoredAt(m, m', d)
    ensures FallbackIsDir(m', d) && Fallback(m', d) == Fallback(m, d)
  {}

  lemma {:induction false} FallbackAlong(pki: Pki, states: seq<Fs>, extra: set<Option<int>>, d: nat)
    requires |states| > 0
    requires forall i | 0 <= i < |states| - 1 :: Kept(pki, states[i], states[i + 1], extra)
    requires Fallback(states[0], d).Some?
    ensures Fallback(states[|states| - 1], d) == Fallback(states[0], d)
  {
    if |states| > 1 {
      assert Kept(pki, states[0], states[0 + 1], extra);
      assert KeptAt(pki, states[0], states[1], extra, d);
      var rest := states[1..];
      forall i | 0 <= i < |rest| - 1 ensures Kept(pki, rest[i], rest[i + 1], extra) {
        assert Kept(pki, states[i + 1], states[i + 1 + 1], extra);
      }
      FallbackAlong(pki, rest, extra, d);
    }
  }
}
