/** The mTLS rollover protocol: staging new client material beside each directory, swapping it in by
    renames, rolling back, restoring, repairing at startup and cleaning up after confirmation. */
module Rollover {
  import opened FileSystem
  import opened StagedTree

  /** Where a directory's versions live: `dir`, `dir.rollover-old`, `dir.rollover-failed` and the
      `.mtls-staging-*` directories beside it. */
  datatype Role = Current | Old | Failed | Stage(k: nat)
  datatype Path = Path(dir: nat, role: Role)
  type Fs = map<Path, Node>

  // ---------- What the protocol protects ----------

  /** What a directory can always go back to: its backup if there is one, else itself. */
  function Fallback(m: Fs, d: nat): Option<Node> {
    if Path(d, Old) in m then Some(m[Path(d, Old)]) else Get(m, Path(d, Current))
  }

  /** The fallback stays what it was; a directory that had nothing may gain an empty one. */
  ghost predicate FallbackKept(m: Fs, m': Fs, d: nat) {
    || Fallback(m', d) == Fallback(m, d)
    || (Fallback(m, d).None? && Fallback(m', d) == Some(Dir(map[])))
  }

  function IdAt(pki: Pki, m: Fs, p: Path): Option<int> {
    if p in m then Identity(pki, m[p]) else None
  }

  ghost function Ids(pki: Pki, m: Fs, d: nat): set<Option<int>> {
    {None, IdAt(pki, m, Path(d, Current)), IdAt(pki, m, Path(d, Old)), IdAt(pki, m, Path(d, Failed))}
  }

  ghost predicate KeptAt(pki: Pki, m: Fs, m': Fs, extra: set<Option<int>>, d: nat) {
    FallbackKept(m, m', d) && Ids(pki, m', d) <= Ids(pki, m, d) + extra
  }

  /** No fallback is lost, and no identity appears that was neither there nor in `extra`. */
  ghost predicate Kept(pki: Pki, m: Fs, m': Fs, extra: set<Option<int>>) {
    forall d: nat :: KeptAt(pki, m, m', extra, d)
  }

  lemma KeptTrans(pki: Pki, a: Fs, b: Fs, c: Fs, extra: set<Option<int>>)
    requires Kept(pki, a, b, extra) && Kept(pki, b, c, extra)
    ensures Kept(pki, a, c, extra)
  {
    forall d: nat ensures KeptAt(pki, a, c, extra, d) {
      assert KeptAt(pki, a, b, extra, d) && KeptAt(pki, b, c, extra, d);
    }
  }

  lemma KeptAtTrans(pki: Pki, a: Fs, b: Fs, c: Fs, extra: set<Option<int>>, d: nat)
    requires KeptAt(pki, a, b, {}, d) || KeptAt(pki, a, b, extra, d)
    requires KeptAt(pki, b, c, {}, d) || KeptAt(pki, b, c, extra, d)
    ensures KeptAt(pki, a, c, extra, d)
  {}

  lemma KeptMore(pki: Pki, a: Fs, b: Fs, extra: set<Option<int>>, d: nat)
    requires KeptAt(pki, a, b, {}, d)
    ensures KeptAt(pki, a, b, extra, d)
  {}

  lemma KeptWiden(pki: Pki, a: Fs, b: Fs, less: set<Option<int>>, more: set<Option<int>>)
    requires Kept(pki, a, b, less) && less <= more
    ensures Kept(pki, a, b, more)
  {
    forall d: nat ensures KeptAt(pki, a, b, more, d) {
      assert KeptAt(pki, a, b, less, d);
    }
  }

  ghost predicate SameDir(m: Fs, m': Fs, d: nat) {
    forall role :: Get(m', Path(d, role)) == Get(m, Path(d, role))
  }

  ghost predicate SameElsewhere(m: Fs, m': Fs, d: nat) {
    forall p: Path | p.dir != d :: Get(m', p) == Get(m, p)
  }

  ghost predicate SameStages(m: Fs, m': Fs, d: nat) {
    forall k: nat :: Get(m', Path(d, Stage(k))) == Get(m, Path(d, Stage(k)))
  }

  ghost predicate OtherStagesSame(m: Fs, m': Fs, d: nat, except: nat) {
    forall k: nat | k != except :: Get(m', Path(d, Stage(k))) == Get(m, Path(d, Stage(k)))
  }

  lemma KeptFromOneDir(pki: Pki, m: Fs, m': Fs, extra: set<Option<int>>, d: nat)
    requires SameElsewhere(m, m', d) && KeptAt(pki, m, m', extra, d)
    ensures Kept(pki, m, m', extra)
  {
    forall e: nat ensures KeptAt(pki, m, m', extra, e) {
      if e != d {
        SameDirKept(pki, m, m', extra, e);
      }
    }
  }

  /** Directories left alone so far stay so when only directory `d` changes. */
  lemma SameDirsStep(m: Fs, mid: Fs, m': Fs, d: nat)
    requires SameElsewhere(mid, m', d)
    ensures forall e: nat | e != d && SameDir(m, mid, e) :: SameDir(m, m', e)
    ensures forall e: nat, k: nat | e != d && OtherStagesSame(m, mid, e, k) :: OtherStagesSame(m, m', e, k)
  {
    forall e: nat, k: nat | e != d && OtherStagesSame(m, mid, e, k) ensures OtherStagesSame(m, m', e, k) {
      forall j: nat | j != k ensures Get(m', Path(e, Stage(j))) == Get(m, Path(e, Stage(j))) {
        assert Get(mid, Path(e, Stage(j))) == Get(m, Path(e, Stage(j)));
      }
    }
    forall e: nat | e != d && SameDir(m, mid, e) ensures SameDir(m, m', e) {
      forall role ensures Get(m', Path(e, role)) == Get(m, Path(e, role)) {
        assert Get(mid, Path(e, role)) == Get(m, Path(e, role));
      }
    }
  }

  lemma SameDirKept(pki: Pki, m: Fs, m': Fs, extra: set<Option<int>>, d: nat)
    requires Get(m', Path(d, Current)) == Get(m, Path(d, Current))
    requires Get(m', Path(d, Old)) == Get(m, Path(d, Old))
    requires Get(m', Path(d, Failed)) == Get(m, Path(d, Failed))
    ensures KeptAt(pki, m, m', extra, d)
  {}

  predicate RealDirAt(m: Fs, p: Path) {
    p in m && m[p].Dir?
  }

  // ---------- Staging (installEdgeMTLSMaterial, first loop) ----------

  /** What a directory and its backup are once stale backups have been put back. */
  function PreparedCurrent(m: Fs, d: nat): Node {
    if RealDirAt(m, Path(d, Current)) then m[Path(d, Current)]
    else if Path(d, Old) in m then m[Path(d, Old)]
    else if Path(d, Current) in m then m[Path(d, Current)]
    else Dir(map[])
  }

  function PreparedOld(m: Fs, d: nat): Option<Node> {
    if RealDirAt(m, Path(d, Current)) then Get(m, Path(d, Old)) else None
  }

  /** Settling a directory, wherever it stops: as it was, settled, or a path that was no directory gone. */
  ghost predicate Settling(m: Fs, m': Fs, d: nat) {
    || Get(m', Path(d, Current)) == Get(m, Path(d, Current))
    || Get(m', Path(d, Current)) == Some(PreparedCurrent(m, d))
    || (!RealDirAt(m, Path(d, Current)) && Path(d, Current) !in m')
  }

  /** Puts a stale backup back when the directory is missing or no directory, or makes an empty one. */
  method Settle(fs: Disk<Path>, ghost pki: Pki, d: nat) returns (ok: bool)
    modifies fs`m, fs`crashed
    ensures old(fs.crashed) ==> fs.crashed && fs.m == old(fs.m)
    ensures fs.crashed ==> !ok
    ensures SameElsewhere(old(fs.m), fs.m, d) && SameStages(old(fs.m), fs.m, d)
    ensures Get(fs.m, Path(d, Failed)) == Get(old(fs.m), Path(d, Failed))
    ensures KeptAt(pki, old(fs.m), fs.m, {}, d)
    ensures RealDirAt(old(fs.m), Path(d, Current)) ==> fs.m == old(fs.m)
    ensures Settling(old(fs.m), fs.m, d)
    ensures Path(d, Old) in fs.m ==> Path(d, Old) in old(fs.m)
    ensures ok ==>
              && Get(fs.m, Path(d, Current)) == Some(PreparedCurrent(old(fs.m), d))
              && Get(fs.m, Path(d, Old)) == PreparedOld(old(fs.m), d)
              && (Path(d, Old) in fs.m ==> fs.m[Path(d, Old)].Dir?)
    ensures !fs.faulty && !old(fs.crashed) ==>
              !fs.crashed && ok == (Path(d, Old) in old(fs.m) ==> old(fs.m)[Path(d, Old)].Dir?)
  {
    var dir, backup := Path(d, Current), Path(d, Old);
    ok := fs.Touch(); // parent directory
    if !ok {
      return;
    }
    var current := fs.Lstat(dir);
    var saved := fs.Lstat(backup);
    if saved == NotADir {
      return false;
    }
    if saved == RealDir && current == Missing {
      ok := fs.Rename(backup, dir);
      if !ok {
        return;
      }
      current := RealDir;
    } else if saved == RealDir && current != Unknown {
      var again := fs.Lstat(dir);
      if again == Unknown || again == Missing {
        return false;
      }
      if again == NotADir {
        ok := fs.RemoveAll(dir);
        if !ok {
          return;
        }
        ok := fs.Rename(backup, dir);
        if !ok {
          return;
        }
        current := RealDir;
      }
    } else if saved == Unknown {
      return false;
    }
    if current == Unknown {
      return false;
    }
    ok := true;
    if current == Missing {
      ok := fs.Mkdir(dir);
    }
  }

  /** `dir`, its staging number, whether it was moved to `dir.rollover-failed`, whether it was swapped. */
  datatype EdgeStage = EdgeStage(dir: nat, k: nat, moved: bool, swapped: bool)

  ghost predicate StageReady(m: Fs, s: EdgeStage, mat: Material) {
    && RealDirAt(m, Path(s.dir, Current))
    && (Path(s.dir, Old) in m ==> m[Path(s.dir, Old)].Dir?)
    && Get(m, Path(s.dir, Stage(s.k))) == Some(Dir(Staged(m[Path(s.dir, Current)].entries, mat)))
  }

  /** What an installation that nothing disturbs needs of a directory: no links or special files in the
      part that is carried over, and a backup, if any, that is a directory. */
  predicate Stageable(m: Fs, d: nat) {
    && (Path(d, Old) in m ==> m[Path(d, Old)].Dir?)
    && PreparedCurrent(m, d).Dir?
    && CopyableEntries(PreparedCurrent(m, d).entries, true)
  }

  /** The same, without a word of what the copy refuses: the backup, if any, is a directory, and so is what is in
      use once a stale backup is put back, with files and directories only outside the three root names. */
  ghost predicate OrdinaryAt(m: Fs, d: nat) {
    && (Path(d, Old) in m ==> m[Path(d, Old)].Dir?)
    && PreparedCurrent(m, d).Dir?
    && OrdinaryBelow(PreparedCurrent(m, d).entries)
  }

  lemma StageableIff(m: Fs, d: nat)
    ensures Stageable(m, d) <==> OrdinaryAt(m, d)
  {
    if PreparedCurrent(m, d).Dir? {
      CopyableEntriesIff(PreparedCurrent(m, d).entries);
    }
  }

  lemma UnusedStage(used: set<Path>) returns (k: nat)
    ensures forall p: Path | p in used && p.role.Stage? :: p.role.k < k
  {
    if used == {} {
      k := 0;
    } else {
      var p :| p in used;
      k := UnusedStage(used - {p});
      k := if p.role.Stage? && p.role.k >= k then p.role.k + 1 else k;
    }
  }

  /** One round of the first loop: settle the directory, then build its staging directory. */
  method PrepareStage(fs: Disk<Path>, ghost pki: Pki, d: nat, mat: Material)
    returns (ok: bool, made: bool, k: nat)
    modifies fs`m, fs`crashed
    ensures old(fs.crashed) ==> fs.crashed && fs.m == old(fs.m)
    ensures fs.crashed ==> !ok
    ensures ok ==> made
    ensures made ==> Path(d, Stage(k)) !in old(fs.m)
    ensures SameElsewhere(old(fs.m), fs.m, d)
    ensures if made then OtherStagesSame(old(fs.m), fs.m, d, k) else fs.crashed || SameStages(old(fs.m), fs.m, d)
    ensures Get(fs.m, Path(d, Failed)) == Get(old(fs.m), Path(d, Failed))
    ensures KeptAt(pki, old(fs.m), fs.m, {}, d)
    ensures Settling(old(fs.m), fs.m, d)
    ensures Path(d, Old) in fs.m ==> Path(d, Old) in old(fs.m)
    ensures RealDirAt(old(fs.m), Path(d, Current)) ==>
              && Get(fs.m, Path(d, Current)) == Get(old(fs.m), Path(d, Current))
              && Get(fs.m, Path(d, Old)) == Get(old(fs.m), Path(d, Old))
    ensures ok ==>
              && Get(fs.m, Path(d, Current)) == Some(PreparedCurrent(old(fs.m), d))
              && Get(fs.m, Path(d, Old)) == PreparedOld(old(fs.m), d)
              && StageReady(fs.m, EdgeStage(d, k, false, false), mat)
    ensures !fs.faulty && !old(fs.crashed) ==> !fs.crashed && ok == Stageable(old(fs.m), d)
  {
    made, k := false, 0;
    ok := Settle(fs, pki, d);
    if !ok {
      return;
    }
    ghost var settled := fs.m;
    ok, made, k := BuildStage(fs, d, mat);
    assert Get(fs.m, Path(d, Current)) == Get(settled, Path(d, Current));
    assert Get(fs.m, Path(d, Old)) == Get(settled, Path(d, Old));
    assert Get(fs.m, Path(d, Failed)) == Get(settled, Path(d, Failed));
  }

  /** Makes the staging directory and fills it. */
  method BuildStage(fs: Disk<Path>, d: nat, mat: Material) returns (ok: bool, made: bool, k: nat)
    requires Path(d, Current) in fs.m
    modifies fs`m, fs`crashed
    ensures old(fs.crashed) ==> fs.crashed && fs.m == old(fs.m)
    ensures fs.crashed ==> !ok
    ensures ok ==> made
    ensures made ==> Path(d, Stage(k)) !in old(fs.m)
    ensures forall p | p != Path(d, Stage(k)) :: Get(fs.m, p) == Get(old(fs.m), p)
    ensures !made && !fs.crashed ==> fs.m == old(fs.m)
    ensures ok ==>
              && RealDirAt(old(fs.m), Path(d, Current))
              && Get(fs.m, Path(d, Stage(k))) == Some(Dir(Staged(old(fs.m)[Path(d, Current)].entries, mat)))
    ensures !fs.faulty && !old(fs.crashed) ==>
              !fs.crashed && ok == (RealDirAt(old(fs.m), Path(d, Current))
                  && CopyableEntries(old(fs.m)[Path(d, Current)].entries, true))
  {
    made := false;
    assert exists unused: nat :: Path(d, Stage(unused)) !in fs.m by {
      var unused := UnusedStage(fs.m.Keys);
      assert Path(d, Stage(unused)) !in fs.m;
    }
    k :| Path(d, Stage(k)) !in fs.m;
    var stage := Path(d, Stage(k));
    ok := fs.Mkdir(stage);
    if !ok {
      return;
    }
    made := true;
    var copied: map<string, Node>;
    ok, copied := CopyExtras(fs, Get(fs.m, Path(d, Current)), true);
    if !ok {
      return;
    }
    ok := fs.Write(stage, Dir(copied["ca.crt" := File(mat.ca, OWNER_ONLY)][
                                     "client.crt" := File(mat.cert, OWNER_ONLY)][
                                     "client.key" := File(mat.key, OWNER_ONLY)]));
    if ok {
      ok := fs.Touch(); // fsync of the staging directory
    }
  }

  /** cleanupStages: removes the staging directories that were made. */
  method ClearStages(fs: Disk<Path>, ghost pki: Pki, stages: seq<EdgeStage>) returns (ok: bool)
    requires forall i | 0 <= i < |stages| :: stages[i].dir == i
    modifies fs`m, fs`crashed
    ensures old(fs.crashed) ==> fs.crashed && fs.m == old(fs.m)
    ensures ok ==> !fs.crashed
    ensures forall p: Path | !p.role.Stage? :: Get(fs.m, p) == Get(old(fs.m), p)
    ensures forall d: nat | d >= |stages| :: SameDir(old(fs.m), fs.m, d)
    ensures forall d: nat | d < |stages| :: OtherStagesSame(old(fs.m), fs.m, d, stages[d].k)
    ensures ok ==> forall d: nat | d < |stages| :: Path(d, Stage(stages[d].k)) !in fs.m
    ensures Kept(pki, old(fs.m), fs.m, {})
    ensures !fs.faulty && !old(fs.crashed) ==> ok
  {
    ok := !fs.crashed;
    for i := 0 to |stages|
      invariant old(fs.crashed) ==> fs.crashed && fs.m == old(fs.m)
      invariant ok ==> !fs.crashed
      invariant !fs.faulty && !old(fs.crashed) ==> ok
      invariant forall p: Path | !p.role.Stage? :: Get(fs.m, p) == Get(old(fs.m), p)
      invariant forall d: nat | d >= i :: SameDir(old(fs.m), fs.m, d)
      invariant forall d: nat | d < i :: OtherStagesSame(old(fs.m), fs.m, d, stages[d].k)
      invariant ok ==> forall d: nat | d < i :: Path(d, Stage(stages[d].k)) !in fs.m
    {
      ghost var before := fs.m;
      var removed := fs.RemoveAll(Path(i, Stage(stages[i].k)));
      ok := ok && removed;
      SameDirsStep(old(fs.m), before, fs.m, i);
      assert OtherStagesSame(old(fs.m), fs.m, i, stages[i].k) by {
        assert SameDir(old(fs.m), before, i);
      }
    }
    forall d: nat ensures KeptAt(pki, old(fs.m), fs.m, {}, d) {
      SameDirKept(pki, old(fs.m), fs.m, {}, d);
    }
  }

  // ---------- Swapping (second loop) ----------

  datatype SwapStep = Swapped(moved: bool) | Refused(undone: bool)

  /** Renames that cannot take a directory's fallback away. */
  ghost predicate SafeMove(m: Fs, d: nat, from: Role, to: Role) {
    match (from, to)
    case (Old, Current) => true
    case (Current, Old) => Path(d, Old) !in m
    case (Current, Failed) => Path(d, Old) in m
    case (Failed, Current) => Path(d, Old) in m
    case (Stage(_), Current) => Path(d, Old) in m
    case _ => false
  }

  method Move(fs: Disk<Path>, ghost pki: Pki, d: nat, from: Role, to: Role, ghost extra: set<Option<int>>)
      returns (ok: bool)
    requires from != to
    requires !fs.crashed ==> SafeMove(fs.m, d, from, to)
    requires !fs.crashed && from.Stage? ==> IdAt(pki, fs.m, Path(d, from)) in extra
    modifies fs`m, fs`crashed
    ensures old(fs.crashed) ==> fs.crashed && fs.m == old(fs.m)
    ensures fs.crashed ==> !ok
    ensures ok ==>
              CanRename(old(fs.m), Path(d, from), Path(d, to)) && fs.m == Renamed(old(fs.m), Path(d, from), Path(d, to))
    ensures !ok && !fs.crashed ==> fs.m == old(fs.m)
    ensures fs.m == old(fs.m) || (Path(d, from) in old(fs.m) && fs.m == Renamed(old(fs.m), Path(d, from), Path(d, to)))
    ensures KeptAt(pki, old(fs.m), fs.m, extra, d)
    ensures !fs.faulty && !old(fs.crashed) ==> !fs.crashed && ok == CanRename(old(fs.m), Path(d, from), Path(d, to))
  {
    ok := fs.Rename(Path(d, from), Path(d, to));
  }

  /** Removes a directory's current or failed version. */
  method Discard(fs: Disk<Path>, ghost pki: Pki, d: nat, role: Role) returns (ok: bool)
    requires role == Failed || (role == Current && (!fs.crashed ==> Path(d, Old) in fs.m))
    modifies fs`m, fs`crashed
    ensures old(fs.crashed) ==> fs.crashed && fs.m == old(fs.m)
    ensures fs.crashed ==> !ok
    ensures ok ==> Path(d, role) !in fs.m
    ensures var p := Path(d, role);
      || fs.m == old(fs.m) - {p}
      || (p in old(fs.m) && p in fs.m && fs.m == old(fs.m)[p := fs.m[p]] && Remnant(old(fs.m)[p], fs.m[p]))
    ensures KeptAt(pki, old(fs.m), fs.m, {}, d)
    ensures !fs.faulty && !old(fs.crashed) ==> ok && !fs.crashed
  {
    ghost var before := fs.m;
    var p := Path(d, role);
    ok := fs.RemoveAll(p);
    if p in fs.m {
      RemnantIdentity(pki, before[p], fs.m[p]);
    }
  }

  datatype Aside = Aside(moved: bool) | NotAside(undone: bool)

  /** Moves the directory to `dir.rollover-old`, or, when that holds the last confirmed version already,
      to `dir.rollover-failed`. */
  method PutAside(fs: Disk<Path>, ghost pki: Pki, d: nat) returns (r: Aside)
    modifies fs`m, fs`crashed
    ensures old(fs.crashed) ==> fs.crashed && fs.m == old(fs.m)
    ensures fs.crashed ==> r == NotAside(false)
    ensures SameElsewhere(old(fs.m), fs.m, d) && SameStages(old(fs.m), fs.m, d)
    ensures KeptAt(pki, old(fs.m), fs.m, {}, d)
    ensures r.NotAside? && !fs.crashed ==>
              && r.undone
              && Get(fs.m, Path(d, Current)) == Get(old(fs.m), Path(d, Current))
              && Get(fs.m, Path(d, Old)) == Get(old(fs.m), Path(d, Old))
    ensures r.Aside? ==>
              && r.moved == (Path(d, Old) in old(fs.m))
              && Path(d, Current) !in fs.m
              && Get(fs.m, Path(d, Old)) == Fallback(old(fs.m), d)
              && Path(d, Old) in fs.m
              && (r.moved ==> Get(fs.m, Path(d, Failed)) == Get(old(fs.m), Path(d, Current)))
    ensures !fs.faulty && !old(fs.crashed) && Path(d, Current) in old(fs.m) ==> r.Aside? && !fs.crashed
  {
    var saved := fs.Lstat(Path(d, Old));
    if saved == Unknown {
      return NotAside(!fs.crashed);
    }
    if saved == Missing {
      var aside := Move(fs, pki, d, Current, Old, {});
      return if aside then Aside(false) else NotAside(!fs.crashed);
    }
    var cleared := Discard(fs, pki, d, Failed);
    if !cleared {
      return NotAside(!fs.crashed);
    }
    var aside := Move(fs, pki, d, Current, Failed, {});
    return if aside then Aside(true) else NotAside(!fs.crashed);
  }

  /** Moves the directory aside and renames its staging directory into place; puts it back if the second
      rename fails. */
  method SwapOne(fs: Disk<Path>, ghost pki: Pki, d: nat, k: nat, ghost extra: set<Option<int>>) returns (r: SwapStep)
    requires RealDirAt(fs.m, Path(d, Current))
    requires RealDirAt(fs.m, Path(d, Stage(k))) && IdAt(pki, fs.m, Path(d, Stage(k))) in extra
    modifies fs`m, fs`crashed
    ensures old(fs.crashed) ==> fs.crashed && fs.m == old(fs.m)
    ensures fs.crashed ==> r == Refused(false)
    ensures SameElsewhere(old(fs.m), fs.m, d) && OtherStagesSame(old(fs.m), fs.m, d, k)
    ensures KeptAt(pki, old(fs.m), fs.m, extra, d)
    ensures r == Refused(true) ==>
              && Get(fs.m, Path(d, Current)) == Get(old(fs.m), Path(d, Current))
              && Get(fs.m, Path(d, Old)) == Get(old(fs.m), Path(d, Old))
    ensures r.Refused? && !fs.crashed ==> SameOrGone(old(fs.m), fs.m, Path(d, Current))
    ensures r.Swapped? ==> SwappedIn(old(fs.m), fs.m, EdgeStage(d, k, r.moved, true))
    ensures !fs.faulty && !old(fs.crashed) ==> r.Swapped? && !fs.crashed
  {
    hide KeptAt, FallbackKept, Ids;
    var aside := PutAside(fs, pki, d);
    if aside.NotAside? {
      KeptMore(pki, old(fs.m), fs.m, extra, d);
      return Refused(aside.undone);
    }
    var moved := aside.moved;
    ghost var mid := fs.m;
    assert Get(mid, Path(d, Stage(k))) == Get(old(fs.m), Path(d, Stage(k)));
    var active := Move(fs, pki, d, Stage(k), Current, extra);
    if active {
      KeptAtTrans(pki, old(fs.m), mid, fs.m, extra, d);
      return Swapped(moved);
    }
    KeptAtTrans(pki, old(fs.m), mid, fs.m, extra, d);
    ghost var mid' := fs.m;
    var back := Move(fs, pki, d, if moved then Failed else Old, Current, extra);
    KeptAtTrans(pki, old(fs.m), mid', fs.m, extra, d);
    return Refused(back);
  }

  ghost predicate SameOrGone(m: Fs, m': Fs, p: Path) {
    Get(m', p) == Get(m, p) || p !in m'
  }

  /** A directory whose swap or rollback went wrong: as it was, gone, or what is left of the staged one. */
  ghost predicate TornAt(m: Fs, m': Fs, d: nat, k: nat) {
    || SameOrGone(m, m', Path(d, Current))
    || (Path(d, Stage(k)) in m && Remnant(m[Path(d, Stage(k))], m'[Path(d, Current)]))
  }

  /** The staging directory is in place, and what was there is the backup or, when there was a backup
      already, the failed version. */
  ghost predicate SwappedIn(m: Fs, m': Fs, s: EdgeStage) {
    && s.swapped
    && s.moved == (Path(s.dir, Old) in m)
    && Path(s.dir, Stage(s.k)) !in m'
    && Get(m', Path(s.dir, Current)) == Get(m, Path(s.dir, Stage(s.k)))
    && Get(m', Path(s.dir, Old)) == Fallback(m, s.dir)
    && (s.moved ==> Get(m', Path(s.dir, Failed)) == Get(m, Path(s.dir, Current)))
  }

  /** Takes the swapped directories back, last one first. */
  method Rollback(fs: Disk<Path>, ghost pki: Pki, stages: seq<EdgeStage>) returns (ok: bool)
    requires forall i | 0 <= i < |stages| :: stages[i].dir == i
    requires forall i | 0 <= i < |stages| :: stages[i].swapped && !fs.crashed ==> Path(i, Old) in fs.m
    modifies fs`m, fs`crashed
    ensures old(fs.crashed) ==> fs.crashed && fs.m == old(fs.m)
    ensures fs.crashed ==> !ok
    ensures forall p: Path | p.role.Stage? :: Get(fs.m, p) == Get(old(fs.m), p)
    ensures forall d: nat | d >= |stages| || !stages[d].swapped :: SameDir(old(fs.m), fs.m, d)
    ensures ok ==> forall d: nat | d < |stages| && stages[d].swapped :: TakenBack(old(fs.m), fs.m, d, stages[d].moved)
    ensures forall d: nat | d < |stages| && stages[d].swapped :: LeftCurrent(old(fs.m), fs.m, d, stages[d].moved)
    ensures Kept(pki, old(fs.m), fs.m, {})
  {
    ok := !fs.crashed;
    var i := |stages|;
    while i > 0
      invariant 0 <= i <= |stages|
      invariant old(fs.crashed) ==> fs.crashed && fs.m == old(fs.m)
      invariant fs.crashed ==> !ok
      invariant forall p: Path | p.role.Stage? :: Get(fs.m, p) == Get(old(fs.m), p)
      invariant forall d: nat | d < i || d >= |stages| || !stages[d].swapped :: SameDir(old(fs.m), fs.m, d)
      invariant ok ==> forall d: nat | i <= d < |stages| && stages[d].swapped ::
                TakenBack(old(fs.m), fs.m, d, stages[d].moved)
      invariant forall d: nat | i <= d < |stages| && stages[d].swapped ::
                LeftCurrent(old(fs.m), fs.m, d, stages[d].moved)
      invariant Kept(pki, old(fs.m), fs.m, {})
    {
      i := i - 1;
      if !stages[i].swapped {
        continue;
      }
      ghost var before := fs.m;
      assert SameDir(old(fs.m), before, i);
      var good := TakeBack(fs, pki, i, stages[i].moved);
      ok := ok && good;
      SameDirsStep(old(fs.m), before, fs.m, i);
      KeptFromOneDir(pki, before, fs.m, {}, i);
      KeptTrans(pki, old(fs.m), before, fs.m, {});
    }
  }

  ghost predicate TakenBack(m: Fs, m': Fs, d: nat, moved: bool) {
    && Get(m', Path(d, Current)) == Get(m, Path(d, if moved then Failed else Old))
    && Get(m', Path(d, Old)) == if moved then Get(m, Path(d, Old)) else None
  }

  /** Whether that works or not: what was to be put back, nothing, or part of what was to go. */
  ghost predicate LeftCurrent(m: Fs, m': Fs, d: nat, moved: bool) {
    || Get(m', Path(d, Current)) == Get(m, Path(d, if moved then Failed else Old))
    || Path(d, Current) !in m'
    || (Path(d, Current) in m && Remnant(m[Path(d, Current)], m'[Path(d, Current)]))
  }

  /** One round of the rollback loop. */
  method TakeBack(fs: Disk<Path>, ghost pki: Pki, d: nat, moved: bool) returns (ok: bool)
    requires !fs.crashed ==> Path(d, Old) in fs.m
    modifies fs`m, fs`crashed
    ensures old(fs.crashed) ==> fs.crashed && fs.m == old(fs.m)
    ensures fs.crashed ==> !ok
    ensures SameElsewhere(old(fs.m), fs.m, d) && SameStages(old(fs.m), fs.m, d)
    ensures KeptAt(pki, old(fs.m), fs.m, {}, d)
    ensures ok ==> TakenBack(old(fs.m), fs.m, d, moved)
    ensures LeftCurrent(old(fs.m), fs.m, d, moved)
  {
    ok := Discard(fs, pki, d, Current);
    var renamed := Move(fs, pki, d, if moved then Failed else Old, Current, {});
    ok := ok && renamed;
    var synced := fs.Touch();
    ok := ok && synced;
  }

  // ---------- The whole installation ----------

  /** `undone`: the compensating calls worked; `cleared`: the removals of the staging directories did. */
  datatype InstallResult = Installed | StageError(cleared: bool) | SwapError(undone: bool, cleared: bool) | CleanupError

  lemma SwappedStep(m: Fs, mid: Fs, m': Fs, s: EdgeStage, d: nat)
    requires SameElsewhere(mid, m', d)
    requires if s.dir == d then SameDir(m, mid, d) && SwappedIn(mid, m', s) else SwappedIn(m, mid, s)
    ensures SwappedIn(m, m', s)
  {
    assert Get(m', Path(s.dir, Stage(s.k))) == None;
    if s.dir == d {
      assert Get(mid, Path(d, Old)) == Get(m, Path(d, Old));
      assert Get(mid, Path(d, Current)) == Get(m, Path(d, Current));
      assert Get(mid, Path(d, Stage(s.k))) == Get(m, Path(d, Stage(s.k)));
    } else {
      assert Get(m', Path(s.dir, Stage(s.k))) == Get(mid, Path(s.dir, Stage(s.k)));
    }
  }

  ghost predicate FreshStages(m: Fs, stages: seq<EdgeStage>, mat: Material) {
    forall d: nat | d < |stages| ::
      && stages[d].dir == d && !stages[d].moved && !stages[d].swapped
      && StageReady(m, stages[d], mat)
  }

  /** Directory `d` and its backup are as in `m`. */
  ghost predicate Unswapped(m: Fs, m': Fs, d: nat) {
    && Get(m', Path(d, Current)) == Get(m, Path(d, Current))
    && Get(m', Path(d, Old)) == Get(m, Path(d, Old))
  }

  /** Nothing outside the staged directories changes, and no staging directory but theirs. */
  ghost predicate Framed(m: Fs, m': Fs, stages: seq<EdgeStage>) {
    && (forall d: nat | d >= |stages| :: SameDir(m, m', d))
    && (forall d: nat | d < |stages| :: OtherStagesSame(m, m', d, stages[d].k))
  }

  lemma FramedTrans(a: Fs, b: Fs, c: Fs, stages: seq<EdgeStage>)
    requires Framed(a, b, stages) && Framed(b, c, stages)
    ensures Framed(a, c, stages)
  {
    forall d: nat | d >= |stages| ensures SameDir(a, c, d) {
      assert SameDir(a, b, d) && SameDir(b, c, d);
    }
    forall d: nat | d < |stages| ensures OtherStagesSame(a, c, d, stages[d].k) {
      assert OtherStagesSame(a, b, d, stages[d].k) && OtherStagesSame(b, c, d, stages[d].k);
    }
  }

  /** The first `done` directories are swapped, the others are as they were. */
  ghost predicate SwapProgress(m: Fs, m': Fs, stages: seq<EdgeStage>, done: nat) {
    && done <= |stages|
    && (forall d: nat | d < done :: stages[d].dir == d && SwappedIn(m, m', stages[d]))
    && (forall d: nat | done <= d < |stages| :: SameDir(m, m', d))
  }

  /** Backs out of a swap that failed in directory `i`. */
  method BackOut(fs: Disk<Path>, ghost pki: Pki, fresh0: seq<EdgeStage>, stages: seq<EdgeStage>, ghost start: Fs,
      ghost i: nat)
    returns (ok: bool, cleared: bool)
    requires i <= |stages| == |fresh0|
    requires forall d: nat | d < |fresh0| :: fresh0[d].dir == d && !fresh0[d].swapped
    requires !fs.crashed ==> forall d: nat | d < i :: SwappedIn(start, fs.m, stages[d]) && Path(d, Current) in start
    requires forall d: nat | i <= d < |stages| :: stages[d] == fresh0[d]
    requires forall d: nat | d < |stages| :: stages[d].dir == d && stages[d].k == fresh0[d].k
    modifies fs`m, fs`crashed
    ensures old(fs.crashed) ==> fs.crashed && fs.m == old(fs.m)
    ensures cleared ==> !fs.crashed
    ensures old(fs.crashed) ==> !ok
    ensures Kept(pki, old(fs.m), fs.m, {})
    ensures Framed(old(fs.m), fs.m, fresh0)
    ensures ok ==> forall d: nat | d < i :: Unswapped(start, fs.m, d)
    ensures forall d: nat | i <= d < |stages| :: Unswapped(old(fs.m), fs.m, d)
    ensures cleared ==> forall d: nat | d < |stages| :: Path(d, Stage(fresh0[d].k)) !in fs.m
    ensures !fs.crashed ==> forall d: nat | d < i :: TornAt(start, fs.m, d, fresh0[d].k)
  {
    ghost var before := fs.m;
    ok := Rollback(fs, pki, stages);
    ghost var mid := fs.m;
    cleared := ClearStages(fs, pki, stages);
    KeptTrans(pki, before, mid, fs.m, {});
    forall d: nat | d >= |stages| ensures SameDir(before, fs.m, d) {
      assert SameDir(before, mid, d) && SameDir(mid, fs.m, d);
    }
    forall d: nat | d < |stages|
      ensures d >= i ==> Unswapped(before, fs.m, d)
      ensures d < i && ok ==> Unswapped(start, fs.m, d)
      ensures d < i && !fs.crashed ==> TornAt(start, fs.m, d, fresh0[d].k)
    {
      assert Get(fs.m, Path(d, Current)) == Get(mid, Path(d, Current));
      assert Get(fs.m, Path(d, Old)) == Get(mid, Path(d, Old));
      if d >= i {
        assert SameDir(before, mid, d);
      } else {
        assert ok ==> TakenBack(before, mid, d, stages[d].moved);
        assert LeftCurrent(before, mid, d, stages[d].moved);
        assert !fs.crashed ==> SwappedIn(start, before, stages[d]);
      }
    }
  }

  /** Afterwards: the staged directory is in use and the fallback is in the backup. */
  ghost predicate Activated(m: Fs, m': Fs, s: EdgeStage) {
    && Get(m', Path(s.dir, Current)) == Get(m, Path(s.dir, Stage(s.k)))
    && Get(m', Path(s.dir, Old)) == Fallback(m, s.dir)
    && Get(m', Path(s.dir, Stage(s.k))) == None
  }

  /** Third loop: drops the versions that were in use but never confirmed. */
  method DropSuperseded(fs: Disk<Path>, ghost pki: Pki, stages: seq<EdgeStage>) returns (ok: bool)
    requires forall d: nat | d < |stages| :: stages[d].dir == d
    modifies fs`m, fs`crashed
    ensures old(fs.crashed) ==> fs.crashed && fs.m == old(fs.m)
    ensures ok && fs.crashed ==> old(fs.crashed)
    ensures forall p: Path | p.role != Failed || p.dir >= |stages| :: Get(fs.m, p) == Get(old(fs.m), p)
    ensures Kept(pki, old(fs.m), fs.m, {})
    ensures ok ==> forall d: nat | d < |stages| && stages[d].moved :: Path(d, Failed) !in fs.m
    // it can fail only where there is something to remove
    ensures !ok ==> exists d: nat :: d < |stages| && stages[d].moved
    ensures !fs.faulty && !old(fs.crashed) ==> ok
  {
    ok := true;
    for i := 0 to |stages|
      invariant old(fs.crashed) ==> fs.crashed && fs.m == old(fs.m)
      invariant forall p: Path | p.role != Failed || p.dir >= |stages| :: Get(fs.m, p) == Get(old(fs.m), p)
      invariant Kept(pki, old(fs.m), fs.m, {})
      invariant forall d: nat | d < i && stages[d].moved :: Path(d, Failed) !in fs.m
      invariant fs.crashed ==> old(fs.crashed)
    {
      if stages[i].moved {
        ghost var before := fs.m;
        ok := Discard(fs, pki, i, Failed);
        KeptFromOneDir(pki, before, fs.m, {}, i);
        KeptTrans(pki, old(fs.m), before, fs.m, {});
        if !ok {
          return;
        }
        ok := fs.Touch();
        if !ok {
          return;
        }
      }
    }
  }

  /** The second and third loop of installEdgeMTLSMaterial. */
  method SwapAll(fs: Disk<Path>, ghost pki: Pki, fresh0: seq<EdgeStage>, ghost mat: Material) returns (r: InstallResult)
    requires !fs.crashed
    requires FreshStages(fs.m, fresh0, mat)
    modifies fs`m, fs`crashed
    ensures !r.StageError?
    ensures r.Installed? || (r.SwapError? && r.cleared) ==> !fs.crashed
    ensures Kept(pki, old(fs.m), fs.m, {pki.identity(mat)})
    ensures Framed(old(fs.m), fs.m, fresh0)
    ensures r.SwapError? && r.undone ==> forall d: nat | d < |fresh0| :: Unswapped(old(fs.m), fs.m, d)
    ensures r.SwapError? && r.cleared ==> forall d: nat | d < |fresh0| :: Path(d, Stage(fresh0[d].k)) !in fs.m
    ensures r.SwapError? && !fs.crashed ==> forall d: nat | d < |fresh0| :: TornAt(old(fs.m), fs.m, d, fresh0[d].k)
    ensures r.Installed? || r.CleanupError? ==> forall d: nat | d < |fresh0| :: Activated(old(fs.m), fs.m, fresh0[d])
    ensures r.Installed? ==> forall d: nat | d < |fresh0| && Path(d, Old) in old(fs.m) :: Path(d, Failed) !in fs.m
    ensures r.CleanupError? ==> exists d: nat :: d < |fresh0| && Path(d, Old) in old(fs.m)
    ensures !fs.faulty ==> r.Installed?
  {
    ghost var start, extra := fs.m, {pki.identity(mat)};
    var stages := fresh0;
    for i := 0 to |stages|
      invariant |stages| == |fresh0|
      invariant !fs.crashed
      invariant forall d: nat | d < |stages| :: stages[d].dir == d && stages[d].k == fresh0[d].k
      invariant forall d: nat | i <= d < |stages| :: stages[d] == fresh0[d]
      invariant SwapProgress(start, fs.m, stages, i)
      invariant Framed(start, fs.m, fresh0)
      invariant Kept(pki, start, fs.m, extra)
    {
      ghost var mid := fs.m;
      var step: SwapStep, ok: bool;
      step, ok := SwapRound(fs, pki, fresh0, stages, i, start, mat);
      if step.Swapped? {
        stages := stages[i := EdgeStage(i, stages[i].k, step.moved, true)];
      }
      if !ok {
        ghost var stepped := fs.m;
        ghost var done := if step.Swapped? then i + 1 else i;
        forall d: nat | d < done && !fs.crashed ensures Path(d, Current) in start {
          assert StageReady(start, fresh0[d], mat);
        }
        var undone, cleared := BackOut(fs, pki, fresh0, stages, start, done);
        FramedTrans(start, stepped, fs.m, fresh0);
        KeptWiden(pki, stepped, fs.m, {}, extra);
        KeptTrans(pki, start, stepped, fs.m, extra);
        undone := undone && (step.Swapped? || step.undone);
        forall d: nat | done <= d < |fresh0|
          ensures undone ==> Unswapped(start, fs.m, d)
          ensures !fs.crashed ==> TornAt(start, fs.m, d, fresh0[d].k)
        {
          assert Unswapped(stepped, fs.m, d);
          if d > i && (undone || !fs.crashed) {
            assert SameDir(start, stepped, d);
            assert Get(stepped, Path(d, Current)) == Get(start, Path(d, Current));
            assert Get(stepped, Path(d, Old)) == Get(start, Path(d, Old));
          }
        }
        return SwapError(undone, cleared);
      }
    }
    ghost var swapped := fs.m;
    var dropped := DropSuperseded(fs, pki, stages);
    if !dropped {
      var d: nat :| d < |stages| && stages[d].moved;
      assert SwappedIn(start, swapped, stages[d]);
    }
    AfterDrop(start, swapped, fs.m, fresh0, stages);
    KeptWiden(pki, swapped, fs.m, {}, extra);
    KeptTrans(pki, start, swapped, fs.m, extra);
    r := if dropped then Installed else CleanupError;
  }

  /** One round of the second loop, up to and including the fsync. */
  method SwapRound(fs: Disk<Path>, ghost pki: Pki, fresh0: seq<EdgeStage>, ghost stages: seq<EdgeStage>, i: nat,
                   ghost start: Fs, ghost mat: Material)
    returns (step: SwapStep, ok: bool)
    requires !fs.crashed
    requires i < |stages| == |fresh0|
    requires FreshStages(start, fresh0, mat)
    requires SwapProgress(start, fs.m, stages, i) && Framed(start, fs.m, fresh0)
    requires Kept(pki, start, fs.m, {pki.identity(mat)})
    modifies fs`m, fs`crashed
    ensures ok ==> step.Swapped? && !fs.crashed
    ensures Framed(start, fs.m, fresh0)
    ensures Kept(pki, start, fs.m, {pki.identity(mat)})
    ensures step.Swapped? ==> SwapProgress(start, fs.m, stages[i := EdgeStage(i, fresh0[i].k, step.moved, true)], i + 1)
    ensures step.Refused? && !fs.crashed ==>
              && (forall d: nat | d < i :: SwappedIn(start, fs.m, stages[d]))
              && (forall d: nat | i < d < |stages| :: SameDir(start, fs.m, d))
              && (step.undone ==> Unswapped(start, fs.m, i))
              && SameOrGone(start, fs.m, Path(i, Current))
    ensures !fs.faulty ==> ok
  {
    ghost var mid, extra := fs.m, {pki.identity(mat)};
    var k := fresh0[i].k;
    assert SameDir(start, mid, i);
    assert StageReady(start, fresh0[i], mat);
    assert Get(mid, Path(i, Current)) == Get(start, Path(i, Current));
    assert Get(mid, Path(i, Old)) == Get(start, Path(i, Old));
    assert Get(mid, Path(i, Stage(k))) == Get(start, Path(i, Stage(k)));
    StagedIsOverlay(mid[Path(i, Current)].entries, mat, [""]);
    step := SwapOne(fs, pki, i, k, extra);
    ghost var stepped := fs.m;
    KeptFromOneDir(pki, mid, stepped, extra, i);
    KeptTrans(pki, start, mid, stepped, extra);
    assert Framed(mid, stepped, fresh0);
    FramedTrans(start, mid, stepped, fresh0);
    SameDirsStep(start, mid, stepped, i);
    forall d: nat | d < i ensures SwappedIn(start, stepped, stages[d]) {
      SwappedStep(start, mid, stepped, stages[d], i);
    }
    ok := step.Swapped?;
    if ok {
      SwappedStep(start, mid, stepped, EdgeStage(i, k, step.moved, true), i);
      ok := fs.Touch(); // fsync of the parent
    }
  }

  lemma AfterDrop(start: Fs, swapped: Fs, m': Fs, fresh0: seq<EdgeStage>, stages: seq<EdgeStage>)
    requires |fresh0| == |stages|
    requires forall d: nat | d < |stages| :: fresh0[d].dir == stages[d].dir == d && stages[d].k == fresh0[d].k
    requires SwapProgress(start, swapped, stages, |stages|) && Framed(start, swapped, fresh0)
    requires forall p: Path | p.role != Failed || p.dir >= |stages| :: Get(m', p) == Get(swapped, p)
    ensures Framed(start, m', fresh0)
    ensures forall d: nat | d < |fresh0| :: Activated(start, m', fresh0[d])
  {
    assert Framed(swapped, m', fresh0);
    FramedTrans(start, swapped, m', fresh0);
    forall d: nat | d < |fresh0| ensures Activated(start, m', fresh0[d]) {
      assert SwappedIn(start, swapped, stages[d]);
    }
  }

  /** Directory `s.dir` is settled and its staging directory built; no other staging directory changed. */
  ghost predicate StageOk(m: Fs, m': Fs, s: EdgeStage, mat: Material) {
    && StageReady(m', s, mat)
    && Get(m', Path(s.dir, Current)) == Some(PreparedCurrent(m, s.dir))
    && Get(m', Path(s.dir, Old)) == PreparedOld(m, s.dir)
    && Get(m, Path(s.dir, Stage(s.k))) == None
    && OtherStagesSame(m, m', s.dir, s.k)
  }

  ghost predicate StagedUpTo(m: Fs, m': Fs, stages: seq<EdgeStage>, mat: Material) {
    && (forall d: nat | d < |stages| :: stages[d].dir == d && !stages[d].moved && !stages[d].swapped)
    && (forall d: nat | d < |stages| :: StageOk(m, m', stages[d], mat))
    && (forall d: nat | d >= |stages| :: SameDir(m, m', d))
  }

  lemma StageOkStep(m: Fs, mid: Fs, m': Fs, s: EdgeStage, mat: Material, d: nat)
    requires SameElsewhere(mid, m', d) && s.dir != d
    requires StageOk(m, mid, s, mat)
    ensures StageOk(m, m', s, mat)
  {
    assert Get(m', Path(s.dir, Current)) == Get(mid, Path(s.dir, Current));
    assert Get(m', Path(s.dir, Old)) == Get(mid, Path(s.dir, Old));
    assert Get(m', Path(s.dir, Stage(s.k))) == Get(mid, Path(s.dir, Stage(s.k)));
    SameDirsStep(m, mid, m', d);
  }

  /** Only directory `d`, still untouched in `mid`, changes on the way to `m'`. */
  lemma StageOkNew(m: Fs, mid: Fs, m': Fs, s: EdgeStage, mat: Material)
    requires SameDir(m, mid, s.dir)
    requires Path(s.dir, Stage(s.k)) !in mid && OtherStagesSame(mid, m', s.dir, s.k)
    ensures Get(m, Path(s.dir, Stage(s.k))) == None && OtherStagesSame(m, m', s.dir, s.k)
    ensures PreparedCurrent(mid, s.dir) == PreparedCurrent(m, s.dir) && PreparedOld(mid, s.dir) == PreparedOld(m, s.dir)
  {
    assert Get(mid, Path(s.dir, Current)) == Get(m, Path(s.dir, Current));
    assert Get(mid, Path(s.dir, Old)) == Get(m, Path(s.dir, Old));
    assert Get(mid, Path(s.dir, Stage(s.k))) == Get(m, Path(s.dir, Stage(s.k)));
    forall k: nat | k != s.k ensures Get(m', Path(s.dir, Stage(k))) == Get(m, Path(s.dir, Stage(k))) {
      assert Get(mid, Path(s.dir, Stage(k))) == Get(m, Path(s.dir, Stage(k)));
    }
  }

  lemma StagedOneMore(m: Fs, mid: Fs, m': Fs, stages: seq<EdgeStage>, s: EdgeStage, mat: Material)
    requires s.dir == |stages| && !s.moved && !s.swapped
    requires StagedUpTo(m, mid, stages, mat)
    requires SameElsewhere(mid, m', s.dir) && StageOk(m, m', s, mat)
    ensures StagedUpTo(m, m', stages + [s], mat)
  {
    var stages' := stages + [s];
    forall d: nat | d < |stages'| ensures StageOk(m, m', stages'[d], mat) {
      if d < |stages| {
        StageOkStep(m, mid, m', stages[d], mat, s.dir);
      }
    }
    SameDirsStep(m, mid, m', s.dir);
  }

  /** Where a failed swap leaves a directory: as when the swap began, gone, or part of the new one. */
  ghost predicate Torn(m: Fs, m': Fs, d: nat, mat: Material) {
    || SameOrGone(m, m', Path(d, Current))
    || (RealDirAt(m, Path(d, Current)) && Remnant(Dir(Staged(m[Path(d, Current)].entries, mat)), m'[Path(d, Current)]))
  }

  /** Some directory is there with a backup beside it: an installation before was not confirmed. */
  ghost predicate SomeoneBackedUp(m: Fs, n: nat) {
    exists d: nat :: d < n && RealDirAt(m, Path(d, Current)) && Path(d, Old) in m
  }

  ghost predicate NoBackups(m: Fs, n: nat) {
    forall d: nat | d < n :: Path(d, Old) !in m
  }

  ghost predicate AllThere(m: Fs, n: nat) {
    forall d: nat | d < n :: Fallback(m, d).Some?
  }

  ghost predicate NoBackupsAdded(m: Fs, m': Fs, n: nat) {
    forall d: nat | d < n && Path(d, Old) in m' :: Path(d, Old) in m
  }

  /** A backup appears only once every directory has something to go back to. */
  ghost predicate NewBackupsLast(m: Fs, m': Fs, n: nat) {
    NoBackupsAdded(m, m', n) || AllThere(m', n)
  }

  lemma KeptThere(pki: Pki, m: Fs, m': Fs, extra: set<Option<int>>, n: nat)
    requires Kept(pki, m, m', extra)
    ensures AllThere(m, n) ==> AllThere(m', n)
    ensures forall d: nat | d < n && Fallback(m', d).None? :: Fallback(m, d).None?
  {
    forall d: nat | d < n ensures Fallback(m', d).None? ==> Fallback(m, d).None? {
      assert KeptAt(pki, m, m', extra, d);
    }
  }

  /** installEdgeMTLSMaterial over `n` directories.  `settled` directories were settled; `swapStart` is the disk
      when the second loop begins.  */
  method Install(fs: Disk<Path>, ghost pki: Pki, n: nat, mat: Material)
    returns (r: InstallResult, ghost swapStart: Fs, ghost settled: nat)
    requires !fs.crashed
    modifies fs`m, fs`crashed
    ensures r.Installed? || (r.SwapError? && r.cleared) || r == StageError(true) ==> !fs.crashed
    ensures settled <= n && (!r.StageError? ==> settled == n)
    ensures Kept(pki, old(fs.m), fs.m, {pki.identity(mat)})
    ensures forall d: nat | d >= n :: SameDir(old(fs.m), fs.m, d)
    // the swap starts from settled directories
    ensures !r.StageError? ==> forall d: nat | d < n ::
              && Get(swapStart, Path(d, Current)) == Some(PreparedCurrent(old(fs.m), d))
              && Get(swapStart, Path(d, Old)) == PreparedOld(old(fs.m), d)
    // exact rollback: directories and backups as when the swap began, no staging directory added
    ensures r.SwapError? && r.undone ==> forall d: nat | d < n :: Unswapped(swapStart, fs.m, d)
    ensures r.SwapError? && r.cleared ==> forall d: nat | d < n :: SameStages(old(fs.m), fs.m, d)
    ensures r.SwapError? && !fs.crashed ==> forall d: nat | d < n :: Torn(swapStart, fs.m, d, mat)
    // an error while staging leaves real directories and their backups alone
    ensures r.StageError? ==> forall d: nat | d < n && RealDirAt(old(fs.m), Path(d, Current)) ::
              Unswapped(old(fs.m), fs.m, d)
    ensures r.StageError? ==> forall d: nat | d < n :: SettledTo(old(fs.m), fs.m, d, settled)
    ensures r == StageError(true) ==> forall d: nat | d < n :: SameStages(old(fs.m), fs.m, d)
    // success, and an error after it, leave the new material in use and the fallback in the backup
    ensures r.Installed? || r.CleanupError? ==> forall d: nat | d < n ::
              InUse(swapStart, fs.m, d, mat) && SameStages(old(fs.m), fs.m, d)
    ensures r.Installed? ==> forall d: nat | d < n && Path(d, Old) in swapStart :: Path(d, Failed) !in fs.m
    // undisturbed, it succeeds exactly when every directory is ordinary
    ensures !fs.faulty ==> r == if forall d: nat | d < n ::
              OrdinaryAt(old(fs.m), d) then Installed else StageError(true)
    // the error after it takes a directory that had a backup before
    ensures r.CleanupError? ==> SomeoneBackedUp(old(fs.m), n)
    ensures NewBackupsLast(old(fs.m), fs.m, n)
  {
    hide Stageable, OrdinaryAt, Torn, TornAt, Activated, InUse, StageReady;
    ghost var start := fs.m;
    forall d: nat ensures Stageable(start, d) <==> OrdinaryAt(start, d) {
      StageableIff(start, d);
    }
    var staged, cleared: bool, stages: seq<EdgeStage>;
    staged, cleared, stages, settled := StageAll(fs, pki, n, mat);
    if !staged {
      KeptWiden(pki, start, fs.m, {}, {pki.identity(mat)});
      return StageError(cleared), start, settled;
    }
    swapStart := fs.m;
    KeptWiden(pki, start, swapStart, {}, {pki.identity(mat)});
    r := SwapAll(fs, pki, stages, mat);
    KeptTrans(pki, start, swapStart, fs.m, {pki.identity(mat)});
    forall d: nat | d >= n ensures SameDir(start, fs.m, d) {
      assert SameDir(start, swapStart, d) && SameDir(swapStart, fs.m, d);
    }
    forall d: nat | d < n
      ensures Get(swapStart, Path(d, Current)) == Some(PreparedCurrent(start, d))
                && Get(swapStart, Path(d, Old)) == PreparedOld(start, d) && Fallback(swapStart, d).Some?
      ensures Get(fs.m, Path(d, Stage(stages[d].k))) == None ==> SameStages(start, fs.m, d)
      ensures r.Installed? || r.CleanupError? ==> InUse(swapStart, fs.m, d, mat) && SameStages(start, fs.m, d)
      ensures r.SwapError? && !fs.crashed ==> Torn(swapStart, fs.m, d, mat)
    {
      assert StageOk(start, swapStart, stages[d], mat);
      assert OtherStagesSame(swapStart, fs.m, d, stages[d].k);
      StagesBack(start, swapStart, fs.m, d, stages[d].k);
      SwapShows(start, swapStart, fs.m, stages[d], mat);
    }
    assert AllThere(swapStart, n);
    KeptThere(pki, swapStart, fs.m, {pki.identity(mat)}, n);
    if r.CleanupError? {
      ghost var d: nat :| d < n && Path(d, Old) in swapStart;
      assert Get(swapStart, Path(d, Old)) == PreparedOld(start, d);
    }
  }

  /** The first loop of installEdgeMTLSMaterial, and the removal of the staging directories when it fails. */
  method StageAll(fs: Disk<Path>, ghost pki: Pki, n: nat, mat: Material)
    returns (ok: bool, cleared: bool, stages: seq<EdgeStage>, ghost settled: nat)
    requires !fs.crashed
    modifies fs`m, fs`crashed
    ensures ok || cleared ==> !fs.crashed
    ensures Kept(pki, old(fs.m), fs.m, {})
    ensures forall d: nat | d >= n :: SameDir(old(fs.m), fs.m, d)
    ensures settled <= n && (ok ==> settled == n)
    ensures ok ==> |stages| == n && StagedUpTo(old(fs.m), fs.m, stages, mat)
    ensures !ok ==> forall d: nat | d < n && RealDirAt(old(fs.m), Path(d, Current)) :: Unswapped(old(fs.m), fs.m, d)
    ensures !ok ==> forall d: nat | d < n :: SettledTo(old(fs.m), fs.m, d, settled)
    ensures !ok ==> NoBackupsAdded(old(fs.m), fs.m, n)
    ensures !ok && cleared ==> forall d: nat | d < n :: SameStages(old(fs.m), fs.m, d)
    ensures !fs.faulty ==> ok == (forall d: nat | d < n :: Stageable(old(fs.m), d)) && (ok || cleared)
  {
    hide StageReady, Stageable, PreparedCurrent;
    ghost var start := fs.m;
    stages, settled, cleared := [], n, false;
    for d := 0 to n
      invariant !fs.crashed
      invariant |stages| == d
      invariant StagedUpTo(start, fs.m, stages, mat)
      invariant !fs.faulty ==> forall e: nat | e < d :: Stageable(start, e)
      invariant Kept(pki, start, fs.m, {})
    {
      ghost var mid := fs.m;
      assert SameDir(start, mid, d);
      var prepared, made, k := PrepareStage(fs, pki, d, mat);
      ghost var after := fs.m;
      KeptFromOneDir(pki, mid, after, {}, d);
      KeptTrans(pki, start, mid, after, {});
      StageableSame(start, mid, d);
      ghost var s := EdgeStage(d, k, false, false);
      if made {
        StageOkNew(start, mid, after, s, mat);
      }
      if !prepared {
        cleared := ClearStages(fs, pki, if made then stages + [EdgeStage(d, k, false, false)] else stages);
        KeptTrans(pki, start, after, fs.m, {});
        settled := if Get(after, Path(d, Current)) == Some(PreparedCurrent(start, d)) then d + 1 else d;
        forall e: nat
          ensures e < n && RealDirAt(start, Path(e, Current)) ==> Unswapped(start, fs.m, e)
          ensures e < n ==> SettledTo(start, fs.m, e, settled)
          ensures Path(e, Old) in fs.m ==> Path(e, Old) in start
          ensures e > d ==> SameDir(start, fs.m, e)
          ensures cleared ==> SameStages(start, fs.m, e)
        {
          StagingStops(start, mid, after, fs.m, stages, mat, s, made, settled, cleared, e);
        }
        return false, cleared, stages, settled;
      }
      StagedOneMore(start, mid, after, stages, s, mat);
      stages := stages + [EdgeStage(d, k, false, false)];
    }
    ok := true;
  }

  /** What is left of directory `e` when staging stops in directory `s.dir` and the staging directories go. */
  lemma StagingStops(m: Fs, mid: Fs, after: Fs, m': Fs, stages: seq<EdgeStage>, mat: Material, s: EdgeStage, made: bool,
      settled: nat, cleared: bool, e: nat)
    requires s.dir == |stages| && StagedUpTo(m, mid, stages, mat) && SameElsewhere(mid, after, s.dir)
    requires RealDirAt(mid, Path(s.dir, Current)) ==> Unswapped(mid, after, s.dir)
    requires Settling(mid, after, s.dir) && (Path(s.dir, Old) in after ==> Path(s.dir, Old) in mid)
    requires settled == if Get(after, Path(s.dir, Current)) == Some(PreparedCurrent(m, s.dir)) then s.dir + 1 else s.dir
    requires if made then Get(m, Path(s.dir, Stage(s.k))) == None && OtherStagesSame(m, after, s.dir, s.k)
             else cleared ==> SameStages(mid, after, s.dir)
    requires forall p: Path | !p.role.Stage? :: Get(m', p) == Get(after, p)
    requires var all := if made then stages + [s] else stages;
      && (forall d: nat | d >= |all| :: SameDir(after, m', d))
      && (forall d: nat | d < |all| :: OtherStagesSame(after, m', d, all[d].k))
      && (cleared ==> forall d: nat | d < |all| :: Path(d, Stage(all[d].k)) !in m')
    ensures RealDirAt(m, Path(e, Current)) ==> Unswapped(m, m', e)
    ensures SettledTo(m, m', e, settled)
    ensures Path(e, Old) in m' ==> Path(e, Old) in m
    ensures e > s.dir ==> SameDir(m, m', e)
    ensures cleared ==> SameStages(m, m', e)
  {
    hide StageReady, PreparedCurrent;
    StagingSettles(m, mid, after, stages, mat, s.dir, e);
    StagingAddsNone(m, mid, after, stages, mat, s.dir, e);
    assert Get(m', Path(e, Current)) == Get(after, Path(e, Current));
    assert Get(m', Path(e, Old)) == Get(after, Path(e, Old));
    if RealDirAt(m, Path(e, Current)) {
      StagingKeepsReal(m, mid, after, stages, mat, s.dir, e);
    }
    if e > s.dir {
      SameDirsTrans(m, mid, after, m', e);
    }
    if cleared {
      StagesCleared(m, mid, after, m', stages, if made then stages + [s] else stages, mat, e);
    }
  }

  lemma SameDirsTrans(a: Fs, b: Fs, c: Fs, d: Fs, e: nat)
    requires SameDir(a, b, e) && SameDir(c, d, e)
    requires forall role :: Get(c, Path(e, role)) == Get(b, Path(e, role))
    ensures SameDir(a, d, e)
  {}

  lemma SwapShows(start: Fs, swapStart: Fs, m': Fs, s: EdgeStage, mat: Material)
    requires StageOk(start, swapStart, s, mat)
    ensures Fallback(swapStart, s.dir).Some?
    ensures Activated(swapStart, m', s) ==> InUse(swapStart, m', s.dir, mat) && Get(m', Path(s.dir, Stage(s.k))) == None
    ensures TornAt(swapStart, m', s.dir, s.k) ==> Torn(swapStart, m', s.dir, mat)
  {}

  lemma StagesBack(m: Fs, mid: Fs, m': Fs, d: nat, k: nat)
    requires OtherStagesSame(m, mid, d, k) && OtherStagesSame(mid, m', d, k)
    requires Get(m, Path(d, Stage(k))) == None
    ensures Get(m', Path(d, Stage(k))) == None ==> SameStages(m, m', d)
  {
    forall j: nat | j != k ensures Get(m', Path(d, Stage(j))) == Get(m, Path(d, Stage(j))) {
      assert Get(mid, Path(d, Stage(j))) == Get(m, Path(d, Stage(j)));
    }
  }

  /** The first `settled` directories are settled; of the others, only what was no directory may be gone. */
  ghost predicate SettledTo(m: Fs, m': Fs, d: nat, settled: nat) {
    if d < settled then Get(m', Path(d, Current)) == Some(PreparedCurrent(m, d))
    else
      || Get(m', Path(d, Current)) == Get(m, Path(d, Current))
      || (!RealDirAt(m, Path(d, Current)) && Path(d, Current) !in m')
  }

  lemma StagingSettles(m: Fs, mid: Fs, m': Fs, stages: seq<EdgeStage>, mat: Material, d: nat, e: nat)
    requires d == |stages| && StagedUpTo(m, mid, stages, mat) && SameElsewhere(mid, m', d) && Settling(mid, m', d)
    ensures SettledTo(m, m', e, if Get(m', Path(d, Current)) == Some(PreparedCurrent(m, d)) then d + 1 else d)
  {
    if e < d {
      assert StageOk(m, mid, stages[e], mat);
    } else {
      assert SameDir(m, mid, e);
      assert Get(mid, Path(e, Current)) == Get(m, Path(e, Current)) && Get(mid, Path(e, Old)) == Get(m, Path(e, Old));
    }
    if e != d {
      assert Get(m', Path(e, Current)) == Get(mid, Path(e, Current));
    }
  }

  lemma StagingAddsNone(m: Fs, mid: Fs, m': Fs, stages: seq<EdgeStage>, mat: Material, d: nat, e: nat)
    requires d == |stages| && StagedUpTo(m, mid, stages, mat) && SameElsewhere(mid, m', d)
    requires Path(d, Old) in m' ==> Path(d, Old) in mid
    ensures Path(e, Old) in m' ==> Path(e, Old) in m
  {
    if e < d {
      assert StageOk(m, mid, stages[e], mat);
    } else {
      assert SameDir(m, mid, e);
      assert Get(mid, Path(e, Old)) == Get(m, Path(e, Old));
    }
    if e != d {
      assert Get(m', Path(e, Old)) == Get(mid, Path(e, Old));
    }
  }

  /** When staging stops in directory `d`, a real directory `e` and its backup are untouched. */
  lemma StagingKeepsReal(m: Fs, mid: Fs, m': Fs, stages: seq<EdgeStage>, mat: Material, d: nat, e: nat)
    requires d == |stages| && StagedUpTo(m, mid, stages, mat) && SameElsewhere(mid, m', d)
    requires RealDirAt(mid, Path(d, Current)) ==> Unswapped(mid, m', d)
    requires RealDirAt(m, Path(e, Current))
    ensures Unswapped(m, m', e)
  {
    if e < d {
      assert StageOk(m, mid, stages[e], mat);
    } else {
      assert SameDir(m, mid, e);
      assert Get(mid, Path(e, Current)) == Get(m, Path(e, Current)) && Get(mid, Path(e, Old)) == Get(m, Path(e, Old));
    }
    if e != d {
      assert Get(m', Path(e, Current)) == Get(mid, Path(e, Current)) && Get(m', Path(e, Old)) == Get(mid, Path(e, Old));
    }
  }

  lemma StagesCleared(m: Fs, mid: Fs, prepared: Fs, m': Fs, stages: seq<EdgeStage>, made: seq<EdgeStage>, mat: Material,
      e: nat)
    requires StagedUpTo(m, mid, stages, mat) && SameElsewhere(mid, prepared, |stages|)
    requires stages <= made && |made| <= |stages| + 1
    requires if |made| > |stages|
             then made[|stages|].dir == |stages| && Get(m, Path(|stages|, Stage(made[|stages|].k))) == None
                 && OtherStagesSame(m, prepared, |stages|, made[|stages|].k)
             else SameStages(mid, prepared, |stages|)
    requires forall d: nat | d >= |made| :: SameDir(prepared, m', d)
    requires forall d: nat | d < |made| ::
               OtherStagesSame(prepared, m', d, made[d].k) && Path(d, Stage(made[d].k)) !in m'
    ensures SameStages(m, m', e)
  {
    if e < |stages| {
      assert StageOk(m, mid, stages[e], mat);
      StageOkStep(m, mid, prepared, stages[e], mat, |stages|);
      StagesBack(m, prepared, m', e, made[e].k);
    } else if e < |made| {
      StagesBack(m, prepared, m', e, made[e].k);
    } else {
      assert SameDir(m, mid, e) && SameDir(prepared, m', e);
      forall k: nat ensures Get(m', Path(e, Stage(k))) == Get(m, Path(e, Stage(k))) {
        assert Get(m', Path(e, Stage(k))) == Get(prepared, Path(e, Stage(k)));
        assert Get(prepared, Path(e, Stage(k))) == Get(mid, Path(e, Stage(k)));
      }
    }
  }

  lemma StageableSame(m: Fs, m': Fs, d: nat)
    requires SameDir(m, m', d)
    ensures Stageable(m, d) == Stageable(m', d)
  {
    assert Get(m', Path(d, Current)) == Get(m, Path(d, Current));
    assert Get(m', Path(d, Old)) == Get(m, Path(d, Old));
  }

  /** The new material is the root of the directory, over what was there; the backup is the fallback. */
  ghost predicate InUse(m: Fs, m': Fs, d: nat, mat: Material) {
    && RealDirAt(m, Path(d, Current))
    && Get(m', Path(d, Current)) == Some(Dir(Staged(m[Path(d, Current)].entries, mat)))
    && Get(m', Path(d, Old)) == Fallback(m, d)
  }
}
