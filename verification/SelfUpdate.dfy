/** agentUpdate: replacing the agent's binary by a verified download, with rollback. */
module SelfUpdate {
  import opened FileSystem
  import opened Text

  datatype Place = Sbin | Bin | TmpDir
  datatype Path =
    | Agent(w: Place)
    | Prev(w: Place)            // the agent's path + ".prev"
    | Temp(w: Place, k: nat)    // netductor-agent.*.new
    | Stage(w: Place, k: nat)   // netductor-agent.*.stage
  type Fs = map<Path, Node>

  const EXECUTABLE: nat := 0x1ed // 0o755
  const OWNER: nat := 0x180 // 0o600

  function Lower(c: char): char {
    if 'A' <= c <= 'Z' then c - 'A' + 'a' else c
  }

  predicate EqualFold(a: string, b: string) {
    |a| == |b| && forall i | 0 <= i < |a| :: Lower(a[i]) == Lower(b[i])
  }

  predicate HexDigit(c: char) {
    '0' <= c <= '9' || 'a' <= c <= 'f'
  }

  /** requireSHA256Hex. */
  predicate RequireSha(s: string) {
    var t := Trim(s);
    |t| == 64 && forall c | c in t :: HexDigit(Lower(c))
  }

  predicate IsElf(data: Bytes) {
    |data| >= 4 && data[..4] == [0x7f, 0x45, 0x4c, 0x46]
  }

  /** What a download has to pass. */
  datatype Check = Check(sha: Bytes -> string, want: string)

  predicate Passes(c: Check, data: Bytes) {
    EqualFold(c.sha(data), c.want) && IsElf(data)
  }

  /** Equal, or the same ASCII letter in another case. */
  predicate SameLetter(a: char, b: char) {
    || a == b
    || ('a' <= a <= 'z' && b as int == a as int - 32)
    || ('a' <= b <= 'z' && a as int == b as int - 32)
  }

  /** The sum of the bytes is the wanted one, but for the case of letters, and they begin like a program. */
  predicate Genuine(c: Check, data: Bytes) {
    && |c.sha(data)| == |c.want| && (forall i | 0 <= i < |c.want| :: SameLetter(c.sha(data)[i], c.want[i]))
    && |data| >= 4 && data[0] == 0x7f && data[1] == 0x45 && data[2] == 0x4c && data[3] == 0x46
  }

  /** These are what the two checks compare. */
  lemma PassesIff(c: Check, data: Bytes)
    ensures Passes(c, data) <==> Genuine(c, data)
  {
    forall a: char, b: char ensures Lower(a) == Lower(b) <==> SameLetter(a, b) {}
  }

  /** Genuine bytes with mode 0755. */
  predicate GenuineFile(c: Check, n: Node) {
    n.File? && n.perm == 7 * 64 + 5 * 8 + 5 && Genuine(c, n.data)
  }

  lemma VerifiedIff(c: Check, n: Node)
    ensures Verified(c, n) <==> GenuineFile(c, n)
  {
    hide Passes, Genuine;
    if n.File? {
      PassesIff(c, n.data);
    }
  }

  predicate SixtyFourHexDigits(s: string) {
    |Trim(s)| == 64 && forall c | c in Trim(s) :: '0' <= c <= '9' || 'a' <= c <= 'f' || 'A' <= c <= 'F'
  }

  /** A wanted checksum is accepted if, without spaces around it, it is 64 hexadecimal digits. */
  lemma RequireShaIff(s: string)
    ensures RequireSha(s) <==> SixtyFourHexDigits(s)
  {
    hide Trim;
    forall c: char ensures HexDigit(Lower(c)) <==> '0' <= c <= '9' || 'a' <= c <= 'f' || 'A' <= c <= 'F' {}
  }

  predicate Verified(c: Check, n: Node) {
    n.File? && n.perm == EXECUTABLE && Passes(c, n.data)
  }

  predicate Scratch(p: Path) {
    p.Temp? || p.Stage?
  }

  /** Nothing but files of this update differs. */
  ghost predicate ScratchOnly(m: Fs, m': Fs) {
    forall p | !Scratch(p) :: Get(m', p) == Get(m, p)
  }

  ghost predicate NoScratchLeft(m: Fs, m': Fs) {
    forall p | Scratch(p) :: Get(m', p) == Get(m, p)
  }

  /** Which stat calls work where there is a binary: the one that chooses between the two places, and the one
      that decides whether there is something to save. */
  datatype Looks = Looks(choose: bool, save: bool)

  function Chosen(m: Fs, looks: Looks): Place {
    if looks.choose && Agent(Sbin) in m then Sbin else Bin
  }

  /** Whatever happens: the agent's path holds nothing, what it held, or a verified binary; and what it held
      is there or beside it as `.prev`.  A binary that the stat call overlooks is not saved: `.prev` stays. */
  ghost predicate Safe(c: Check, m: Fs, m': Fs, w: Place, seen: bool) {
    && (Agent(w) in m' ==> Get(m', Agent(w)) == Get(m, Agent(w)) || GenuineFile(c, m'[Agent(w)]))
    && (Agent(w) in m && seen ==> Get(m', Agent(w)) == Get(m, Agent(w)) || Get(m', Prev(w)) == Get(m, Agent(w)))
    && (Agent(w) in m && !seen ==> Get(m', Prev(w)) == Get(m, Prev(w)))
    && forall v | v != w :: Get(m', Agent(v)) == Get(m, Agent(v)) && Get(m', Prev(v)) == Get(m, Prev(v))
  }

  /** `restored`: every rename meant to put the old binary back worked; `clean`: every removal of a temporary
      file worked. */
  datatype Result = Rejected | Failed(restored: bool, clean: bool) | Updated(w: Place, clean: bool)

  /** An unused temporary name. */
  lemma Unused(m: Fs) returns (k: nat)
    ensures forall w :: Temp(w, k) !in m && Stage(w, k) !in m
  {
    k := Above(m.Keys);
  }

  lemma Above(used: set<Path>) returns (k: nat)
    ensures forall p | p in used && Scratch(p) :: p.k < k
  {
    if used == {} {
      k := 0;
    } else {
      var p :| p in used;
      k := Above(used - {p});
      k := if Scratch(p) && p.k >= k then p.k + 1 else k;
    }
  }

  predicate Fresh(m: Fs, k: nat) {
    forall w :: Temp(w, k) !in m && Stage(w, k) !in m
  }

  /** os.CreateTemp in the agent's directory, or else in the temporary one; the file is closed and removed
      again, only its name is used. */
  method TempName(fs: Disk<Path>, w: Place) returns (path: Option<Path>)
    modifies fs`m, fs`crashed
    ensures old(fs.crashed) ==> fs.crashed && fs.m == old(fs.m)
    ensures fs.crashed ==> path.None?
    ensures path.Some? ==> path.value.Temp? && path.value !in old(fs.m) && forall p | p != path.value ::
              Get(fs.m, p) == Get(old(fs.m), p)
    ensures path.None? ==> ScratchOnly(old(fs.m), fs.m) && (!fs.crashed ==> fs.m == old(fs.m))
    ensures !fs.faulty && !old(fs.crashed) ==> path.Some? && !fs.crashed && fs.m == old(fs.m)
  {
    ghost var start := fs.m;
    assert exists k: nat :: Fresh(fs.m, k) by {
      var unused := Unused(fs.m);
      assert Fresh(fs.m, unused);
    }
    var k: nat :| Fresh(fs.m, k);
    var p := Temp(w, k);
    var ok := fs.Create(p, File([], OWNER));
    if !ok {
      p := Temp(TmpDir, k);
      ok := fs.Create(p, File([], OWNER));
      if !ok {
        return None;
      }
    }
    var removed := fs.Remove(p);
    if fs.crashed {
      return None;
    }
    assert removed ==> fs.m == start;
    return Some(p);
  }

  /** Downloads into a temporary file and checks what came; `clean` says whether a rejected download could be
      removed. */
  method Fetch(fs: Disk<Path>, c: Check, w: Place, download: Option<Bytes>) returns (tmp: Option<Path>, clean: bool)
    modifies fs`m, fs`crashed
    ensures old(fs.crashed) ==> fs.crashed && fs.m == old(fs.m)
    ensures fs.crashed ==> tmp.None? && !clean
    ensures ScratchOnly(old(fs.m), fs.m)
    ensures tmp.None? && clean ==> NoScratchLeft(old(fs.m), fs.m)
    ensures tmp.Some? ==>
              && tmp.value.Temp? && tmp.value !in old(fs.m)
              && download.Some? && Passes(c, download.value)
              && Get(fs.m, tmp.value) == Some(File(download.value, EXECUTABLE))
              && forall p | p != tmp.value :: Get(fs.m, p) == Get(old(fs.m), p)
    ensures !fs.faulty && !old(fs.crashed) ==>
              !fs.crashed && clean && (tmp.Some? <==> download.Some? && Passes(c, download.value))
  {
    var named := TempName(fs, w);
    if named.None? {
      return None, !fs.crashed;
    }
    var path := named.value;
    var ok := false;
    if download.Some? {
      ok := fs.Write(path, File(download.value, OWNER));
    } else {
      var _ := fs.Write(path, File([], OWNER)); // what an aborted download leaves
    }
    if ok {
      var data := fs.Read(path); // fileSHA256
      ok := data.Some? && EqualFold(c.sha(data.value), c.want);
      if ok {
        data := fs.Read(path); // isELF
        ok := data.Some? && IsElf(data.value);
      }
    }
    if ok {
      ok := fs.Chmod(path, EXECUTABLE);
    }
    if ok {
      return Some(path), true;
    }
    clean := Drop(fs, path);
    return None, clean;
  }

  /** `_ = os.Remove(p)` of a temporary file: `gone` afterwards or not. */
  method Drop(fs: Disk<Path>, p: Path) returns (gone: bool)
    modifies fs`m, fs`crashed
    ensures old(fs.crashed) ==> fs.crashed && fs.m == old(fs.m)
    ensures fs.crashed ==> !gone
    ensures forall q | q != p :: Get(fs.m, q) == Get(old(fs.m), q)
    ensures gone ==> p !in fs.m
    ensures fs.m == old(fs.m) || fs.m == old(fs.m) - {p}
    ensures !fs.faulty && !old(fs.crashed) && (p in fs.m ==> fs.m[p].File?) ==> gone && !fs.crashed
  {
    var ok := fs.Remove(p);
    gone := !fs.crashed && (ok || p !in fs.m);
  }

  method CopyFile(fs: Disk<Path>, from: Path, to: Path) returns (ok: bool)
    requires from in fs.m && from != to
    modifies fs`m, fs`crashed
    ensures old(fs.crashed) ==> fs.crashed && fs.m == old(fs.m)
    ensures fs.crashed ==> !ok
    ensures fs.m == old(fs.m) || (to in fs.m && fs.m == old(fs.m)[to := fs.m[to]])
    ensures ok ==> old(fs.m)[from].File? && fs.m == old(fs.m)[to := File(old(fs.m)[from].data, OWNER)]
    ensures !fs.faulty && !old(fs.crashed) && old(fs.m)[from].File? ==> ok
  {
    var data := fs.Read(from);
    if data.None? {
      return false;
    }
    ok := fs.Write(to, File(data.value, OWNER));
    if ok {
      ok := fs.Touch(); // sync, close
    }
  }

  /** Copies the verified download beside the agent and removes the download. */
  method StageCopy(fs: Disk<Path>, w: Place, tmp: Path) returns (stage: Option<Path>, clean: bool)
    requires tmp.Temp? && tmp in fs.m
    modifies fs`m, fs`crashed
    ensures old(fs.crashed) ==> fs.crashed && fs.m == old(fs.m)
    ensures fs.crashed ==> stage.None? && !clean
    ensures stage.Some? ==> old(fs.m)[tmp].File? && Get(fs.m, stage.value) == Some(File(old(fs.m)[tmp].data, OWNER))
    ensures !fs.faulty && !old(fs.crashed) && old(fs.m)[tmp].File? ==> stage.Some? && clean && !fs.crashed
    ensures ScratchOnly(old(fs.m), fs.m)
    ensures stage.Some? ==>
              && stage.value.Stage? && stage.value !in old(fs.m)
              && forall p | p != tmp && p != stage.value :: Get(fs.m, p) == Get(old(fs.m), p)
    ensures stage.None? ==> clean ==> forall p | p != tmp :: Get(fs.m, p) == Get(old(fs.m), p)
    ensures clean ==> tmp !in fs.m
  {
    assert exists k: nat :: Fresh(fs.m, k) by {
      var unused := Unused(fs.m);
      assert Fresh(fs.m, unused);
    }
    var k: nat :| Fresh(fs.m, k);
    var path := Stage(w, k);
    var ok := fs.Create(path, File([], OWNER));
    if !ok {
      clean := Drop(fs, tmp);
      return None, clean;
    }
    ok := CopyFile(fs, tmp, path);
    clean := true;
    if !ok {
      clean := Drop(fs, path);
    }
    var dropped := Drop(fs, tmp);
    clean := clean && dropped;
    stage := if ok && !fs.crashed then Some(path) else None;
    clean := clean && !fs.crashed;
  }

  /** Checks the staged copy again. */
  method Recheck(fs: Disk<Path>, c: Check, path: Path) returns (ok: bool)
    requires Scratch(path)
    modifies fs`m, fs`crashed
    ensures old(fs.crashed) ==> fs.crashed && fs.m == old(fs.m)
    ensures fs.crashed ==> !ok
    ensures forall p | p != path :: Get(fs.m, p) == Get(old(fs.m), p)
    ensures path in fs.m ==> path in old(fs.m) && (old(fs.m)[path].File? ==> fs.m[path].File?)
    ensures ok ==>
              && path in fs.m && Verified(c, fs.m[path]) && old(fs.m)[path].File?
              && fs.m == old(fs.m)[path := File(old(fs.m)[path].data, EXECUTABLE)]
    ensures !fs.faulty && !old(fs.crashed) && path in old(fs.m) && old(fs.m)[path].File? ==>
              !fs.crashed && ok == Passes(c, old(fs.m)[path].data)
  {
    var data := fs.Read(path);
    ok := data.Some? && EqualFold(c.sha(data.value), c.want);
    if ok {
      data := fs.Read(path);
      ok := data.Some? && IsElf(data.value);
    }
    if ok {
      ok := fs.Chmod(path, EXECUTABLE);
    }
  }

  /** The agent's path holds what it held, the saved binary, or a verified one. */
  ghost predicate Activating(c: Check, m: Fs, m': Fs, w: Place, hadDest: bool) {
    && (Agent(w) in m' ==>
          || Get(m', Agent(w)) == Get(m, Agent(w))
          || (hadDest && Get(m', Agent(w)) == Get(m, Prev(w)))
          || Verified(c, m'[Agent(w)]))
    && (if hadDest then Get(m', Agent(w)) == Get(m, Prev(w)) || Get(m', Prev(w)) == Get(m, Prev(w))
        else Get(m', Prev(w)) == Get(m, Prev(w)))
    && forall p | !Scratch(p) && p != Agent(w) && p != Prev(w) :: Get(m', p) == Get(m, p)
  }

  ghost predicate OnlyGone(m: Fs, m': Fs, tmp: Path) {
    forall p | Scratch(p) :: Get(m', p) == if p == tmp then None else Get(m, p)
  }

  /** The rollback closure. */
  method PutBack(fs: Disk<Path>, w: Place, hadDest: bool) returns (restored: bool)
    requires hadDest && !fs.crashed ==> Get(fs.m, Agent(w)) == None && Get(fs.m, Prev(w)) != None
    modifies fs`m, fs`crashed
    ensures old(fs.crashed) ==> fs.crashed && fs.m == old(fs.m)
    ensures fs.crashed ==> !restored
    ensures !hadDest ==> fs.m == old(fs.m) && restored == !fs.crashed
    ensures fs.m == old(fs.m) || (hadDest && Prev(w) in old(fs.m) && fs.m == Renamed(old(fs.m), Prev(w), Agent(w)))
    ensures restored && hadDest ==> Prev(w) in old(fs.m) && fs.m == Renamed(old(fs.m), Prev(w), Agent(w))
  {
    if !hadDest {
      return !fs.crashed;
    }
    restored := fs.Rename(Prev(w), Agent(w));
  }

  /** From the rename of the download on. */
  method Activate(fs: Disk<Path>, c: Check, w: Place, tmp: Path, hadDest: bool) returns (r: Result)
    requires tmp.Temp? && tmp in fs.m && Verified(c, fs.m[tmp])
    requires hadDest ==> Get(fs.m, Agent(w)) == None && Get(fs.m, Prev(w)) != None
    requires !fs.crashed
    modifies fs`m, fs`crashed
    ensures r.Failed? || (r.Updated? && r.w == w)
    ensures Activating(c, old(fs.m), fs.m, w, hadDest)
    ensures r.Updated? ==>
              !fs.crashed && Get(fs.m, Agent(w)) == Get(old(fs.m), tmp) && Get(fs.m, Prev(w)) == Get(old(fs.m), Prev(w))
    ensures r.Failed? && r.restored ==>
              !fs.crashed && Get(fs.m, Agent(w)) == if hadDest then Get(old(fs.m), Prev(w))
                  else Get(old(fs.m), Agent(w))
    ensures r.clean && (r.Failed? ==> r.restored) ==> OnlyGone(old(fs.m), fs.m, tmp)
    ensures !fs.faulty && (Agent(w) in old(fs.m) ==> old(fs.m)[Agent(w)].File?) ==> r == Updated(w, true)
  {
    var ok := fs.Rename(tmp, Agent(w));
    if ok {
      return Updated(w, true);
    }
    if fs.crashed {
      return Failed(false, false);
    }
    var stage, clean := StageCopy(fs, w, tmp);
    if stage.None? {
      var restored := PutBack(fs, w, hadDest);
      return Failed(restored, clean && !fs.crashed);
    }
    r := ActivateCopy(fs, c, w, stage.value, hadDest, clean);
  }

  /** From the second check on. */
  method ActivateCopy(fs: Disk<Path>, c: Check, w: Place, path: Path, hadDest: bool, cleanSoFar: bool)
      returns (r: Result)
    requires path.Stage? && path in fs.m && fs.m[path].File?
    requires hadDest ==> Get(fs.m, Agent(w)) == None && Get(fs.m, Prev(w)) != None
    requires !fs.crashed
    modifies fs`m, fs`crashed
    ensures r.Failed? || (r.Updated? && r.w == w)
    ensures Activating(c, old(fs.m), fs.m, w, hadDest)
    ensures r.Updated? ==>
              && !fs.crashed && Passes(c, old(fs.m)[path].data)
              && Get(fs.m, Agent(w)) == Some(File(old(fs.m)[path].data, EXECUTABLE))
              && Get(fs.m, Prev(w)) == Get(old(fs.m), Prev(w))
    ensures r.Failed? && r.restored ==>
              !fs.crashed && Get(fs.m, Agent(w)) == if hadDest then Get(old(fs.m), Prev(w))
                  else Get(old(fs.m), Agent(w))
    ensures r.clean ==> cleanSoFar
    ensures !fs.faulty && Passes(c, old(fs.m)[path].data) && (Agent(w) in old(fs.m) ==> old(fs.m)[Agent(w)].File?) ==>
              r == Updated(w, cleanSoFar)
    ensures r.clean && (r.Failed? ==> r.restored) ==> OnlyGone(old(fs.m), fs.m, path)
  {
    hide Passes;
    var ok := Recheck(fs, c, path);
    if !ok {
      var clean := Drop(fs, path);
      var restored := PutBack(fs, w, hadDest);
      return Failed(restored, cleanSoFar && clean);
    }
    r := FinalRename(fs, c, w, path, hadDest, cleanSoFar);
  }

  /** The rename of the checked copy, and what follows when it fails. */
  method FinalRename(fs: Disk<Path>, c: Check, w: Place, path: Path, hadDest: bool, cleanSoFar: bool)
      returns (r: Result)
    requires path.Stage? && path in fs.m && Verified(c, fs.m[path])
    requires hadDest ==> Get(fs.m, Agent(w)) == None && Get(fs.m, Prev(w)) != None
    requires !fs.crashed
    modifies fs`m, fs`crashed
    ensures r.Failed? || (r.Updated? && r.w == w)
    ensures Activating(c, old(fs.m), fs.m, w, hadDest)
    ensures r.Updated? ==>
              && !fs.crashed && Get(fs.m, Agent(w)) == Get(old(fs.m), path)
              && Get(fs.m, Prev(w)) == Get(old(fs.m), Prev(w))
    ensures r.Failed? && r.restored ==>
              !fs.crashed && Get(fs.m, Agent(w)) == if hadDest then Get(old(fs.m), Prev(w))
                  else Get(old(fs.m), Agent(w))
    ensures r.clean ==> cleanSoFar
    ensures r.clean && (r.Failed? ==> r.restored) ==> OnlyGone(old(fs.m), fs.m, path)
    // the copy stays for the operator when the old binary cannot be put back
    ensures r.Failed? && !r.restored && !fs.crashed ==> Get(fs.m, path) == Get(old(fs.m), path)
    ensures !fs.faulty && (Agent(w) in old(fs.m) ==> old(fs.m)[Agent(w)].File?) ==> r == Updated(w, cleanSoFar)
  {
    hide Passes;
    var ok := fs.Rename(path, Agent(w));
    if ok {
      return Updated(w, cleanSoFar);
    }
    var restored := PutBack(fs, w, hadDest);
    if !restored {
      return Failed(false, cleanSoFar);
    }
    var clean := Drop(fs, path);
    return Failed(!fs.crashed, cleanSoFar && clean);
  }

  /** After an update: the new binary, and beside it the one it replaced, exactly when that was seen. */
  ghost predicate Replaced(m: Fs, m': Fs, w: Place, seen: bool, binary: Node) {
    && Get(m', Agent(w)) == Some(binary)
    && (Agent(w) in m ==> Get(m', Prev(w)) == if seen then Get(m, Agent(w)) else Get(m, Prev(w)))
  }

  /** agentUpdate after its arguments are split: `c.want` is the wanted checksum, `download` what the URL
      gives. */
  method Update(fs: Disk<Path>, c: Check, url: string, download: Option<Bytes>, looks: Looks)
    returns (r: Result, ghost w: Place)
    requires !fs.crashed
    modifies fs`m, fs`crashed
    ensures w == Chosen(old(fs.m), looks)
    ensures Safe(c, old(fs.m), fs.m, w, looks.save)
    ensures r.Updated? ==>
              && !fs.crashed && r.w == w && download.Some? && Genuine(c, download.value)
              && Replaced(old(fs.m), fs.m, w, looks.save, File(download.value, 7 * 64 + 5 * 8 + 5))
    ensures r.Failed? && r.restored ==> !fs.crashed && Get(fs.m, Agent(w)) == Get(old(fs.m), Agent(w))
    ensures r.Rejected? <==> url == "" || !SixtyFourHexDigits(c.want)
    ensures r.Rejected? ==> fs.m == old(fs.m)
    ensures (r.Failed? || r.Updated?) && r.clean && (r.Failed? ==> r.restored) ==> NoScratchLeft(old(fs.m), fs.m)
    // undisturbed, the outcome is decided by the download alone
    ensures !fs.faulty && url != "" && SixtyFourHexDigits(c.want) && Replaceable(old(fs.m), w) ==>
              r == if download.Some? && Genuine(c, download.value) then Updated(w, true) else Failed(true, true)
  {
    hide Passes, Genuine, RequireSha, SixtyFourHexDigits, Replaced, Replaceable;
    RequireShaIff(c.want);
    if download.Some? {
      PassesIff(c, download.value);
    }
    w := Chosen(fs.m, looks);
    if url == "" || !RequireSha(c.want) {
      return Rejected, w;
    }
    r := UpdateChecked(fs, c, download, looks);
  }

  /** agentUpdate once its arguments are accepted. */
  method UpdateChecked(fs: Disk<Path>, c: Check, download: Option<Bytes>, looks: Looks) returns (r: Result)
    requires !fs.crashed
    modifies fs`m, fs`crashed
    ensures !r.Rejected?
    ensures var w := Chosen(old(fs.m), looks);
      && Safe(c, old(fs.m), fs.m, w, looks.save)
      && (r.Updated? ==>
            && !fs.crashed && r.w == w && download.Some? && Passes(c, download.value)
            && Replaced(old(fs.m), fs.m, w, looks.save, File(download.value, EXECUTABLE)))
      && (r.Failed? && r.restored ==> !fs.crashed && Get(fs.m, Agent(w)) == Get(old(fs.m), Agent(w)))
      && (!fs.faulty && Replaceable(old(fs.m), w) ==>
            r == if download.Some? && Passes(c, download.value) then Updated(w, true) else Failed(true, true))
    ensures r.clean && (r.Failed? ==> r.restored) ==> NoScratchLeft(old(fs.m), fs.m)
  {
    hide Passes;
    ghost var start := fs.m;
    var w := Sbin;
    if !looks.choose || Agent(w) !in fs.m {
      w := Bin;
    }
    var tmp, clean := Fetch(fs, c, w, download);
    ghost var mid := fs.m;
    FetchedSame(start, mid, w);
    if tmp.None? {
      return Failed(!fs.crashed, clean);
    }
    r := Replace(fs, c, w, tmp.value, looks.save);
    SafeAfterFetch(c, start, mid, fs.m, w, looks.save);
    if r.clean && (r.Failed? ==> r.restored) {
      forall p | Scratch(p) ensures Get(fs.m, p) == Get(start, p) {
        assert p != tmp.value ==> Get(mid, p) == Get(start, p);
      }
    }
  }

  /** For instance, a passing update of a binary that the second stat call overlooks: nothing else goes wrong,
      and the old bytes are nowhere. */
  method OverlookedIsLost(c: Check, previous: Bytes, next: Bytes) returns (fs: Disk<Path>, r: Result)
    requires SixtyFourHexDigits(c.want) && Genuine(c, next) && next != previous
    ensures fresh(fs) && !fs.faulty && r == Updated(Sbin, true)
    ensures forall p | p in fs.m :: fs.m[p] != File(previous, EXECUTABLE)
  {
    fs := new Disk(map[Agent(Sbin) := File(previous, EXECUTABLE)]);
    ghost var w: Place;
    ghost var start := fs.m;
    r, w := Update(fs, c, "u", Some(next), Looks(true, false));
    forall p | p in fs.m ensures p == Agent(Sbin) {
      assert Get(fs.m, p) == Some(fs.m[p]);
      assert p != Agent(Sbin) ==> Get(start, p) == None;
    }
  }

  lemma FetchedSame(m: Fs, m': Fs, w: Place)
    requires ScratchOnly(m, m')
    ensures Get(m', Agent(w)) == Get(m, Agent(w)) && Get(m', Prev(w)) == Get(m, Prev(w))
    ensures Replaceable(m, w) == Replaceable(m', w)
  {}

  lemma SafeAfterFetch(c: Check, m: Fs, mid: Fs, m': Fs, w: Place, seen: bool)
    requires ScratchOnly(m, mid) && Safe(c, mid, m', w, seen)
    ensures Safe(c, m, m', w, seen)
  {
    FetchedSame(m, mid, w);
    forall v | v != w ensures Get(m', Agent(v)) == Get(m, Agent(v)) && Get(m', Prev(v)) == Get(m, Prev(v)) {
      FetchedSame(m, mid, v);
    }
  }

  /** From the saving of the old binary on. */
  method Replace(fs: Disk<Path>, c: Check, w: Place, tmp: Path, seen: bool) returns (r: Result)
    requires tmp.Temp? && tmp in fs.m && Verified(c, fs.m[tmp])
    requires !fs.crashed
    modifies fs`m, fs`crashed
    ensures r.Failed? || (r.Updated? && r.w == w)
    ensures Safe(c, old(fs.m), fs.m, w, seen)
    ensures r.Updated? ==> !fs.crashed && Replaced(old(fs.m), fs.m, w, seen, old(fs.m)[tmp])
    ensures r.Failed? && r.restored ==> !fs.crashed && Get(fs.m, Agent(w)) == Get(old(fs.m), Agent(w))
    ensures r.clean && (r.Failed? ==> r.restored) ==> OnlyGone(old(fs.m), fs.m, tmp)
    ensures !fs.faulty && Replaceable(old(fs.m), w) ==> r == Updated(w, true)
  {
    ghost var start := fs.m;
    var hadDest := seen && Agent(w) in fs.m;
    var ok := SaveOld(fs, w, hadDest);
    ghost var mid := fs.m;
    if !ok {
      var clean := Drop(fs, tmp);
      return Failed(!fs.crashed, clean);
    }
    assert Get(mid, tmp) == Get(start, tmp);
    r := Activate(fs, c, w, tmp, hadDest);
    ActivatingIsSafe(c, start, mid, fs.m, w, hadDest, seen);
  }

  lemma ActivatingIsSafe(c: Check, m: Fs, mid: Fs, m': Fs, w: Place, hadDest: bool, seen: bool)
    requires Activating(c, mid, m', w, hadDest)
    requires forall p | p != Agent(w) && p != Prev(w) :: Get(mid, p) == Get(m, p)
    requires if hadDest then Get(mid, Agent(w)) == None && Get(mid, Prev(w)) == Get(m, Agent(w)) else mid == m
    requires hadDest == (seen && Agent(w) in m)
    ensures Safe(c, m, m', w, seen)
  {
    hide Verified, GenuineFile;
    if Agent(w) in m' {
      VerifiedIff(c, m'[Agent(w)]);
    }
    assert Agent(w) in m' ==> Get(m', Agent(w)) == Some(m'[Agent(w)]);
    forall v | v != w ensures Get(m', Agent(v)) == Get(m, Agent(v)) && Get(m', Prev(v)) == Get(m, Prev(v)) {
      assert Get(mid, Agent(v)) == Get(m, Agent(v)) && Get(mid, Prev(v)) == Get(m, Prev(v));
    }
  }

  /** Moves the binary that stat sees to `.prev`. */
  method SaveOld(fs: Disk<Path>, w: Place, hadDest: bool) returns (ok: bool)
    requires !fs.crashed && (hadDest ==> Agent(w) in fs.m)
    modifies fs`m, fs`crashed
    ensures ok ==> !fs.crashed
    ensures forall p | p != Agent(w) && p != Prev(w) :: Get(fs.m, p) == Get(old(fs.m), p)
    ensures ok && hadDest ==> Get(fs.m, Agent(w)) == None && Get(fs.m, Prev(w)) == Get(old(fs.m), Agent(w)) != None
    ensures !hadDest ==> ok && fs.m == old(fs.m)
    ensures !ok ==>
              || Get(fs.m, Agent(w)) == Get(old(fs.m), Agent(w))
              || (fs.crashed && Get(fs.m, Agent(w)) == None && Get(fs.m, Prev(w)) == Get(old(fs.m), Agent(w)))
    ensures !fs.faulty && Replaceable(old(fs.m), w) ==> ok
  {
    ok := true;
    if hadDest {
      var _ := fs.Remove(Prev(w));
      ok := fs.Rename(Agent(w), Prev(w));
    }
  }

  /** Nothing in the way of the undisturbed update: binaries are files. */
  predicate Replaceable(m: Fs, w: Place) {
    (Agent(w) in m ==> m[Agent(w)].File?) && (Prev(w) in m ==> m[Prev(w)].File?)
  }
}
