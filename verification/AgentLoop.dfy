/** The agent's main loop as far as client identity goes: which client sends each heartbeat, when backups
    are dropped, when a rollover is taken back, and when a plain client follows an mTLS one. */
module AgentLoop {
  import opened FileSystem
  import opened StagedTree
  import opened Rollover
  import opened Recovery

  datatype Client = Plain | Mtls(mat: Material) | FailClosed

  /** NETDUCTOR_MTLS_REQUIRED. */
  datatype Env = Unset | On | Off

  /** The certificate library and the environment the agent runs in: `loads` says that a key pair and CA
      bundle can be parsed, `serial` gives the serial of material that passes the other checks too; `flagged`
      says that the flag file is there to begin with. */
  datatype Setup = Setup(loads: Material -> bool, serial: Material -> Option<int>, n: nat, env: Env, flagged: bool)

  predicate Filled(mat: Material) {
    mat.ca != [] && mat.cert != [] && mat.key != []
  }

  /** validateEdgeMTLSMaterial: it parses the key pair and the CA bundle as building a client does. */
  function Validation(s: Setup): Pki {
    Pki((mat: Material) => if Filled(mat) && s.loads(mat) then s.serial(mat) else None)
  }

  // ---------- The material that is found ----------

  /** What is at each directory. */
  type View = nat -> Option<Node>

  /** fileOK: a directory has a size too. */
  predicate FileOK(entries: map<string, Node>, name: string) {
    name in entries && (entries[name].Dir? || (entries[name].File? && entries[name].data != []))
  }

  predicate Complete(node: Node) {
    node.Dir? && FileOK(node.entries, "ca.crt") && FileOK(node.entries, "client.crt")
        && FileOK(node.entries, "client.key")
  }

  /** A directory with all three files: each is there and a directory, or a file that is not empty. */
  predicate ThreeFiles(node: Node) {
    && node.Dir?
    && "ca.crt" in node.entries && HasSize(node.entries["ca.crt"])
    && "client.crt" in node.entries && HasSize(node.entries["client.crt"])
    && "client.key" in node.entries && HasSize(node.entries["client.key"])
  }

  predicate HasSize(node: Node) {
    match node
    case Dir(_) => true
    case File(data, _) => data != []
    case _ => false
  }

  lemma CompleteIff(node: Node)
    ensures Complete(node) <==> ThreeFiles(node)
  {
    if node.Dir? {
      OkIff(node.entries, "ca.crt");
      OkIff(node.entries, "client.crt");
      OkIff(node.entries, "client.key");
      hide FileOK, HasSize;
      assert Complete(node) <==> ThreeFiles(node);
    }
  }

  lemma OkIff(entries: map<string, Node>, name: string)
    ensures FileOK(entries, name) <==> name in entries && HasSize(entries[name])
  {}

  /** Material passes if none of it is empty, it can be parsed, and the other checks give a serial. */
  lemma ValidationIff(s: Setup, mat: Material, serial: int)
    ensures Validation(s).identity(mat) == Some(serial) <==>
              mat.ca != [] && mat.cert != [] && mat.key != [] && s.loads(mat) && s.serial(mat) == Some(serial)
  {
    var id := Validation(s).identity;
    assert id(mat) == if Filled(mat) && s.loads(mat) then s.serial(mat) else None;
  }

  function Usable(o: Option<Node>): Option<Node> {
    if o.Some? && Complete(o.value) then o else None
  }

  /** findMTLSDir from directory `d` on. */
  function FindIn(v: View, d: nat, n: nat): Option<Node>
    decreases n - d
  {
    if d >= n then None else if Usable(v(d)).Some? then v(d) else FindIn(v, d + 1, n)
  }

  function Shown(m: Fs): View {
    (d: nat) => Get(m, Path(d, Current))
  }

  /** A directory at which a stat call fails is passed over. */
  function SeenOf(m: Fs, blind: set<nat>): View {
    (d: nat) => if d in blind then None else Get(m, Path(d, Current))
  }

  /** The first `k` directories with their stale backups put back. */
  function SettledView(m: Fs, k: nat): View {
    (d: nat) => if d < k then Some(PreparedCurrent(m, d)) else Get(m, Path(d, Current))
  }

  function Found(s: Setup, m: Fs): Option<Node> {
    FindIn(Shown(m), 0, s.n)
  }

  lemma {:induction false} FindSame(v: View, w: View, d: nat, n: nat)
    requires forall e: nat | e < n :: Usable(v(e)) == Usable(w(e))
    ensures FindIn(v, d, n) == FindIn(w, d, n)
    decreases n - d
  {
    hide Complete;
    if d < n {
      assert Usable(v(d)) == Usable(w(d));
      FindSame(v, w, d + 1, n);
    }
  }

  /** Nothing but the current directories matters. */
  lemma FoundSame(s: Setup, m: Fs, m': Fs)
    requires forall d: nat | d < s.n :: Get(m', Path(d, Current)) == Get(m, Path(d, Current))
    ensures Found(s, m') == Found(s, m)
  {
    FindSame(Shown(m), Shown(m'), 0, s.n);
  }

  /** findMTLSDir finds the first complete directory. */
  lemma {:induction false} FindsFirst(v: View, d: nat, n: nat)
    ensures FindIn(v, d, n).None? <==> forall e: nat | d <= e < n :: !Has(v, e)
    ensures FindIn(v, d, n).Some? ==> exists e: nat :: FirstIn(v, d, n, e) && v(e) == FindIn(v, d, n)
    decreases n - d
  {
    hide Complete, ThreeFiles;
    if d < n {
      if v(d).Some? {
        CompleteIff(v(d).value);
      }
      FindsFirst(v, d + 1, n);
      if Has(v, d) {
        assert FirstIn(v, d, n, d);
      } else if FindIn(v, d + 1, n).Some? {
        var e: nat :| FirstIn(v, d + 1, n, e) && v(e) == FindIn(v, d + 1, n);
        assert FirstIn(v, d, n, e);
      }
    }
  }

  ghost predicate Has(v: View, d: nat) {
    v(d).Some? && ThreeFiles(v(d).value)
  }

  ghost predicate FirstIn(v: View, d: nat, n: nat, e: nat) {
    d <= e < n && Has(v, e) && forall f: nat | d <= f < e :: !Has(v, f)
  }

  // ---------- The client that is built ----------

  /** Which calls work while a client is built: the stat calls at the directories that are not `blind`, the
      one on the flag file, and reading what was found. */
  datatype Sight = Sight(blind: set<nat>, flag: bool, readable: bool)

  const CLEAR := Sight({}, true, true)

  predicate Required(flag: bool, env: Env) {
    env.On? || (env.Unset? && flag)
  }

  function ClientOf(s: Setup, found: Option<Node>, flag: bool, readable: bool): Client {
    if found.None? then (if Required(flag, s.env) then FailClosed else Plain)
    else
      match ReadMaterial(found.value)
      case Some(mat) => if readable && s.loads(mat) then Mtls(mat) else FailClosed
      case None => FailClosed
  }

  /** The client agentHTTPClient makes. */
  function ClientFor(s: Setup, m: Fs, flag: bool, sight: Sight): Client {
    ClientOf(s, FindIn(SeenOf(m, sight.blind), 0, s.n), flag && sight.flag, sight.readable)
  }

  /** The client the disk stands for. */
  function OnDisk(s: Setup, m: Fs, flag: bool): Client {
    ClientOf(s, Found(s, m), flag, true)
  }

  lemma ClearIsOnDisk(s: Setup, m: Fs, flag: bool)
    ensures ClientFor(s, m, flag, CLEAR) == OnDisk(s, m, flag)
  {
    FindSame(SeenOf(m, {}), Shown(m), 0, s.n);
  }

  predicate CompleteAt(m: Fs, d: nat) {
    Path(d, Current) in m && ThreeFiles(m[Path(d, Current)])
  }

  /** The three files are these. */
  predicate FilesAre(node: Node, mat: Material) {
    && node.Dir?
    && "ca.crt" in node.entries && node.entries["ca.crt"].File? && node.entries["ca.crt"].data == mat.ca
    && "client.crt" in node.entries && node.entries["client.crt"].File? && node.entries["client.crt"].data == mat.cert
    && "client.key" in node.entries && node.entries["client.key"].File? && node.entries["client.key"].data == mat.key
  }

  /** An mTLS client has the bytes of the first directory seen with all three files, and only if they can be
      read and parsed. */
  lemma MtlsIff(s: Setup, m: Fs, flag: bool, sight: Sight, mat: Material)
    ensures ClientFor(s, m, flag, sight) == Mtls(mat) <==>
            && sight.readable && s.loads(mat)
            && exists e: nat :: e < s.n && e !in sight.blind && CompleteAt(m, e) && FilesAre(m[Path(e, Current)], mat)
                 && forall f: nat | f < e && CompleteAt(m, f) :: f in sight.blind
  {
    hide ThreeFiles;
    var v := SeenOf(m, sight.blind);
    FindsFirst(v, 0, s.n);
    assert forall d: nat :: Has(v, d) <==> CompleteAt(m, d) && d !in sight.blind;
    if e: nat :| e < s.n && e !in sight.blind && CompleteAt(m, e) && forall f: nat | f < e && CompleteAt(m, f) ::
        f in sight.blind {
      assert FirstIn(v, 0, s.n, e);
      OnlyFirst(v, s.n, e);
    }
    if FindIn(v, 0, s.n).Some? {
      var e: nat :| FirstIn(v, 0, s.n, e) && v(e) == FindIn(v, 0, s.n);
      assert CompleteAt(m, e) && forall f: nat | f < e && CompleteAt(m, f) :: f in sight.blind;
      FilesRead(m[Path(e, Current)], mat);
    }
  }

  lemma OnlyFirst(v: View, n: nat, e: nat)
    requires FirstIn(v, 0, n, e)
    ensures FindIn(v, 0, n) == v(e)
    ensures forall e': nat | FirstIn(v, 0, n, e') :: e' == e
  {
    FindsFirst(v, 0, n);
  }

  lemma FilesRead(node: Node, mat: Material)
    ensures ReadMaterial(node) == Some(mat) <==> FilesAre(node, mat)
  {}

  /** A plain client is built exactly when no complete directory is seen, and mTLS is not seen to be required. */
  lemma PlainIff(s: Setup, m: Fs, flag: bool, sight: Sight)
    ensures ClientFor(s, m, flag, sight).Plain? <==>
            && !s.env.On? && !(s.env.Unset? && flag && sight.flag)
            && forall d: nat | d < s.n && CompleteAt(m, d) :: d in sight.blind
  {
    hide ThreeFiles, ReadMaterial;
    var v := SeenOf(m, sight.blind);
    FindsFirst(v, 0, s.n);
    assert forall d: nat | d < s.n :: Has(v, d) <==> CompleteAt(m, d) && d !in sight.blind;
  }

  /** New material that was activated is what the next client is made from. */
  lemma InUseIsFound(s: Setup, m: Fs, m': Fs, mat: Material, flag: bool)
    requires s.n > 0 && InUse(m, m', 0, mat) && Filled(mat) && s.loads(mat)
    ensures OnDisk(s, m', flag) == Mtls(mat)
  {
    StagedIsOverlay(m[Path(0, Current)].entries, mat, [""]);
    assert Usable(Shown(m')(0)).Some?;
  }

  // ---------- What a run records ----------

  /** How one heartbeat goes: `shook` says that a TLS handshake completed. */
  datatype BeatOutcome = NoAnswer(shook: bool) | Answered(confirmed: bool)

  /** `m` is the disk before, `after` the disk after; `cut` says that power went away. */
  datatype Entry =
    | Built(client: Client, m: Fs, flag: bool, kept: bool, sight: Sight)
    | Shook
    | Beat(client: Client, m: Fs, flag: bool, outcome: BeatOutcome)
    | Dropped(client: Client, m: Fs, flag: bool, ok: bool)
    | Refreshed(mat: Material, m: Fs, after: Fs, r: InstallResult, settled: nat, cut: bool)
    | TakenBack(m: Fs, after: Fs, ok: bool)

  type Log = seq<Entry>

  function Init(log: Log): Log
    requires log != []
  {
    log[..|log| - 1]
  }

  function Final(log: Log): Entry
    requires log != []
  {
    log[|log| - 1]
  }

  /** The client built last. */
  function Sender(log: Log): Option<Client> {
    if log == [] then None else if Final(log).Built? then Some(Final(log).client) else Sender(Init(log))
  }

  /** The flag file as the last client left it. */
  function FlagLeft(log: Log): bool {
    if log == [] then false else if Final(log).Built? then Final(log).kept else FlagLeft(Init(log))
  }

  predicate Changes(e: Entry) {
    e.Built? || e.Refreshed? || e.TakenBack?
  }

  /** The last entry at which the current directories may have changed, or a client was built. */
  function Turn(log: Log): (e: Option<Entry>)
    ensures e.Some? ==> Changes(e.value)
  {
    if log == [] then None else if Changes(Final(log)) then Some(Final(log)) else Turn(Init(log))
  }

  function DiskLeft(e: Entry): Fs
    requires Changes(e)
  {
    if e.Built? then e.m else e.after
  }

  /** The flag file is there: from the beginning, or because some client left it. */
  predicate Flagged(s: Setup, log: Log) {
    s.flagged || exists i | 0 <= i < |log| :: log[i].Built? && log[i].kept
  }

  predicate Failed(e: Entry) {
    (e.Beat? && e.outcome.NoAnswer?) || (e.Dropped? && !e.ok)
  }

  predicate Succeeded(e: Entry) {
    (e.Beat? && e.outcome == Answered(false)) || (e.Dropped? && e.ok)
  }

  predicate Handshake(e: Entry) {
    e.Shook? || (e.Beat? && e.client.Mtls? && (e.outcome.Answered? || e.outcome.shook))
  }

  /** Heartbeats that failed since a client was built, or since one succeeded. */
  function Streak(log: Log): nat {
    if log == [] || Final(log).Built? || Succeeded(Final(log)) then 0
    else Streak(Init(log)) + if Failed(Final(log)) then 1 else 0
  }

  predicate Shaken(log: Log) {
    log != [] && !Final(log).Built? && (Handshake(Final(log)) || Shaken(Init(log)))
  }

  predicate Renews(e: Entry) {
    (e.Refreshed? && e.r.Installed?) || (e.TakenBack? && e.ok)
  }

  /** Material was installed or taken back, and no client was built since. */
  predicate Due(log: Log) {
    log != [] && !Final(log).Built? && (Renews(Final(log)) || Due(Init(log)))
  }

  // ---------- What each entry says about those before it ----------

  ghost predicate AsLeft(s: Setup, log: Log, m: Fs) {
    && Turn(log).Some? && !(Turn(log).value.Refreshed? && Turn(log).value.cut)
    && Found(s, m) == Found(s, DiskLeft(Turn(log).value))
  }

  /** `client` is the one built last, nothing is due, and the material in use is as it was left. */
  ghost predicate Sends(s: Setup, log: Log, client: Client, m: Fs, flag: bool) {
    Sender(log) == Some(client) && !Due(log) && flag == FlagLeft(log) && AsLeft(s, log, m)
  }

  /** A directory after a swap that went wrong, seen from the disk before the installation. */
  ghost predicate TornFrom(m: Fs, m': Fs, d: nat, mat: Material) {
    var was := PreparedCurrent(m, d);
    || Get(m', Path(d, Current)) == Some(was)
    || Path(d, Current) !in m'
    || (was.Dir? && Remnant(Dir(Staged(was.entries, mat)), m'[Path(d, Current)]))
  }

  /** What an installation leaves in use, by its result. */
  ghost predicate Leaves(s: Setup, e: Entry)
    requires e.Refreshed?
  {
    match e.r
    case Installed => s.n > 0 ==> forall flag :: OnDisk(s, e.after, flag) == Mtls(e.mat)
    case CleanupError => s.n > 0 ==> forall flag :: OnDisk(s, e.after, flag) == Mtls(e.mat)
    case StageError(_) => Found(s, e.after) == FindIn(SettledView(e.m, e.settled), 0, s.n)
    case SwapError(undone, _) =>
      && (undone ==> Found(s, e.after) == FindIn(SettledView(e.m, s.n), 0, s.n))
      && forall d: nat | d < s.n :: TornFrom(e.m, e.after, d, e.mat)
  }

  ghost predicate EntryOk(s: Setup, log: Log, e: Entry) {
    match e
    case Built(client, m, flag, kept, sight) =>
      && client == ClientFor(s, m, flag, sight)
      && (flag ==> kept) && (!client.Mtls? ==> kept == flag)
      && flag == Flagged(s, log)
    case Shook => Sender(log).Some? && Sender(log).value.Mtls?
    case Beat(client, m, flag, _) => Sends(s, log, client, m, flag)
    case Dropped(client, m, flag, _) =>
      && Sends(s, log, client, m, flag)
      && log != [] && Final(log) == Beat(client, m, flag, Answered(true))
    case Refreshed(mat, m, after, r, settled, cut) =>
      && AsLeft(s, log, m) && Validation(s).identity(mat).Some?
      && (r.CleanupError? ==> SomeoneBackedUp(m, s.n))
      && (!cut ==> Leaves(s, e))
    case TakenBack(m, after, ok) =>
      && AsLeft(s, log, m) && Streak(log) >= 3 && !Shaken(log)
      && (forall d: nat | d < s.n :: RestoreShape(m, after, d))
      && (ok ==> forall d: nat | d < s.n :: RestoredAt(m, after, d))
  }

  ghost predicate LogOk(s: Setup, log: Log) {
    forall i | 0 <= i < |log| :: EntryOk(s, log[..i], log[i])
  }

  lemma LogGrows(s: Setup, log: Log, e: Entry)
    requires LogOk(s, log) && EntryOk(s, log, e)
    ensures LogOk(s, log + [e])
    ensures Init(log + [e]) == log && Final(log + [e]) == e
  {
    hide EntryOk;
    var log' := log + [e];
    assert log'[..|log|] == log;
    forall i | 0 <= i < |log'| ensures EntryOk(s, log'[..i], log'[i]) {
      if i < |log| {
        assert log'[..i] == log[..i];
      }
    }
  }

  lemma LogShrinks(s: Setup, log: Log)
    requires LogOk(s, log) && log != []
    ensures LogOk(s, Init(log)) && EntryOk(s, Init(log), Final(log))
  {
    hide EntryOk;
    forall i | 0 <= i < |Init(log)| ensures EntryOk(s, Init(log)[..i], Init(log)[i]) {
      assert Init(log)[..i] == log[..i];
    }
  }

  // ---------- Confirmation is of the client in use ----------

  /** A heartbeat, or an acknowledgement that drops backups, of another client than the disk stands for. */
  predicate Foreign(s: Setup, e: Entry)
    requires e.Beat? || e.Dropped?
  {
    e.client != OnDisk(s, e.m, e.flag)
  }

  /** An installation that fails with one of these may change what the disk stands for: an error past the
      swap, a rollback that failed, or a missing directory with a backup that is put back. */
  ghost predicate Troubles(s: Setup, e: Entry)
    requires e.Refreshed?
  {
    || e.cut || e.r.CleanupError? || (e.r.SwapError? && !e.r.undone)
    || exists d: nat :: d < s.n && PutBackAt(e.m, d)
  }

  /** What trouble takes, from the disk before: an error past the swap is only possible where some directory is
      there with a backup beside it. */
  ghost predicate TroubleTakes(s: Setup, e: Entry)
    requires e.Refreshed?
  {
    && (e.r.CleanupError? ==> SomeoneBackedUp(e.m, s.n))
    && (Troubles(s, e) ==>
          || e.cut || (e.r.SwapError? && !e.r.undone)
          || SomeoneBackedUp(e.m, s.n) || exists d: nat :: d < s.n && PutBackAt(e.m, d))
  }

  ghost predicate PutBackAt(m: Fs, d: nat) {
    !RealDirAt(m, Path(d, Current)) && Path(d, Old) in m && ThreeFiles(m[Path(d, Old)])
  }

  /** Since the last client was built, with all calls working, no installation of that kind and no restore
      that failed. */
  ghost predicate Untroubled(s: Setup, log: Log) {
    && log != []
    && match Final(log)
       case Built(_, _, _, _, sight) => sight == CLEAR
       case Refreshed(_, _, _, r, _, _) => (r.Installed? || !Troubles(s, Final(log))) && Untroubled(s, Init(log))
       case TakenBack(_, _, ok) => ok && Untroubled(s, Init(log))
       case _ => Untroubled(s, Init(log))
  }

  lemma SettledSame(s: Setup, m: Fs, k: nat)
    requires !exists d: nat :: d < s.n && PutBackAt(m, d)
    ensures FindIn(SettledView(m, k), 0, s.n) == Found(s, m)
  {
    forall d: nat | d < s.n ensures Usable(SettledView(m, k)(d)) == Usable(Shown(m)(d)) {
      assert !PutBackAt(m, d);
      if Path(d, Old) in m {
        CompleteIff(m[Path(d, Old)]);
      }
    }
    FindSame(SettledView(m, k), Shown(m), 0, s.n);
  }

  /** Then the client built last is the one the disk stands for. */
  lemma {:induction false} SenderIsOnDisk(s: Setup, log: Log)
    requires LogOk(s, log) && Untroubled(s, log) && !Due(log)
    ensures Sender(log).Some? && Turn(log).Some?
    ensures Sender(log).value == OnDisk(s, DiskLeft(Turn(log).value), FlagLeft(log))
    decreases |log|
  {
    hide FindIn, ReadMaterial, Required, RestoreShape, RestoredAt;
    LogShrinks(s, log);
    var e := Final(log);
    if e.Built? {
      ClearIsOnDisk(s, e.m, e.flag);
      FlagMatters(s, e.m, e.flag, e.kept);
    } else {
      SenderIsOnDisk(s, Init(log));
      if e.Refreshed? {
        SettledSame(s, e.m, if e.r.StageError? then e.settled else s.n);
      }
    }
  }

  lemma FlagMatters(s: Setup, m: Fs, flag: bool, kept: bool)
    requires OnDisk(s, m, flag).Mtls? || kept == flag
    ensures OnDisk(s, m, kept) == OnDisk(s, m, flag)
  {}

  /** So a foreign heartbeat or acknowledgement takes such an event before it. */
  lemma ForeignTakesTrouble(s: Setup, log: Log, e: Entry)
    requires LogOk(s, log) && EntryOk(s, log, e) && (e.Beat? || e.Dropped?) && Untroubled(s, log)
    ensures !Foreign(s, e)
  {
    SenderIsOnDisk(s, log);
  }

  /** And after such an event it is decided like this. */
  ghost predicate Decided(s: Setup, turn: Entry, e: Entry)
    requires Changes(turn) && (e.Beat? || e.Dropped?)
  {
    match turn
    case Built(client, m, flag, kept, sight) =>
      e.client == client && (Foreign(s, e) <==> ClientFor(s, m, flag, sight) != OnDisk(s, m, kept))
    case Refreshed(mat, m, after, r, settled, cut) =>
      !cut && (
        match r
        case Installed => false
        case CleanupError => s.n > 0 ==> (Foreign(s, e) <==> e.client != Mtls(mat))
        case StageError(_) => Foreign(s, e) <==> e.client != ClientOf(s, FindIn(SettledView(m, settled), 0, s.n),
            e.flag, true)
        case SwapError(undone, _) =>
          && (undone ==> (Foreign(s, e) <==> e.client != ClientOf(s, FindIn(SettledView(m, s.n), 0, s.n), e.flag,
              true)))
          && (Foreign(s, e) <==> e.client != OnDisk(s, after, e.flag))
          && (forall d: nat | d < s.n :: TornFrom(m, after, d, mat)))
    case TakenBack(m, after, ok) =>
      && !ok && (Foreign(s, e) <==> e.client != OnDisk(s, after, e.flag))
      && forall d: nat | d < s.n :: RestoreShape(m, after, d)
  }

  lemma {:induction false} TurnIsOk(s: Setup, log: Log)
    requires LogOk(s, log) && Turn(log).Some?
    ensures exists p: Log :: |p| < |log| && EntryOk(s, p, Turn(log).value)
    ensures Turn(log).value.Built? ==>
              Sender(log) == Some(Turn(log).value.client) && FlagLeft(log) == Turn(log).value.kept
    ensures Renews(Turn(log).value) ==> Due(log)
    decreases |log|
  {
    hide EntryOk;
    LogShrinks(s, log);
    if Changes(Final(log)) {
      assert EntryOk(s, Init(log), Turn(log).value);
    } else {
      TurnIsOk(s, Init(log));
    }
  }

  lemma ForeignIff(s: Setup, log: Log, e: Entry)
    requires LogOk(s, log) && EntryOk(s, log, e) && (e.Beat? || e.Dropped?)
    ensures Turn(log).Some? && Decided(s, Turn(log).value, e)
  {
    hide FindIn, ReadMaterial, Required, LogOk, Sender, FlagLeft, Due;
    assert Sends(s, log, e.client, e.m, e.flag);
    TurnIsOk(s, log);
    var turn := Turn(log).value;
    var p: Log :| |p| < |log| && EntryOk(s, p, turn);
    assert OnDisk(s, e.m, e.flag) == OnDisk(s, DiskLeft(turn), e.flag);
    assert turn.Refreshed? && !turn.cut ==> Leaves(s, turn);
  }

  // ---------- A rollover is taken back only after three failures ----------

  ghost predicate NoneBuilt(log: Log, from: nat) {
    forall x | from <= x < |log| :: !log[x].Built?
  }

  lemma {:induction false} LastFailure(log: Log, k: nat) returns (i: nat)
    requires Streak(log) >= k > 0
    ensures i < |log| && Failed(log[i]) && NoneBuilt(log, i) && Streak(log[..i]) >= k - 1
  {
    if Failed(Final(log)) {
      i := |log| - 1;
    } else {
      i := LastFailure(Init(log), k);
      assert Init(log)[..i] == log[..i];
    }
  }

  lemma {:induction false} NoHandshake(log: Log, from: nat)
    requires !Shaken(log) && NoneBuilt(log, from)
    ensures forall x | from <= x < |log| :: !Handshake(log[x])
  {
    if from < |log| {
      NoHandshake(Init(log), from);
    }
  }

  /** Three heartbeats failed since the last client was built, and no handshake completed. */
  ghost predicate ThreeFailures(log: Log) {
    exists i: nat, j: nat, k: nat | i < j < k < |log| ::
      && Failed(log[i]) && Failed(log[j]) && Failed(log[k]) && NoneBuilt(log, i)
      && forall x: nat | x < |log| && NoneBuilt(log, x) :: !Handshake(log[x])
  }

  lemma StreakOfThree(log: Log)
    requires Streak(log) >= 3 && !Shaken(log)
    ensures ThreeFailures(log)
  {
    hide Streak, Shaken, Failed, Handshake;
    var k := LastFailure(log, 3);
    var before := log[..k];
    var j := LastFailure(before, 2);
    var i := LastFailure(before[..j], 1);
    assert before[..j][i] == log[i] && before[j] == log[j];
    forall x | i <= x < |log| ensures !log[x].Built? {
      assert x < j ==> before[..j][x] == log[x];
      assert j <= x < k ==> before[x] == log[x];
    }
    forall x: nat | x < |log| && NoneBuilt(log, x) ensures !Handshake(log[x]) {
      NoHandshake(log, x);
    }
  }

  // ---------- Plain clients after mTLS ones ----------

  /** A plain client is built while the flag file is there exactly when the environment allows it or the file
      is not seen, and no complete directory is seen. */
  ghost predicate PlainOnlyBlind(s: Setup, e: Entry)
    requires e.Built?
  {
    e.client.Plain? <==>
      && (s.env.Off? || (s.env.Unset? && !e.sight.flag))
      && forall d: nat | d < s.n && CompleteAt(e.m, d) :: d in e.sight.blind
  }

  lemma PlainAfterFlag(s: Setup, log: Log, j: nat)
    requires LogOk(s, log) && j < |log| && log[j].Built? && Flagged(s, log[..j])
    ensures PlainOnlyBlind(s, log[j])
  {
    assert EntryOk(s, log[..j], log[j]);
    PlainIff(s, log[j].m, log[j].flag, log[j].sight);
  }

  // ---------- The loop ----------

  /** A round ends early when enrolment fails. */
  datatype Round = Round(enrolled: bool, enrollShook: bool, beat: BeatOutcome, refreshes: seq<Material>,
      pollShook: bool)

  datatype Session = Session(faults: bool, rounds: seq<Round>)

  class Agent {
    const setup: Setup
    const fs: Disk<Path>
    var flag: bool // the mtls_required file
    /** The process runs and has a client. */
    var up: bool
    var client: Client
    var installed: bool
    var backupActive: bool
    var failures: nat
    var handshake: bool
    ghost var log: Log

    /** Everything the log says about the state, but for the failures counted. */
    ghost predicate Linked()
      reads this, fs
    {
      && LogOk(setup, log)
      && flag == Flagged(setup, log)
      && (up ==>
            && Sender(log) == Some(client) && flag == FlagLeft(log) && handshake == Shaken(log)
            && (Due(log) ==> installed) && (!fs.crashed ==> AsLeft(setup, log, fs.m)))
    }

    ghost predicate Valid()
      reads this, fs
    {
      Linked() && (up ==> failures <= Streak(log))
    }

    constructor (setup: Setup, fs: Disk<Path>)
      ensures this.setup == setup && this.fs == fs && flag == setup.flagged && log == [] && Valid()
    {
      this.setup, this.fs := setup, fs;
      flag, up, client, installed, backupActive := setup.flagged, false, Plain, false, false;
      failures, handshake := 0, false;
      log := [];
    }

    ghost predicate Active()
      reads this, fs
    {
      up && !installed && !fs.crashed
    }

    /** agentHTTPClient: builds the client, and remembers that mTLS was used. */
    method Build()
      requires LogOk(setup, log) && flag == Flagged(setup, log)
      modifies this
      ensures exists sight ::
                && (!fs.faulty ==> sight == CLEAR)
                && client == ClientFor(setup, fs.m, old(flag), sight)
                && log == old(log) + [Built(client, fs.m, old(flag), flag, sight)]
      ensures old(flag) ==> flag
      ensures client.Mtls? && !fs.faulty ==> flag
      ensures up && !installed && failures == 0 && backupActive == old(backupActive)
      ensures Valid()
    {
      hide ClientFor;
      up, installed, handshake, failures := true, false, false, 0;
      var sight := CLEAR;
      if fs.faulty {
        var any: Sight := *;
        sight := any;
      }
      client := ClientFor(setup, fs.m, flag, sight);
      ghost var was := flag;
      if client.Mtls? {
        var written: bool := true;
        if fs.faulty {
          written := *;
        }
        flag := flag || written;
      }
      Record(Built(client, fs.m, was, flag, sight));
      FlaggedSnoc(setup, old(log), Final(log));
    }

    ghost method Record(e: Entry)
      requires LogOk(setup, log) && EntryOk(setup, log, e)
      modifies this`log
      ensures log == old(log) + [e] && LogOk(setup, log)
      ensures log != [] && Init(log) == old(log) && Final(log) == e
    {
      LogGrows(setup, log, e);
      log := log + [e];
    }

    /** Boot: repair, build the client, note whether a rollover is pending. */
    method Start(faults: bool)
      requires Valid()
      modifies this, fs
      ensures Valid() && (old(flag) ==> flag)
      ensures Kept(Validation(setup), old(fs.m), fs.m, {})
      ensures if up then Active() && |log| == |old(log)| + 1 && old(log) <= log && Final(log).Built?
                else log == old(log)
      ensures !faults ==> (up <==> StartupCan(Validation(setup), old(fs.m), setup.n))
      ensures !faults && up ==>
                && StartupOutcome(Validation(setup), old(fs.m), fs.m, setup.n)
                && backupActive == SomeBackup(fs.m, setup.n)
    {
      hide LogOk, Flagged, StartupOutcome, StartupCan, ClientFor, NoBackupsAdded;
      fs.Boot(faults);
      up, installed := false, false;
      var repaired := RecoverStartup(fs, Validation(setup), setup.n);
      if !repaired || fs.crashed {
        return;
      }
      Build();
      backupActive := BackupsPresent(fs, setup.n);
    }

    /** A handshake outside of a heartbeat. */
    method Shake(shook: bool)
      requires Valid() && Active()
      modifies this`handshake, this`log
      ensures Valid() && Active() && old(log) <= log
      ensures log != old(log) ==> log == old(log) + [Shook]
    {
      if shook && client.Mtls? {
        handshake := true;
        Record(Shook);
        FlaggedSnoc(setup, old(log), Shook);
      }
    }

    /** heartbeat and what the loop does with its outcome. */
    method Heartbeat(outcome: BeatOutcome)
      requires Valid() && Active()
      modifies this, fs
      ensures Valid() && up && !installed && (old(flag) ==> flag)
      ensures old(log) <= log && |log| > |old(log)|
      ensures log[|old(log)|] == Beat(old(client), old(fs.m), old(flag), outcome)
      // the disk changes for an acknowledgement, or when a rollover is taken back
      ensures fs.m != old(fs.m) ==>
                && |log| > |old(log)| + 1
                && var next := log[|old(log)| + 1];
                   if outcome == Answered(true) then next.Dropped? else next.TakenBack? && old(backupActive)
    {
      hide LogOk, Flagged, AsLeft, Sender, FlagLeft, Shaken, Due, Streak;
      Send(outcome);
      var ok := outcome.Answered?;
      if outcome == Answered(true) {
        ok := DropBackups();
      }
      if ok {
        failures := 0;
      } else {
        CountFailure();
      }
    }

    /** The request of a heartbeat. */
    method Send(outcome: BeatOutcome)
      requires Valid() && Active()
      modifies this`handshake, this`log
      ensures Linked() && Active()
      ensures log == old(log) + [Beat(client, fs.m, flag, outcome)]
      ensures Final(log) == Beat(client, fs.m, flag, outcome)
      ensures Streak(log) == if outcome.NoAnswer? then Streak(old(log)) + 1 else if outcome.confirmed
                then Streak(old(log)) else 0
    {
      hide LogOk, Flagged;
      var e := Beat(client, fs.m, flag, outcome);
      Record(e);
      FlaggedSnoc(setup, old(log), e);
      if client.Mtls? && (outcome.Answered? || outcome.shook) {
        handshake := true;
      }
    }

    /** cleanupEdgeMTLSBackups, called for an acknowledgement. */
    method DropBackups() returns (ok: bool)
      requires Linked() && Active()
      requires log != [] && Final(log) == Beat(client, fs.m, flag, Answered(true))
      modifies this`backupActive, this`log, fs
      ensures Linked() && up
      ensures log == old(log) + [Dropped(client, old(fs.m), flag, ok)]
      ensures Streak(log) == if ok then 0 else Streak(old(log)) + 1
      ensures ok ==> !backupActive && !fs.crashed
      ensures !ok ==> backupActive == old(backupActive)
    {
      hide LogOk, Flagged, FindIn, LeftOf;
      ghost var before := fs.m;
      ghost var done: nat;
      ok, done := Cleanup(fs, setup.n);
      FoundSame(setup, before, fs.m);
      var e := Dropped(client, before, flag, ok);
      Record(e);
      FlaggedSnoc(setup, old(log), e);
      if ok {
        backupActive := false;
      }
    }

    /** A failed heartbeat counts while a rollover is pending and no handshake has completed; the third one
        takes the rollover back. */
    method CountFailure()
      requires Linked() && up && !installed && failures < Streak(log)
      modifies this, fs
      ensures Valid() && up && !installed && (old(flag) ==> flag) && old(log) <= log
      ensures if old(backupActive) && !old(handshake) && !old(fs.crashed) && old(failures) >= 2
              then |log| > |old(log)| && log[|old(log)|].TakenBack? && log[|old(log)|].m == old(fs.m)
              else log == old(log) && fs.m == old(fs.m)
    {
      hide LogOk, Flagged, AsLeft;
      if backupActive && !handshake && !fs.crashed {
        failures := failures + 1;
        if failures >= 3 {
          var _ := TakeBackRollover();
        }
      }
    }

    /** The heartbeat-driven restore. */
    method TakeBackRollover() returns (ok: bool)
      requires Valid() && Active() && failures >= 3 && !handshake
      modifies this, fs
      ensures Valid() && up && !installed && (old(flag) ==> flag) && old(log) <= log
      ensures |log| > |old(log)| && log[|old(log)|].TakenBack?
      ensures log[|old(log)|].m == old(fs.m) && log[|old(log)|].after == fs.m && log[|old(log)|].ok == ok
      ensures if ok then |log| == |old(log)| + 2 && Final(log).Built? && Final(log).m == fs.m && !backupActive
              else |log| == |old(log)| + 1
    {
      hide LogOk, Flagged, ClientFor, RestoreShape, RestoredAt, Kept, SameDir, SameStages, FallbackIsDir;
      ghost var before := fs.m;
      ok := Restore(fs, Validation(setup), setup.n);
      var e := TakenBack(before, fs.m, ok);
      Record(e);
      FlaggedSnoc(setup, old(log), e);
      if ok {
        backupActive := false;
        Build();
      }
    }

    /** mtls_refresh with the material that came; what does not pass validation is rejected. */
    method Refresh(mat: Material) returns (r: Option<InstallResult>)
      requires Valid() && up && !fs.crashed
      modifies this`installed, this`backupActive, this`log, fs
      ensures Valid() && up
      ensures r.None? <==> Validation(setup).identity(mat).None?
      ensures r.None? ==> log == old(log) && fs.m == old(fs.m) && !fs.crashed
      ensures r.Some? ==> exists settled ::
                log == old(log) + [Refreshed(mat, old(fs.m), fs.m, r.value, settled, fs.crashed)]
      ensures installed == (old(installed) || r == Some(Installed))
      ensures r == Some(Installed) ==> backupActive
    {
      hide LogOk, Flagged, FindIn, AsLeft, EntryOk;
      if Validation(setup).identity(mat).None? {
        return None;
      }
      var result: InstallResult;
      ghost var e: Entry;
      result, e := Attempt(mat);
      Record(e);
      FlaggedSnoc(setup, old(log), e);
      LeftAfter(setup, old(log), e, fs.m);
      r := Some(result);
      if result.Installed? {
        installed, backupActive := true, true;
      }
    }

    /** The installation, and what is to be recorded of it. */
    method Attempt(mat: Material) returns (r: InstallResult, ghost e: Entry)
      requires !fs.crashed && AsLeft(setup, log, fs.m) && Validation(setup).identity(mat).Some?
      modifies fs
      ensures exists settled :: e == Refreshed(mat, old(fs.m), fs.m, r, settled, fs.crashed)
      ensures EntryOk(setup, log, e)
    {
      hide FindIn, Torn, SettledTo, InUse, Unswapped, SameStages, SameDir, PreparedOld, OrdinaryAt, Kept,
          SomeoneBackedUp,
          NewBackupsLast, ReadMaterial, Leaves, AsLeft;
      ghost var before := fs.m;
      ghost var swapStart: Fs, settled: nat;
      r, swapStart, settled := Install(fs, Validation(setup), setup.n, mat);
      e := Refreshed(mat, before, fs.m, r, settled, fs.crashed);
      if !fs.crashed {
        InstallLeaves(setup, swapStart, e);
      }
    }

    /** pollCmds, as far as it touches client material, and the rebuild at the end of the round. */
    method Poll(refreshes: seq<Material>, shook: bool)
      requires Valid() && Active()
      modifies this, fs
      ensures Valid() && up && (old(flag) ==> flag) && old(log) <= log
      ensures !fs.crashed ==> !installed
    {
      hide LogOk, Flagged, AsLeft, ClientFor;
      Shake(shook);
      for i := 0 to |refreshes|
        invariant Valid() && up && flag == old(flag) && old(log) <= log
      {
        if fs.crashed {
          return;
        }
        var r := Refresh(refreshes[i]);
      }
      if installed && !fs.crashed {
        Build();
      }
    }

    /** Any number of boots, each with any number of rounds, with calls failing and power going away anywhere. */
    method Live(sessions: seq<Session>)
      requires Valid()
      modifies this, fs
      ensures Valid() && old(log) <= log && (old(flag) ==> flag)
      // a foreign heartbeat or acknowledgement takes trouble since the client was built; and when it is foreign
      ensures forall i | 0 <= i < |log| && (log[i].Beat? || log[i].Dropped?) ::
                && (Untroubled(setup, log[..i]) ==> !Foreign(setup, log[i]))
                && Turn(log[..i]).Some? && Decided(setup, Turn(log[..i]).value, log[i])
      // and an installation is trouble only with a backup beside a directory or in place of one, or when
      // power goes away or a rollback fails
      ensures forall i | 0 <= i < |log| && log[i].Refreshed? :: TroubleTakes(setup, log[i])
      // backups go only for an acknowledgement to the same client on the same disk
      ensures forall i | 0 <= i < |log| && log[i].Dropped? ::
                i > 0 && log[i - 1] == Beat(log[i].client, log[i].m, log[i].flag, Answered(true))
      // a rollover is taken back only after three failures without a handshake
      ensures forall i | 0 <= i < |log| && log[i].TakenBack? :: ThreeFailures(log[..i])
      // when a plain client is built although the flag file is there; it is never lost
      ensures forall j | 0 <= j < |log| && log[j].Built? && Flagged(setup, log[..j]) :: PlainOnlyBlind(setup, log[j])
      ensures forall i, j | 0 <= i < j < |log| && log[i].Built? && log[i].kept && log[j].Built? ::
                PlainOnlyBlind(setup, log[j])
      ensures old(flag) ==> forall j | |old(log)| <= j < |log| && log[j].Built? :: PlainOnlyBlind(setup, log[j])
    {
      Sessions(sessions);
      hide Untroubled, Decided, Turn, ThreeFailures, PlainOnlyBlind, Foreign, Flagged, TroubleTakes;
      forall i | 0 <= i < |log|
        ensures log[i].Beat? || log[i].Dropped? ==>
                  && (Untroubled(setup, log[..i]) ==> !Foreign(setup, log[i]))
                  && Turn(log[..i]).Some? && Decided(setup, Turn(log[..i]).value, log[i])
        ensures log[i].Dropped? ==> i > 0 && log[i - 1] == Beat(log[i].client, log[i].m, log[i].flag, Answered(true))
        ensures log[i].TakenBack? ==> ThreeFailures(log[..i])
        ensures log[i].Refreshed? ==> TroubleTakes(setup, log[i])
      {
        EntriesShow(setup, log, i);
      }
      forall j | 0 <= j < |log| && log[j].Built?
        ensures Flagged(setup, log[..j]) ==> PlainOnlyBlind(setup, log[j])
        ensures old(flag) && j >= |old(log)| ==> PlainOnlyBlind(setup, log[j])
        ensures forall i | 0 <= i < j && log[i].Built? && log[i].kept :: PlainOnlyBlind(setup, log[j])
      {
        FlaggedUpTo(setup, log, j);
        if old(flag) && j >= |old(log)| {
          FlaggedLater(setup, old(log), log[..j]);
        }
        if Flagged(setup, log[..j]) {
          PlainAfterFlag(setup, log, j);
        }
      }
    }

    method Sessions(sessions: seq<Session>)
      requires Valid()
      modifies this, fs
      ensures Valid() && old(log) <= log && (old(flag) ==> flag)
    {
      hide LogOk, Flagged, AsLeft;
      for i := 0 to |sessions|
        invariant Valid() && old(log) <= log && (old(flag) ==> flag)
      {
        Start(sessions[i].faults);
        var rounds := sessions[i].rounds;
        for j := 0 to |rounds|
          invariant Valid() && old(log) <= log && (old(flag) ==> flag)
          invariant up && !fs.crashed ==> !installed
        {
          if up && !fs.crashed {
            Shake(rounds[j].enrollShook);
          }
          if up && !fs.crashed && rounds[j].enrolled {
            Heartbeat(rounds[j].beat);
          }
          if up && !fs.crashed && rounds[j].enrolled {
            Poll(rounds[j].refreshes, rounds[j].pollShook);
          }
        }
      }
    }
  }

  lemma FlaggedSnoc(s: Setup, log: Log, e: Entry)
    ensures Flagged(s, log + [e]) <==> Flagged(s, log) || (e.Built? && e.kept)
  {
    var log' := log + [e];
    assert log'[|log|] == e;
    if i :| 0 <= i < |log| && log[i].Built? && log[i].kept {
      assert log'[i].Built? && log'[i].kept;
    }
  }

  lemma FlaggedUpTo(s: Setup, log: Log, j: nat)
    requires j <= |log|
    ensures (exists i :: 0 <= i < j && log[i].Built? && log[i].kept) ==> Flagged(s, log[..j])
  {
    if i :| 0 <= i < j && log[i].Built? && log[i].kept {
      assert log[..j][i] == log[i];
    }
  }

  lemma FlaggedLater(s: Setup, log: Log, later: Log)
    requires log <= later && Flagged(s, log)
    ensures Flagged(s, later)
  {
    if i :| 0 <= i < |log| && log[i].Built? && log[i].kept {
      assert later[i].Built? && later[i].kept;
    }
  }

  ghost predicate EntryShows(s: Setup, log: Log, i: nat)
    requires i < |log|
  {
    && (log[i].Beat? || log[i].Dropped? ==>
          && (Untroubled(s, log[..i]) ==> !Foreign(s, log[i]))
          && Turn(log[..i]).Some? && Decided(s, Turn(log[..i]).value, log[i]))
    && (log[i].Dropped? ==> i > 0 && log[i - 1] == Beat(log[i].client, log[i].m, log[i].flag, Answered(true)))
    && (log[i].TakenBack? ==> ThreeFailures(log[..i]))
    && (log[i].Refreshed? ==> TroubleTakes(s, log[i]))
  }

  lemma EntriesShow(s: Setup, log: Log, i: nat)
    requires LogOk(s, log) && i < |log|
    ensures EntryShows(s, log, i)
  {
    hide Untroubled, Decided, Turn, ThreeFailures, Foreign, Sends, Leaves, ClientFor;
    var before := log[..i];
    assert EntryOk(s, before, log[i]);
    forall j | 0 <= j < |before| ensures EntryOk(s, before[..j], before[j]) {
      assert before[..j] == log[..j] && EntryOk(s, log[..j], log[j]);
    }
    if log[i].Beat? || log[i].Dropped? {
      ForeignIff(s, before, log[i]);
      if Untroubled(s, before) {
        ForeignTakesTrouble(s, before, log[i]);
      }
    }
    if log[i].TakenBack? {
      StreakOfThree(before);
    }
  }

  lemma LeftAfter(s: Setup, log: Log, e: Entry, m: Fs)
    requires e.Refreshed? && e.after == m
    ensures !e.cut ==> AsLeft(s, log + [e], m)
  {
    assert Final(log + [e]) == e;
  }

  /** What the installation promises, read as what it leaves in use. */
  lemma InstallLeaves(s: Setup, swapStart: Fs, e: Entry)
    requires e.Refreshed? && Validation(s).identity(e.mat).Some?
    requires !e.r.StageError? ==> e.settled == s.n && forall d: nat | d < s.n ::
               Get(swapStart, Path(d, Current)) == Some(PreparedCurrent(e.m, d))
    requires e.r.SwapError? && e.r.undone ==> forall d: nat | d < s.n :: Unswapped(swapStart, e.after, d)
    requires e.r.SwapError? ==> forall d: nat | d < s.n :: Torn(swapStart, e.after, d, e.mat)
    requires e.r.StageError? ==> forall d: nat | d < s.n :: SettledTo(e.m, e.after, d, e.settled)
    requires e.r.Installed? || e.r.CleanupError? ==> forall d: nat | d < s.n :: InUse(swapStart, e.after, d, e.mat)
    ensures Leaves(s, e)
  {
    match e.r
    case Installed => InUseWhole(s, swapStart, e);
    case CleanupError => InUseWhole(s, swapStart, e);
    case StageError(_) =>
      forall d: nat | d < s.n ensures Usable(SettledView(e.m, e.settled)(d)) == Usable(Shown(e.after)(d)) {
        assert SettledTo(e.m, e.after, d, e.settled);
      }
      FindSame(SettledView(e.m, e.settled), Shown(e.after), 0, s.n);
    case SwapError(undone, _) =>
      forall d: nat | d < s.n
        ensures TornFrom(e.m, e.after, d, e.mat)
        ensures undone ==> Usable(SettledView(e.m, s.n)(d)) == Usable(Shown(e.after)(d))
      {
        assert Torn(swapStart, e.after, d, e.mat);
        assert undone ==> Unswapped(swapStart, e.after, d);
      }
      if undone {
        FindSame(SettledView(e.m, s.n), Shown(e.after), 0, s.n);
      }
  }

  lemma InUseWhole(s: Setup, swapStart: Fs, e: Entry)
    requires e.Refreshed? && Validation(s).identity(e.mat).Some?
    requires forall d: nat | d < s.n :: InUse(swapStart, e.after, d, e.mat)
    ensures s.n > 0 ==> forall flag :: OnDisk(s, e.after, flag) == Mtls(e.mat)
  {
    if s.n > 0 {
      InUseIsFound(s, swapStart, e.after, e.mat, true);
      InUseIsFound(s, swapStart, e.after, e.mat, false);
    }
  }

  // ---------- Two runs that go wrong ----------

  function Key(key: Byte): Material {
    Material([0], [0], [key])
  }

  function OneDirectory(): Setup {
    Setup((mat: Material) => true, (mat: Material) => Some(0), 1, Unset, false)
  }

  lemma KeyedIsUsed(m: Fs, key: Byte, flag: bool)
    requires Get(m, Path(0, Current)) == Some(Keyed(key))
    ensures OnDisk(OneDirectory(), m, flag) == Mtls(Key(key))
    ensures Found(OneDirectory(), m) == Some(Keyed(key))
  {
    assert Usable(Shown(m)(0)).Some?;
  }

  /** The disk at first, after one installation, and after a second one before confirmation whose last loop
      could not remove the version it supersedes. */
  const AT_FIRST: Fs := map[Path(0, Current) := Keyed(1)]
  const PENDING: Fs := map[Path(0, Current) := Keyed(2), Path(0, Old) := Keyed(1)]
  const PAST_SWAP: Fs := map[Path(0, Current) := Keyed(3), Path(0, Old) := Keyed(1), Path(0, Role.Failed) := Keyed(2)]

  const FIRST := Built(Mtls(Key(1)), AT_FIRST, false, true, CLEAR)
  const INSTALLED := Refreshed(Key(2), AT_FIRST, PENDING, Installed, 1, false)
  const SECOND := Built(Mtls(Key(2)), PENDING, true, true, CLEAR)
  const NOT_REMOVED := Refreshed(Key(3), PENDING, PAST_SWAP, CleanupError, 1, false)
  const LATE_BEAT := Beat(Mtls(Key(2)), PAST_SWAP, true, NoAnswer(false))

  const UP_TO_SECOND: Log := [FIRST, INSTALLED, SECOND]

  /** Two installations before a confirmation: the second puts the superseded version to `.rollover-failed`, its
      last loop fails to remove it, and the next heartbeat is still of the client before, though the third
      material is in use. */
  lemma ErrorAfterSwap()
    ensures InUse(AT_FIRST, PENDING, 0, Key(2)) && InUse(PENDING, PAST_SWAP, 0, Key(3)) && SomeoneBackedUp(PENDING, 1)
    ensures LogOk(OneDirectory(), UP_TO_SECOND + [NOT_REMOVED])
    ensures EntryOk(OneDirectory(), UP_TO_SECOND + [NOT_REMOVED], LATE_BEAT) && Foreign(OneDirectory(), LATE_BEAT)
  {
    assert InUse(AT_FIRST, PENDING, 0, Key(2)) && InUse(PENDING, PAST_SWAP, 0, Key(3)) by {
      assert Staged(Keyed(1).entries, Key(2)) == Keyed(2).entries;
      assert Staged(Keyed(2).entries, Key(3)) == Keyed(3).entries;
    }
    assert SomeoneBackedUp(PENDING, 1) by {
      assert RealDirAt(PENDING, Path(0, Current));
    }
    SecondOk();
    NotRemovedOk();
    LogGrows(OneDirectory(), UP_TO_SECOND, NOT_REMOVED);
    LateBeatOk();
  }

  lemma FirstOk()
    ensures LogOk(OneDirectory(), [FIRST]) && Turn([FIRST]) == Some(FIRST) && Sender([FIRST]) == Some(Mtls(Key(1)))
    ensures FlagLeft([FIRST]) && !Due([FIRST]) && Flagged(OneDirectory(), [FIRST])
  {
    var s := OneDirectory();
    KeyedIsUsed(AT_FIRST, 1, false);
    ClearIsOnDisk(s, AT_FIRST, false);
    hide Keyed, ReadMaterial, FindIn;
    LogGrows(s, [], FIRST);
    assert [] + [FIRST] == [FIRST];
    assert [FIRST][0].Built? && [FIRST][0].kept;
  }

  lemma SecondOk()
    ensures LogOk(OneDirectory(), UP_TO_SECOND)
    ensures Turn(UP_TO_SECOND) == Some(SECOND) && Sender(UP_TO_SECOND) == Some(Mtls(Key(2)))
    ensures FlagLeft(UP_TO_SECOND) && !Due(UP_TO_SECOND)
  {
    var s := OneDirectory();
    FirstOk();
    forall flag ensures OnDisk(s, PENDING, flag) == Mtls(Key(2)) {
      KeyedIsUsed(PENDING, 2, flag);
    }
    ClearIsOnDisk(s, PENDING, true);
    hide Keyed, ReadMaterial, FindIn, OnDisk, LogOk, ClientFor;
    LogGrows(s, [FIRST], INSTALLED);
    FlaggedSnoc(s, [FIRST], INSTALLED);
    LogGrows(s, [FIRST] + [INSTALLED], SECOND);
    assert [FIRST] + [INSTALLED] + [SECOND] == UP_TO_SECOND;
  }

  lemma NotRemovedOk()
    ensures EntryOk(OneDirectory(), UP_TO_SECOND, NOT_REMOVED)
  {
    SecondOk();
    forall flag ensures OnDisk(OneDirectory(), PAST_SWAP, flag) == Mtls(Key(3)) {
      KeyedIsUsed(PAST_SWAP, 3, flag);
    }
    assert SomeoneBackedUp(PENDING, 1) by {
      assert RealDirAt(PENDING, Path(0, Current));
    }
    hide Keyed, ReadMaterial, FindIn, LogOk, OnDisk, Turn;
  }

  lemma LateBeatOk()
    ensures EntryOk(OneDirectory(), UP_TO_SECOND + [NOT_REMOVED], LATE_BEAT) && Foreign(OneDirectory(), LATE_BEAT)
  {
    SecondOk();
    KeyedIsUsed(PAST_SWAP, 3, true);
    hide Keyed, ReadMaterial, FindIn, LogOk;
    assert Init(UP_TO_SECOND + [NOT_REMOVED]) == UP_TO_SECOND;
  }

  /** A client with the certificate, and after a restart, when the stat calls at the directory and at the flag
      file fail, one without. */
  lemma PlainAfterMtls()
    ensures LogOk(OneDirectory(), [FIRST, Built(Plain, AT_FIRST, true, true, Sight({0}, false, true))])
  {
    var s, second := OneDirectory(), Built(Plain, AT_FIRST, true, true, Sight({0}, false, true));
    FirstOk();
    hide Keyed, ReadMaterial, FindIn, LogOk, CompleteAt;
    PlainIff(s, AT_FIRST, true, second.sight);
    assert [FIRST] + [second] == [FIRST, second];
    LogGrows(s, [FIRST], second);
  }
}
