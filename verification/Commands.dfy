/** At-most-once execution of commands that the server delivers again whenever a result is lost: started and
    completed markers on disk, and the pruner that keeps the newest 200 of the latter. */
module Commands {
  import opened Text
  import opened Collections
  import opened ExchangeSort

  /** A marker file: its text and modification time. */
  datatype Marker = Marker(text: string, mod: nat)

  /** The files kept for the command with safe name `k`. */
  datatype Name = Done(k: string) | Started(k: string) | DoneTmp(k: string) | StartedTmp(k: string)

  type Files = map<Name, Marker>

  const KEEP := 200
  const STARTED := ".started"
  const TMP := ".tmp"
  const ALREADY := "already:"
  const NOT_STARTED := "cmd_done start marker"
  const AMBIGUOUS := "ambiguous: previous attempt started without completed marker — manual check required"

  // ---------- Names ----------

  predicate SafeChar(c: char) {
    'a' <= c <= 'z' || 'A' <= c <= 'Z' || '0' <= c <= '9' || c == '-' || c == '_'
  }

  function Filter(id: string): (safe: string)
    ensures forall c | c in safe :: SafeChar(c)
  {
    if id == [] then []
    else (if SafeChar(id[0]) then [id[0]] else []) + Filter(id[1..])
  }

  /** cmdDonePath: the name a command's markers go by, empty if nothing of its id is usable. */
  function SafeName(id: string): string {
    Filter(Trim(id))
  }

  lemma {:induction false} FilterConcat(a: string, b: string)
    ensures Filter(a + b) == Filter(a) + Filter(b)
  {
    if a == [] {
      assert a + b == b;
    } else {
      assert (a + b)[1..] == a[1..] + b;
      FilterConcat(a[1..], b);
    }
  }

  lemma {:induction false} FilterDrops(s: string)
    requires forall c | c in s :: !SafeChar(c)
    ensures Filter(s) == []
  {
    if s != [] {
      FilterDrops(s[1..]);
    }
  }

  /** Commands are told apart by the usable characters of their ids and nothing else. */
  lemma SafeNameIsFilter(id: string)
    ensures SafeName(id) == Filter(id)
    ensures SafeName(SafeName(id)) == SafeName(id)
  {
    TrimAway(id);
    var safe := Filter(id);
    TrimAway(safe);
    FilterKeeps(safe);
  }

  lemma TrimAway(id: string)
    ensures Filter(Trim(id)) == Filter(id)
  {
    hide TrimLeft, TrimRight, Filter;
    var left := TrimLeft(id);
    CutLeft(id);
    TrimLeftIsSuffix(id);
    assert forall c :: IsSpace(c) ==> !SafeChar(c);
    FilterDrops(id[..|id| - |left|]);
    FilterConcat(id[..|id| - |left|], left);
    assert id == id[..|id| - |left|] + left;
    var right := TrimRight(left);
    CutRight(left);
    FilterDrops(left[|right|..]);
    FilterConcat(right, left[|right|..]);
    assert left == right + left[|right|..];
  }

  lemma {:induction false} FilterKeeps(s: string)
    requires forall c | c in s :: SafeChar(c)
    ensures Filter(s) == s
  {
    if s != [] {
      FilterKeeps(s[1..]);
    }
  }

  /** ASCII letters, digits, '-' and '_'. */
  predicate Letters(id: string) {
    forall c | c in id :: 'a' <= c <= 'z' || 'A' <= c <= 'Z' || '0' <= c <= '9' || c == '-' || c == '_'
  }

  /** An id of these is its own safe name, any other character is dropped wherever it stands, and only these
      are left. */
  lemma SafeNameIs(id: string, a: string, c: char, b: string)
    ensures Letters(id) ==> SafeName(id) == id
    ensures !Letters([c]) ==> SafeName(a + [c] + b) == SafeName(a + b)
    ensures Letters(SafeName(id))
  {
    hide SafeName;
    SafeNameIsFilter(id);
    SafeNameIsFilter(a + [c] + b);
    SafeNameIsFilter(a + b);
    if Letters(id) {
      FilterKeeps(id);
    }
    FilterConcat(a + [c], b);
    FilterConcat(a, [c]);
    FilterConcat(a, b);
    if !Letters([c]) {
      FilterDrops([c]);
    }
  }

  /** Two different ids of these share no marker file. */
  lemma DifferentMarkers(id: string, id': string, n: Name, n': Name)
    requires Letters(id) && Letters(id') && id != id' && n.k == SafeName(id) && n'.k == SafeName(id')
    ensures FileName(n) != FileName(n')
  {
    hide SafeName, FileName;
    SafeNameIs(id, "", 'a', "");
    SafeNameIs(id', "", 'a', "");
    FileNames(n, n');
  }

  /** What the files are called. */
  lemma FileNameIs(k: string)
    ensures FileName(Done(k)) == k && FileName(Started(k)) == k + ".started"
    ensures FileName(DoneTmp(k)) == k + ".tmp" && FileName(StartedTmp(k)) == k + ".started.tmp"
  {
    assert ".started" + ".tmp" == ".started.tmp";
    assert k + ".started" + ".tmp" == k + (".started" + ".tmp");
  }

  function FileName(n: Name): string {
    match n
    case Done(k) => k
    case Started(k) => k + STARTED
    case DoneTmp(k) => k + TMP
    case StartedTmp(k) => k + STARTED + TMP
  }

  /** File names the pruner never looks at. */
  predicate Working(name: string) {
    HasSuffix(name, STARTED) || HasSuffix(name, TMP)
  }

  lemma SuffixChar(s: string, p: string)
    requires p != ""
    ensures HasSuffix(s, p) ==> p[0] in s && s[|s| - 1] == p[|p| - 1]
  {
    assert HasSuffix(s, p) ==> s[|s| - |p|] == s[|s| - |p|..][0] && s[|s| - 1] == s[|s| - |p|..][|p| - 1];
  }

  /** The pruner tells completion markers by their names, and no two files share one. */
  lemma FileNames(n: Name, n': Name)
    requires (forall c | c in n.k :: SafeChar(c)) && forall c | c in n'.k :: SafeChar(c)
    ensures Working(FileName(n)) <==> !n.Done?
    ensures FileName(n) == FileName(n') ==> n == n'
  {
    Shape(n);
    Shape(n');
  }

  lemma Shape(n: Name)
    requires forall c | c in n.k :: SafeChar(c)
    ensures Working(FileName(n)) <==> !n.Done?
    ensures |n.k| <= |FileName(n)| && FileName(n)[..|n.k|] == n.k
    ensures !n.Done? ==> |n.k| < |FileName(n)| && FileName(n)[|n.k|] == '.'
    ensures n.Done? ==> '.' !in FileName(n)
    ensures n.Started? ==> FileName(n)[|n.k|..] == STARTED
    ensures n.DoneTmp? ==> FileName(n)[|n.k|..] == TMP
    ensures n.StartedTmp? ==> FileName(n)[|n.k|..] == STARTED + TMP
    ensures '.' !in n.k
  {
    assert STARTED[0] == TMP[0] == '.';
    match n
    case Done(k) =>
      SuffixChar(k, STARTED);
      SuffixChar(k, TMP);
    case Started(k) =>
      assert (k + STARTED)[|k|..] == STARTED;
    case DoneTmp(k) =>
      assert (k + TMP)[|k|..] == TMP;
    case StartedTmp(k) =>
      assert k + STARTED + TMP == k + (STARTED + TMP);
      assert (k + STARTED + TMP)[|k + STARTED|..] == TMP;
      assert (k + (STARTED + TMP))[|k|..] == STARTED + TMP;
  }

  // ---------- Replies ----------

  function WithAlready(text: string): (reply: string)
    ensures HasPrefix(reply, ALREADY)
  {
    if HasPrefix(text, ALREADY) then text else ALREADY + text
  }

  /** Asking again adds no second prefix. */
  lemma AlreadyOnce(text: string)
    ensures WithAlready(WithAlready(text)) == WithAlready(text)
    ensures WithAlready(text) == if "already:" <= text then text else "already:" + text
  {}

  /** Which looks at a command's markers succeed where the marker is there: reading the completion marker,
      then the stat of it, then the stat of the started marker. */
  datatype Looks = Looks(read: bool, completed: bool, started: bool)

  /** A look at the markers went wrong in a way that hides an earlier attempt. */
  predicate Blind(f: Files, k: string, looks: Looks) {
    if Done(k) in f then !looks.read && !(Started(k) in f && !looks.completed && looks.started)
    else Started(k) in f && !looks.started
  }

  lemma NotBlind(f: Files, k: string, looks: Looks)
    ensures looks.read && looks.started ==> !Blind(f, k, looks)
  {}

  // ---------- What one delivery may do to the markers ----------

  /** The other commands whose completion markers are at least as new. */
  ghost function Newer(f: Files, k: string): set<string>
    requires Done(k) in f
  {
    set n | n in f && n.Done? && n.k != k && f[n].mod >= f[Done(k)].mod :: n.k
  }

  ghost predicate Interrupted(f: Files, k: string) {
    Done(k) !in f && Started(k) in f
  }

  ghost predicate Marked(f: Files, k: string) {
    Done(k) in f || Started(k) in f
  }

  /** What is answered to the delivery of `id`, whether it is run, and what becomes of the markers. */
  ghost predicate Delivered(f: Files, id: string, looks: Looks, reply: string, ran: bool, f': Files) {
    var k := SafeName(id);
    && (forall x | x != k && Done(x) in f' :: Done(x) in f && f'[Done(x)] == f[Done(x)])
    && (forall x | x != k :: Started(x) in f' <==> Started(x) in f)
    && (k == "" ==> f' == f && !ran && reply == NOT_STARTED)
    && (k != "" && Done(k) in f && looks.read ==> f' == f && !ran && reply == WithAlready(f[Done(k)].text))
    && (k != "" && Done(k) in f && !looks.read && !ran ==> reply == NOT_STARTED || HasPrefix(reply, AMBIGUOUS))
    && (k != "" && Interrupted(f, k) && looks.started ==>
        !ran && HasPrefix(reply, AMBIGUOUS) && AnsweredAmbiguous(f', k))
    && (k != "" && Blind(f, k, looks) ==> ran || reply == NOT_STARTED)
    && (ran ==> k != "" && (Marked(f, k) ==> Blind(f, k, looks)))
  }

  /** Cut off in the middle, or already reported as that. */
  ghost predicate AnsweredAmbiguous(f: Files, k: string) {
    Interrupted(f, k) || (Done(k) in f && f[Done(k)].text == AMBIGUOUS)
  }

  datatype Step = Step(files: Files, id: string, looks: Looks, reply: string, ran: bool)

  /** The delivery was not of `k`, or both kinds of marker could be seen. */
  predicate Sighted(s: Step, k: string) {
    SafeName(s.id) == k ==> s.looks.read && s.looks.started
  }

  ghost function After(steps: seq<Step>, last: Files, i: nat): Files
    requires i < |steps|
  {
    if i + 1 < |steps| then steps[i + 1].files else last
  }

  /** A run as the markers see it: each step starts where the one before it ended. */
  ghost predicate IsRun(steps: seq<Step>, last: Files) {
    forall i: nat | i < |steps| :: DeliveredAt(steps, last, i)
  }

  ghost predicate DeliveredAt(steps: seq<Step>, last: Files, i: nat)
    requires i < |steps|
  {
    var s := steps[i];
    Delivered(s.files, s.id, s.looks, s.reply, s.ran, After(steps, last, i))
  }

  lemma RunGrows(steps: seq<Step>, f: Files, s: Step, f': Files)
    requires IsRun(steps, f) && s.files == f && Delivered(f, s.id, s.looks, s.reply, s.ran, f')
    ensures IsRun(steps + [s], f')
  {
    hide Delivered;
    forall i: nat | i < |steps + [s]| ensures DeliveredAt(steps + [s], f', i) {
      assert i < |steps| ==> DeliveredAt(steps, f, i);
    }
  }

  lemma DeliveredTo(s: Step, f': Files, k: string)
    requires Delivered(s.files, s.id, s.looks, s.reply, s.ran, f') && k != ""
    ensures Done(k) in s.files && Done(k) in f' && (SafeName(s.id) == k ==> s.looks.read) ==>
              f'[Done(k)] == s.files[Done(k)]
    ensures Done(k) in s.files && SafeName(s.id) == k && s.looks.read ==> s.reply == WithAlready(s.files[Done(k)].text)
    ensures AnsweredAmbiguous(s.files, k) && Sighted(s, k) && (Done(k) in s.files ==> Done(k) in f') ==>
              AnsweredAmbiguous(f', k)
    ensures AnsweredAmbiguous(s.files, k) && Sighted(s, k) && SafeName(s.id) == k ==>
              HasPrefix(s.reply, AMBIGUOUS) || s.reply == WithAlready(AMBIGUOUS)
  {
    hide SafeName, WithAlready;
  }

  /** Stable replies: as long as a completed command's marker is there and can be read when the command is
      delivered, every reply to it is its stored text with the prefix, and the stored text never changes. */
  lemma {:induction false} StableReplies(steps: seq<Step>, last: Files, k: string, i: nat)
    requires IsRun(steps, last) && i < |steps| && k != ""
    requires forall j: nat | j <= i :: Done(k) in steps[j].files
    requires forall j: nat | j <= i :: SafeName(steps[j].id) == k ==> steps[j].looks.read
    ensures steps[i].files[Done(k)] == steps[0].files[Done(k)]
    ensures SafeName(steps[i].id) == k ==> steps[i].reply == WithAlready(steps[0].files[Done(k)].text)
  {
    hide Delivered, SafeName, WithAlready;
    if i > 0 {
      StableReplies(steps, last, k, i - 1);
      assert DeliveredAt(steps, last, i - 1);
      DeliveredTo(steps[i - 1], After(steps, last, i - 1), k);
    }
    assert DeliveredAt(steps, last, i);
    DeliveredTo(steps[i], After(steps, last, i), k);
  }

  /** What a delivery of a completed command is answered: the stored text exactly when the marker can be read
      (short of another answer having the same text), and else what running it again gives, that it could
      not be started, or that it is ambiguous. */
  lemma OtherReplies(steps: seq<Step>, last: Files, k: string, i: nat)
    requires IsRun(steps, last) && i < |steps| && k != ""
    requires Done(k) in steps[i].files && SafeName(steps[i].id) == k
    ensures steps[i].looks.read ==> !steps[i].ran && steps[i].reply == WithAlready(steps[i].files[Done(k)].text)
    ensures !steps[i].looks.read ==>
              steps[i].ran || steps[i].reply == NOT_STARTED || HasPrefix(steps[i].reply, AMBIGUOUS)
    ensures steps[i].ran ==> Blind(steps[i].files, k, steps[i].looks)
  {
    hide SafeName, WithAlready;
    assert DeliveredAt(steps, last, i);
  }

  /** A command cut off in the middle is only ever answered as ambiguous, until a marker of it is pruned or
      cannot be seen when the command is delivered. */
  lemma {:induction false} InterruptedReplies(steps: seq<Step>, last: Files, k: string, i: nat)
    requires IsRun(steps, last) && i < |steps| && k != ""
    requires Interrupted(steps[0].files, k)
    requires forall j: nat | j < i :: Done(k) in steps[j].files ==> Done(k) in steps[j + 1].files
    requires forall j: nat | j <= i :: Sighted(steps[j], k)
    ensures AnsweredAmbiguous(steps[i].files, k)
    ensures SafeName(steps[i].id) == k ==>
              HasPrefix(steps[i].reply, AMBIGUOUS) || steps[i].reply == WithAlready(AMBIGUOUS)
  {
    hide Delivered, SafeName, WithAlready;
    if i > 0 {
      InterruptedReplies(steps, last, k, i - 1);
      assert Done(k) in steps[i - 1].files ==> Done(k) in steps[i - 1 + 1].files;
      assert DeliveredAt(steps, last, i - 1) && Sighted(steps[i - 1], k);
      DeliveredTo(steps[i - 1], After(steps, last, i - 1), k);
    }
    assert DeliveredAt(steps, last, i) && Sighted(steps[i], k);
    DeliveredTo(steps[i], After(steps, last, i), k);
  }

  // ---------- Why nothing runs twice ----------

  /** Other commands completed strictly between two moments. */
  ghost function Others(completed: set<(string, nat)>, k: string, from: nat, to: nat): set<string> {
    set e | e in completed && e.0 != k && from < e.1 < to :: e.0
  }

  lemma OthersGrow(c: set<(string, nat)>, c': set<(string, nat)>, k: string, from: nat, to: nat, to': nat)
    requires c <= c' && to <= to'
    ensures |Others(c, k, from, to)| <= |Others(c', k, from, to')|
  {
    SubsetSize(Others(c, k, from, to), Others(c', k, from, to'));
  }

  /** Between two executions of one command at least 200 other commands completed. */
  ghost predicate AtMostOnce(ran: set<(string, nat)>, completed: set<(string, nat)>) {
    forall a, b | a in ran && b in ran && a.0 == b.0 && a.1 < b.1 :: |Others(completed, a.0, a.1, b.1)| >= 200
  }

  /** Why a command that ran cannot run again yet. */
  ghost predicate Covered(f: Files, completed: set<(string, nat)>, now: nat, k: string, t: nat) {
    || Started(k) in f
    || (Done(k) in f && f[Done(k)].mod > t)
    || |Others(completed, k, t, now)| >= 200
  }

  ghost predicate AllCovered(f: Files, completed: set<(string, nat)>, ran: set<(string, nat)>, now: nat) {
    forall e | e in ran :: Covered(f, completed, now, e.0, e.1)
  }

  /** Nothing is from the future, and every completion marker was written by a completion. */
  ghost predicate MarksOk(f: Files, completed: set<(string, nat)>, now: nat) {
    && (forall n | n in f :: f[n].mod < now)
    && (forall k | Done(k) in f :: (k, f[Done(k)].mod) in completed)
    && (forall e | e in completed :: e.1 < now)
  }

  ghost predicate StoreOk(f: Files, completed: set<(string, nat)>, ran: set<(string, nat)>, now: nat) {
    && MarksOk(f, completed, now)
    && (forall e | e in ran :: e.1 < now)
    && AllCovered(f, completed, ran, now)
  }

  lemma MoreCompleted(ran: set<(string, nat)>, c: set<(string, nat)>, c': set<(string, nat)>)
    requires AtMostOnce(ran, c) && c <= c'
    ensures AtMostOnce(ran, c')
  {
    forall a, b | a in ran && b in ran && a.0 == b.0 && a.1 < b.1 ensures |Others(c', a.0, a.1, b.1)| >= 200 {
      OthersGrow(c, c', a.0, a.1, b.1, b.1);
    }
  }

  function Moved(f: Files, from: Name, to: Name): Files
    requires from in f
  {
    (f - {from})[to := f[from]]
  }

  predicate Temporary(n: Name) {
    n.DoneTmp? || n.StartedTmp?
  }

  lemma WriteKeepsStore(f: Files, completed: set<(string, nat)>, ran: set<(string, nat)>, now: nat, n: Name,
      text: string)
    requires StoreOk(f, completed, ran, now) && Temporary(n)
    ensures StoreOk(f[n := Marker(text, now)], completed, ran, now + 1)
  {
    var f' := f[n := Marker(text, now)];
    forall e | e in ran ensures Covered(f', completed, now + 1, e.0, e.1) {
      assert Covered(f, completed, now, e.0, e.1);
      OthersGrow(completed, completed, e.0, e.1, now, now + 1);
    }
  }

  lemma PublishKeepsStore(f: Files, completed: set<(string, nat)>, ran: set<(string, nat)>, now: nat, tmp: Name,
      k: string)
    requires StoreOk(f, completed, ran, now) && tmp in f && Temporary(tmp)
    ensures StoreOk(Moved(f, tmp, Started(k)), completed, ran, now)
  {
    forall e | e in ran ensures Covered(Moved(f, tmp, Started(k)), completed, now, e.0, e.1) {
      assert Covered(f, completed, now, e.0, e.1);
    }
  }

  /** Writing a completion marker covers every earlier execution of its command. */
  lemma FinishKeepsStore(f: Files, completed: set<(string, nat)>, ran: set<(string, nat)>, now: nat, tmp: Name,
      k: string)
    requires StoreOk(f, completed, ran, now) && tmp in f && Temporary(tmp)
    requires forall e | e in ran :: e.1 < f[tmp].mod
    ensures StoreOk(Moved(f, tmp, Done(k)), completed + {(k, f[tmp].mod)}, ran, now)
  {
    var completed' := completed + {(k, f[tmp].mod)};
    forall e | e in ran ensures Covered(Moved(f, tmp, Done(k)), completed', now, e.0, e.1) {
      assert Covered(f, completed, now, e.0, e.1);
      OthersGrow(completed, completed', e.0, e.1, now, now);
    }
  }

  lemma DropStartedKeepsStore(f: Files, completed: set<(string, nat)>, ran: set<(string, nat)>, now: nat, k: string)
    requires StoreOk(f, completed, ran, now) && Done(k) in f
    requires forall e | e in ran && e.0 == k :: f[Done(k)].mod > e.1
    ensures StoreOk(f - {Started(k)}, completed, ran, now)
  {
    forall e | e in ran ensures Covered(f - {Started(k)}, completed, now, e.0, e.1) {
      assert Covered(f, completed, now, e.0, e.1);
    }
  }

  /** A command whose marker is pruned stays covered: 200 newer markers are 200 later completions. */
  lemma PruneKeepsStore(f0: Files, f: Files, completed: set<(string, nat)>, ran: set<(string, nat)>, now: nat,
      k: string)
    requires (forall x | Done(x) in f0 :: f0[Done(x)].mod < now && (x, f0[Done(x)].mod) in completed) && Done(k) in f0
             && |Newer(f0, k)| >= 200
    requires Done(k) in f ==> f[Done(k)] == f0[Done(k)]
    requires StoreOk(f, completed, ran, now)
    ensures StoreOk(f - {Done(k)}, completed, ran, now)
  {
    forall e | e in ran ensures Covered(f - {Done(k)}, completed, now, e.0, e.1) {
      assert Covered(f, completed, now, e.0, e.1);
      if e.0 == k && Done(k) in f && f[Done(k)].mod > e.1 {
        forall x | x in Newer(f0, k) ensures x in Others(completed, k, e.1, now) {
          assert (x, f0[Done(x)].mod) in completed;
        }
        SubsetSize(Newer(f0, k), Others(completed, k, e.1, now));
      }
    }
  }

  lemma RunKeepsStore(f: Files, completed: set<(string, nat)>, ran: set<(string, nat)>, now: nat, k: string)
    requires StoreOk(f, completed, ran, now) && Started(k) in f
    ensures StoreOk(f, completed, ran + {(k, now)}, now + 1)
  {
    forall e | e in ran + {(k, now)} ensures Covered(f, completed, now + 1, e.0, e.1) {
      if e in ran {
        assert Covered(f, completed, now, e.0, e.1);
        OthersGrow(completed, completed, e.0, e.1, now, now + 1);
      }
    }
  }

  lemma DropTmpKeepsStore(f: Files, completed: set<(string, nat)>, ran: set<(string, nat)>, now: nat, tmp: Name)
    requires StoreOk(f, completed, ran, now) && Temporary(tmp)
    ensures StoreOk(f - {tmp}, completed, ran, now)
  {
    forall e | e in ran ensures Covered(f - {tmp}, completed, now, e.0, e.1) {
      assert Covered(f, completed, now, e.0, e.1);
    }
  }

  /** Every earlier execution of a command without markers is 200 completions away. */
  ghost predicate LongAgo(completed: set<(string, nat)>, ran: set<(string, nat)>, k: string, now: nat) {
    forall e | e in ran && e.0 == k :: |Others(completed, k, e.1, now)| >= 200
  }

  lemma WithoutMarkers(f: Files, completed: set<(string, nat)>, ran: set<(string, nat)>, now: nat, k: string, now': nat)
    requires StoreOk(f, completed, ran, now) && Done(k) !in f && Started(k) !in f && now <= now'
    ensures LongAgo(completed, ran, k, now')
  {
    forall e | e in ran && e.0 == k ensures |Others(completed, k, e.1, now')| >= 200 {
      assert Covered(f, completed, now, e.0, e.1);
      OthersGrow(completed, completed, k, e.1, now, now');
    }
  }

  /** Running a command keeps the spacing exactly when every earlier execution is long ago. */
  lemma RunOnceIff(completed: set<(string, nat)>, ran: set<(string, nat)>, k: string, at: nat)
    requires AtMostOnce(ran, completed) && forall e | e in ran :: e.1 < at
    ensures AtMostOnce(ran + {(k, at)}, completed) <==> LongAgo(completed, ran, k, at)
  {
    var ran' := ran + {(k, at)};
    if AtMostOnce(ran', completed) {
      forall e | e in ran && e.0 == k ensures |Others(completed, k, e.1, at)| >= 200 {
        assert e in ran' && (k, at) in ran';
      }
    }
  }

  ghost predicate Same(f: Files, f': Files, n: Name) {
    (n in f <==> n in f') && (n in f ==> f'[n] == f[n])
  }

  /** Of the markers, only those of `k` change. */
  ghost predicate OnlyOf(f: Files, f': Files, k: string) {
    && (forall x | x != k :: Same(f, f', Done(x)))
    && (forall x | x != k :: Started(x) in f' <==> Started(x) in f)
  }

  // ---------- Which markers are old ----------

  /** What the pruner collects of a completion marker. */
  datatype Item = Item(name: string, mod: nat)

  ghost predicate Distinct(items: seq<Item>) {
    forall i, j | 0 <= i < j < |items| :: items[i].name != items[j].name
  }

  ghost function Names(items: seq<Item>): set<string> {
    set i | 0 <= i < |items| :: items[i].name
  }

  lemma {:induction false} NamesCard(items: seq<Item>)
    requires Distinct(items)
    ensures |Names(items)| == |items|
  {
    if items == [] {
      assert Names(items) == {};
    } else {
      var last := |items| - 1;
      NamesCard(items[..last]);
      assert Names(items) == Names(items[..last]) + {items[last].name};
    }
  }

  /** Completion markers in `f`, each at most once. */
  ghost predicate ItemsOf(items: seq<Item>, f: Files) {
    && Distinct(items)
    && forall i | 0 <= i < |items| :: Done(items[i].name) in f && items[i].mod == f[Done(items[i].name)].mod
  }

  ghost predicate AllListed(items: seq<Item>, f: Files) {
    forall k | Done(k) in f :: Item(k, f[Done(k)].mod) in items
  }

  /** In a sorted list everything before the last 200 has 200 newer markers. */
  lemma OldHasNewer(items: seq<Item>, f: Files, i: nat)
    requires ItemsOf(items, f) && SortedBy(items, (x: Item) => x.mod)
    requires i + 200 < |items|
    ensures |Newer(f, items[i].name)| >= 200
  {
    var newest := items[|items| - 200..];
    assert Distinct(newest) by {
      forall p, q | 0 <= p < q < |newest| ensures newest[p].name != newest[q].name {
        assert newest[p] == items[|items| - 200 + p] && newest[q] == items[|items| - 200 + q];
      }
    }
    NamesCard(newest);
    var key := (x: Item) => x.mod;
    forall p | 0 <= p < |newest| ensures newest[p].name in Newer(f, items[i].name) {
      var q := |items| - 200 + p;
      assert key(items[i]) <= key(items[q]);
      assert items[i].name != items[q].name;
      assert Done(newest[p].name) in f;
    }
    SubsetSize(Names(newest), Newer(f, items[i].name));
  }

  ghost function DoneNames(f: Files): set<string> {
    set n | n in f && n.Done? :: n.k
  }

  lemma ListedCard(items: seq<Item>, f: Files)
    requires ItemsOf(items, f)
    ensures |items| <= |DoneNames(f)|
    ensures AllListed(items, f) ==> |items| == |DoneNames(f)|
  {
    NamesCard(items);
    forall x | x in Names(items) ensures x in DoneNames(f) {
      assert Done(x) in f;
    }
    SubsetSize(Names(items), DoneNames(f));
    if AllListed(items, f) {
      forall x | x in DoneNames(f) ensures x in Names(items) {
        assert Item(x, f[Done(x)].mod) in items;
      }
      assert Names(items) == DoneNames(f);
    }
  }

  /** The list cut at the last 200: those are left, and they are the newest. */
  lemma PrunedExactly(sorted: seq<Item>, f: Files, f': Files)
    requires ItemsOf(sorted, f) && SortedBy(sorted, (x: Item) => x.mod) && AllListed(sorted, f) && |sorted| > 200
    requires forall n | n in f' :: Same(f, f', n)
    requires forall i | |sorted| - 200 <= i < |sorted| :: Done(sorted[i].name) in f'
    requires forall i | 0 <= i < |sorted| - 200 :: Done(sorted[i].name) !in f'
    ensures |DoneNames(f')| == 200
    ensures forall k, r | Done(k) in f' && Done(r) in f && Done(r) !in f' :: f[Done(r)].mod <= f'[Done(k)].mod
  {
    var newest := sorted[|sorted| - 200..];
    forall i | 0 <= i < |newest| ensures newest[i] == sorted[|sorted| - 200 + i] {}
    assert ItemsOf(newest, f');
    forall x | Done(x) in f' ensures Item(x, f'[Done(x)].mod) in newest {
      assert Same(f, f', Done(x));
      var j :| 0 <= j < |sorted| && sorted[j] == Item(x, f[Done(x)].mod);
      assert newest[j - (|sorted| - 200)] == sorted[j];
    }
    ListedCard(newest, f');
    var key := (x: Item) => x.mod;
    forall k, r | Done(k) in f' && Done(r) in f && Done(r) !in f' ensures f[Done(r)].mod <= f'[Done(k)].mod {
      assert Same(f, f', Done(k));
      var i :| 0 <= i < |sorted| && sorted[i] == Item(r, f[Done(r)].mod);
      var j :| 0 <= j < |sorted| && sorted[j] == Item(k, f[Done(k)].mod);
      assert key(sorted[i]) <= key(sorted[j]);
    }
  }

  lemma SortedItems(all: seq<Item>, sorted: seq<Item>, f: Files)
    requires ItemsOf(all, f) && multiset(sorted) == multiset(all)
    requires forall x :: multiset(all)[x] <= 1
    ensures ItemsOf(sorted, f) && |sorted| == |all|
    ensures AllListed(all, f) ==> AllListed(sorted, f)
  {
    assert |multiset(sorted)| == |sorted| && |multiset(all)| == |all|;
    forall i | 0 <= i < |sorted|
      ensures Done(sorted[i].name) in f && sorted[i].mod == f[Done(sorted[i].name)].mod
    {
      assert sorted[i] in multiset(sorted);
      assert sorted[i] in all;
    }
    forall i, j | 0 <= i < j < |sorted| ensures sorted[i].name != sorted[j].name {
      TwiceInMultiset(sorted, i, j);
    }
    forall x | x in all ensures x in sorted {
      assert x in multiset(all);
    }
  }

  // ---------- The marker directory ----------

  /** A delivered command, what it would return, and what may go wrong. */
  datatype Delivery = Delivery(id: string, result: string, faults: bool, looks: Looks)

  class MarkerStore {
    var files: Files
    /** The clock; every write takes a moment of its own. */
    var now: nat
    var crashed: bool
    var faulty: bool
    ghost var ran: set<(string, nat)>
    ghost var completed: set<(string, nat)>

    ghost predicate Valid()
      reads this
    {
      StoreOk(files, completed, ran, now)
    }

    constructor ()
      ensures Valid() && files == map[] && ran == {} && completed == {} && !crashed && !faulty
    {
      files, now, crashed, faulty := map[], 0, false, false;
      ran, completed := {}, {};
    }

    method Fate() returns (happens: bool, ok: bool)
      modifies this`crashed
      ensures old(crashed) ==> crashed && !happens
      ensures ok ==> happens && !crashed
      ensures happens && !crashed ==> ok
      ensures !faulty && !old(crashed) ==> ok && !crashed
    {
      happens := !crashed;
      if happens && faulty {
        happens, crashed := *, *;
      }
      ok := happens && !crashed;
    }

    /** os.WriteFile to a temporary name; cut short, it leaves some other text there. */
    method WriteTmp(name: Name, text: string) returns (ok: bool)
      requires Valid() && Temporary(name)
      modifies this`files, this`now, this`crashed
      ensures Valid() && now >= old(now)
      ensures old(crashed) ==> crashed
      ensures files == old(files) || (name in files && files == old(files)[name := files[name]])
      ensures ok ==> !crashed && files == old(files)[name := Marker(text, old(now))] && now > old(now)
      ensures !faulty && !old(crashed) ==> ok
    {
      if crashed {
        return false;
      }
      var touched: bool;
      touched, ok := Fate();
      var written := text;
      if !ok {
        touched, written := *, *;
      }
      if touched {
        WriteKeepsStore(files, completed, ran, now, name, written);
        files := files[name := Marker(written, now)];
        now := now + 1;
      }
    }

    /** markCmdStarted. */
    method MarkStarted(k: string) returns (ok: bool)
      requires Valid()
      modifies this`files, this`now, this`crashed
      ensures Valid() && now >= old(now)
      ensures old(crashed) ==> crashed
      ensures crashed ==> !ok
      ensures ok ==> k != "" && Started(k) in files
      ensures k == "" ==> files == old(files)
      ensures OnlyOf(old(files), files, k) && Same(old(files), files, Done(k))
      ensures !faulty && !old(crashed) ==> !crashed && ok == (k != "")
    {
      if k == "" {
        return false;
      }
      var _, made := Fate(); // directory
      if !made {
        return false;
      }
      var tmp := StartedTmp(k);
      ok := WriteTmp(tmp, "1\n");
      if !ok {
        return false;
      }
      var happens: bool;
      happens, ok := Fate();
      if happens {
        PublishKeepsStore(files, completed, ran, now, tmp, k);
        files := Moved(files, tmp, Started(k));
      }
    }

    /** saveCmdDone. */
    method SaveDone(k: string, text: string) returns (ok: bool)
      requires Valid()
      modifies this`files, this`now, this`crashed, this`completed
      ensures Valid() && now >= old(now) && OnlyCompletes(old(completed), completed, k)
      ensures old(crashed) ==> crashed
      ensures ok ==> k != "" && Done(k) in files && files[Done(k)].text == text
      ensures k == "" ==> files == old(files)
      ensures forall x | x != k && Done(x) in files :: Same(old(files), files, Done(x))
      ensures forall x | x != k :: Started(x) in files <==> Started(x) in old(files)
      ensures Done(k) !in old(files) ==>
                if Done(k) in files then files[Done(k)].text == text
                else Started(k) in old(files) ==> Started(k) in files
      ensures !faulty && !old(crashed) ==> !crashed && ok == (k != "") && (ok ==> Started(k) !in files)
    {
      if k == "" {
        return false;
      }
      var _, made := Fate(); // directory
      if !made {
        return false;
      }
      ok := WriteTmp(DoneTmp(k), text);
      if ok {
        ok := Commit(k);
      }
    }

    /** The rename of saveCmdDone and what follows it. */
    method Commit(k: string) returns (ok: bool)
      requires Valid() && DoneTmp(k) in files
      requires forall e | e in ran :: e.1 < files[DoneTmp(k)].mod
      requires forall n | n in files && n != DoneTmp(k) :: files[n].mod < files[DoneTmp(k)].mod
      modifies this`files, this`crashed, this`completed
      ensures Valid() && OnlyCompletes(old(completed), completed, k)
      ensures old(crashed) ==> crashed
      ensures forall x | x != k && Done(x) in files :: Same(old(files), files, Done(x))
      ensures forall x | x != k :: Started(x) in files <==> Started(x) in old(files)
      ensures ok ==> Done(k) in files
      ensures Done(k) in files ==> files[Done(k)] == old(files)[DoneTmp(k)] || Same(old(files), files, Done(k))
      ensures ok ==> files[Done(k)] == old(files)[DoneTmp(k)]
      ensures Done(k) !in files ==> (Started(k) in old(files) ==> Started(k) in files)
      ensures !faulty && !old(crashed) ==> !crashed && ok && Started(k) !in files
    {
      var tmp := DoneTmp(k);
      var happens: bool;
      happens, ok := Fate();
      if happens {
        FinishKeepsStore(files, completed, ran, now, tmp, k);
        completed := completed + {(k, files[tmp].mod)};
        files := Moved(files, tmp, Done(k));
      }
      if ok {
        Tidy(k);
      } else {
        var removed, _ := Fate();
        if removed {
          DropTmpKeepsStore(files, completed, ran, now, tmp);
          files := files - {tmp};
        }
      }
    }

    /** What saveCmdDone does once the marker is in place. */
    method Tidy(k: string)
      requires Valid() && Done(k) in files
      requires forall e | e in ran :: e.1 < files[Done(k)].mod
      requires forall n | n in files && n != Done(k) :: files[n].mod < files[Done(k)].mod
      modifies this`files, this`crashed
      ensures Valid()
      ensures old(crashed) ==> crashed
      ensures Same(old(files), files, Done(k))
      ensures forall x | Done(x) in files :: Same(old(files), files, Done(x))
      ensures forall x | x != k :: Started(x) in files <==> Started(x) in old(files)
      ensures !faulty && !old(crashed) ==> !crashed && Started(k) !in files
    {
      var happens, _ := Fate();
      if happens {
        DropStartedKeepsStore(files, completed, ran, now, k);
        files := files - {Started(k)};
      }
      assert Newer(files, k) == {};
      Prune();
    }

    /** pruneCmdDone: sorts the completion markers in place and removes all but the newest 200. */
    method Prune()
      requires Valid()
      modifies this`files, this`crashed
      ensures Valid()
      ensures old(crashed) ==> crashed
      ensures forall n | n in files :: Same(old(files), files, n)
      ensures forall n | n in old(files) && n !in files :: n.Done? && |Newer(old(files), n.k)| >= 200
      // undisturbed, 200 are left, or all there were, and none that is older than one removed
      ensures !faulty && !old(crashed) ==>
                && !crashed
                && |DoneNames(files)| == (if |DoneNames(old(files))| < 200 then |DoneNames(old(files))| else 200)
                && forall k, r | Done(k) in files && Done(r) in old(files) && Done(r) !in files ::
                    old(files)[Done(r)].mod <= files[Done(k)].mod
    {
      var all := Collect();
      ghost var f0 := files;
      ListedCard(all, f0);
      if |all| <= KEEP {
        return;
      }
      var a := new Item[|all|](i requires 0 <= i < |all| => all[i]);
      assert a[..] == all;
      Sort(a, (x: Item) => x.mod);
      var sorted := a[..];
      SortedItems(all, sorted, f0);
      RemoveOldest(sorted);
      if !faulty && !old(crashed) {
        PrunedExactly(sorted, f0, files);
      }
    }

    /** The removal loop, over the sorted list. */
    method RemoveOldest(sorted: seq<Item>)
      requires Valid() && ItemsOf(sorted, files) && SortedBy(sorted, (x: Item) => x.mod) && |sorted| > 200
      modifies this`files, this`crashed
      ensures Valid()
      ensures old(crashed) ==> crashed
      ensures forall n | n in files :: Same(old(files), files, n)
      ensures forall n | n in old(files) && n !in files :: n.Done? && |Newer(old(files), n.k)| >= 200
      ensures forall i | |sorted| - 200 <= i < |sorted| :: Done(sorted[i].name) in files
      ensures !faulty && !old(crashed) ==> !crashed && forall i | 0 <= i < |sorted| - 200 ::
                Done(sorted[i].name) !in files
    {
      ghost var f0 := files;
      for i := 0 to |sorted| - KEEP
        invariant Valid()
        invariant old(crashed) ==> crashed
        invariant forall n | n in files :: Same(f0, files, n)
        invariant forall n | n in f0 && n !in files :: n.Done? && |Newer(f0, n.k)| >= 200
        invariant forall j | i <= j < |sorted| :: Done(sorted[j].name) in files
        invariant !faulty && !old(crashed) ==> !crashed && forall j | 0 <= j < i :: Done(sorted[j].name) !in files
      {
        var k := sorted[i].name;
        OldHasNewer(sorted, f0, i);
        var happens, _ := Fate();
        if happens {
          PruneKeepsStore(f0, files, completed, ran, now, k);
          files := files - {Done(k)};
        }
      }
    }

    /** The directory listing; an entry may be unreadable. */
    method Collect() returns (all: seq<Item>)
      ensures ItemsOf(all, files)
      ensures forall x :: multiset(all)[x] <= 1
      ensures !faulty ==> AllListed(all, files)
    {
      all := [];
      var rest := files.Keys;
      while rest != {}
        invariant rest <= files.Keys
        invariant ItemsOf(all, files)
        invariant forall i | 0 <= i < |all| :: Done(all[i].name) !in rest
        invariant forall x :: multiset(all)[x] <= 1
        invariant !faulty ==> forall k | Done(k) in files && Done(k) !in rest :: Item(k, files[Done(k)].mod) in all
        decreases rest
      {
        var name :| name in rest;
        rest := rest - {name};
        var readable: bool := true;
        if faulty {
          readable := *;
        }
        if name.Done? && readable {
          assert Item(name.k, files[name].mod) !in all;
          all := all + [Item(name.k, files[name].mod)];
        }
      }
    }

    /** One round of pollCmds, without the post: what is answered to the delivery of `id`.  `result` is what
        the command returns if it is run, `at` the moment it is. */
    method Deliver(id: string, result: string, looks: Looks) returns (reply: string, didRun: bool, ghost at: nat)
      requires Valid() && !crashed
      modifies this`files, this`now, this`crashed, this`completed, this`ran
      ensures Valid()
      ensures Delivered(old(files), id, looks, reply, didRun, files)
      ensures didRun ==> result <= reply && old(now) <= at < now
      ensures ran == if didRun then old(ran) + {(SafeName(id), at)} else old(ran)
      ensures OnlyCompletes(old(completed), completed, SafeName(id))
      // a run breaks the spacing exactly when an earlier one is too recent, and only if a look was blind
      ensures AtMostOnce(old(ran), old(completed)) ==>
                (AtMostOnce(ran, completed) <==> didRun ==> LongAgo(completed, old(ran), SafeName(id), at))
      ensures AtMostOnce(old(ran), old(completed)) && !Blind(old(files), SafeName(id), looks) ==>
                AtMostOnce(ran, completed)
      // undisturbed, a command without markers is run, and one that left a marker exactly when a look was blind
      ensures !faulty && SafeName(id) != "" ==>
                (didRun <==> if Marked(old(files), SafeName(id)) then Blind(old(files), SafeName(id), looks) else true)
      ensures !faulty && didRun ==>
                reply == result && Done(SafeName(id)) in files && files[Done(SafeName(id))].text == result
      ensures !faulty ==> !crashed
    {
      var k := SafeName(id);
      didRun, at := false, 0;
      if k != "" && Done(k) in files && looks.read { // loadCmdDone
        reply := WithAlready(files[Done(k)].text);
      } else if k != "" && !(Done(k) in files && looks.completed) && Started(k) in files && looks.started {
        reply := Refuse(k);
      } else {
        reply, didRun, at := Execute(k, result);
      }
    }

    /** The first delivery of a command whose id is made of letters, digits, '-' and '_', undisturbed: it runs,
        and its result is answered and stored under its id. */
    method FirstDelivery(id: string, result: string, looks: Looks) returns (reply: string)
      requires Valid() && !crashed && !faulty
      requires id != "" && Letters(id) && Done(id) !in files && Started(id) !in files
      modifies this`files, this`now, this`crashed, this`completed, this`ran
      ensures Valid() && reply == result
      ensures exists at :: ran == old(ran) + {(id, at)}
      ensures Done(id) in files && files[Done(id)].text == result
    {
      hide Letters, SafeName, Delivered, StoreOk, AtMostOnce, LongAgo, OnlyCompletes;
      SafeNameIs(id, "", 'a', "");
      var didRun: bool;
      ghost var at: nat;
      reply, didRun, at := Deliver(id, result, looks);
    }

    /** The branch of pollCmds for a command that was cut off. */
    method Refuse(k: string) returns (reply: string)
      requires Valid() && !crashed && k != "" && Started(k) in files
      modifies this`files, this`now, this`crashed, this`completed
      ensures Valid()
      ensures HasPrefix(reply, AMBIGUOUS)
      ensures forall x | x != k && Done(x) in files :: Same(old(files), files, Done(x))
      ensures forall x | x != k :: Started(x) in files <==> Started(x) in old(files)
      ensures Done(k) !in old(files) ==> AnsweredAmbiguous(files, k)
      ensures OnlyCompletes(old(completed), completed, k)
      ensures AtMostOnce(ran, old(completed)) ==> AtMostOnce(ran, completed)
      ensures !faulty ==> !crashed
    {
      hide StoreOk, AtMostOnce, OnlyCompletes;
      reply := AMBIGUOUS;
      var ok := SaveDone(k, reply);
      MoreCompletedIf(ran, old(completed), completed, k);
      if !ok {
        reply := reply + "; cmd_done save failed";
      }
    }

    /** The branch of pollCmds that runs the command. */
    method Execute(k: string, result: string) returns (reply: string, didRun: bool, ghost at: nat)
      requires Valid() && !crashed
      modifies this`files, this`now, this`crashed, this`completed, this`ran
      ensures Valid()
      ensures if didRun then k != "" && result <= reply else reply == NOT_STARTED
      ensures k == "" ==> files == old(files)
      ensures forall x | x != k && Done(x) in files :: Same(old(files), files, Done(x))
      ensures forall x | x != k :: Started(x) in files <==> Started(x) in old(files)
      ensures ran == if didRun then old(ran) + {(k, at)} else old(ran)
      ensures didRun ==> old(now) <= at < now
      ensures OnlyCompletes(old(completed), completed, k)
      ensures AtMostOnce(old(ran), old(completed)) ==>
                (AtMostOnce(ran, completed) <==> didRun ==> LongAgo(completed, old(ran), k, at))
      ensures didRun && !Marked(old(files), k) ==> LongAgo(completed, old(ran), k, at)
      ensures !faulty ==> !crashed && (didRun <==> k != "")
      ensures !faulty && didRun ==> reply == result && Done(k) in files && files[Done(k)].text == result
    {
      hide StoreOk, AtMostOnce, LongAgo, OnlyCompletes;
      at := 0;
      var ok := MarkStarted(k);
      if !ok {
        CompletesNothing(completed, k);
        return NOT_STARTED, false, at;
      }
      at := now;
      RunKeepsStore(files, completed, ran, at, k);
      RanBefore(files, completed, ran, at);
      ran := ran + {(k, at)};
      now := now + 1;
      reply, didRun := result, true;
      var _, _ := Fate(); // the command itself may take the power away
      ok := SaveDone(k, result);
      MoreCompletedIf(old(ran), old(completed), completed, k);
      if AtMostOnce(old(ran), completed) {
        RunOnceIff(completed, old(ran), k, at);
      }
      if !Marked(old(files), k) {
        WithoutMarkers(old(files), old(completed), old(ran), old(now), k, at);
        LongAgoStays(old(completed), completed, old(ran), k, at);
      }
      if !ok {
        reply := reply + "; cmd_done save failed";
      }
    }

    /** Any number of deliveries, with calls failing and power going away anywhere: unless a look at the
        markers hid an earlier attempt, 200 others have completed between two executions of a command.
        `steps` is the run as the markers see it. */
    method Serve(deliveries: seq<Delivery>) returns (ghost blind: bool, ghost steps: seq<Step>)
      requires Valid() && AtMostOnce(ran, completed)
      modifies this
      ensures Valid()
      ensures !blind ==> AtMostOnce(ran, completed)
      ensures blind ==> exists i :: 0 <= i < |steps| && Blind(steps[i].files, SafeName(steps[i].id), steps[i].looks)
      ensures IsRun(steps, files) && |steps| == |deliveries|
      ensures forall i | 0 <= i < |steps| :: steps[i].id == deliveries[i].id && steps[i].looks == deliveries[i].looks
      ensures steps != [] ==> steps[0].files == old(files)
      ensures forall e | e in ran - old(ran) :: e.0 != "" && exists d :: d in deliveries && SafeName(d.id) == e.0
    {
      hide StoreOk, AtMostOnce, Blind, Delivered, SafeName, IsRun, OnlyCompletes, LongAgo;
      blind, steps := false, [];
      EmptyRun(files);
      for i := 0 to |deliveries|
        invariant Valid()
        invariant !blind ==> AtMostOnce(ran, completed)
        invariant blind ==> exists j :: 0 <= j < |steps| && Blind(steps[j].files, SafeName(steps[j].id), steps[j].looks)
        invariant IsRun(steps, files) && |steps| == i
        invariant forall j | 0 <= j < i :: steps[j].id == deliveries[j].id && steps[j].looks == deliveries[j].looks
        invariant steps != [] ==> steps[0].files == old(files)
        invariant steps == [] ==> files == old(files)
        invariant forall e | e in ran - old(ran) :: e.0 != "" && exists d :: d in deliveries && SafeName(d.id) == e.0
      {
        var d := deliveries[i];
        assert d in deliveries;
        ghost var before := files;
        crashed, faulty := false, d.faults;
        var reply, didRun, _ := Deliver(d.id, d.result, d.looks);
        RanNamed(before, d.id, d.looks, reply, didRun, files);
        ghost var s := Step(before, d.id, d.looks, reply, didRun);
        RunGrows(steps, before, s, files);
        ghost var was := steps;
        steps := steps + [s];
        assert steps[|was|] == s && forall j | 0 <= j < |was| :: steps[j] == was[j];
        blind := blind || Blind(before, SafeName(d.id), d.looks);
      }
    }
  }

  /** For instance, a command delivered a second time, when its completion marker can be seen but not read:
      nothing else goes wrong, and it runs twice with nothing in between. */
  method RunsTwice() returns (store: MarkerStore)
    ensures fresh(store) && !store.faulty && !AtMostOnce(store.ran, store.completed)
    ensures exists t, u :: t < u && store.ran == {("a", t), ("a", u)}
  {
    hide StoreOk, Delivered, SafeName, AtMostOnce, LongAgo, OnlyCompletes;
    assert SafeName("a") == "a" by {
      SafeNameIsFilter("a");
      FilterKeeps("a");
    }
    store := new MarkerStore();
    EmptyIsSpaced();
    var reply, didRun, first := store.Deliver("a", "done", Looks(true, true, true));
    ghost var ran, completed := store.ran, store.completed;
    var again, ranAgain, second := store.Deliver("a", "done", Looks(false, true, true));
    TooSoon(completed, store.completed, ran, "a", first, second);
    assert first < second && store.ran == {("a", first), ("a", second)};
  }

  lemma EmptyIsSpaced()
    ensures AtMostOnce({}, {})
  {}

  lemma TooSoon(c: set<(string, nat)>, c': set<(string, nat)>, ran: set<(string, nat)>, k: string, first: nat, at: nat)
    requires OnlyCompletes({}, c, k) && OnlyCompletes(c, c', k) && (k, first) in ran
    ensures !LongAgo(c', ran, k, at)
  {
    assert Others(c', k, first, at) == {};
  }

  lemma EmptyRun(f: Files)
    ensures IsRun([], f)
  {}

  lemma RanNamed(f: Files, id: string, looks: Looks, reply: string, ran: bool, f': Files)
    requires Delivered(f, id, looks, reply, ran, f')
    ensures ran ==> SafeName(id) != ""
  {}

  lemma RanBefore(f: Files, completed: set<(string, nat)>, ran: set<(string, nat)>, now: nat)
    requires StoreOk(f, completed, ran, now)
    ensures forall e | e in ran :: e.1 < now
  {}

  lemma LongAgoStays(c: set<(string, nat)>, c': set<(string, nat)>, ran: set<(string, nat)>, k: string, at: nat)
    requires c <= c' && LongAgo(c, ran, k, at)
    ensures LongAgo(c', ran, k, at)
  {
    forall e | e in ran && e.0 == k ensures |Others(c', k, e.1, at)| >= 200 {
      OthersGrow(c, c', k, e.1, at, at);
    }
  }

  /** Of the commands, only `k` may have completed once more. */
  ghost predicate OnlyCompletes(c: set<(string, nat)>, c': set<(string, nat)>, k: string) {
    c <= c' && forall e | e in c' && e !in c :: e.0 == k
  }

  lemma CompletesNothing(c: set<(string, nat)>, k: string)
    ensures OnlyCompletes(c, c, k)
  {}

  lemma MoreCompletedIf(ran: set<(string, nat)>, c: set<(string, nat)>, c': set<(string, nat)>, k: string)
    requires OnlyCompletes(c, c', k)
    ensures c <= c' && (AtMostOnce(ran, c) ==> AtMostOnce(ran, c'))
  {
    if AtMostOnce(ran, c) {
      MoreCompleted(ran, c, c');
    }
  }
}
