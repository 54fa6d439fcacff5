/** Enrolment: the device token, its acknowledgement by the primary, and the marker that says it was
    acknowledged. */
module Enrollment {
  import opened Text
  import opened FileSystem

  /** What the primary answers to an enrolment request. */
  datatype Reply = NoReply | Approved(token: string) | NotApproved

  /** `tokenFile` and `marker` are the contents of device_token and token_ack_done. */
  datatype Disk = Disk(tokenFile: Option<string>, marker: Option<string>)

  const PAYLOAD := "ok\n"

  /** loadDeviceToken. */
  function Loaded(d: Disk): string {
    match d.tokenFile
    case Some(text) => Trim(text)
    case None => ""
  }

  /** tokenAckDone. */
  predicate MarkerValid(d: Disk) {
    d.marker.Some? && Trim(d.marker.value) == "ok"
  }

  /** A marker is valid exactly if it holds "ok" and spaces around it: no part of it, and nothing more. */
  lemma MarkerValidIff(d: Disk)
    ensures MarkerValid(d) <==>
            && d.marker.Some?
            && exists left: string, right: string ::
                d.marker.value == left + "ok" + right && Blanks(left) && Blanks(right)
  {
    hide Trim, IsSpace;
    if d.marker.Some? {
      var left, right := TrimSplits(d.marker.value);
      assert MarkerValid(d) ==> d.marker.value == left + "ok" + right && Blanks(left) && Blanks(right);
      if left: string, right: string :| d.marker.value == left + "ok" + right && Blanks(left) && Blanks(right) {
        NoSpaceInOk();
        TrimOf(left, "ok", right);
      }
    }
  }

  predicate Blanks(s: string) {
    forall c | c in s :: IsSpace(c)
  }

  lemma NoSpaceInOk()
    ensures !IsSpace("ok"[0]) && !IsSpace("ok"[|"ok"| - 1])
  {}

  /** A valid marker means that the primary accepted an acknowledgement carrying the token on the disk. */
  ghost predicate Sound(d: Disk, accepted: set<string>) {
    MarkerValid(d) ==> Loaded(d) != "" && Loaded(d) in accepted
  }

  lemma PayloadIsValid()
    ensures Trim(PAYLOAD) == "ok"
  {
    assert PAYLOAD == "ok" + ['\n'];
    assert TrimLeft(PAYLOAD) == PAYLOAD;
    assert PAYLOAD[..2] == "ok";
    assert TrimRight("ok") == "ok";
  }

  /** A token that looks set and is blank: the one answer of the primary the agent cannot handle. */
  predicate Blank(r: Reply) {
    r.Approved? && r.token != "" && Trim(r.token) == ""
  }

  /** Which looks work where the file is there: at the token and at the marker. */
  datatype Looks = Looks(token: bool, marker: bool)

  /** A token file that cannot be read counts as none. */
  function Seen(d: Disk, looks: Looks): string {
    if looks.token then Loaded(d) else ""
  }

  predicate Issues(r: Reply) {
    r.Approved? && r.token != ""
  }

  /** The token that a round is about. */
  function Tried(d: Disk, looks: Looks, r: Reply): string {
    if Seen(d, looks) != "" then Seen(d, looks) else if Issues(r) then r.token else ""
  }

  /** A marker is there, and read. */
  predicate Vouched(d: Disk, looks: Looks) {
    looks.marker && MarkerValid(d)
  }

  /** A token is issued that is blank, or while a marker vouches for another one. */
  predicate Risky(d: Disk, looks: Looks, r: Reply) {
    Seen(d, looks) == "" && Issues(r) && (Blank(r) || MarkerValid(d))
  }

  /** Issued where a marker is there or will be, without being acknowledged before or now. */
  ghost predicate Breaks(d: Disk, accepted: set<string>, looks: Looks, r: Reply, ackOk: bool) {
    && Risky(d, looks, r)
    && (MarkerValid(d) || ackOk)
    && (Blank(r) || (Trim(r.token) !in accepted && (ackOk ==> looks.marker)))
  }

  lemma TrimOfNothing()
    ensures Trim("") == ""
  {}

  lemma TrimNewline(s: string)
    ensures Trim(s + ['\n']) == Trim(s)
    ensures Trim(Trim(s)) == Trim(s)
  {
    TrimIsTrimmed(s);
    TrimIsTrimmed(Trim(s));
    TrimLeftNewline(s);
  }

  lemma {:induction false} TrimLeftNewline(s: string)
    ensures Trim(s + ['\n']) == Trim(s)
  {
    var t := s + ['\n'];
    if s == "" {
      assert t[1..] == "";
    } else if IsSpace(s[0]) {
      assert t[1..] == s[1..] + ['\n'];
      TrimLeftNewline(s[1..]);
    } else {
      assert t[..|t| - 1] == s;
    }
  }

  class Agent {
    var disk: Disk
    var crashed: bool
    var faulty: bool
    /** Tokens, trimmed, whose acknowledgement the primary accepted. */
    ghost var accepted: set<string>

    ghost predicate Valid()
      reads this
    {
      Sound(disk, accepted)
    }

    constructor ()
      ensures Valid() && disk == Disk(None, None) && accepted == {} && !crashed && !faulty
    {
      disk, crashed, faulty, accepted := Disk(None, None), false, false, {};
    }

    method Fate() returns (happens: bool, ok: bool)
      modifies this`crashed
      ensures old(crashed) ==> crashed && !happens
      ensures ok ==> happens && !crashed
      ensures !faulty && !old(crashed) ==> ok && !crashed
    {
      happens := !crashed;
      if happens && faulty {
        happens, crashed := *, *;
      }
      ok := happens && !crashed;
    }

    /** saveDeviceToken; a write that stops early leaves some other text. */
    method SaveToken(token: string) returns (ok: bool)
      modifies this`disk, this`crashed
      ensures old(crashed) ==> crashed && disk == old(disk)
      ensures disk.marker == old(disk).marker
      ensures ok ==> !crashed && disk.tokenFile == Some(token + ['\n'])
      ensures !faulty && !old(crashed) ==> ok
    {
      if crashed {
        return false;
      }
      var _, made := Fate();
      if !made {
        return false;
      }
      var happens: bool;
      happens, ok := Fate();
      var file := Some(token + ['\n']);
      if !ok {
        file := *;
      }
      disk := disk.(tokenFile := file);
    }

    /** markTokenAckDone: the payload goes to a temporary file, is read back, renamed and read again; what
        does not read back is removed. */
    method MarkDone() returns (ok: bool)
      modifies this`disk, this`crashed
      ensures old(crashed) ==> crashed && disk == old(disk)
      ensures disk.tokenFile == old(disk).tokenFile
      ensures disk.marker in {old(disk).marker, Some(PAYLOAD), None}
      ensures ok ==> disk.marker == Some(PAYLOAD)
      ensures !faulty && !old(crashed) ==> ok && !crashed
    {
      if crashed {
        return false;
      }
      var _, written := Fate();
      var tmp := PAYLOAD;
      if !written {
        return false;
      }
      if faulty {
        tmp := *; // what the temporary file holds when the write lied
      }
      var _, readBack := Fate();
      if !readBack || tmp != PAYLOAD {
        return false;
      }
      var happens: bool;
      happens, ok := Fate();
      if happens {
        disk := disk.(marker := Some(tmp));
      }
      if !ok {
        return false;
      }
      var _, readAgain := Fate();
      PayloadIsValid();
      if !readAgain || Trim(tmp) != "ok" {
        var removed, _ := Fate();
        if removed {
          disk := disk.(marker := None);
        }
        return false;
      }
    }

    /** ensureTokenAcked; `ackOk` says whether the primary accepts, `seen` that the marker can be read. */
    method EnsureAcked(token: string, ackOk: bool, seen: bool) returns (ok: bool)
      requires Trim(token) == Loaded(disk) && !crashed
      modifies this`disk, this`crashed, this`accepted
      ensures accepted == if ackOk && !(seen && MarkerValid(old(disk))) then old(accepted) + {Trim(token)}
                else old(accepted)
      ensures disk.tokenFile == old(disk).tokenFile
      ensures seen && MarkerValid(old(disk)) ==> disk == old(disk)
      ensures disk.marker == old(disk).marker || (disk.marker in {Some(PAYLOAD), None} && Trim(token) in accepted)
      ensures ok ==> MarkerValid(disk)
      ensures !faulty ==>
                && !crashed
                && (ok <==> ackOk || (seen && MarkerValid(old(disk))))
                && (MarkerValid(disk) <==> ackOk || MarkerValid(old(disk)))
    {
      PayloadIsValid();
      if seen && MarkerValid(disk) {
        return true;
      }
      if !ackOk {
        return false;
      }
      accepted := accepted + {Trim(token)};
      var _, answered := Fate();
      if !answered {
        return false;
      }
      ok := MarkDone();
    }

    /** ensureEnrolled. */
    method EnsureEnrolled(reply: Reply, ackOk: bool, looks: Looks) returns (ok: bool)
      requires !crashed
      modifies this`disk, this`crashed, this`accepted
      ensures old(Valid()) && !Risky(old(disk), looks, reply) ==> Valid()
      ensures ok ==> MarkerValid(disk)
      ensures Seen(old(disk), looks) != "" ==> disk.tokenFile == old(disk).tokenFile
      ensures old(accepted) <= accepted
      ensures !faulty ==>
                accepted == if Tried(old(disk), looks, reply) != "" && ackOk && !Vouched(old(disk), looks)
                            then old(accepted) + {Trim(Tried(old(disk), looks, reply))} else old(accepted)
      // without a token that is seen and without one that is issued, nothing is sent and nothing changes
      ensures (!looks.token || old(disk).tokenFile.None?) && (!reply.Approved? || reply.token == "") ==>
                !ok && disk == old(disk) && accepted == old(accepted)
      // undisturbed, this is exactly when the marker keeps its meaning, and how the round ends
      ensures !faulty && old(Valid()) ==> (Valid() <==> !Breaks(old(disk), old(accepted), looks, reply, ackOk))
      ensures !faulty ==> (ok <==> Tried(old(disk), looks, reply) != "" && (ackOk || Vouched(old(disk), looks)))
      ensures !faulty && Seen(old(disk), looks) == "" && Issues(reply) ==> disk.tokenFile == Some(reply.token + ['\n'])
      // while a marker can be read, no token is ever acknowledged
      ensures Vouched(old(disk), looks) ==> accepted == old(accepted) && disk.marker == old(disk).marker
      ensures !faulty ==> !crashed
    {
      hide Trim;
      TrimOfNothing();
      var token := Seen(disk, looks);
      if token != "" {
        if disk.tokenFile.Some? {
          TrimNewline(disk.tokenFile.value);
        }
        ok := EnsureAcked(token, ackOk, looks.marker);
        return;
      }
      if !Issues(reply) {
        return false;
      }
      ok := SaveToken(reply.token);
      if !ok {
        return false;
      }
      TrimNewline(reply.token);
      ok := EnsureAcked(reply.token, ackOk, looks.marker);
    }

    /** clearDeviceToken: the token goes before the marker, and each removal takes effect or not; power that
        goes away in between is the case of the token alone.  The marker keeps its meaning exactly unless it
        was valid and is left behind. */
    method ClearToken(tokenGoes: bool, markerGoes: bool)
      modifies this`disk
      ensures disk == Removed(old(disk), tokenGoes, markerGoes)
      ensures old(Valid()) ==> (Valid() <==> !LeftAlone(old(disk), tokenGoes, markerGoes))
      ensures old(Valid()) && LeftAlone(old(disk), tokenGoes, markerGoes) ==> MarkerValid(disk) && Loaded(disk) == ""
    {
      if tokenGoes {
        disk := disk.(tokenFile := None);
      }
      if markerGoes {
        disk := disk.(marker := None);
      }
    }

    /** Any sequence of enrolment rounds, with calls failing and power going away anywhere, and of recovery
        submissions between them.  `steps` are the disks they met: a valid marker means that the token on the
        disk was acknowledged, unless one of them did harm on its own disk. */
    method Live(rounds: seq<Round>) returns (ghost steps: seq<Step>)
      requires Valid()
      modifies this
      ensures Recorded(steps, rounds, old(disk), disk)
      ensures (forall s | s in steps :: !Harms(s)) ==> Valid()
      ensures (forall r | r in rounds :: Plain(r)) ==> Valid() && forall s | s in steps :: !Harms(s)
    {
      hide Trim, Harms;
      steps := [];
      for i := 0 to |rounds|
        invariant Recorded(steps, rounds[..i], old(disk), disk)
        invariant (forall s | s in steps :: !Harms(s)) ==> Valid()
        invariant (forall r | r in rounds :: Plain(r)) ==> forall s | s in steps :: !Harms(s)
      {
        var r := rounds[i];
        assert r in rounds && rounds[..i + 1] == rounds[..i] + [r];
        ghost var earlier := steps;
        ghost var s := OneRound(r);
        steps := earlier + [s];
        assert s in steps && forall e | e in earlier :: e in steps;
        RecordGrows(earlier, rounds[..i], old(disk), s);
      }
      assert rounds[..|rounds|] == rounds;
    }

    /** A submission, if there is one, and a round. */
    method OneRound(r: Round) returns (ghost s: Step)
      modifies this
      ensures s.round == r && s.before == old(disk) && s.after == disk
      ensures s.at == if r.submit.Some? then Removed(s.before, r.submit.value.0, r.submit.value.1) else s.before
      ensures old(Valid()) && !Harms(s) ==> Valid()
      ensures old(Valid()) && Plain(r) ==> !Harms(s)
    {
      hide Trim;
      TrimOfNothing();
      ghost var before := disk;
      if r.submit.Some? {
        ClearToken(r.submit.value.0, r.submit.value.1);
      }
      ghost var at := disk;
      crashed, faulty := false, r.faults;
      var _ := EnsureEnrolled(r.reply, r.ackOk, r.looks);
      s := Step(r, before, at, disk);
    }

    /** Once a marker is left alone, or vouches for another token, no token issued later is acknowledged: not
        in any number of rounds in which the marker can be read, until it is removed. */
    method Unacknowledged(rounds: seq<Round>)
      requires MarkerValid(disk)
      requires forall r | r in rounds :: r.looks.marker && r.submit.None?
      modifies this
      ensures MarkerValid(disk) && accepted == old(accepted)
    {
      for i := 0 to |rounds|
        invariant MarkerValid(disk) && accepted == old(accepted)
      {
        assert rounds[i] in rounds;
        crashed, faulty := false, rounds[i].faults;
        var _ := EnsureEnrolled(rounds[i].reply, rounds[i].ackOk, rounds[i].looks);
      }
    }
  }

  /** One round of the loop; `submit` is a recovery submission before it, with what its two removals do. */
  datatype Round = Round(reply: Reply, ackOk: bool, looks: Looks, faults: bool, submit: Option<(bool, bool)>)

  /** A round and the disks it met: before a submission, when the round began, and after it. */
  datatype Step = Step(round: Round, before: Disk, at: Disk, after: Disk)

  /** The submission left a valid marker alone, or the round was risky. */
  predicate Harms(s: Step) {
    || (s.round.submit.Some? && LeftAlone(s.before, s.round.submit.value.0, s.round.submit.value.1))
    || Risky(s.at, s.round.looks, s.round.reply)
  }

  /** Each step is of its round and starts where the one before it ended. */
  ghost predicate Recorded(steps: seq<Step>, rounds: seq<Round>, first: Disk, last: Disk) {
    && |steps| == |rounds|
    && (forall i | 0 <= i < |steps| :: steps[i].round == rounds[i] && StartsAt(steps[i]))
    && (forall i: nat | i < |steps| :: Follows(steps, first, i))
    && last == if steps == [] then first else steps[|steps| - 1].after
  }

  predicate Follows(steps: seq<Step>, first: Disk, i: nat)
    requires i < |steps|
  {
    steps[i].before == if i == 0 then first else steps[i - 1].after
  }

  predicate StartsAt(s: Step) {
    s.at == if s.round.submit.Some? then Removed(s.before, s.round.submit.value.0, s.round.submit.value.1) else s.before
  }

  lemma RecordGrows(steps: seq<Step>, rounds: seq<Round>, first: Disk, s: Step)
    requires Recorded(steps, rounds, first, s.before) && StartsAt(s)
    ensures Recorded(steps + [s], rounds + [s.round], first, s.after)
  {
    var all := steps + [s];
    forall i: nat | i < |all| ensures Follows(all, first, i) {
      assert i < |steps| ==> Follows(steps, first, i);
    }
  }

  /** The files after a removal of both, each taking effect or not. */
  function Removed(d: Disk, tokenGoes: bool, markerGoes: bool): Disk {
    Disk(if tokenGoes then None else d.tokenFile, if markerGoes then None else d.marker)
  }

  /** No blank token, the token file can be read, and a submission removes both files. */
  predicate Plain(r: Round) {
    !Blank(r.reply) && r.looks.token && (r.submit.Some? ==> r.submit.value == (true, true))
  }

  predicate LeftAlone(d: Disk, tokenGoes: bool, markerGoes: bool) {
    tokenGoes && !markerGoes && MarkerValid(d)
  }

  // ---------- Inputs with which the marker loses its meaning ----------

  /** A token of white space. */
  method BlankToken() returns (agent: Agent)
    ensures fresh(agent) && !agent.faulty && !agent.Valid()
  {
    BlankIsBlank();
    agent := new Agent();
    var _ := agent.EnsureEnrolled(Approved(" "), true, Looks(true, true));
  }

  lemma BlankIsBlank()
    ensures Trim(" ") == "" && Trim("") == ""
  {
    assert " "[1..] == "";
  }

  lemma TokensDiffer()
    ensures Trim("first") == "first" && Trim("second") == "second" && "first" != "second"
  {
    assert "first"[0] == 'f' && "second"[0] == 's' && "first"[4] == 't' && "second"[5] == 'd';
    TrimIsTrimmed("first");
    TrimIsTrimmed("second");
  }

  /** A token file that cannot be read once: the next token takes its place and is never acknowledged. */
  method UnreadableToken() returns (agent: Agent)
    ensures fresh(agent) && !agent.faulty && !agent.Valid()
    ensures Loaded(agent.disk) == "second" && agent.accepted == {"first"} && MarkerValid(agent.disk)
  {
    hide Trim;
    TokensDiffer();
    TrimOfNothing();
    TrimNewline("first");
    TrimNewline("second");
    agent := new Agent();
    var _ := agent.EnsureEnrolled(Approved("first"), true, Looks(true, true));
    var _ := agent.EnsureEnrolled(Approved("second"), true, Looks(false, true));
  }

  /** A removal cut off after the token: the next one is never acknowledged either. */
  method InterruptedRemoval() returns (agent: Agent)
    ensures fresh(agent) && !agent.faulty && !agent.Valid()
    ensures Loaded(agent.disk) == "second" && agent.accepted == {"first"} && MarkerValid(agent.disk)
  {
    hide Trim;
    TokensDiffer();
    TrimOfNothing();
    TrimNewline("first");
    TrimNewline("second");
    agent := new Agent();
    var _ := agent.EnsureEnrolled(Approved("first"), true, Looks(true, true));
    agent.ClearToken(true, false);
    var _ := agent.EnsureEnrolled(Approved("second"), true, Looks(true, true));
  }
}
