/** The UCI batch interpreter, its result line and the parser of that line; the local overlay that depends on
    both. */
module UciBatch {
  import opened Text
  import opened FileSystem

  /** Result of one external command. */
  datatype Outcome = Outcome(output: string, failed: bool)

  /** The external commands a batch can issue. */
  datatype Call =
    | ReloadNetwork
    | ReloadWifi
    | Set(assignment: string)
    | Delete(path: string)
    | Add(config: string, kind: string)
    | CommitAll
    | Commit(config: string)

  /** What the interpreter takes from outside: which characters are letters or digits, and how the command
      that line number `i` issues turns out. */
  datatype Setup = Setup(alnum: char -> bool, run: (nat, Call) -> Outcome)

  // ---------- Validators ----------

  predicate PathChar(u: Setup, c: char) {
    u.alnum(c) || c == '.' || c == '_' || c == '-' || c == '@' || c == '[' || c == ']'
  }

  predicate Banned(c: char) {
    c == '\r' || c == '\n' || c == ' ' || c == '\t' || c == '\'' || c == '"' || c == '`'
    || c == '$' || c == ';' || c == '&' || c == '|' || c == '<' || c == '>'
  }

  /** validUCIPath. */
  predicate ValidPath(u: Setup, s: string) {
    var t := Trim(s);
    0 < |t| <= 128 && forall c | c in t :: PathChar(u, c) && !Banned(c)
  }

  predicate NoBreaks(s: string) {
    '\r' !in s && '\n' !in s && '\'' !in s
  }

  /** safeUCIValue. */
  predicate SafeValue(s: string) {
    NoBreaks(s) && |s| <= 256
  }

  predicate ConfigChar(c: char) {
    'a' <= c <= 'z' || 'A' <= c <= 'Z' || '0' <= c <= '9' || c == '_' || c == '-'
  }

  /** validUCIConfigName. */
  predicate ValidConfigName(s: string) {
    var t := Trim(s);
    0 < |t| <= 64 && forall c | c in t :: ConfigChar(c)
  }

  // ---------- One line ----------

  datatype Fault = BadLine | Unsafe | BadPath | BadValue | BadAdd | BadCommit

  /** What a trimmed line asks for: nothing, something malformed, or a command. */
  datatype Request = Nothing | Malformed(fault: Fault) | Issue(call: Call)

  function SetRequest(u: Setup, rest: string): (r: Request)
    ensures !r.Nothing?
  {
    var eq := IndexOf(rest, '=');
    if eq < 0 then Malformed(BadLine)
    else if !NoBreaks(rest) then Malformed(Unsafe)
    else if !ValidPath(u, rest[..eq]) then Malformed(BadPath)
    else if !SafeValue(rest[eq + 1..]) then Malformed(BadValue)
    else Issue(Set(rest))
  }

  function DeleteRequest(u: Setup, rest: string): (r: Request)
    ensures !r.Nothing?
  {
    if rest == "" then Malformed(BadLine)
    else if !ValidPath(u, rest) then Malformed(BadPath)
    else Issue(Delete(rest))
  }

  function AddRequest(fields: seq<string>): (r: Request)
    ensures !r.Nothing?
  {
    if |fields| < 3 then Malformed(BadLine)
    else if !ValidConfigName(fields[1]) || !ValidConfigName(fields[2]) then Malformed(BadAdd)
    else Issue(Add(Trim(fields[1]), Trim(fields[2])))
  }

  function CommitRequest(fields: seq<string>): (r: Request)
    requires fields != []
    ensures !r.Nothing?
  {
    if |fields| == 1 then Issue(CommitAll)
    else if !ValidConfigName(fields[1]) then Malformed(BadCommit)
    else Issue(Commit(Trim(fields[1])))
  }

  /** The legacy form path=value. */
  function BareRequest(u: Setup, line: string): (r: Request)
    ensures !r.Nothing?
  {
    var eq := IndexOf(line, '=');
    if eq < 0 then Malformed(BadLine)
    else if !ValidPath(u, line[..eq]) then Malformed(BadPath)
    else if !SafeValue(line[eq + 1..]) then Malformed(BadValue)
    else Issue(Set(line))
  }

  datatype Op = OpSet | OpDelete | OpAdd | OpCommit | OpBare

  function OpOf(word: string): Op {
    if word == "set" then OpSet
    else if word == "delete" || word == "del" then OpDelete
    else if word == "add" then OpAdd
    else if word == "commit" then OpCommit
    else OpBare
  }

  /** The line after its first `n` characters, trimmed. */
  function Rest(line: string, n: nat): string {
    if n <= |line| then Trim(line[n..]) else ""
  }

  function ParseFields(u: Setup, line: string, fields: seq<string>): (r: Request)
    requires fields != []
    ensures !r.Nothing?
  {
    match OpOf(fields[0])
    case OpSet => SetRequest(u, Rest(line, 3))
    case OpDelete => DeleteRequest(u, Rest(line, |fields[0]|))
    case OpAdd => AddRequest(fields)
    case OpCommit => CommitRequest(fields)
    case OpBare => BareRequest(u, line)
  }

  function Parse(u: Setup, line: string): Request {
    if line == "" || line[0] == '#' then Nothing
    else if line == "network_reload" then Issue(ReloadNetwork)
    else if line == "wifi_reload" then Issue(ReloadWifi)
    else if Fields(line) == [] then Nothing
    else ParseFields(u, line, Fields(line))
  }

  /** A line that counts: neither blank nor a comment. */
  predicate Effective(line: string) {
    Trim(line) != "" && Trim(line)[0] != '#'
  }

  lemma {:induction false} SomeField(s: string, word: string)
    requires forall c | c in word :: !IsSpace(c)
    requires word != [] || exists c | c in s :: !IsSpace(c)
    ensures FieldsFrom(s, word) != []
    decreases |s|
  {
    if s != [] {
      if IsSpace(s[0]) {
        if word == [] {
          SomeField(s[1..], []);
        }
      } else {
        SomeField(s[1..], word + [s[0]]);
      }
    }
  }

  lemma EffectiveIsRequest(u: Setup, line: string)
    ensures Parse(u, Trim(line)).Nothing? <==> !Effective(line)
  {
    var t := Trim(line);
    if t != "" {
      TrimIsTrimmed(line);
      assert t[0] in t && !IsSpace(t[0]);
      SomeField(t, []);
    }
  }

  predicate Harmless(arg: string) {
    '\n' !in arg && '\'' !in arg
  }

  predicate HarmlessCall(call: Call) {
    match call
    case Set(a) => Harmless(a)
    case Delete(p) => Harmless(p)
    case Add(c, k) => Harmless(c) && Harmless(k)
    case Commit(c) => Harmless(c)
    case _ => true
  }

  lemma PathHarmless(u: Setup, s: string)
    requires ValidPath(u, s)
    ensures Harmless(Trim(s)) && '\'' !in s
  {
    assert forall c | c in Trim(s) :: !Banned(c);
    if '\'' in s {
      TrimKeeps(s, '\'');
    }
  }

  lemma NameHarmless(s: string)
    requires ValidConfigName(s)
    ensures Harmless(Trim(s))
  {
    assert forall c | c in Trim(s) :: ConfigChar(c);
  }

  lemma RestTrimmed(line: string, n: nat)
    ensures Trim(Rest(line, n)) == Rest(line, n)
  {
    if n <= |line| {
      TrimIsTrimmed(line[n..]);
    }
    TrimIsTrimmed(Rest(line, n));
  }

  lemma BareHarmless(u: Setup, line: string)
    requires '\n' !in line
    ensures BareRequest(u, line).Issue? ==> HarmlessCall(BareRequest(u, line).call)
  {
    hide ValidPath, Trim, SafeValue;
    var eq := IndexOf(line, '=');
    if eq >= 0 && ValidPath(u, line[..eq]) && SafeValue(line[eq + 1..]) {
      PathHarmless(u, line[..eq]);
      NoQuoteInValue(line[eq + 1..]);
      assert line == line[..eq] + [line[eq]] + line[eq + 1..];
    }
  }

  lemma NoQuoteInValue(s: string)
    requires SafeValue(s)
    ensures '\'' !in s
  {}

  lemma SetHarmless(u: Setup, rest: string)
    ensures SetRequest(u, rest).Issue? ==> HarmlessCall(SetRequest(u, rest).call)
  {
    hide ValidPath, SafeValue;
  }

  lemma DeleteHarmless(u: Setup, rest: string)
    requires Trim(rest) == rest
    ensures DeleteRequest(u, rest).Issue? ==> HarmlessCall(DeleteRequest(u, rest).call)
  {
    hide ValidPath, Harmless, Trim;
    if ValidPath(u, rest) {
      PathHarmless(u, rest);
    }
  }

  lemma NamesHarmless(fields: seq<string>)
    requires fields != []
    ensures AddRequest(fields).Issue? ==> HarmlessCall(AddRequest(fields).call)
    ensures CommitRequest(fields).Issue? ==> HarmlessCall(CommitRequest(fields).call)
  {
    hide ValidConfigName, Harmless;
    forall i | 0 <= i < |fields| && ValidConfigName(fields[i]) ensures Harmless(Trim(fields[i])) {
      NameHarmless(fields[i]);
    }
  }

  lemma FieldsHarmless(u: Setup, line: string, fields: seq<string>)
    requires '\n' !in line && fields != []
    ensures ParseFields(u, line, fields).Issue? ==> HarmlessCall(ParseFields(u, line, fields).call)
  {
    hide SetRequest, DeleteRequest, AddRequest, CommitRequest, BareRequest, HarmlessCall, Rest, Trim;
    SetHarmless(u, Rest(line, 3));
    RestTrimmed(line, |fields[0]|);
    DeleteHarmless(u, Rest(line, |fields[0]|));
    NamesHarmless(fields);
    BareHarmless(u, line);
  }

  /** No line break and no quote reaches an external command, whatever the batch. */
  lemma IssuedAreHarmless(u: Setup, line: string)
    requires '\n' !in line
    ensures Parse(u, line).Issue? ==> HarmlessCall(Parse(u, line).call)
  {
    if Fields(line) != [] {
      FieldsHarmless(u, line, Fields(line));
    }
  }

  // ---------- What a line asks for, spelled out ----------

  predicate PathFine(u: Setup, s: string) {
    && 0 < |Trim(s)| <= 128
    && forall c | c in Trim(s) :: (u.alnum(c) || c in "._-@[]") && c !in "\r\n \t'\"`$;&|<>"
  }

  predicate ValueFine(s: string) {
    |s| <= 256 && '\r' !in s && '\n' !in s && '\'' !in s
  }

  predicate NameFine(s: string) {
    && 0 < |Trim(s)| <= 64
    && forall c | c in Trim(s) :: 'a' <= c <= 'z' || 'A' <= c <= 'Z' || '0' <= c <= '9' || c == '_' || c == '-'
  }

  lemma PathIff(u: Setup, s: string)
    ensures ValidPath(u, s) <==> PathFine(u, s)
  {
    hide Trim;
    forall c: char ensures Banned(c) <==> c in "\r\n \t'\"`$;&|<>" {}
    forall c: char ensures PathChar(u, c) <==> u.alnum(c) || c in "._-@[]" {}
  }

  lemma NameIff(s: string)
    ensures ValidConfigName(s) <==> NameFine(s)
  {
    hide Trim;
  }

  /** An assignment: a path before the first '=', and a value after it. */
  ghost predicate AssignmentFine(u: Setup, a: string) {
    exists eq: nat :: eq < |a| && a[eq] == '=' && '=' !in a[..eq] && PathFine(u, a[..eq]) && ValueFine(a[eq + 1..])
  }

  /** The external command that a trimmed line asks for. */
  ghost predicate Asks(u: Setup, line: string, call: Call) {
    && line != "" && line[0] != '#'
    && match call
       case ReloadNetwork => line == "network_reload"
       case ReloadWifi => line == "wifi_reload"
       case _ =>
         && line != "network_reload" && line != "wifi_reload"
         && Fields(line) != [] && AsksOf(u, line, Fields(line), call)
  }

  ghost predicate AsksOf(u: Setup, line: string, fields: seq<string>, call: Call)
    requires fields != []
  {
    match call
    case Set(a) =>
      && AssignmentFine(u, a)
      && if fields[0] == "set" then ValueSafe(a) && |line| >= 3 && a == Trim(line[3..])
         else fields[0] != "delete" && fields[0] != "del" && fields[0] != "add" && fields[0] != "commit" && a == line
    case Delete(p) =>
      && (fields[0] == "delete" || fields[0] == "del") && p != "" && PathFine(u, p)
      && |line| >= |fields[0]| && p == Trim(line[|fields[0]|..])
    case Add(c, k) =>
      && |fields| >= 3 && fields[0] == "add" && NameFine(fields[1]) && NameFine(fields[2])
      && c == Trim(fields[1]) && k == Trim(fields[2])
    case CommitAll => fields == ["commit"]
    case Commit(c) => |fields| >= 2 && fields[0] == "commit" && NameFine(fields[1]) && c == Trim(fields[1])
    case _ => false
  }

  predicate ValueSafe(s: string) {
    '\r' !in s && '\n' !in s && '\'' !in s
  }

  lemma AssignmentIff(u: Setup, a: string)
    ensures AssignmentFine(u, a) <==>
            IndexOf(a, '=') >= 0 && ValidPath(u, a[..IndexOf(a, '=')]) && SafeValue(a[IndexOf(a, '=') + 1..])
  {
    hide ValidPath, PathFine, IndexOf;
    if IndexOf(a, '=') >= 0 {
      var i: nat := IndexOf(a, '=');
      FirstIs(a, '=', i);
      PathIff(u, a[..i]);
      assert ValueFine(a[i + 1..]) <==> SafeValue(a[i + 1..]);
    }
    if eq: nat :| eq < |a| && a[eq] == '=' && '=' !in a[..eq] && PathFine(u, a[..eq]) && ValueFine(a[eq + 1..]) {
      IndexUnique(a, '=', eq);
    }
  }

  lemma FirstIs(a: string, c: char, i: nat)
    requires IndexOf(a, c) == i
    ensures i < |a| && a[i] == c && c !in a[..i]
  {
    assert forall k | 0 <= k < i :: a[..i][k] == a[k];
  }

  lemma {:induction false} FieldsFit(s: string, word: string)
    requires forall c | c in word :: !IsSpace(c)
    ensures FieldsFrom(s, word) != [] ==> |FieldsFrom(s, word)[0]| <= |word| + |s|
    decreases |s|
  {
    if s != "" {
      if IsSpace(s[0]) {
        FieldsFit(s[1..], []);
      } else {
        FieldsFit(s[1..], word + [s[0]]);
      }
    }
  }

  /** A line is carried out as one command exactly if it asks for it. */
  lemma IssuedIff(u: Setup, line: string, call: Call)
    ensures Parse(u, line) == Issue(call) <==> Asks(u, line, call)
  {
    hide Trim, FieldsFrom, IndexOf, ParseFields, PathFine, NameFine, AssignmentFine;
    if Fields(line) != [] {
      FieldsFit(line, []);
      FieldsIff(u, line, Fields(line), call);
    }
    assert "network_reload"[0] == 'n' && "wifi_reload"[0] == 'w';
    assert |"network_reload"| != |"wifi_reload"|;
    if line == "" || line[0] == '#' {
      assert Parse(u, line) == Nothing;
    } else if line == "network_reload" {
      assert Parse(u, line) == Issue(ReloadNetwork);
      assert Asks(u, line, call) <==> call == ReloadNetwork;
    } else if line == "wifi_reload" {
      assert Parse(u, line) == Issue(ReloadWifi);
      assert Asks(u, line, call) <==> call == ReloadWifi;
    } else if Fields(line) == [] {
      assert Parse(u, line) == Nothing;
      assert !Asks(u, line, call);
    } else {
      assert Parse(u, line) == ParseFields(u, line, Fields(line));
      assert Asks(u, line, call) <==> AsksOf(u, line, Fields(line), call);
    }
  }

  lemma FieldsIff(u: Setup, line: string, fields: seq<string>, call: Call)
    requires fields != [] && |fields[0]| <= |line|
    ensures ParseFields(u, line, fields) == Issue(call) <==> AsksOf(u, line, fields, call)
  {
    hide Trim, IndexOf, ValidPath, SafeValue, ValidConfigName, PathFine, NameFine, AssignmentFine;
    OpWords(fields[0]);
    assert |"set"| == 3 && |"delete"| == 6;
    match OpOf(fields[0])
    case OpSet =>
      AssignmentIff(u, Rest(line, 3));
    case OpDelete =>
      PathIff(u, Rest(line, |fields[0]|));
    case OpAdd =>
      if |fields| >= 3 {
        NameIff(fields[1]);
        NameIff(fields[2]);
      }
    case OpCommit =>
      if |fields| >= 2 {
        NameIff(fields[1]);
      }
      assert fields == ["commit"] <==> |fields| == 1;
    case OpBare =>
      AssignmentIff(u, line);
  }

  lemma OpWords(word: string)
    ensures OpOf(word).OpSet? <==> word == "set"
    ensures OpOf(word).OpDelete? <==> word == "delete" || word == "del"
    ensures OpOf(word).OpAdd? <==> word == "add"
    ensures OpOf(word).OpCommit? <==> word == "commit"
  {
    assert "set"[0] == 's' && "delete"[0] == 'd' && "del"[0] == 'd' && "add"[0] == 'a' && "commit"[0] == 'c';
  }

  // ---------- The result line and its parser ----------

  function OkWord(n: nat): string {
    "ok=" + Itoa(n)
  }

  function FailWord(n: nat): string {
    "fail=" + Itoa(n)
  }

  function Render(ok: nat, fail: nat, logs: seq<string>): string {
    OkWord(ok) + [' '] + FailWord(fail) + ['\n'] + Join(logs, '\n')
  }

  /** strings.HasPrefix(s, "ok="). */
  predicate TagOk(s: string) {
    |s| >= 3 && s[0] == 'o' && s[1] == 'k' && s[2] == '='
  }

  /** strings.HasPrefix(s, "fail="). */
  predicate TagFail(s: string) {
    |s| >= 5 && s[0] == 'f' && s[1] == 'a' && s[2] == 'i' && s[3] == 'l' && s[4] == '='
  }

  function FailField(fields: seq<string>): Option<string> {
    if fields == [] then None
    else if TagFail(fields[0]) then Some(fields[0][5..])
    else FailField(fields[1..])
  }

  /** What the parser makes of the lines of a result. */
  predicate FailedIn(lines: seq<string>, res: string) {
    if lines == [] then Contains(res, "\nfail:") || HasPrefix(res, "fail:")
    else
      var line := Trim(lines[0]);
      if TagOk(line) && FailField(Fields(line)).Some? then
        var n := FailField(Fields(line)).value;
        n != "" && n != "0"
      else FailedIn(lines[1..], res)
  }

  /** uciBatchFailed. */
  method UciBatchFailed(res: string) returns (failed: bool)
    ensures failed == FailedIn(Split(res, '\n'), res)
  {
    var lines := Split(res, '\n');
    for i := 0 to |lines|
      invariant FailedIn(lines, res) == FailedIn(lines[i..], res)
    {
      var line := Trim(lines[i]);
      if !TagOk(line) {
        continue;
      }
      var fields := Fields(line);
      for j := 0 to |fields|
        invariant FailField(fields) == FailField(fields[j..])
      {
        if TagFail(fields[j]) {
          var n := fields[j][5..];
          return n != "" && n != "0";
        }
      }
    }
    return Contains(res, "\nfail:") || HasPrefix(res, "fail:");
  }

  /** A word of the result line. */
  predicate Word(w: string) {
    w != "" && forall c | c in w :: !IsSpace(c)
  }

  lemma HeadLine(a: string, b: string, tail: string)
    requires Word(a) && Word(b)
    ensures var head := a + [' '] + b;
      Trim(head) == head && Fields(head) == [a, b] && Split(head + ['\n'] + tail, '\n') == [head] + Split(tail, '\n')
  {
    var head := a + [' '] + b;
    forall c | c in head ensures c != '\n' {
      assert c in a || c == ' ' || c in b;
    }
    SplitAt(head, '\n', tail);
    SplitNone(head, '\n');
    assert head[0] == a[0] && a[0] in a && head[|head| - 1] == b[|b| - 1] && b[|b| - 1] in b;
    TrimIsTrimmed(head);
    forall c | c in a + b ensures !IsSpace(c) {
      assert c in a || c in b;
    }
    TwoFields(a, b);
  }

  lemma FirstLineDecides(lines: seq<string>, res: string, a: string, b: string)
    requires lines != [] && TagOk(Trim(lines[0])) && Fields(Trim(lines[0])) == [a, b] && TagOk(a) && TagFail(b)
    ensures FailedIn(lines, res) <==> b[5..] != "" && b[5..] != "0"
  {
    assert [a, b][1..] == [b];
    assert FailField([a, b]) == FailField([b]) == Some(b[5..]);
  }

  lemma Words(ok: nat, fail: nat)
    ensures Word(OkWord(ok)) && TagOk(OkWord(ok))
    ensures Word(FailWord(fail)) && TagFail(FailWord(fail)) && FailWord(fail)[5..] == Itoa(fail)
  {
    forall c | c in OkWord(ok) ensures !IsSpace(c) {
      assert c in "ok=" || c in Itoa(ok);
    }
    forall c | c in FailWord(fail) ensures !IsSpace(c) {
      assert c in "fail=" || c in Itoa(fail);
    }
  }

  lemma RenderLines(ok: nat, fail: nat, logs: seq<string>)
    ensures Split(Render(ok, fail, logs), '\n') == [OkWord(ok) + [' '] + FailWord(fail)] + Split(Join(logs, '\n'), '\n')
  {
    Words(ok, fail);
    HeadLine(OkWord(ok), FailWord(fail), Join(logs, '\n'));
  }

  lemma HeadReads(lines: seq<string>, res: string, a: string, b: string)
    requires lines != [] && lines[0] == a + [' '] + b
    requires Word(a) && Word(b) && TagOk(a) && TagFail(b)
    ensures FailedIn(lines, res) <==> b[5..] != "" && b[5..] != "0"
  {
    HeadLine(a, b, "");
    FirstLineDecides(lines, res, a, b);
  }

  lemma RenderIs(ok: nat, fail: nat, logs: seq<string>)
    ensures Render(ok, fail, logs) == "ok=" + Itoa(ok) + " fail=" + Itoa(fail) + "\n" + Join(logs, '\n')
  {
    assert [' '] + ("fail=" + Itoa(fail)) == " fail=" + Itoa(fail);
    assert "ok=" + Itoa(ok) + [' '] + ("fail=" + Itoa(fail)) == "ok=" + Itoa(ok) + (" fail=" + Itoa(fail));
  }

  /** The parser reads off the printed result exactly whether the failure count is positive; what the logs say
      does not matter. */
  lemma PrinterAndParserAgree(ok: nat, fail: nat, logs: seq<string>)
    ensures FailedIn(Split(Render(ok, fail, logs), '\n'), Render(ok, fail, logs)) <==> fail > 0
  {
    var res := Render(ok, fail, logs);
    var lines := Split(res, '\n');
    RenderLines(ok, fail, logs);
    Words(ok, fail);
    HeadReads(lines, res, OkWord(ok), FailWord(fail));
  }

  // ---------- The interpreter ----------

  /** Line number `i` counts as a failure: it is malformed, or the command it issues fails. */
  predicate LineFails(u: Setup, i: nat, line: string) {
    match Parse(u, Trim(line))
    case Nothing => false
    case Malformed(_) => true
    case Issue(call) => u.run(i, call).failed
  }

  /** The same, spelled out: the line counts, and asks for nothing, or for a command that fails. */
  ghost predicate Fails(u: Setup, i: nat, line: string) {
    Trim(line) != "" && Trim(line)[0] != '#' && forall call | Asks(u, Trim(line), call) :: u.run(i, call).failed
  }

  lemma FailsIff(u: Setup, i: nat, line: string)
    ensures LineFails(u, i, line) <==> Fails(u, i, line)
  {
    hide Trim, Asks, Fields;
    EffectiveIsRequest(u, line);
    forall call ensures Parse(u, Trim(line)) == Issue(call) <==> Asks(u, Trim(line), call) {
      IssuedIff(u, Trim(line), call);
    }
    if Parse(u, Trim(line)).Issue? {
      assert Asks(u, Trim(line), Parse(u, Trim(line)).call);
    }
  }

  lemma AskedIff(u: Setup, line: string)
    ensures forall call :: IssuedBy(u, line) == [call] <==> Asks(u, Trim(line), call)
    ensures IssuedBy(u, line) == [] <==> forall call :: !Asks(u, Trim(line), call)
  {
    hide Trim, Asks, Fields;
    forall call ensures IssuedBy(u, line) == [call] <==> Asks(u, Trim(line), call) {
      IssuedIff(u, Trim(line), call);
      assert [call][0] == call;
    }
    if IssuedBy(u, line) != [] {
      assert Asks(u, Trim(line), IssuedBy(u, line)[0]);
    }
  }

  function CountEffective(lines: seq<string>): nat {
    if lines == [] then 0
    else CountEffective(lines[..|lines| - 1]) + if Effective(lines[|lines| - 1]) then 1 else 0
  }

  function CountFailing(u: Setup, lines: seq<string>): nat {
    if lines == [] then 0
    else CountFailing(u, lines[..|lines| - 1]) + if LineFails(u, |lines| - 1, lines[|lines| - 1]) then 1 else 0
  }

  lemma {:induction false} SomeFailing(u: Setup, lines: seq<string>)
    ensures CountFailing(u, lines) > 0 <==> exists i :: 0 <= i < |lines| && LineFails(u, i, lines[i])
  {
    hide LineFails;
    if lines != [] {
      var last := |lines| - 1;
      SomeFailing(u, lines[..last]);
      if i :| 0 <= i < |lines| && LineFails(u, i, lines[i]) {
        assert i < last ==> lines[..last][i] == lines[i];
      }
      if j :| 0 <= j < last && LineFails(u, j, lines[..last][j]) {
        assert LineFails(u, j, lines[j]);
      }
    }
  }

  /** The external commands that a line, and that all lines, ask for. */
  function IssuedBy(u: Setup, line: string): seq<Call> {
    var r := Parse(u, Trim(line));
    if r.Issue? then [r.call] else []
  }

  function AllIssued(u: Setup, lines: seq<string>): seq<Call> {
    if lines == [] then [] else AllIssued(u, lines[..|lines| - 1]) + IssuedBy(u, lines[|lines| - 1])
  }

  function Truncate(s: string, n: nat): string {
    var t := Trim(s);
    if |t| > n then t[..n] + "…" else t
  }

  function FaultLog(fault: Fault, line: string): string {
    (match fault
     case BadLine => "bad:"
     case Unsafe => "bad:unsafe:"
     case BadPath => "bad:path:"
     case BadValue => "bad:value:"
     case BadAdd => "bad:add:"
     case BadCommit => "bad:commit:") + line
  }

  /** Failed commands are logged, and so are reloads that worked. */
  function CallLog(call: Call, line: string, out: Outcome): seq<string> {
    if call.ReloadNetwork? || call.ReloadWifi? then
      [(if out.failed then "fail:" else "") + line + ":" + Truncate(out.output, 200)]
    else if out.failed && Fields(line) != [] then ["fail:" + Fields(line)[0] + ":" + Truncate(out.output, 100)]
    else []
  }

  datatype LineResult = Skipped | Succeeded | Failed

  /** One round of the loop of uciBatch, for line number `i`. */
  method DoLine(u: Setup, i: nat, raw: string) returns (r: LineResult, logs: seq<string>, issued: seq<Call>)
    requires '\n' !in raw
    ensures r.Skipped? <==> !Effective(raw)
    ensures r.Failed? <==> LineFails(u, i, raw)
    ensures r.Skipped? ==> logs == [] && issued == []
    ensures r.Failed? ==> |logs| == 1
    ensures issued == IssuedBy(u, raw)
    ensures forall k | 0 <= k < |issued| :: HarmlessCall(issued[k])
  {
    var line := Trim(raw);
    EffectiveIsRequest(u, raw);
    TrimIsTrimmed(raw);
    IssuedAreHarmless(u, line);
    match Parse(u, line) {
      case Nothing =>
        return Skipped, [], [];
      case Malformed(fault) =>
        return Failed, [FaultLog(fault, line)], [];
      case Issue(call) =>
        var out := u.run(i, call);
        logs := CallLog(call, line, out);
        return if out.failed then Failed else Succeeded, logs, [call];
    }
  }

  /** uciBatch: every line that counts is counted once, as a success or as a failure, and the result reports a
      failure exactly when some line failed.  `issued` are the external commands, in order. */
  method Batch(u: Setup, arg: string)
    returns (res: string, issued: seq<Call>, ghost ok: nat, ghost fail: nat, ghost logs: seq<string>)
    ensures res == Render(ok, fail, logs)
    ensures ok + fail == CountEffective(Split(arg, '\n'))
    ensures fail == CountFailing(u, Split(arg, '\n'))
    ensures issued == AllIssued(u, Split(arg, '\n'))
    ensures FailedIn(Split(res, '\n'), res) <==> exists i ::
              0 <= i < |Split(arg, '\n')| && Fails(u, i, Split(arg, '\n')[i])
    ensures forall k | 0 <= k < |issued| :: HarmlessCall(issued[k])
  {
    var lines := Split(arg, '\n');
    res, issued, ok, fail, logs := Interpret(u, lines);
    hide LineFails, Fails, Split, FailedIn, AllIssued, CountEffective, CountFailing, Render;
    PrinterAndParserAgree(ok, fail, logs);
    SomeFailing(u, lines);
    forall i | 0 <= i < |lines| ensures LineFails(u, i, lines[i]) <==> Fails(u, i, lines[i]) {
      FailsIff(u, i, lines[i]);
    }
  }

  /** The loop of uciBatch. */
  method Interpret(u: Setup, lines: seq<string>)
    returns (res: string, issued: seq<Call>, ghost okCount: nat, ghost failCount: nat, ghost log: seq<string>)
    requires forall i | 0 <= i < |lines| :: '\n' !in lines[i]
    ensures res == Render(okCount, failCount, log)
    ensures okCount + failCount == CountEffective(lines)
    ensures failCount == CountFailing(u, lines)
    ensures issued == AllIssued(u, lines)
    ensures forall k | 0 <= k < |issued| :: HarmlessCall(issued[k])
  {
    hide LineFails, Effective, IssuedBy, HarmlessCall, Render;
    var ok: nat, fail: nat, logs: seq<string> := 0, 0, [];
    issued := [];
    for i := 0 to |lines|
      invariant ok + fail == CountEffective(lines[..i])
      invariant fail == CountFailing(u, lines[..i])
      invariant issued == AllIssued(u, lines[..i])
      invariant forall k | 0 <= k < |issued| :: HarmlessCall(issued[k])
    {
      assert lines[..i + 1][..i] == lines[..i];
      var r, more, calls := DoLine(u, i, lines[i]);
      logs := logs + more;
      issued := issued + calls;
      match r {
        case Skipped =>
        case Succeeded => ok := ok + 1;
        case Failed => fail := fail + 1;
      }
    }
    assert lines[..|lines|] == lines;
    okCount, failCount, log := ok, fail, logs;
    res := Render(ok, fail, logs);
  }

  // ---------- The local overlay ----------

  ghost predicate Clean(u: Setup, batch: string) {
    forall i | 0 <= i < |Split(batch, '\n')| :: !Fails(u, i, Split(batch, '\n')[i])
  }

  class Overlay {
    var localUci: Option<string>
    var marker: bool
    /** The batch the marker stands for. */
    ghost var applied: Option<(Setup, string)>

    /** The marker is only there after a batch of which no line failed. */
    ghost predicate Valid()
      reads this
    {
      marker ==> applied.Some? && Clean(applied.value.0, applied.value.1)
    }

    constructor (localUci: Option<string>)
      ensures Valid() && !marker && this.localUci == localUci
    {
      this.localUci, marker, applied := localUci, false, None;
    }

    /** applyLocalOverlayOnce; `writes` says whether the marker can be written. */
    method ApplyOnce(u: Setup, writes: bool)
      requires Valid()
      modifies this`marker, this`applied
      ensures Valid()
      ensures old(marker) ==> marker && applied == old(applied)
      ensures !old(marker) ==> (marker <==> localUci.Some? && writes && Clean(u, localUci.value))
    {
      hide Split, LineFails, Fails, FailedIn, AllIssued, CountFailing, CountEffective, Render, HarmlessCall, IssuedBy;
      if marker || localUci.None? {
        return;
      }
      var res, _, _, _, _ := Batch(u, localUci.value);
      var failed := UciBatchFailed(res);
      if failed {
        return;
      }
      if writes {
        marker, applied := true, Some((u, localUci.value));
      }
    }
  }
}
