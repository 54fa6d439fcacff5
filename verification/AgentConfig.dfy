/** The agent's config file: the recovery writer and the two readers. */
module AgentConfig {
  import opened Text
  import opened FileSystem
  import Enrollment

  const HEADER := "# written by netductor-recovery"

  /** The keys the writer writes, in order. */
  const KEYS: seq<string> := ["SERVER", "TOKEN", "DEVICE_ID", "INTERVAL", "CONTROL_ONLY", "SERVER_PIN", "NVR_DIR",
      "NVR_MAX_MB"]

  /** bufio.Scanner gives up at a line that does not fit its buffer with its line break. */
  const MAX_LINE := 65535

  type Values = map<string, string>

  function Val(v: Values, key: string): string {
    if key in v then v[key] else ""
  }

  // ---------- Lines ----------

  /** What a line sets: nothing if it is blank, a comment, or has no '='. */
  function Setting(raw: string): Option<(string, string)> {
    var line := Trim(raw);
    var eq := IndexOf(line, '=');
    if line == "" || line[0] == '#' || eq < 0 then None
    else Some((Trim(line[..eq]), Trim(line[eq + 1..])))
  }

  function Entry(key: string, value: string): string {
    key + ['='] + value
  }

  /** The lines for those of `keys` that have a value. */
  function Entries(v: Values, keys: seq<string>): seq<string> {
    if keys == [] then []
    else (if Val(v, keys[0]) != "" then [Entry(keys[0], Val(v, keys[0]))] else []) + Entries(v, keys[1..])
  }

  function Unlines(lines: seq<string>): string {
    if lines == [] then "" else lines[0] + ['\n'] + Unlines(lines[1..])
  }

  /** The file the writer makes of `v`. */
  function Written(v: Values): string {
    Unlines([HEADER] + Entries(v, KEYS))
  }

  lemma {:induction false} SplitUnlines(lines: seq<string>)
    requires forall i | 0 <= i < |lines| :: '\n' !in lines[i]
    ensures Split(Unlines(lines), '\n') == lines + [""]
  {
    if lines != [] {
      SplitUnlines(lines[1..]);
      SplitAt(lines[0], '\n', Unlines(lines[1..]));
      SplitNone(lines[0], '\n');
    }
  }

  lemma {:induction false} UnlinesConcat(a: seq<string>, b: seq<string>)
    ensures Unlines(a + b) == Unlines(a) + Unlines(b)
  {
    if a == [] {
      assert a + b == b;
    } else {
      assert (a + b)[1..] == a[1..] + b;
      UnlinesConcat(a[1..], b);
      assert a[0] + ['\n'] + (Unlines(a[1..]) + Unlines(b)) == a[0] + ['\n'] + Unlines(a[1..]) + Unlines(b);
    }
  }

  /** A key that can stand before '='. */
  predicate GoodKey(key: string) {
    key != "" && Trimmed(key) && '=' !in key && '\n' !in key && key[0] != '#'
  }

  predicate GoodValue(value: string) {
    Trimmed(value) && '\n' !in value
  }

  ghost predicate Good(v: Values, keys: seq<string>) {
    forall i | 0 <= i < |keys| :: GoodKey(keys[i]) && GoodValue(Val(v, keys[i]))
  }

  ghost predicate Unique(keys: seq<string>) {
    forall i, j | 0 <= i < j < |keys| :: keys[i] != keys[j]
  }

  lemma EntryShape(key: string, value: string)
    requires GoodKey(key)
    ensures var e := Entry(key, value);
      |e| == |key| + 1 + |value| && e[..|key|] == key && e[|key|] == '=' && e[|key| + 1..] == value
    ensures IndexOf(Entry(key, value), '=') == |key|
  {
    var e := Entry(key, value);
    assert e[..|key|] == key;
    IndexUnique(e, '=', |key|);
  }

  lemma EntryTrimmed(key: string, value: string)
    requires GoodKey(key) && GoodValue(value) && value != ""
    ensures Trim(Entry(key, value)) == Entry(key, value)
    ensures Entry(key, value) != "" && Entry(key, value)[0] != '#' && '\n' !in Entry(key, value)
  {
    var e := Entry(key, value);
    assert e[0] == key[0] && e[|e| - 1] == value[|value| - 1];
    TrimIsTrimmed(e);
  }

  lemma GoodEntry(key: string, value: string)
    requires GoodKey(key) && GoodValue(value) && value != ""
    ensures Setting(Entry(key, value)) == Some((key, value))
  {
    hide Trim, IndexOf;
    EntryShape(key, value);
    EntryTrimmed(key, value);
    TrimIsTrimmed(key);
    TrimIsTrimmed(value);
  }

  lemma {:induction false} EntriesHaveNoBreaks(v: Values, keys: seq<string>)
    requires Good(v, keys)
    ensures forall i | 0 <= i < |Entries(v, keys)| :: '\n' !in Entries(v, keys)[i]
  {
    hide Trim, Entry;
    if keys != [] {
      EntriesHaveNoBreaks(v, keys[1..]);
      if Val(v, keys[0]) != "" {
        EntryTrimmed(keys[0], Val(v, keys[0]));
      }
    }
  }

  // ---------- The readers ----------

  /** readConfigFlag, over the lines of the file: the first line that starts with `key=`. */
  function Flag(lines: seq<string>, key: string): string {
    if lines == [] then ""
    else
      var line := Trim(lines[0]);
      if HasPrefix(line, key + ['=']) then Trim(line[|key| + 1..]) else Flag(lines[1..], key)
  }

  /** What the writer and parseKV collect: settings in order; `limit` is the longest line read. */
  function Settings(lines: seq<string>, limit: Option<nat>): seq<(string, string)> {
    if lines == [] || (limit.Some? && |lines[0]| > limit.value) then []
    else (if Setting(lines[0]).Some? then [Setting(lines[0]).value] else []) + Settings(lines[1..], limit)
  }

  /** The settings that the entries of `v` stand for. */
  function Pairs(v: Values, keys: seq<string>): seq<(string, string)> {
    if keys == [] then []
    else (if Val(v, keys[0]) != "" then [(keys[0], Val(v, keys[0]))] else []) + Pairs(v, keys[1..])
  }

  /** The keys up to the first entry that is too long. */
  function Readable(v: Values, keys: seq<string>, limit: Option<nat>): seq<string> {
    if keys == [] then []
    else if limit.Some? && !Short(v, keys[0], limit.value) then []
    else [keys[0]] + Readable(v, keys[1..], limit)
  }

  lemma PrefixIsKey(k: string, value: string, key: string)
    requires GoodKey(k) && GoodKey(key)
    ensures HasPrefix(Entry(k, value), key + ['=']) <==> k == key
  {
    var e := Entry(k, value);
    EntryShape(k, value);
    var p := key + ['='];
    assert p[..|key|] == key && p[|key|] == '=';
    if HasPrefix(e, p) {
      assert e[..|p|][..|key|] == e[..|key|];
      IndexUnique(e, '=', |key|);
    }
    if k == key {
      assert e[..|p|] == p;
    }
  }

  lemma {:induction false} FlagOfEntries(v: Values, keys: seq<string>, key: string)
    requires Good(v, keys) && Unique(keys) && GoodKey(key)
    ensures Flag(Entries(v, keys) + [""], key) == if key in keys then Val(v, key) else ""
  {
    hide Val, Entry, Flag, GoodKey, GoodValue;
    if keys == [] {
      FlagOfNothing(key);
    } else {
      var rest := keys[1..];
      FlagOfEntries(v, rest, key);
      assert keys[0] == key ==> key !in rest;
      if Val(v, keys[0]) == "" {
        assert Entries(v, keys) == Entries(v, rest);
      } else {
        assert Entries(v, keys) + [""] == [Entry(keys[0], Val(v, keys[0]))] + (Entries(v, rest) + [""]);
        FlagOfFirst(keys[0], Val(v, keys[0]), Entries(v, rest) + [""], key);
      }
    }
  }

  lemma FlagOfNothing(key: string)
    ensures Flag(Entries(map[], []) + [""], key) == ""
  {
    assert [""][1..] == [];
    assert |key + ['=']| > 0;
  }

  lemma FlagOfFirst(k: string, value: string, rest: seq<string>, key: string)
    requires GoodKey(k) && GoodKey(key) && GoodValue(value) && value != ""
    ensures Flag([Entry(k, value)] + rest, key) == if k == key then value else Flag(rest, key)
  {
    hide Trim, IndexOf, Entry;
    EntryTrimmed(k, value);
    EntryShape(k, value);
    PrefixIsKey(k, value, key);
    TrimIsTrimmed(value);
    assert ([Entry(k, value)] + rest)[1..] == rest;
  }

  lemma {:induction false} SettingsOfEntries(v: Values, keys: seq<string>, limit: Option<nat>)
    requires Good(v, keys)
    ensures Settings(Entries(v, keys) + [""], limit) == Pairs(v, Readable(v, keys, limit))
  {
    hide Trim, IndexOf, Entry, Val, Setting, GoodKey, GoodValue;
    if keys == [] {
      SettingsOfNothing(limit);
    } else {
      var rest := keys[1..];
      SettingsOfEntries(v, rest, limit);
      PairsCons(v, keys[0], Readable(v, rest, limit));
      if Val(v, keys[0]) == "" {
        assert Entries(v, keys) == Entries(v, rest);
      } else {
        GoodEntry(keys[0], Val(v, keys[0]));
        SettingsCons(Entry(keys[0], Val(v, keys[0])), Entries(v, rest) + [""], limit);
        assert Entries(v, keys) + [""] == [Entry(keys[0], Val(v, keys[0]))] + (Entries(v, rest) + [""]);
      }
    }
  }

  lemma SettingsOfNothing(limit: Option<nat>)
    ensures Settings([] + [""], limit) == []
  {
    assert [] + [""] == [""];
    assert [""][1..] == [];
  }

  lemma PairsCons(v: Values, key: string, keys: seq<string>)
    ensures Pairs(v, [key] + keys) == (if Val(v, key) != "" then [(key, Val(v, key))] else []) + Pairs(v, keys)
  {
    assert ([key] + keys)[1..] == keys;
  }

  lemma SettingsCons(line: string, rest: seq<string>, limit: Option<nat>)
    ensures Settings([line] + rest, limit) ==
            if limit.Some? && |line| > limit.value then []
            else (if Setting(line).Some? then [Setting(line).value] else []) + Settings(rest, limit)
  {
    assert ([line] + rest)[1..] == rest;
  }

  // ---------- The writer ----------

  lemma KeysAreGood()
    ensures Unique(KEYS) && forall i | 0 <= i < |KEYS| :: GoodKey(KEYS[i])
    ensures "ROLE" !in KEYS && GoodKey("ROLE")
  {
    forall i, j | 0 <= i < j < |KEYS| ensures KEYS[i] != KEYS[j] {
      assert |KEYS[i]| == |KEYS[j]| ==> KEYS[i][0] != KEYS[j][0];
    }
  }

  lemma FileLines(v: Values)
    requires Good(v, KEYS)
    ensures Split(Written(v), '\n') == [HEADER] + (Entries(v, KEYS) + [""])
  {
    hide Split, Unlines, Entries;
    EntriesHaveNoBreaks(v, KEYS);
    var lines := [HEADER] + Entries(v, KEYS);
    HeaderIsComment();
    SplitUnlines(lines);
    assert lines + [""] == [HEADER] + (Entries(v, KEYS) + [""]);
  }

  lemma HeaderIsComment()
    ensures '\n' !in HEADER && HEADER[0] == '#' && Trim(HEADER) == HEADER
  {
    hide Trim;
    assert HEADER[0] == '#' && HEADER[|HEADER| - 1] == 'y';
    TrimIsTrimmed(HEADER);
  }

  lemma HeaderSetsNothing(rest: seq<string>, key: string, limit: Option<nat>)
    requires GoodKey(key) && (limit.Some? ==> |HEADER| <= limit.value)
    ensures Flag([HEADER] + rest, key) == Flag(rest, key)
    ensures Settings([HEADER] + rest, limit) == Settings(rest, limit)
  {
    hide Trim, IndexOf;
    HeaderIsComment();
    SettingsCons(HEADER, rest, limit);
    assert ([HEADER] + rest)[1..] == rest;
    assert (key + ['='])[0] == key[0];
  }

  /** Round trip for readConfigFlag: every written key reads as its value, and no other key reads as anything. */
  lemma FlagRoundTrip(v: Values, key: string)
    requires Good(v, KEYS) && GoodKey(key)
    ensures Flag(Split(Written(v), '\n'), key) == if key in KEYS then Val(v, key) else ""
  {
    hide Split, Written, Flag, Entries, Settings;
    KeysAreGood();
    FileLines(v);
    HeaderSetsNothing(Entries(v, KEYS) + [""], key, None);
    FlagOfEntries(v, KEYS, key);
  }

  /** Round trip for a reader that collects settings: it sees the entries up to the first one that is longer
      than it can read. */
  lemma SettingsRoundTrip(v: Values, limit: Option<nat>)
    requires Good(v, KEYS) && (limit.Some? ==> |HEADER| <= limit.value)
    ensures Settings(Split(Written(v), '\n'), limit) == Pairs(v, Readable(v, KEYS, limit))
  {
    hide Split, Written, Entries, Settings, Flag;
    KeysAreGood();
    FileLines(v);
    HeaderSetsNothing(Entries(v, KEYS) + [""], "ROLE", limit);
    SettingsOfEntries(v, KEYS, limit);
  }

  /** The last setting of a key wins. */
  function LastOf(settings: seq<(string, string)>, key: string): string {
    if settings == [] then ""
    else
      var last := settings[|settings| - 1];
      if last.0 == key then last.1 else LastOf(settings[..|settings| - 1], key)
  }

  lemma {:induction false} LastCons(p: (string, string), rest: seq<(string, string)>, key: string)
    ensures LastOf([p] + rest, key) == if exists q | q in rest ::
              q.0 == key then LastOf(rest, key) else if p.0 == key then p.1 else ""
  {
    if rest != [] {
      var last := |rest| - 1;
      LastCons(p, rest[..last], key);
      assert ([p] + rest)[..|rest|] == [p] + rest[..last];
      assert rest == rest[..last] + [rest[last]];
    } else {
      assert [p] + rest == [p] && [p][..0] == [];
    }
  }

  lemma {:induction false} LastOfPairs(v: Values, keys: seq<string>, key: string)
    requires Unique(keys)
    ensures LastOf(Pairs(v, keys), key) == if key in keys then Val(v, key) else ""
    ensures (exists q | q in Pairs(v, keys) :: q.0 == key) <==> key in keys && Val(v, key) != ""
  {
    if keys != [] {
      LastOfPairs(v, keys[1..], key);
      LastCons((keys[0], Val(v, keys[0])), Pairs(v, keys[1..]), key);
      assert keys[0] == key ==> key !in keys[1..];
      var p := (keys[0], Val(v, keys[0]));
      if p.1 != "" {
        assert Pairs(v, keys) == [p] + Pairs(v, keys[1..]);
        assert p in Pairs(v, keys);
        forall q | q in Pairs(v, keys) ensures q == p || q in Pairs(v, keys[1..]) {}
        forall q | q in Pairs(v, keys[1..]) ensures q in Pairs(v, keys) {}
      } else {
        assert Pairs(v, keys) == Pairs(v, keys[1..]);
      }
    }
  }

  predicate Short(v: Values, key: string, limit: nat) {
    Val(v, key) != "" ==> |Entry(key, Val(v, key))| <= limit
  }

  ghost predicate AllShort(v: Values, keys: seq<string>, limit: nat) {
    forall key | key in keys :: Short(v, key, limit)
  }

  lemma {:induction false} ReadablePrefix(v: Values, keys: seq<string>, limit: Option<nat>)
    ensures Readable(v, keys, limit) <= keys
    ensures limit.None? ==> Readable(v, keys, limit) == keys
  {
    if keys != [] {
      ReadablePrefix(v, keys[1..], limit);
      assert keys == [keys[0]] + keys[1..];
    }
  }

  lemma {:induction false} ReadableKeys(v: Values, keys: seq<string>, limit: nat)
    requires Unique(keys)
    ensures AllShort(v, keys, limit) ==> Readable(v, keys, Some(limit)) == keys
    ensures !AllShort(v, keys, limit) ==> exists key | key in keys ::
              key !in Readable(v, keys, Some(limit)) && Val(v, key) != ""
  {
    hide Val, Entry;
    if keys != [] {
      var rest := keys[1..];
      ReadableKeys(v, rest, limit);
      assert keys == [keys[0]] + rest;
      if Short(v, keys[0], limit) && !AllShort(v, rest, limit) {
        var key :| key in rest && key !in Readable(v, rest, Some(limit)) && Val(v, key) != "";
        assert key in keys && key != keys[0];
      }
      if !Short(v, keys[0], limit) {
        assert keys[0] in keys && Val(v, keys[0]) != "";
      }
    }
  }

  /** The two readers agree on every written key exactly when no written line is longer than parseKV reads. */
  lemma ReadersAgree(v: Values)
    requires Good(v, KEYS)
    ensures (forall key | key in KEYS ::
               LastOf(Settings(Split(Written(v), '\n'), Some(65535)), key) == Flag(Split(Written(v), '\n'), key))
            <==> AllShort(v, KEYS, 65535)
  {
    hide Split, Written, Entries, Settings, Flag, LastOf, Pairs, Readable;
    KeysAreGood();
    SettingsRoundTrip(v, Some(MAX_LINE));
    ReadableKeys(v, KEYS, MAX_LINE);
    ReadablePrefix(v, KEYS, Some(MAX_LINE));
    var seen := Readable(v, KEYS, Some(MAX_LINE));
    forall key | key in KEYS
      ensures Flag(Split(Written(v), '\n'), key) == Val(v, key)
      ensures LastOf(Settings(Split(Written(v), '\n'), Some(MAX_LINE)), key) == if key in seen then Val(v, key) else ""
    {
      FlagRoundTrip(v, key);
      LastOfPairs(v, seen, key);
    }
  }

  /** What the writer knows of the old file: the last setting of each key, blank keys dropped. */
  function Cur(settings: seq<(string, string)>): Values {
    if settings == [] then map[]
    else
      var last := settings[|settings| - 1];
      var before := Cur(settings[..|settings| - 1]);
      if last.0 == "" then before else before[last.0 := last.1]
  }

  lemma {:induction false} ValOfCur(settings: seq<(string, string)>, key: string)
    requires key != ""
    ensures Val(Cur(settings), key) == LastOf(settings, key)
  {
    if settings != [] {
      ValOfCur(settings[..|settings| - 1], key);
    }
  }

  lemma SettingIsGood(raw: string)
    requires '\n' !in raw && Setting(raw).Some?
    ensures GoodValue(Setting(raw).value.1)
  {
    var line := Trim(raw);
    TrimIsTrimmed(raw);
    TrimIsTrimmed(line[IndexOf(line, '=') + 1..]);
  }

  lemma {:induction false} SettingsAreGood(lines: seq<string>, limit: Option<nat>)
    requires forall i | 0 <= i < |lines| :: '\n' !in lines[i]
    ensures forall i | 0 <= i < |Settings(lines, limit)| :: GoodValue(Settings(lines, limit)[i].1)
  {
    hide Setting, GoodValue;
    if lines != [] {
      SettingsAreGood(lines[1..], limit);
      if Setting(lines[0]).Some? {
        SettingIsGood(lines[0]);
      }
    }
  }

  lemma {:induction false} LastIsGood(settings: seq<(string, string)>, key: string)
    requires forall i | 0 <= i < |settings| :: GoodValue(settings[i].1)
    ensures GoodValue(LastOf(settings, key))
  {
    if settings != [] {
      LastIsGood(settings[..|settings| - 1], key);
    }
  }

  /** What the writer reads of the old file; a missing file sets nothing. */
  function CurOf(text: Option<string>): Values {
    match text
    case None => map[]
    case Some(t) => Cur(Settings(Split(t, '\n'), None))
  }

  lemma CurOfIsGood(text: Option<string>, key: string)
    requires key != ""
    ensures GoodValue(Val(CurOf(text), key))
  {
    hide Settings, Split, LastOf, Cur;
    if text.Some? {
      var settings := Settings(Split(text.value, '\n'), None);
      SettingsAreGood(Split(text.value, '\n'), None);
      LastIsGood(settings, key);
      ValOfCur(settings, key);
    }
  }

  /** A recovery submission. */
  datatype Submission = Submission(server: string, token: string, deviceID: string, pin: string)

  predicate GoodSubmission(s: Submission) {
    GoodValue(s.server) && GoodValue(s.token) && GoodValue(s.deviceID) && GoodValue(s.pin)
  }

  function Updated(v: Values, s: Submission): Values {
    var a := v["SERVER" := s.server]["TOKEN" := s.token];
    var b := if s.deviceID != "" then a["DEVICE_ID" := s.deviceID] else a;
    var c := b["CONTROL_ONLY" := "1"];
    if s.pin != "" then c["SERVER_PIN" := s.pin] else c
  }

  /** What each key has to read as after a submission, given what it read as before. */
  function Expected(v: Values, s: Submission, key: string): string {
    if key == "SERVER" then s.server
    else if key == "TOKEN" then s.token
    else if key == "DEVICE_ID" && s.deviceID != "" then s.deviceID
    else if key == "CONTROL_ONLY" then "1"
    else if key == "SERVER_PIN" && s.pin != "" then s.pin
    else Val(v, key)
  }

  lemma ValOfUpdated(v: Values, s: Submission, key: string)
    ensures Val(Updated(v, s), key) == Expected(v, s, key)
  {
    KeyNames();
  }

  lemma KeyNames()
    ensures "SERVER" != "TOKEN" && "SERVER" != "DEVICE_ID" && "SERVER" != "CONTROL_ONLY" && "SERVER" != "SERVER_PIN"
    ensures "TOKEN" != "DEVICE_ID" && "TOKEN" != "CONTROL_ONLY" && "TOKEN" != "SERVER_PIN"
    ensures "DEVICE_ID" != "CONTROL_ONLY" && "DEVICE_ID" != "SERVER_PIN" && "CONTROL_ONLY" != "SERVER_PIN"
  {
    assert "SERVER"[0] == 'S' && "TOKEN"[0] == 'T' && "DEVICE_ID"[0] == 'D' && "CONTROL_ONLY"[0] == 'C'
        && "SERVER_PIN"[0] == 'S';
    assert |"SERVER"| == 6 && |"SERVER_PIN"| == 10;
  }

  lemma UpdatedIsGood(text: Option<string>, s: Submission)
    requires GoodSubmission(s)
    ensures Good(Updated(CurOf(text), s), KEYS)
  {
    hide Updated, GoodKey, GoodValue, CurOf;
    KeysAreGood();
    forall i | 0 <= i < |KEYS| ensures GoodValue(Val(Updated(CurOf(text), s), KEYS[i])) {
      ValOfUpdated(CurOf(text), s, KEYS[i]);
      assert KEYS[i] != "" by { NotEmpty(KEYS[i]); }
      CurOfIsGood(text, KEYS[i]);
      OneIsGood();
    }
  }

  lemma NotEmpty(key: string)
    requires GoodKey(key)
    ensures key != ""
  {}

  lemma OneIsGood()
    ensures GoodValue("1")
  {}

  /** Config round trip: after a submission every written key reads as submitted or, where nothing was
      submitted for it, as before; ROLE and every other key is gone. */
  lemma ConfigRoundTrip(text: Option<string>, s: Submission, key: string)
    requires GoodSubmission(s) && GoodKey(key)
    ensures Flag(Split(Written(Updated(CurOf(text), s)), '\n'), key) ==
            if key in KEYS then Expected(CurOf(text), s, key) else ""
    ensures key == "ROLE" ==> key !in KEYS
  {
    hide Split, Written, Flag, Updated, CurOf, Expected;
    UpdatedIsGood(text, s);
    FlagRoundTrip(Updated(CurOf(text), s), key);
    ValOfUpdated(CurOf(text), s, key);
    KeysAreGood();
  }

  lemma {:induction false} EntriesSame(v: Values, w: Values, keys: seq<string>)
    requires forall key | key in keys :: Val(v, key) == Val(w, key)
    ensures Entries(v, keys) == Entries(w, keys)
  {
    if keys != [] {
      EntriesSame(v, w, keys[1..]);
    }
  }

  /** Submitting the same twice writes the same file. */
  lemma WritingTwice(text: Option<string>, s: Submission)
    requires GoodSubmission(s)
    ensures var once := Written(Updated(CurOf(text), s)); Written(Updated(CurOf(Some(once)), s)) == once
  {
    hide Split, Updated, Entries, Expected, Cur, Settings, LastOf, Pairs, Readable, GoodKey;
    var u := Updated(CurOf(text), s);
    UpdatedIsGood(text, s);
    var again := Updated(CurOf(Some(Written(u))), s);
    KeysAreGood();
    SettingsRoundTrip(u, None);
    ReadablePrefix(u, KEYS, None);
    forall key | key in KEYS ensures Val(again, key) == Val(u, key) {
      ValOfUpdated(CurOf(Some(Written(u))), s, key);
      ValOfUpdated(CurOf(text), s, key);
      assert key != "" by { NotEmpty(key); }
      ValOfCur(Settings(Split(Written(u), '\n'), None), key);
      LastOfPairs(u, KEYS, key);
      ExpectedTwice(CurOf(text), CurOf(Some(Written(u))), s, key);
    }
    EntriesSame(again, u, KEYS);
  }

  lemma ExpectedTwice(v: Values, w: Values, s: Submission, key: string)
    requires Val(w, key) == Expected(v, s, key)
    ensures Expected(w, s, key) == Expected(v, s, key)
  {}

  // ---------- What the agent runs with ----------

  datatype Config = Config(server: string, token: string, deviceID: string, role: string, interval: int, nvrDir: string,
      nvrMaxMB: int)

  const MAX_INT: nat := 0x7fff_ffff_ffff_ffff

  /** strconv.Atoi, where it gives a positive number. */
  function PositiveInt(s: string): Option<int> {
    var digits := if s != "" && s[0] == '+' then s[1..] else s;
    if digits != "" && (forall c | c in digits :: IsDigit(c)) && 0 < Value(digits) <= MAX_INT then Some(Value(digits))
        else None
  }

  /** What the switch of parseKV does with one setting. */
  function Apply(c: Config, key: string, value: string): Config {
    if key == "SERVER" then c.(server := value)
    else if key == "TOKEN" then c.(token := value)
    else if key == "DEVICE_ID" then c.(deviceID := value)
    else if key == "ROLE" then c.(role := value)
    else if key == "INTERVAL" then (if PositiveInt(value).Some? then c.(interval := PositiveInt(value).value) else c)
    else if key == "NVR_DIR" then c.(nvrDir := value)
    else if key == "NVR_MAX_MB" then (if PositiveInt(value).Some? then c.(nvrMaxMB := PositiveInt(value).value) else c)
    else c
  }

  function ApplyAll(c: Config, settings: seq<(string, string)>): Config
    decreases |settings|
  {
    if settings == [] then c
    else ApplyAll(Apply(c, settings[0].0, settings[0].1), settings[1..])
  }

  /** A value, or what was there if nothing is written. */
  function Or(value: string, before: string): string {
    if value != "" then value else before
  }

  function IntOr(value: string, before: int): int {
    match PositiveInt(value)
    case Some(n) => n
    case None => before
  }

  /** The settings of a written file, applied: each field takes its key's value, if the key is among `keys`
      and has one. */
  ghost predicate TakesValues(c: Config, c': Config, v: Values, keys: seq<string>) {
    && c'.server == Or(if "SERVER" in keys then Val(v, "SERVER") else "", c.server)
    && c'.token == Or(if "TOKEN" in keys then Val(v, "TOKEN") else "", c.token)
    && c'.deviceID == Or(if "DEVICE_ID" in keys then Val(v, "DEVICE_ID") else "", c.deviceID)
    && c'.role == Or(if "ROLE" in keys then Val(v, "ROLE") else "", c.role)
    && c'.interval == IntOr(if "INTERVAL" in keys then Val(v, "INTERVAL") else "", c.interval)
    && c'.nvrDir == Or(if "NVR_DIR" in keys then Val(v, "NVR_DIR") else "", c.nvrDir)
    && c'.nvrMaxMB == IntOr(if "NVR_MAX_MB" in keys then Val(v, "NVR_MAX_MB") else "", c.nvrMaxMB)
  }

  lemma MoreKeyNames()
    ensures "ROLE" != "SERVER" && "ROLE" != "TOKEN" && "ROLE" != "DEVICE_ID" && "ROLE" != "INTERVAL"
              && "ROLE" != "NVR_DIR" && "ROLE" != "NVR_MAX_MB"
    ensures "INTERVAL" != "SERVER" && "INTERVAL" != "TOKEN" && "INTERVAL" != "DEVICE_ID" && "INTERVAL" != "NVR_DIR"
              && "INTERVAL" != "NVR_MAX_MB"
    ensures "NVR_DIR" != "SERVER" && "NVR_DIR" != "TOKEN" && "NVR_DIR" != "DEVICE_ID" && "NVR_DIR" != "NVR_MAX_MB"
    ensures "NVR_MAX_MB" != "SERVER" && "NVR_MAX_MB" != "TOKEN" && "NVR_MAX_MB" != "DEVICE_ID"
    ensures PositiveInt("") == None
  {
    assert "ROLE"[0] == 'R' && "INTERVAL"[0] == 'I' && "NVR_DIR"[0] == 'N' && |"NVR_DIR"| == 7 && |"NVR_MAX_MB"| == 10;
    assert "SERVER"[0] == 'S' && "TOKEN"[0] == 'T' && "DEVICE_ID"[0] == 'D' && "NVR_MAX_MB"[0] == 'N';
  }

  lemma ApplyTakes(c: Config, v: Values, key: string)
    ensures TakesValues(c, if Val(v, key) != "" then Apply(c, key, Val(v, key)) else c, v, [key])
  {
    hide PositiveInt;
    KeyNames();
    MoreKeyNames();
  }

  lemma TakesTrans(a: Config, b: Config, c: Config, v: Values, key: string, keys: seq<string>)
    requires TakesValues(a, b, v, [key]) && TakesValues(b, c, v, keys) && key !in keys
    ensures TakesValues(a, c, v, [key] + keys)
  {
    hide PositiveInt;
    MoreKeyNames();
    forall k ensures k in [key] + keys <==> k == key || k in keys {}
  }

  lemma {:induction false} ApplyPairs(c: Config, v: Values, keys: seq<string>)
    requires Unique(keys)
    ensures TakesValues(c, ApplyAll(c, Pairs(v, keys)), v, keys)
    decreases |keys|
  {
    hide TakesValues, Apply, Val, Pairs, ApplyAll;
    if keys == [] {
      TakesNothing(c, v);
      ApplyNone(c, v);
    } else {
      var rest := keys[1..];
      var next := if Val(v, keys[0]) != "" then Apply(c, keys[0], Val(v, keys[0])) else c;
      ApplyPairs(next, v, rest);
      ApplyTakes(c, v, keys[0]);
      assert keys == [keys[0]] + rest;
      assert keys[0] !in rest;
      TakesTrans(c, next, ApplyAll(next, Pairs(v, rest)), v, keys[0], rest);
      ApplyFirst(c, v, keys);
    }
  }

  lemma ApplyFirst(c: Config, v: Values, keys: seq<string>)
    requires keys != []
    ensures ApplyAll(c, Pairs(v, keys)) ==
            ApplyAll(if Val(v, keys[0]) != "" then Apply(c, keys[0], Val(v, keys[0])) else c, Pairs(v, keys[1..]))
  {
    hide Apply, Val;
    var rest := Pairs(v, keys[1..]);
    if Val(v, keys[0]) != "" {
      var p := (keys[0], Val(v, keys[0]));
      assert Pairs(v, keys) == [p] + rest;
      assert ([p] + rest)[1..] == rest;
    } else {
      assert Pairs(v, keys) == rest;
    }
  }

  lemma ApplyNone(c: Config, v: Values)
    ensures ApplyAll(c, Pairs(v, [])) == c
  {}

  lemma TakesNothing(c: Config, v: Values)
    ensures TakesValues(c, c, v, [])
  {
    MoreKeyNames();
  }

  /** Config round trip for parseKV: where every written line is short enough to be read, the agent runs with
      what was submitted and, for the rest, with what was set before; its role is not taken from the file. */
  lemma ParsedRoundTrip(text: Option<string>, s: Submission, c: Config)
    requires GoodSubmission(s)
    ensures var u := Updated(CurOf(text), s);
      AllShort(u, KEYS, MAX_LINE) ==> TakesValues(c, ApplyAll(c, Settings(Split(Written(u), '\n'), Some(MAX_LINE))), u,
          KEYS)
  {
    hide Split, Written, Updated, CurOf, TakesValues, Settings, Pairs, ApplyAll, Readable, AllShort;
    var u := Updated(CurOf(text), s);
    UpdatedIsGood(text, s);
    KeysAreGood();
    HeaderIsShort();
    SettingsRoundTrip(u, Some(MAX_LINE));
    ReadableKeys(u, KEYS, MAX_LINE);
    ApplyPairs(c, u, KEYS);
  }

  lemma HeaderIsShort()
    ensures |HEADER| <= MAX_LINE
  {}

  /** parseKV. */
  method ParseKV(text: string, c: Config) returns (parsed: Config)
    ensures parsed == ApplyAll(c, Settings(Split(text, '\n'), Some(65535)))
  {
    var lines := Split(text, '\n');
    parsed := c;
    for i := 0 to |lines|
      invariant ApplyAll(c, Settings(lines, Some(MAX_LINE))) == ApplyAll(parsed, Settings(lines[i..], Some(MAX_LINE)))
    {
      hide Setting, Apply;
      var line := lines[i];
      if |line| > MAX_LINE {
        break;
      }
      assert lines[i..] == [line] + lines[i + 1..];
      SettingsCons(line, lines[i + 1..], Some(MAX_LINE));
      var setting := Setting(line);
      if setting.Some? {
        var rest := Settings(lines[i + 1..], Some(MAX_LINE));
        assert ([setting.value] + rest)[1..] == rest;
        parsed := Apply(parsed, setting.value.0, setting.value.1);
      } else {
        assert [] + Settings(lines[i + 1..], Some(MAX_LINE)) == Settings(lines[i + 1..], Some(MAX_LINE));
      }
    }
  }

  /** The loop of readConfigFlag. */
  method FirstFlag(lines: seq<string>, key: string) returns (value: string)
    ensures value == Flag(lines, key)
  {
    hide Trim;
    for i := 0 to |lines|
      invariant Flag(lines, key) == Flag(lines[i..], key)
    {
      var line := Trim(lines[i]);
      assert lines[i..][1..] == lines[i + 1..];
      if HasPrefix(line, key + ['=']) {
        return Trim(line[|key| + 1..]);
      }
    }
    return "";
  }

  /** The loop of writeAgentConfig that reads the old file. */
  method Collect(lines: seq<string>) returns (cur: Values)
    ensures cur == Cur(Settings(lines, None))
  {
    hide Setting;
    cur := map[];
    ghost var done: seq<(string, string)> := [];
    for i := 0 to |lines|
      invariant cur == Cur(done)
      invariant done + Settings(lines[i..], None) == Settings(lines, None)
    {
      var setting := Setting(lines[i]);
      assert lines[i..] == [lines[i]] + lines[i + 1..];
      SettingsCons(lines[i], lines[i + 1..], None);
      if setting.Some? {
        ghost var more := done + [setting.value];
        assert more[..|more| - 1] == done;
        assert more + Settings(lines[i + 1..], None) == done + ([setting.value] + Settings(lines[i + 1..], None));
        if setting.value.0 != "" {
          cur := cur[setting.value.0 := setting.value.1];
        }
        done := more;
      }
    }
    assert done + [] == done;
  }

  /** The loop of writeAgentConfig that builds the new file. */
  method Build(cur: Values) returns (out: string)
    ensures out == Written(cur)
  {
    hide Val;
    out := HEADER + ['\n'];
    UnlinesConcat([HEADER], Entries(cur, KEYS));
    assert Unlines([HEADER]) == out by {
      assert [HEADER][1..] == [];
    }
    assert KEYS[0..] == KEYS;
    for i := 0 to |KEYS|
      invariant out + Unlines(Entries(cur, KEYS[i..])) == Written(cur)
    {
      out := AddEntry(cur, KEYS[i..], out);
      assert KEYS[i..][1..] == KEYS[i + 1..];
    }
  }

  method AddEntry(cur: Values, keys: seq<string>, out: string) returns (out': string)
    requires keys != []
    ensures out' + Unlines(Entries(cur, keys[1..])) == out + Unlines(Entries(cur, keys))
  {
    hide Val;
    out' := out;
    var v := Val(cur, keys[0]);
    ghost var rest := Entries(cur, keys[1..]);
    if v != "" {
      assert ([Entry(keys[0], v)] + rest)[1..] == rest;
      out' := out + keys[0] + ['='] + v + ['\n'];
      assert out' + Unlines(rest) == out + (Entry(keys[0], v) + ['\n'] + Unlines(rest));
    } else {
      assert Entries(cur, keys) == rest;
    }
  }

  /** What may go wrong with a submission: the old file cannot be read, the two removals have no effect, the
      new file is not written and something else is left. */
  datatype Luck = Luck(readable: bool, tokenGoes: bool, markerGoes: bool, written: bool, left: Option<string>)

  /** The agent's directory, as far as a recovery submission touches it. */
  class ConfigFile {
    var text: Option<string>
    /** The device token and its marker. */
    const agent: Enrollment.Agent

    constructor (text: Option<string>, agent: Enrollment.Agent)
      ensures this.text == text && this.agent == agent
    {
      this.text, this.agent := text, agent;
    }

    /** readConfigFlag. */
    method ReadFlag(key: string) returns (value: string)
      ensures value == if text.Some? then Flag(Split(text.value, '\n'), key) else ""
    {
      if text.None? {
        return "";
      }
      value := FirstFlag(Split(text.value, '\n'), key);
    }

    /** writeAgentConfig.  The device token goes before the file is written, and also when that fails; an old
        file that cannot be read counts as none. */
    method Write(s: Submission, luck: Luck) returns (ok: bool)
      modifies this`text, agent`disk
      ensures ok == luck.written
      ensures var v := CurOf(if luck.readable then old(text) else None);
        && text == (if ok then Some(Written(Updated(v, s))) else luck.left)
        // it goes with a submitted token, or for another server than before
        && var drop := Trim(s.token) != ""
             || (Trim(Val(v, "SERVER")) != "" && Trim(Val(v, "SERVER")) != Trim(s.server));
           agent.disk == if drop then Enrollment.Removed(old(agent.disk), luck.tokenGoes, luck.markerGoes)
                         else old(agent.disk)
      ensures old(agent.Valid()) && !Enrollment.LeftAlone(old(agent.disk), luck.tokenGoes, luck.markerGoes) ==>
                agent.Valid()
    {
      var cur: Values := map[];
      if luck.readable {
        cur := ReadOld();
      }
      var prevServer := Trim(Val(cur, "SERVER"));
      var next := Updated(cur, s);
      if prevServer != "" && prevServer != Trim(s.server) {
        agent.ClearToken(luck.tokenGoes, luck.markerGoes);
      } else if Trim(s.token) != "" {
        agent.ClearToken(luck.tokenGoes, luck.markerGoes);
      }
      var out := Build(next);
      ok := luck.written;
      text := if ok then Some(out) else luck.left;
    }

    /** The loop that reads the old file. */
    method ReadOld() returns (cur: Values)
      ensures cur == CurOf(text)
    {
      cur := map[];
      if text.None? {
        return;
      }
      cur := Collect(Split(text.value, '\n'));
    }
  }

  // ---------- The same, spelled out ----------

  /** A line sets something if it is no comment and has a '=': what is before the first one, and after it. */
  lemma SettingIff(raw: string, key: string, value: string)
    ensures Setting(raw) == Some((key, value)) <==>
            && Trim(raw) != "" && Trim(raw)[0] != '#'
            && exists eq: nat :: eq < |Trim(raw)| && Trim(raw)[eq] == '=' && '=' !in Trim(raw)[..eq]
                 && key == Trim(Trim(raw)[..eq]) && value == Trim(Trim(raw)[eq + 1..])
  {
    hide Trim, IndexOf;
    var line := Trim(raw);
    if eq: nat :| eq < |line| && line[eq] == '=' && '=' !in line[..eq] {
      IndexUnique(line, '=', eq);
    }
    if IndexOf(line, '=') >= 0 {
      var eq: nat := IndexOf(line, '=');
      assert forall k | 0 <= k < eq :: line[..eq][k] == line[k];
      assert '=' !in line[..eq];
    }
  }

  /** Numbers: digits, perhaps after a plus sign, that give a positive number of at most 63 bits. */
  lemma PositiveIntIff(s: string, n: int)
    ensures PositiveInt(s) == Some(n) <==>
            0 < n < 0x8000_0000_0000_0000 && exists digits: string :: Spells(s, digits) && Value(digits) == n
  {
    var bare := if s != "" && s[0] == '+' then s[1..] else s;
    assert s == bare || s == "+" + bare;
    if PositiveInt(s).Some? {
      forall c | c in bare ensures '0' <= c <= '9' {
        assert IsDigit(c);
      }
      assert Spells(s, bare);
    }
    forall digits: string | Spells(s, digits) ensures digits == bare {
      assert digits[0] in digits;
      if s == "+" + digits {
        assert s[1..] == digits;
      }
    }
  }

  predicate Spells(s: string, digits: string) {
    (s == digits || s == "+" + digits) && digits != "" && forall c | c in digits :: '0' <= c <= '9'
  }

  /** A positive number is read back from its decimal form. */
  lemma NumbersRead(n: nat)
    requires 0 < n < 0x8000_0000_0000_0000
    ensures PositiveInt(Itoa(n)) == Some(n)
  {
    hide Itoa;
    ItoaValue(n);
    PositiveIntIff(Itoa(n), n);
    assert Spells(Itoa(n), Itoa(n));
  }

  function ReadBack(file: string, key: string): string {
    Flag(Split(file, '\n'), key)
  }

  /** The file after a submission, key by key. */
  lemma Submitted(text: Option<string>, s: Submission)
    requires GoodSubmission(s)
    ensures var file, before := Written(Updated(CurOf(text), s)), CurOf(text);
      && ReadBack(file, "SERVER") == s.server
      && ReadBack(file, "TOKEN") == s.token
      && ReadBack(file, "DEVICE_ID") == (if s.deviceID != "" then s.deviceID else Val(before, "DEVICE_ID"))
      && ReadBack(file, "CONTROL_ONLY") == "1"
      && ReadBack(file, "SERVER_PIN") == (if s.pin != "" then s.pin else Val(before, "SERVER_PIN"))
      && ReadBack(file, "INTERVAL") == Val(before, "INTERVAL")
      && ReadBack(file, "NVR_DIR") == Val(before, "NVR_DIR")
      && ReadBack(file, "NVR_MAX_MB") == Val(before, "NVR_MAX_MB")
      && ReadBack(file, "ROLE") == ""
  {
    hide Written, Updated, CurOf, Flag, Split, GoodKey, GoodValue, Val;
    WrittenKeys();
    KeysAreGood();
    KeyNames();
    MoreKeyNames();
    ConfigRoundTrip(text, s, "ROLE");
    forall key | key in KEYS ensures ReadBack(Written(Updated(CurOf(text), s)), key) == Expected(CurOf(text), s, key) {
      ConfigRoundTrip(text, s, key);
    }
  }

  lemma WrittenKeys()
    ensures "SERVER" in KEYS && "TOKEN" in KEYS && "DEVICE_ID" in KEYS && "INTERVAL" in KEYS
    ensures "CONTROL_ONLY" in KEYS && "SERVER_PIN" in KEYS && "NVR_DIR" in KEYS && "NVR_MAX_MB" in KEYS
  {
    assert KEYS[0] == "SERVER" && KEYS[1] == "TOKEN" && KEYS[2] == "DEVICE_ID" && KEYS[3] == "INTERVAL";
    assert KEYS[4] == "CONTROL_ONLY" && KEYS[5] == "SERVER_PIN" && KEYS[6] == "NVR_DIR" && KEYS[7] == "NVR_MAX_MB";
  }

  /** And what the agent then runs with, where parseKV reads every line. */
  lemma RunsWith(text: Option<string>, s: Submission, c: Config)
    requires GoodSubmission(s)
    ensures var before := CurOf(text);
      var c' := ApplyAll(c, Settings(Split(Written(Updated(before, s)), '\n'), Some(65535)));
      AllShort(Updated(before, s), KEYS, 65535) ==>
        && c'.server == (if s.server != "" then s.server else c.server)
        && c'.token == (if s.token != "" then s.token else c.token)
        && (s.deviceID != "" ==> c'.deviceID == s.deviceID)
        && (s.deviceID == "" && Val(before, "DEVICE_ID") != "" ==> c'.deviceID == Val(before, "DEVICE_ID"))
        && (forall n | PositiveInt(Val(before, "INTERVAL")) == Some(n) :: c'.interval == n)
        && (PositiveInt(Val(before, "INTERVAL")) == None ==> c'.interval == c.interval)
        && (Val(before, "NVR_DIR") != "" ==> c'.nvrDir == Val(before, "NVR_DIR"))
        && (forall n | PositiveInt(Val(before, "NVR_MAX_MB")) == Some(n) :: c'.nvrMaxMB == n)
        && c'.role == c.role
  {
    hide Written, CurOf, Settings, Split, ApplyAll, AllShort, PositiveInt, GoodValue, Updated;
    ParsedRoundTrip(text, s, c);
    WrittenKeys();
    KeysAreGood();
    ValuesAfter(CurOf(text), s);
  }

  lemma ValuesAfter(v: Values, s: Submission)
    ensures Val(Updated(v, s), "SERVER") == s.server && Val(Updated(v, s), "TOKEN") == s.token
    ensures Val(Updated(v, s), "DEVICE_ID") == if s.deviceID != "" then s.deviceID else Val(v, "DEVICE_ID")
    ensures Val(Updated(v, s), "INTERVAL") == Val(v, "INTERVAL") && Val(Updated(v, s), "NVR_DIR") == Val(v, "NVR_DIR")
    ensures Val(Updated(v, s), "NVR_MAX_MB") == Val(v, "NVR_MAX_MB")
  {
    KeyNames();
    MoreKeyNames();
    ValOfUpdated(v, s, "SERVER");
    ValOfUpdated(v, s, "TOKEN");
    ValOfUpdated(v, s, "DEVICE_ID");
    ValOfUpdated(v, s, "INTERVAL");
    ValOfUpdated(v, s, "NVR_DIR");
    ValOfUpdated(v, s, "NVR_MAX_MB");
    hide Updated, Val;
  }

  /** What was there before: the last setting of the key in the old file. */
  lemma ValBefore(text: string, key: string)
    requires key != ""
    ensures Val(CurOf(Some(text)), key) == LastOf(Settings(Split(text, '\n'), None), key) && Val(CurOf(None), key) == ""
  {
    hide Split, Settings, LastOf;
    ValOfCur(Settings(Split(text, '\n'), None), key);
  }

  // ---------- A line that one reader does not read ----------

  lemma {:induction false} ReadableAreShort(v: Values, keys: seq<string>, limit: nat)
    ensures forall key | key in Readable(v, keys, Some(limit)) :: Short(v, key, limit)
  {
    hide Short;
    if keys != [] {
      ReadableAreShort(v, keys[1..], limit);
    }
  }

  /** A recording directory with a name of 65530 characters: readConfigFlag reads it, parseKV does not. */
  lemma LongLine()
    ensures var v: Values := map["NVR_DIR" := seq(65530, _ => 'x')];
      && Flag(Split(Written(v), '\n'), "NVR_DIR") == v["NVR_DIR"]
      && LastOf(Settings(Split(Written(v), '\n'), Some(MAX_LINE)), "NVR_DIR") == ""
  {
    hide Split, Written, Entries, Settings, Flag, LastOf, Pairs, Readable, GoodKey, Good;
    var value := seq(65530, _ => 'x');
    var v: Values := map["NVR_DIR" := value];
    assert value[0] == value[|value| - 1] == 'x' && |value| == 65530;
    LongIsGood(v, value);
    KeysAreGood();
    assert KEYS[6] == "NVR_DIR";
    FlagRoundTrip(v, "NVR_DIR");
    SettingsRoundTrip(v, Some(MAX_LINE));
    ReadablePrefix(v, KEYS, Some(MAX_LINE));
    ReadableAreShort(v, KEYS, MAX_LINE);
    assert !Short(v, "NVR_DIR", MAX_LINE) by {
      assert |Entry("NVR_DIR", value)| == |"NVR_DIR"| + 1 + |value|;
    }
    LastOfPairs(v, Readable(v, KEYS, Some(MAX_LINE)), "NVR_DIR");
  }

  lemma LongIsGood(v: Values, value: string)
    requires v == map["NVR_DIR" := value] && GoodValue(value)
    ensures Good(v, KEYS)
  {
    hide GoodKey, GoodValue;
    KeysAreGood();
    EmptyIsGood();
    forall i | 0 <= i < |KEYS| ensures GoodValue(Val(v, KEYS[i])) {}
  }

  lemma EmptyIsGood()
    ensures GoodValue("")
  {}
}
