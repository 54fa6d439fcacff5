/** Which radios carry the guest network: reading `uci show wireless`, picking targets, naming sections. */
module Radios {
  import opened Collections
  import opened Text
  import opened FileSystem

  datatype Device = Device(name: string, band: string)

  /** What one line of `uci show wireless` says. */
  datatype Fact = Nothing | IsDevice(sec: string) | BandIs(sec: string, band: string) | HwIs(sec: string, band: string)

  const PREFIX := "wireless."

  function ToLower(s: string): string {
    if s == "" then "" else [if 'A' <= s[0] <= 'Z' then s[0] - 'A' + 'a' else s[0]] + ToLower(s[1..])
  }

  predicate Quote(c: char) {
    c == '\'' || c == '"'
  }

  function TrimQuotes(s: string): string {
    if s != "" && Quote(s[0]) then TrimQuotes(s[1..])
    else if s != "" && Quote(s[|s| - 1]) then TrimQuotes(s[..|s| - 1])
    else s
  }

  /** Quotes of both kinds go from both ends, and nothing else. */
  lemma {:induction false} TrimQuotesOf(left: string, mid: string, right: string)
    requires OnlyQuotes(left) && OnlyQuotes(right)
    requires mid != "" ==> !OnlyQuotes([mid[0]]) && !OnlyQuotes([mid[|mid| - 1]])
    ensures TrimQuotes(left + mid + right) == mid
    decreases |left| + |right|
  {
    var s := left + mid + right;
    if left != "" {
      assert s[0] == left[0] && s[1..] == left[1..] + mid + right && OnlyQuotes(left[1..]);
      TrimQuotesOf(left[1..], mid, right);
    } else if mid == "" && right != "" {
      assert s[0] == right[0] && s[1..] == "" + mid + right[1..] && OnlyQuotes(right[1..]);
      TrimQuotesOf("", mid, right[1..]);
    } else if right != "" {
      var last := |right| - 1;
      assert s[0] == mid[0] && s[|s| - 1] == right[last] && s[..|s| - 1] == "" + mid + right[..last];
      assert OnlyQuotes(right[..last]) && [mid[0]][0] == mid[0];
      TrimQuotesOf("", mid, right[..last]);
    } else {
      assert s == mid;
      assert mid != "" ==> [mid[0]][0] == mid[0] && [mid[|mid| - 1]][0] == mid[|mid| - 1];
    }
  }

  predicate OnlyQuotes(s: string) {
    forall i | 0 <= i < |s| :: s[i] == '\'' || s[i] == '"'
  }

  function NormalizeBand(s: string): string {
    var t := ToLower(Trim(s));
    if t == "2g" || t == "2.4g" || t == "2.4" || t == "24g" then "2g"
    else if t == "5g" || t == "5" then "5g"
    else if t == "6g" || t == "6" then "6g"
    else t
  }

  function BandFromHwmode(s: string): (band: string)
    ensures band != ""
  {
    var hw := ToLower(s);
    if Contains(hw, "ac") then "5g"
    else if 'a' in hw && 'g' !in hw then "5g"
    else if 'g' in hw || 'b' in hw then "2g"
    else "unknown"
  }

  /** Lower case, for ASCII. */
  lemma {:induction false} ToLowerIs(s: string)
    ensures |ToLower(s)| == |s|
    ensures forall i | 0 <= i < |s| :: ToLower(s)[i] == if 'A' <= s[i] <= 'Z' then (s[i] as int + 32) as char else s[i]
  {
    if s != "" {
      ToLowerIs(s[1..]);
    }
  }

  /** The spellings of the bands. */
  lemma NormalizeBandIs(s: string)
    ensures var t := ToLower(Trim(s));
      && (NormalizeBand(s) == "2g" <==> t in {"2g", "2.4g", "2.4", "24g"})
      && (NormalizeBand(s) == "5g" <==> t in {"5g", "5"})
      && (NormalizeBand(s) == "6g" <==> t in {"6g", "6"})
      && (t !in {"2g", "2.4g", "2.4", "24g", "5g", "5", "6g", "6"} ==> NormalizeBand(s) == t)
  {
    hide ToLower, Trim;
    assert "2g"[0] == '2' && "5g"[0] == '5' && "6g"[0] == '6' && "5"[0] == '5' && "6"[0] == '6';
    assert "2.4g"[0] == '2' && "2.4"[0] == '2' && "24g"[0] == '2';
  }

  ghost predicate Mentions(s: string, lower: char, upper: char) {
    lower in s || upper in s
  }

  /** "ac" anywhere, or an 'a' and no 'g', is 5 GHz; else a 'g' or a 'b' is 2.4 GHz; case does not matter. */
  lemma BandFromHwmodeIs(s: string)
    ensures BandFromHwmode(s) == "5g" <==>
              Contains(ToLower(s), "ac") || (Mentions(s, 'a', 'A') && !Mentions(s, 'g', 'G'))
    ensures BandFromHwmode(s) == "2g" <==>
            !(Contains(ToLower(s), "ac") || (Mentions(s, 'a', 'A') && !Mentions(s, 'g', 'G')))
            && (Mentions(s, 'g', 'G') || Mentions(s, 'b', 'B'))
    ensures BandFromHwmode(s) in {"2g", "5g", "unknown"}
  {
    hide Contains;
    LowerMentions(s, 'a', 'A');
    LowerMentions(s, 'g', 'G');
    LowerMentions(s, 'b', 'B');
    BandNames();
  }

  lemma LowerMentions(s: string, lower: char, upper: char)
    requires 'A' <= upper <= 'Z' && lower as int == upper as int + 32
    ensures lower in ToLower(s) <==> Mentions(s, lower, upper)
  {
    hide ToLower;
    ToLowerIs(s);
    if i :| 0 <= i < |s| && (s[i] == lower || s[i] == upper) {
      assert ToLower(s)[i] == lower;
    }
    if i :| 0 <= i < |s| && ToLower(s)[i] == lower {
      assert s[i] == lower || s[i] == upper;
    }
  }

  /** Contains: somewhere inside. */
  lemma {:induction false} ContainsIff(s: string, t: string)
    ensures Contains(s, t) <==> exists i :: 0 <= i <= |s| && t <= s[i..]
  {
    if t <= s {
      assert s[0..] == s;
    } else if s != "" {
      ContainsIff(s[1..], t);
      if i :| 0 <= i <= |s| && t <= s[i..] {
        assert i > 0;
        assert s[1..][i - 1..] == s[i..];
      }
      if i :| 0 <= i <= |s[1..]| && t <= s[1..][i..] {
        assert s[1..][i..] == s[i + 1..];
      }
    }
  }

  function ParseLine(raw: string): (f: Fact)
    ensures f.HwIs? ==> f.band != ""
  {
    var line := Trim(raw);
    if !HasPrefix(line, PREFIX) then Nothing
    else
      var rest := line[|PREFIX|..];
      var eq := IndexOf(rest, '=');
      if eq <= 0 then Nothing
      else ParseSetting(rest[..eq], TrimQuotes(rest[eq + 1..]))
  }

  function ParseSetting(left: string, right: string): (f: Fact)
    ensures f.HwIs? ==> f.band != ""
  {
    var dot := IndexOf(left, '.');
    if dot < 0 then (if right == "wifi-device" then IsDevice(left) else Nothing)
    else
      var key := left[dot + 1..];
      if key == "band" then BandIs(left[..dot], NormalizeBand(right))
      else if key == "hwmode" then HwIs(left[..dot], BandFromHwmode(right))
      else Nothing
  }

  /** What the lines say, in order. */
  function Facts(lines: seq<string>): (facts: seq<Fact>)
    ensures |facts| == |lines| && forall i | 0 <= i < |facts| :: facts[i] == ParseLine(lines[i])
    ensures Read(facts)
  {
    seq(|lines|, i requires 0 <= i < |lines| => ParseLine(lines[i]))
  }

  /** An hwmode line always says something. */
  predicate Read(facts: seq<Fact>) {
    forall i | 0 <= i < |facts| && facts[i].HwIs? :: facts[i].band != ""
  }

  // ---------- Reading line by line ----------

  /** The band known for a section after some lines: a band line always counts, an hwmode line only while
      nothing is known. */
  function BandOf(facts: seq<Fact>, sec: string): string {
    if facts == [] then ""
    else
      var before := BandOf(facts[..|facts| - 1], sec);
      match facts[|facts| - 1]
      case BandIs(s, band) => if s == sec then band else before
      case HwIs(s, band) => if s == sec && before == "" then band else before
      case _ => before
  }

  predicate Declared(facts: seq<Fact>, sec: string) {
    exists i | 0 <= i < |facts| :: facts[i] == IsDevice(sec)
  }

  function Shown(band: string): string {
    if band == "" then "unknown" else band
  }

  /** The devices that some lines describe. */
  ghost predicate Describes(facts: seq<Fact>, devices: map<string, string>) {
    forall sec :: (sec in devices <==> Declared(facts, sec))
        && (sec in devices ==> devices[sec] == Shown(BandOf(facts, sec)))
  }

  datatype Meta = Meta(isDev: bool, band: string)

  function At(m: map<string, Meta>, sec: string): Meta {
    if sec in m then m[sec] else Meta(false, "")
  }

  /** The loop of detectWifiDevices, and the filter after it. */
  method Collect(lines: seq<string>) returns (devices: map<string, string>)
    ensures Describes(Facts(lines), devices)
  {
    hide ParseLine, Shown;
    ghost var facts := Facts(lines);
    var m: map<string, Meta> := map[];
    for i := 0 to |lines|
      invariant forall sec :: At(m, sec).band == BandOf(facts[..i], sec)
      invariant forall sec :: At(m, sec).isDev <==> Declared(facts[..i], sec)
    {
      var fact := ParseLine(lines[i]);
      ghost var next := facts[..i + 1];
      assert next[..i] == facts[..i] && next[i] == fact;
      DeclaredSnoc(facts[..i], fact);
      assert next == facts[..i] + [fact];
      match fact {
        case Nothing =>
        case IsDevice(sec) => m := m[sec := At(m, sec).(isDev := true)];
        case BandIs(sec, band) => m := m[sec := At(m, sec).(band := band)];
        case HwIs(sec, band) => m := m[sec := if At(m, sec).band == "" then At(m, sec).(band := band) else At(m, sec)];
      }
    }
    assert facts[..|facts|] == facts;
    devices := map sec | sec in m && m[sec].isDev :: Shown(m[sec].band);
  }

  lemma DeclaredSnoc(facts: seq<Fact>, fact: Fact)
    ensures forall sec :: Declared(facts + [fact], sec) <==> Declared(facts, sec) || fact == IsDevice(sec)
  {
    forall sec ensures Declared(facts + [fact], sec) <==> Declared(facts, sec) || fact == IsDevice(sec) {
      var all := facts + [fact];
      assert all[|facts|] == fact;
      if i :| 0 <= i < |facts| && facts[i] == IsDevice(sec) {
        assert all[i] == facts[i];
      }
      if i :| 0 <= i < |all| && all[i] == IsDevice(sec) {
        assert i < |facts| ==> all[i] == facts[i];
      }
    }
  }

  // ---------- Does the order of the lines matter? ----------

  ghost predicate Says(facts: seq<Fact>, f: Fact) {
    exists i :: 0 <= i < |facts| && facts[i] == f
  }

  ghost predicate NoBandLine(facts: seq<Fact>, sec: string) {
    forall i | 0 <= i < |facts| :: facts[i].BandIs? ==> facts[i].sec != sec
  }

  ghost predicate NoHwLine(facts: seq<Fact>, sec: string) {
    forall i | 0 <= i < |facts| :: facts[i].HwIs? ==> facts[i].sec != sec
  }

  /** The bands a section can end up with in some order of the lines. */
  ghost predicate Possible(facts: seq<Fact>, sec: string, band: string) {
    if NoBandLine(facts, sec) then
      if NoHwLine(facts, sec) then band == "" else Says(facts, HwIs(sec, band))
    else
      || Says(facts, BandIs(sec, band))
      || (Says(facts, BandIs(sec, "")) && Says(facts, HwIs(sec, band)))
  }

  /** Reading gives one of the possible bands. */
  lemma {:induction false} BandIsPossible(facts: seq<Fact>, sec: string)
    ensures Possible(facts, sec, BandOf(facts, sec))
  {
    if facts != [] {
      var last := |facts| - 1;
      var init := facts[..last];
      BandIsPossible(init, sec);
      forall f | Says(init, f) ensures Says(facts, f) {
        var i :| 0 <= i < |init| && init[i] == f;
        assert facts[i] == f;
      }
      assert Says(facts, facts[last]);
      assert NoBandLine(init, sec) == (forall i | 0 <= i < last :: facts[i].BandIs? ==> facts[i].sec != sec) by {
        forall i | 0 <= i < last ensures init[i] == facts[i] {}
      }
      assert NoHwLine(init, sec) == (forall i | 0 <= i < last :: facts[i].HwIs? ==> facts[i].sec != sec) by {
        forall i | 0 <= i < last ensures init[i] == facts[i] {}
      }
    }
  }

  ghost predicate Permutes<T>(a: seq<T>, b: seq<T>) {
    multiset(a) == multiset(b)
  }

  lemma WithoutSays(facts: seq<Fact>, i: nat, f: Fact)
    requires i < |facts| && facts[i] != f
    ensures Says(facts, f) <==> Says(Without(facts, i), f)
  {
    var rest := Without(facts, i);
    if j: nat :| j < |facts| && facts[j] == f {
      assert rest[if j < i then j else j - 1] == facts[j];
    }
    if j: nat :| j < |rest| && rest[j] == f {
      assert rest[j] == facts[if j < i then j else j + 1];
    }
  }

  lemma BandSnoc(facts: seq<Fact>, fact: Fact, sec: string)
    ensures BandOf(facts + [fact], sec) ==
            match fact
            case BandIs(s, band) => if s == sec then band else BandOf(facts, sec)
            case HwIs(s, band) => if s == sec && BandOf(facts, sec) == "" then band else BandOf(facts, sec)
            case _ => BandOf(facts, sec)
  {
    assert (facts + [fact])[..|facts|] == facts;
  }

  /** Without band lines the first hwmode line decides. */
  lemma {:induction false} FirstHwDecides(first: Fact, rest: seq<Fact>, sec: string, band: string)
    requires first == HwIs(sec, band) && band != "" && NoBandLine(rest, sec)
    ensures BandOf([first] + rest, sec) == band
  {
    if rest == [] {
      assert [first] + rest == [] + [first];
      BandSnoc([], first, sec);
    } else {
      var last := |rest| - 1;
      var init := rest[..last];
      assert NoBandLine(init, sec) by {
        forall i | 0 <= i < |init| ensures init[i] == rest[i] {}
      }
      FirstHwDecides(first, init, sec, band);
      assert [first] + rest == ([first] + init) + [rest[last]];
      BandSnoc([first] + init, rest[last], sec);
    }
  }

  /** Every possible band is what some order of the lines gives. */
  lemma PossibleIsReached(facts: seq<Fact>, sec: string, band: string) returns (order: seq<Fact>)
    requires Possible(facts, sec, band) && Read(facts)
    ensures Permutes(facts, order) && BandOf(order, sec) == band
  {
    if NoBandLine(facts, sec) {
      if NoHwLine(facts, sec) {
        NothingSaid(facts, sec);
        return facts;
      }
      var i: nat :| i < |facts| && facts[i] == HwIs(sec, band);
      order := HwFirst(facts, i, sec, band);
    } else if Says(facts, BandIs(sec, band)) {
      var i: nat :| i < |facts| && facts[i] == BandIs(sec, band);
      order := Without(facts, i) + [facts[i]];
      WithoutPermutes(facts, i);
      BandSnoc(Without(facts, i), facts[i], sec);
    } else {
      order := EmptyThenHw(facts, sec, band);
    }
  }

  lemma {:induction false} NothingSaid(facts: seq<Fact>, sec: string)
    requires NoBandLine(facts, sec) && NoHwLine(facts, sec)
    ensures BandOf(facts, sec) == ""
  {
    if facts != [] {
      var init := facts[..|facts| - 1];
      forall i | 0 <= i < |init| ensures init[i] == facts[i] {}
      NothingSaid(init, sec);
    }
  }

  lemma HwFirst(facts: seq<Fact>, i: nat, sec: string, band: string) returns (order: seq<Fact>)
    requires i < |facts| && facts[i] == HwIs(sec, band) && band != "" && NoBandLine(facts, sec)
    ensures Permutes(facts, order) && BandOf(order, sec) == band
  {
    hide Without, BandOf;
    var rest := Without(facts, i);
    order := [facts[i]] + rest;
    WithoutPermutes(facts, i);
    LinesBySays(facts, sec);
    LinesBySays(rest, sec);
    forall b ensures !Says(rest, BandIs(sec, b)) {
      WithoutSays(facts, i, BandIs(sec, b));
    }
    FirstHwDecides(facts[i], rest, sec, band);
  }

  /** A blank band line moved behind everything, and an hwmode line behind it. */
  lemma EmptyThenHw(facts: seq<Fact>, sec: string, band: string) returns (order: seq<Fact>)
    requires Says(facts, BandIs(sec, "")) && Says(facts, HwIs(sec, band))
    ensures Permutes(facts, order) && BandOf(order, sec) == band
  {
    hide Without, BandOf;
    var i: nat :| i < |facts| && facts[i] == BandIs(sec, "");
    var others := Without(facts, i);
    WithoutPermutes(facts, i);
    WithoutSays(facts, i, HwIs(sec, band));
    var k: nat :| k < |others| && others[k] == HwIs(sec, band);
    var rest := Without(others, k);
    WithoutPermutes(others, k);
    order := rest + [facts[i]] + [others[k]];
    BandSnoc(rest, facts[i], sec);
    BandSnoc(rest + [facts[i]], others[k], sec);
  }

  /** No section has two possible bands that show differently. */
  ghost predicate Unambiguous(facts: seq<Fact>) {
    forall sec, a, b | Declared(facts, sec) && Possible(facts, sec, a) && Possible(facts, sec, b) ::
        Shown(a) == Shown(b)
  }

  lemma SaysPermuted(a: seq<Fact>, b: seq<Fact>, f: Fact)
    requires Permutes(a, b) && Says(a, f)
    ensures Says(b, f)
  {
    var i :| 0 <= i < |a| && a[i] == f;
    assert a[i] in multiset(a);
    assert a[i] in b;
  }

  lemma PossiblePermuted(a: seq<Fact>, b: seq<Fact>, sec: string, band: string)
    requires Permutes(a, b) && Possible(b, sec, band)
    ensures Possible(a, sec, band)
    ensures Declared(a, sec) <==> Declared(b, sec)
  {
    forall f ensures Says(a, f) <==> Says(b, f) {
      if Says(a, f) { SaysPermuted(a, b, f); }
      if Says(b, f) { SaysPermuted(b, a, f); }
    }
    LinesBySays(a, sec);
    LinesBySays(b, sec);
    assert Declared(a, sec) <==> Says(a, IsDevice(sec));
    assert Declared(b, sec) <==> Says(b, IsDevice(sec));
  }

  lemma LinesBySays(facts: seq<Fact>, sec: string)
    ensures NoBandLine(facts, sec) <==> forall band :: !Says(facts, BandIs(sec, band))
    ensures NoHwLine(facts, sec) <==> forall band :: !Says(facts, HwIs(sec, band))
  {
    if i :| 0 <= i < |facts| && facts[i].BandIs? && facts[i].sec == sec {
      assert Says(facts, BandIs(sec, facts[i].band));
    }
    if i :| 0 <= i < |facts| && facts[i].HwIs? && facts[i].sec == sec {
      assert Says(facts, HwIs(sec, facts[i].band));
    }
  }

  /** The order does not matter, for any order, exactly when no device is ambiguous. */
  lemma AnyOrderIff(facts: seq<Fact>)
    requires Read(facts)
    ensures Unambiguous(facts) <==>
            forall order, d, d' | Permutes(facts, order) && Describes(facts, d) && Describes(order, d') :: d == d'
  {
    hide Shown, BandOf;
    if Unambiguous(facts) {
      forall order, d, d' | Permutes(facts, order) && Describes(facts, d) && Describes(order, d') ensures d == d' {
        forall sec ensures (sec in d <==> sec in d') && (sec in d ==> d[sec] == d'[sec]) {
          BandIsPossible(facts, sec);
          BandIsPossible(order, sec);
          PossiblePermuted(facts, order, sec, BandOf(order, sec));
        }
      }
    } else {
      var sec, a, b :| Declared(facts, sec) && Possible(facts, sec, a) && Possible(facts, sec, b)
          && Shown(a) != Shown(b);
      var first := PossibleIsReached(facts, sec, a);
      var second := PossibleIsReached(facts, sec, b);
      BandIsPossible(facts, sec);
      var other := if Shown(BandOf(facts, sec)) == Shown(a) then second else first;
      DescribedDiffers(facts, other, sec);
    }
  }

  lemma FactsWithout(lines: seq<string>, i: nat)
    requires i < |lines|
    ensures Facts(Without(lines, i)) == Without(Facts(lines), i)
  {
    hide ParseLine;
  }

  /** Lines in another order say the same in another order. */
  lemma {:induction false} FactsPermute(lines: seq<string>, order: seq<string>)
    requires Permutes(lines, order)
    ensures Permutes(Facts(lines), Facts(order))
    decreases |lines|
  {
    hide ParseLine, Without;
    if lines == [] {
      assert |multiset(order)| == 0;
    } else {
      assert lines[0] in multiset(order);
      var j :| 0 <= j < |order| && order[j] == lines[0];
      WithoutPermutes(lines, 0);
      WithoutPermutes(order, j);
      FactsWithout(lines, 0);
      FactsWithout(order, j);
      WithoutPermutes(Facts(lines), 0);
      WithoutPermutes(Facts(order), j);
      assert |Without(lines, 0)| < |lines| by { WithoutShorter(lines, 0); }
      FactsPermute(Without(lines, 0), Without(order, j));
    }
  }

  lemma WithoutShorter<T>(s: seq<T>, i: nat)
    requires i < |s|
    ensures |Without(s, i)| == |s| - 1
  {}

  /** What is said in another order can be said by the lines in another order. */
  lemma {:induction false} LinesFor(lines: seq<string>, facts: seq<Fact>) returns (order: seq<string>)
    requires Permutes(Facts(lines), facts)
    ensures Permutes(lines, order) && Facts(order) == facts
    decreases |facts|
  {
    hide ParseLine, Without;
    if facts == [] {
      assert |multiset(Facts(lines))| == 0;
      order := [];
    } else {
      var last := |facts| - 1;
      assert facts[last] in multiset(Facts(lines));
      var j :| 0 <= j < |lines| && Facts(lines)[j] == facts[last];
      WithoutPermutes(lines, j);
      FactsWithout(lines, j);
      WithoutPermutes(Facts(lines), j);
      WithoutLast(facts);
      var init := LinesFor(Without(lines, j), facts[..last]);
      order := init + [lines[j]];
      FactsSnoc(init, lines[j]);
    }
  }

  lemma WithoutLast<T>(s: seq<T>)
    requires s != []
    ensures multiset(s[..|s| - 1]) == multiset(s) - multiset{s[|s| - 1]}
    ensures s == s[..|s| - 1] + [s[|s| - 1]]
  {
    assert s == s[..|s| - 1] + [s[|s| - 1]];
  }

  lemma FactsSnoc(lines: seq<string>, line: string)
    ensures Facts(lines + [line]) == Facts(lines) + [ParseLine(line)]
  {
    hide ParseLine;
  }

  /** The order of the lines does not matter, for any of them, exactly when no device is ambiguous. */
  lemma OrderIndependentIff(lines: seq<string>)
    ensures Unambiguous(Facts(lines)) <==>
            forall order, d, d' | Permutes(lines, order) && Describes(Facts(lines), d) && Describes(Facts(order), d') ::
                d == d'
  {
    hide Unambiguous, Describes, ParseLine;
    var facts := Facts(lines);
    AnyOrderIff(facts);
    if Unambiguous(facts) {
      forall order, d, d' | Permutes(lines, order) && Describes(facts, d)
          && Describes(Facts(order), d') ensures d == d' {
        FactsPermute(lines, order);
      }
    } else {
      var said, d, d' :| Permutes(facts, said) && Describes(facts, d) && Describes(said, d') && d != d';
      var order := LinesFor(lines, said);
    }
  }

  lemma DescribedDiffers(facts: seq<Fact>, other: seq<Fact>, sec: string)
    requires Permutes(facts, other) && Declared(facts, sec) && Shown(BandOf(facts, sec)) != Shown(BandOf(other, sec))
    ensures exists order, d, d' :: Permutes(facts, order) && Describes(facts, d) && Describes(order, d') && d != d'
  {
    hide Shown, BandOf;
    BandIsPossible(other, sec);
    PossiblePermuted(facts, other, sec, BandOf(other, sec));
    var d := Describe(facts);
    var d' := Describe(other);
    assert d[sec] != d'[sec];
  }

  lemma Describe(facts: seq<Fact>) returns (d: map<string, string>)
    ensures Describes(facts, d)
  {
    hide Shown, BandOf;
    var secs := set i | 0 <= i < |facts| && facts[i].IsDevice? :: facts[i].sec;
    d := map sec | sec in secs :: Shown(BandOf(facts, sec));
    forall sec ensures sec in d <==> Declared(facts, sec) {
      if i :| 0 <= i < |facts| && facts[i] == IsDevice(sec) {
        assert facts[i].sec in secs;
      }
      if sec in d {
        var i :| 0 <= i < |facts| && facts[i].IsDevice? && facts[i].sec == sec;
        assert facts[i] == IsDevice(sec);
      }
    }
  }

  /** One band line that is not blank, or none and at most one hwmode line, is enough. */
  lemma PlainSectionsAreUnambiguous(facts: seq<Fact>)
    requires forall sec, a, b | Says(facts, BandIs(sec, a)) && Says(facts, BandIs(sec, b)) :: a == b && a != ""
    requires forall sec, a, b | Says(facts, HwIs(sec, a)) && Says(facts, HwIs(sec, b)) :: a == b
    ensures Unambiguous(facts)
  {
    hide Shown;
    forall sec, a, b | Declared(facts, sec) && Possible(facts, sec, a)
        && Possible(facts, sec, b) ensures Shown(a) == Shown(b) {
      assert !Says(facts, BandIs(sec, ""));
    }
  }

  /** A blank band line beside an hwmode line makes the order matter. */
  lemma BlankBandMatters(facts: seq<Fact>, sec: string, band: string)
    requires Declared(facts, sec) && Says(facts, BandIs(sec, "")) && Says(facts, HwIs(sec, band)) && band != ""
             && band != "unknown"
    ensures !Unambiguous(facts)
  {
    LinesBySays(facts, sec);
    assert Possible(facts, sec, "") && Possible(facts, sec, band);
  }

  function Line(left: string, right: string): string {
    "wireless." + left + ['='] + right
  }

  lemma LineIsTrimmed(left: string, right: string)
    requires right != "" && !IsSpace(right[|right| - 1])
    ensures Trim(Line(left, right)) == Line(left, right)
  {
    hide Trim;
    var line := Line(left, right);
    assert line[0] == 'w' && line[|line| - 1] == right[|right| - 1];
    TrimIsTrimmed(line);
  }

  lemma AfterPrefix(p: string, left: string, right: string)
    requires '=' !in left
    ensures var line := p + left + ['='] + right; p <= line && line[|p|..] == left + ['='] + right
    ensures var rest := left + ['='] + right;
      IndexOf(rest, '=') == |left| && rest[..|left|] == left && rest[|left| + 1..] == right
  {
    var rest := left + ['='] + right;
    assert p + left + ['='] + right == p + rest;
    assert rest[..|left|] == left;
    IndexUnique(rest, '=', |left|);
  }

  lemma ParseOfLine(left: string, right: string)
    requires left != "" && '=' !in left
    requires right != "" && !IsSpace(right[|right| - 1])
    ensures ParseLine(Line(left, right)) == ParseSetting(left, TrimQuotes(right))
  {
    hide IndexOf, Trim, TrimQuotes, ParseSetting;
    LineIsTrimmed(left, right);
    AfterPrefix(PREFIX, left, right);
  }

  lemma OptionOf(sec: string, key: string, right: string)
    requires sec != "" && '.' !in sec
    ensures var left := sec + ['.'] + key;
      ParseSetting(left, right) ==
      if key == "band" then BandIs(sec, NormalizeBand(right))
      else if key == "hwmode" then HwIs(sec, BandFromHwmode(right)) else Nothing
  {
    hide IndexOf, NormalizeBand, BandFromHwmode;
    var left := sec + ['.'] + key;
    assert left[..|sec|] == sec && left[|sec| + 1..] == key;
    IndexUnique(left, '.', |sec|);
  }

  lemma Readings()
    ensures NormalizeBand(TrimQuotes("''")) == "" && BandFromHwmode(TrimQuotes("a")) == "5g"
              && TrimQuotes("wifi-device") == "wifi-device"
  {
    assert NormalizeBand(TrimQuotes("''")) == "" by {
      hide BandFromHwmode;
      assert "''"[1..] == "'" && "'"[1..] == "";
      assert TrimQuotes("''") == "";
    }
    assert BandFromHwmode(TrimQuotes("a")) == "5g" by {
      hide NormalizeBand;
      assert TrimQuotes("a") == "a";
      assert ToLower("a") == "a" && "a"[1..] == "";
    }
  }

  /** For instance, with one blank band line and one hwmode line for one radio: last, the blank line leaves
      the band unknown; before the other one, it is without effect. */
  lemma OneRadioTwoReadings()
    ensures var dev, band, hw := Line("r", "wifi-device"), Line("r" + ['.'] + "band", "''"),
              Line("r" + ['.'] + "hwmode", "a");
      && BandOf(Facts([dev, band, hw]), "r") == "5g" && BandOf(Facts([dev, hw, band]), "r") == ""
      && !Unambiguous(Facts([dev, band, hw]))
  {
    hide TrimQuotes, NormalizeBand, BandFromHwmode, ParseLine, ParseSetting, Line, BandOf, Unambiguous;
    DeviceLine("r");
    OptionLine("r", "band", "''");
    OptionLine("r", "hwmode", "a");
    Readings();
    assert |"hwmode"| != |"band"|;
    var dev, band, hw := Line("r", "wifi-device"), Line("r" + ['.'] + "band", "''"), Line("r" + ['.'] + "hwmode", "a");
    ReadInTurn(ParseLine(dev), ParseLine(band), ParseLine(hw), "r", "5g");
    assert Facts([dev, band, hw]) == [ParseLine(dev), ParseLine(band), ParseLine(hw)];
    assert Facts([dev, hw, band]) == [ParseLine(dev), ParseLine(hw), ParseLine(band)];
  }

  lemma DeviceLine(sec: string)
    requires sec != "" && '=' !in sec && '.' !in sec
    ensures ParseLine(Line(sec, "wifi-device")) == IsDevice(sec)
  {
    hide TrimQuotes, ParseLine, Line;
    Readings();
    assert "wifi-device"[|"wifi-device"| - 1] == 'e';
    ParseOfLine(sec, "wifi-device");
  }

  lemma OptionLine(sec: string, key: string, right: string)
    requires sec != "" && '.' !in sec && '=' !in sec && '=' !in key
    requires right != "" && !IsSpace(right[|right| - 1])
    ensures ParseLine(Line(sec + ['.'] + key, right)) ==
            if key == "band" then BandIs(sec, NormalizeBand(TrimQuotes(right)))
            else if key == "hwmode" then HwIs(sec, BandFromHwmode(TrimQuotes(right))) else Nothing
  {
    hide TrimQuotes, ParseLine, Line, ParseSetting;
    ParseOfLine(sec + ['.'] + key, right);
    OptionOf(sec, key, TrimQuotes(right));
  }

  lemma ReadInTurn(dev: Fact, band: Fact, hw: Fact, sec: string, known: string)
    requires dev == IsDevice(sec) && band == BandIs(sec, "") && hw == HwIs(sec, known)
    requires known != "" && known != "unknown"
    ensures BandOf([dev, band, hw], sec) == known && BandOf([dev, hw, band], sec) == "" && !Unambiguous([dev, band, hw])
  {
    var facts := [dev, band, hw];
    BandSnoc([], dev, sec);
    BandSnoc([dev], band, sec);
    BandSnoc([dev, band], hw, sec);
    BandSnoc([dev], hw, sec);
    BandSnoc([dev, hw], band, sec);
    assert [] + [dev] == [dev] && [dev] + [band] == [dev, band] && [dev, band] + [hw] == facts;
    assert [dev] + [hw] == [dev, hw] && [dev, hw] + [band] == [dev, hw, band];
    assert facts[0] == IsDevice(sec) && facts[1] == BandIs(sec, "") && facts[2] == HwIs(sec, known);
    BlankBandMatters(facts, sec, known);
  }

  // ---------- The sorted list ----------

  /** Order on names: the first difference decides. */
  predicate Less(a: string, b: string) {
    b != "" && (a == "" || a[0] < b[0] || (a[0] == b[0] && Less(a[1..], b[1..])))
  }

  /** The first difference decides, and a name comes before those it begins. */
  lemma {:induction false} LessIff(a: string, b: string)
    ensures Less(a, b) <==> exists k: nat :: DiffersAt(a, b, k)
  {
    if a != "" && b != "" && a[0] == b[0] {
      LessIff(a[1..], b[1..]);
      if k: nat :| DiffersAt(a[1..], b[1..], k) {
        assert a[..k + 1] == [a[0]] + a[1..][..k] && b[..k + 1] == [b[0]] + b[1..][..k];
        assert DiffersAt(a, b, k + 1);
      }
      if k: nat :| DiffersAt(a, b, k) {
        assert k > 0;
        assert a[1..][..k - 1] == a[..k][1..] && b[1..][..k - 1] == b[..k][1..];
        assert DiffersAt(a[1..], b[1..], k - 1);
      }
    } else {
      assert b != "" && (a == "" || a[0] < b[0]) ==> DiffersAt(a, b, 0);
      if k: nat :| DiffersAt(a, b, k) && k > 0 {
        assert a[..k][0] == b[..k][0];
      }
    }
  }

  ghost predicate DiffersAt(a: string, b: string, k: nat) {
    k <= |a| && k < |b| && a[..k] == b[..k] && (k == |a| || a[k] < b[k])
  }

  lemma {:induction false} LessIsOrder(a: string, b: string, c: string)
    ensures !Less(a, a)
    ensures a != b ==> Less(a, b) || Less(b, a)
    ensures Less(a, b) && Less(b, c) ==> Less(a, c)
  {
    if a != "" && b != "" && c != "" {
      LessIsOrder(a[1..], b[1..], c[1..]);
      assert a == [a[0]] + a[1..] && b == [b[0]] + b[1..];
    } else if a != "" && b != "" {
      LessIsOrder(a[1..], b[1..], "");
      assert a == [a[0]] + a[1..] && b == [b[0]] + b[1..];
    } else if a != "" {
      LessIsOrder(a[1..], "", "");
    }
  }

  /** The devices as a list, sorted by name. */
  ghost predicate Lists(list: seq<Device>, devices: map<string, string>) {
    && (forall i, j | 0 <= i < j < |list| :: Less(list[i].name, list[j].name))
    && (forall i | 0 <= i < |list| :: list[i].name in devices && devices[list[i].name] == list[i].band)
    && (forall name | name in devices :: Device(name, devices[name]) in list)
  }

  /** There is one such list. */
  lemma {:induction false} ListIsUnique(a: seq<Device>, b: seq<Device>, devices: map<string, string>)
    requires Lists(a, devices) && Lists(b, devices)
    ensures a == b
    decreases |a|
  {
    if a == [] {
      assert forall name :: name !in devices;
    } else {
      assert Device(a[0].name, devices[a[0].name]) in b;
      FirstIsSame(a, b, devices);
      FirstIsSame(b, a, devices);
      LessIsOrder(a[0].name, b[0].name, a[0].name);
      var rest := devices - {a[0].name};
      DropFirst(a, devices);
      DropFirst(b, devices);
      ListIsUnique(a[1..], b[1..], rest);
      assert a == [a[0]] + a[1..] && b == [b[0]] + b[1..];
    }
  }

  lemma FirstIsSame(a: seq<Device>, b: seq<Device>, devices: map<string, string>)
    requires Lists(a, devices) && Lists(b, devices) && a != [] && b != []
    ensures a[0] == b[0] || Less(b[0].name, a[0].name)
  {
    hide Less;
    assert Device(a[0].name, devices[a[0].name]) in b;
    var j :| 0 <= j < |b| && b[j] == a[0];
    if j > 0 {
      assert Less(b[0].name, b[j].name);
    }
  }

  lemma DropFirst(list: seq<Device>, devices: map<string, string>)
    requires Lists(list, devices) && list != []
    ensures Lists(list[1..], devices - {list[0].name})
  {
    hide Less;
    var rest := list[1..];
    forall i, j | 0 <= i < j < |rest| ensures Less(rest[i].name, rest[j].name) {
      assert rest[i] == list[i + 1] && rest[j] == list[j + 1];
    }
    forall i | 0 <= i < |rest| ensures rest[i].name != list[0].name && rest[i].name in devices
        && devices[rest[i].name] == rest[i].band {
      assert rest[i] == list[i + 1] && Less(list[0].name, list[i + 1].name);
      LessIsOrder(list[0].name, list[0].name, list[0].name);
    }
    forall name | name in devices && name != list[0].name ensures Device(name, devices[name]) in rest {
      var j :| 0 <= j < |list| && list[j] == Device(name, devices[name]);
      assert rest[j - 1] == list[j];
    }
  }

  /** `list` holds the devices that the lines describe, sorted by name. */
  ghost predicate Detected(lines: seq<string>, list: seq<Device>) {
    exists devices :: Describes(Facts(lines), devices) && Lists(list, devices)
  }

  /** detectWifiDevices on the lines of `uci show wireless`; the sort picks the least name left. */
  method Detect(lines: seq<string>) returns (list: seq<Device>)
    ensures Detected(lines, list)
  {
    hide Less, Describes, ParseLine;
    var found := Collect(lines);
    list := [];
    var rest := found.Keys;
    while rest != {}
      invariant rest <= found.Keys
      invariant forall i, j | 0 <= i < j < |list| :: Less(list[i].name, list[j].name)
      invariant forall i | 0 <= i < |list| ::
                  list[i].name in found && list[i].name !in rest && found[list[i].name] == list[i].band
      invariant forall name | name in found && name !in rest :: Device(name, found[name]) in list
      invariant forall i, name | 0 <= i < |list| && name in rest :: Less(list[i].name, name)
      decreases rest
    {
      var least := Least(rest);
      rest := rest - {least};
      list := list + [Device(least, found[least])];
    }
  }

  method Least(names: set<string>) returns (least: string)
    requires names != {}
    ensures least in names && forall name | name in names && name != least :: Less(least, name)
  {
    hide Less;
    least :| least in names;
    var rest := names - {least};
    while rest != {}
      invariant rest <= names && least in names && least !in rest
      invariant forall name | name in names && name !in rest && name != least :: Less(least, name)
      decreases rest
    {
      var name :| name in rest;
      rest := rest - {name};
      LessIsOrder(least, name, least);
      if Less(name, least) {
        forall other | other in names && other !in rest && other != name ensures Less(name, other) {
          LessIsOrder(name, least, other);
        }
        least := name;
      }
    }
  }

  /** The detected list is the same for every order of the lines when no device is ambiguous. */
  lemma ListIgnoresOrder(lines: seq<string>, order: seq<string>, list: seq<Device>, list': seq<Device>)
    requires Unambiguous(Facts(lines)) && Permutes(lines, order)
    requires Detected(lines, list) && Detected(order, list')
    ensures list == list'
  {
    hide Less, Describes, Unambiguous, Lists, ParseLine;
    OrderIndependentIff(lines);
    var d :| Describes(Facts(lines), d) && Lists(list, d);
    var d' :| Describes(Facts(order), d') && Lists(list', d');
    ListIsUnique(list, list', d);
  }

  // ---------- Targets and their sections ----------

  ghost predicate NoneOf(list: seq<Device>, band: string) {
    forall i | 0 <= i < |list| :: list[i].band != band
  }

  /** The lists of radios the guest network can be set up on: at most one radio of each known band, 2.4 GHz
      first, or radios none of which has a known band. */
  ghost predicate Targets(out: seq<Device>) {
    || (|out| == 1 && (out[0].band == "2g" || out[0].band == "5g"))
    || (|out| == 2 && out[0].band == "2g" && out[1].band == "5g")
    || (NoneOf(out, "2g") && NoneOf(out, "5g"))
  }

  function Names(text: string): seq<string> {
    Split(text, ',')
  }

  /** guestRadioTargets: `wanted` is the override from the environment, `devices` what was detected. */
  method GuestTargets(wanted: string, devices: seq<Device>) returns (out: seq<Device>)
    ensures Targets(out) && out != []
    ensures devices == [] && Trim(wanted) == "" ==> out == [Device("radio0", "unknown")]
    ensures Trim(wanted) == "" ==> devices == [] || forall i | 0 <= i < |out| :: out[i] in devices
    ensures Trim(wanted) == "" && devices != [] ==>
              && (NoneOf(out, "2g") <==> NoneOf(devices, "2g")) && (NoneOf(out, "5g") <==> NoneOf(devices, "5g"))
              && (NoneOf(devices, "2g") && NoneOf(devices, "5g") ==> out == devices)
  {
    BandNames();
    var v := Trim(wanted);
    if v != "" {
      out := Override(v);
      if out != [] {
        return;
      }
    }
    if devices == [] {
      return [Device("radio0", "unknown")];
    }
    out := OnePerBand(devices);
    if out == [] {
      return devices;
    }
  }

  lemma BandNames()
    ensures "2g" != "5g" && "unknown" != "2g" && "unknown" != "5g"
  {
    assert "2g"[0] == '2' && "5g"[0] == '5' && "unknown"[0] == 'u';
  }

  method Override(v: string) returns (out: seq<Device>)
    ensures NoneOf(out, "2g") && NoneOf(out, "5g")
  {
    hide Split;
    BandNames();
    var parts := Names(v);
    out := [];
    for i := 0 to |parts|
      invariant NoneOf(out, "2g") && NoneOf(out, "5g")
    {
      var p := Trim(parts[i]);
      if p != "" {
        out := out + [Device(p, "unknown")];
      }
    }
  }

  method OnePerBand(devices: seq<Device>) returns (out: seq<Device>)
    ensures Targets(out)
    ensures out == [] <==> NoneOf(devices, "2g") && NoneOf(devices, "5g")
    ensures forall i | 0 <= i < |out| :: out[i] in devices
    ensures (NoneOf(out, "2g") <==> NoneOf(devices, "2g")) && (NoneOf(out, "5g") <==> NoneOf(devices, "5g"))
  {
    BandNames();
    var g2, g5: seq<Device> := [], [];
    for i := 0 to |devices|
      invariant forall k | 0 <= k < |g2| :: g2[k] in devices && g2[k].band == "2g"
      invariant forall k | 0 <= k < |g5| :: g5[k] in devices && g5[k].band == "5g"
      invariant g2 == [] <==> forall k | 0 <= k < i :: devices[k].band != "2g"
      invariant g5 == [] <==> forall k | 0 <= k < i :: devices[k].band != "5g"
    {
      if devices[i].band == "2g" {
        g2 := g2 + [devices[i]];
      } else if devices[i].band == "5g" {
        g5 := g5 + [devices[i]];
      }
    }
    out := (if g2 != [] then [g2[0]] else []) + (if g5 != [] then [g5[0]] else []);
    assert g2 != [] ==> out[0] == g2[0];
    assert g5 != [] ==> out[|out| - 1] == g5[0];
  }

  /** The section that buildGuestWifiUCI configures for radio number `i`. */
  function Section(i: nat, band: string): string {
    if band == "5g" then "guest5"
    else if i == 0 then "guest24"
    else if band == "2g" then "guest" + Itoa(i)
    else "guest_r" + Itoa(i)
  }

  /** The loop of buildGuestWifiUCI, as far as it names sections. */
  method NameSections(radios: seq<Device>) returns (sections: seq<string>)
    ensures |sections| == |radios| && forall i | 0 <= i < |radios| :: sections[i] == Section(i, radios[i].band)
  {
    hide Itoa;
    BandNames();
    sections := [];
    for i := 0 to |radios|
      invariant |sections| == i && forall k | 0 <= k < i :: sections[k] == Section(k, radios[k].band)
    {
      var r := radios[i];
      var sec := "guest24";
      if i > 0 {
        if r.band == "5g" {
          sec := "guest5";
        } else {
          sec := "guest" + Itoa(i);
        }
      } else if r.band == "5g" {
        sec := "guest5";
      }
      if i > 0 && r.band != "5g" && r.band != "2g" {
        sec := "guest_r" + Itoa(i);
      }
      sections := sections + [sec];
    }
  }

  lemma ItoaInjective(i: nat, j: nat)
    ensures Itoa(i) == Itoa(j) <==> i == j
  {
    ItoaValue(i);
    ItoaValue(j);
  }

  lemma Tail(tag: string, s: string, t: string)
    ensures tag + s == tag + t <==> s == t
  {
    assert (tag + s)[|tag|..] == s && (tag + t)[|tag|..] == t;
  }

  /** A section name is `guest` and then "5", "24", the number, or "_r" and the number. */
  function Suffix(i: nat, band: string): string {
    if band == "5g" then "5" else if i == 0 then "24" else if band == "2g" then Itoa(i) else "_r" + Itoa(i)
  }

  lemma SectionSuffix(i: nat, band: string)
    ensures Section(i, band) == "guest" + Suffix(i, band)
    ensures Itoa(5) == "5" && Itoa(24) == "24"
    ensures band != "5g" && i > 0 && band != "2g" ==> Suffix(i, band)[0] == '_'
    ensures band == "5g" || i == 0 || band == "2g" ==> IsDigit(Suffix(i, band)[0])
  {
    assert "guest" + ("_r" + Itoa(i)) == "guest_r" + Itoa(i);
    assert Itoa(2) == "2";
  }

  /** Two radios share a section exactly in these cases. */
  lemma SectionsCollideIff(i: nat, a: string, j: nat, b: string)
    requires i < j
    ensures Section(i, a) == Section(j, b) <==>
            || (a == "5g" && b == "5g")
            || (a == "5g" && b == "2g" && j == 5)
            || (a == "2g" && i == 5 && b == "5g")
            || (a != "5g" && i == 0 && b == "2g" && j == 24)
  {
    BandNames();
    SectionSuffix(i, a);
    SectionSuffix(j, b);
    Tail("guest", Suffix(i, a), Suffix(j, b));
    Tail("_r", Itoa(i), Itoa(j));
    ItoaInjective(i, j);
    ItoaInjective(i, 5);
    ItoaInjective(j, 5);
    ItoaInjective(j, 24);
    assert "24" != "5" by { assert |"24"| == 2 && |"5"| == 1; }
  }

  /** Every radio that can be a target gets a section of its own. */
  lemma SectionsAreDistinct(out: seq<Device>, i: nat, j: nat)
    requires Targets(out) && i < j < |out|
    ensures Section(i, out[i].band) != Section(j, out[j].band)
  {
    BandNames();
    SectionsCollideIff(i, out[i].band, j, out[j].band);
  }
}
