/** The string operations of Go's standard library that the agent's readers and writers are made of. */
module Text {
  /** unicode.IsSpace. */
  predicate IsSpace(c: char) {
    var n := c as int;
    9 <= n <= 13 || n == 0x20 || n == 0x85 || n == 0xA0 || n == 0x1680 || 0x2000 <= n <= 0x200a
    || n == 0x2028 || n == 0x2029 || n == 0x202f || n == 0x205f || n == 0x3000
  }

  function TrimLeft(s: string): (r: string)
    ensures |r| <= |s|
    ensures r != [] ==> !IsSpace(r[0])
  {
    if s != [] && IsSpace(s[0]) then TrimLeft(s[1..]) else s
  }

  lemma {:induction false} TrimLeftIsSuffix(s: string)
    ensures TrimLeft(s) == s[|s| - |TrimLeft(s)|..]
  {
    if s != [] && IsSpace(s[0]) {
      TrimLeftIsSuffix(s[1..]);
    }
  }

  function TrimRight(s: string): (r: string)
    ensures r <= s
    ensures r != [] ==> !IsSpace(r[|r| - 1])
  {
    if s != [] && IsSpace(s[|s| - 1]) then TrimRight(s[..|s| - 1]) else s
  }

  /** strings.TrimSpace. */
  function Trim(s: string): string {
    TrimRight(TrimLeft(s))
  }

  predicate Trimmed(s: string) {
    s == [] || (!IsSpace(s[0]) && !IsSpace(s[|s| - 1]))
  }

  lemma TrimIsTrimmed(s: string)
    ensures Trimmed(Trim(s))
    ensures Trimmed(s) ==> Trim(s) == s
    ensures forall c | c in Trim(s) :: c in s
  {
    TrimLeftIsSuffix(s);
  }

  /** Of the ASCII characters, these are spaces. */
  lemma AsciiSpaces(c: char)
    requires c as int < 128
    ensures IsSpace(c) <==> c == ' ' || '\t' <= c <= '\r'
  {}

  /** What trimming leaves: `mid` of spaces, `mid`, spaces, where `mid` is empty or starts and ends otherwise. */
  lemma TrimOf(left: string, mid: string, right: string)
    requires (forall c | c in left :: IsSpace(c)) && (forall c | c in right :: IsSpace(c))
    requires mid == "" || (!IsSpace(mid[0]) && !IsSpace(mid[|mid| - 1]))
    ensures Trim(left + mid + right) == mid
  {
    TrimLeftOf(left, mid + right);
    assert left + mid + right == left + (mid + right);
    if mid == "" {
      assert mid + right == right;
      TrimLeftOf(right, "");
      assert right + "" == right;
    } else {
      assert (mid + right)[0] == mid[0];
      TrimRightOf(mid, right);
    }
  }

  lemma {:induction false} TrimLeftOf(left: string, rest: string)
    requires forall c | c in left :: IsSpace(c)
    ensures TrimLeft(left + rest) == TrimLeft(rest)
  {
    if left == "" {
      assert left + rest == rest;
    } else {
      assert (left + rest)[1..] == left[1..] + rest;
      TrimLeftOf(left[1..], rest);
    }
  }

  lemma {:induction false} TrimRightOf(rest: string, right: string)
    requires forall c | c in right :: IsSpace(c)
    ensures TrimRight(rest + right) == TrimRight(rest)
  {
    if right == "" {
      assert rest + right == rest;
    } else {
      var last := |right| - 1;
      assert right == right[..last] + [right[last]];
      assert (rest + right)[..|rest + right| - 1] == rest + right[..last];
      TrimRightOf(rest, right[..last]);
    }
  }

  /** Every string is of that form. */
  lemma TrimSplits(s: string) returns (left: string, right: string)
    ensures s == left + Trim(s) + right
    ensures (forall c | c in left :: IsSpace(c)) && (forall c | c in right :: IsSpace(c))
  {
    hide TrimLeft, TrimRight, IsSpace;
    TrimLeftIsSuffix(s);
    var t := TrimLeft(s);
    left, right := s[..|s| - |t|], t[|TrimRight(t)|..];
    CutLeft(s);
    CutRight(t);
    assert s == left + t && t == TrimRight(t) + right;
  }

  lemma {:induction false} CutLeft(s: string)
    ensures forall c | c in s[..|s| - |TrimLeft(s)|] :: IsSpace(c)
  {
    if s != "" && IsSpace(s[0]) {
      CutLeft(s[1..]);
      var cut := |s| - |TrimLeft(s)|;
      assert s[..cut] == [s[0]] + s[1..][..cut - 1];
    }
  }

  lemma {:induction false} CutRight(s: string)
    ensures forall c | c in s[|TrimRight(s)|..] :: IsSpace(c)
  {
    if s != "" && IsSpace(s[|s| - 1]) {
      var shorter := s[..|s| - 1];
      CutRight(shorter);
      assert s[|TrimRight(s)|..] == shorter[|TrimRight(shorter)|..] + [s[|s| - 1]];
    }
  }

  predicate HasPrefix(s: string, p: string) {
    p <= s
  }

  /** strings.Contains. */
  predicate Contains(s: string, t: string) {
    HasPrefix(s, t) || (s != "" && Contains(s[1..], t))
  }

  predicate HasSuffix(s: string, p: string) {
    |p| <= |s| && s[|s| - |p|..] == p
  }

  /** strings.Split on one character: never empty. */
  function Split(s: string, sep: char): (parts: seq<string>)
    ensures |parts| > 0
    ensures forall i | 0 <= i < |parts| :: sep !in parts[i]
  {
    if s == [] then [""]
    else
      var rest := Split(s[1..], sep);
      if s[0] == sep then [""] + rest else [[s[0]] + rest[0]] + rest[1..]
  }

  lemma {:induction false} SplitNone(s: string, sep: char)
    requires sep !in s
    ensures Split(s, sep) == [s]
  {
    if s != [] {
      SplitNone(s[1..], sep);
      assert [s[0]] + s[1..] == s;
    }
  }

  /** Splitting at a separator splits both sides. */
  lemma {:induction false} SplitAt(a: string, sep: char, b: string)
    ensures Split(a + [sep] + b, sep) == Split(a, sep) + Split(b, sep)
  {
    var s := a + [sep] + b;
    if a == [] {
      assert s[1..] == b;
    } else {
      assert s[1..] == a[1..] + [sep] + b;
      SplitAt(a[1..], sep, b);
    }
  }

  /** strings.IndexByte. */
  function IndexOf(s: string, c: char): (i: int)
    ensures -1 <= i < |s|
    ensures i == -1 <==> c !in s
    ensures i >= 0 ==> s[i] == c && forall k | 0 <= k < i :: s[k] != c
  {
    if s == [] then -1
    else if s[0] == c then 0
    else
      var i := IndexOf(s[1..], c);
      if i < 0 then -1 else i + 1
  }

  lemma IndexUnique(s: string, c: char, i: nat)
    requires i < |s| && s[i] == c && c !in s[..i]
    ensures IndexOf(s, c) == i
  {
    forall k | 0 <= k < i ensures s[k] != c {
      assert s[..i][k] == s[k];
    }
  }

  /** The parts, joined again, are the whole. */
  lemma {:induction false} SplitIsWhole(s: string, sep: char)
    ensures Join(Split(s, sep), sep) == s
  {
    if s != "" {
      SplitIsWhole(s[1..], sep);
      var rest := Split(s[1..], sep);
      if s[0] == sep {
        assert ([""] + rest)[1..] == rest;
        assert [sep] + s[1..] == s;
      } else {
        var first := [s[0]] + rest[0];
        assert ([first] + rest[1..])[1..] == rest[1..];
        assert [s[0]] + s[1..] == s;
        if |rest| > 1 {
          assert [s[0]] + (rest[0] + [sep] + Join(rest[1..], sep)) == first + [sep] + Join(rest[1..], sep);
        }
      }
    }
  }

  function Digit(n: nat): char
    requires n < 10
  {
    ['0', '1', '2', '3', '4', '5', '6', '7', '8', '9'][n]
  }

  predicate IsDigit(c: char) {
    '0' <= c <= '9'
  }

  /** strconv.Itoa. */
  function Itoa(n: nat): (s: string)
    ensures s != [] && forall c | c in s :: IsDigit(c)
    ensures s == "0" <==> n == 0
    ensures n > 0 ==> s[0] != '0'
  {
    if n < 10 then [Digit(n)] else Itoa(n / 10) + [Digit(n % 10)]
  }

  function DigitValue(c: char): nat
    requires IsDigit(c)
  {
    c as int - '0' as int
  }

  function Value(s: string): nat
    requires forall c | c in s :: IsDigit(c)
  {
    if s == [] then 0 else 10 * Value(s[..|s| - 1]) + DigitValue(s[|s| - 1])
  }

  lemma {:induction false} ItoaValue(n: nat)
    ensures Value(Itoa(n)) == n
  {
    if n >= 10 {
      ItoaValue(n / 10);
      assert Itoa(n)[..|Itoa(n)| - 1] == Itoa(n / 10);
    }
  }

  /** strings.Join with a one-character separator. */
  function Join(parts: seq<string>, sep: char): string {
    if parts == [] then []
    else if |parts| == 1 then parts[0]
    else parts[0] + [sep] + Join(parts[1..], sep)
  }

  /** Splitting what was joined gives the parts back. */
  lemma {:induction false} SplitJoin(parts: seq<string>, sep: char)
    requires parts != [] && forall i | 0 <= i < |parts| :: sep !in parts[i]
    ensures Split(Join(parts, sep), sep) == parts
  {
    SplitNone(parts[0], sep);
    if |parts| > 1 {
      SplitJoin(parts[1..], sep);
      SplitAt(parts[0], sep, Join(parts[1..], sep));
    }
  }

  lemma {:induction false} TrimLeftKeeps(s: string, c: char)
    requires !IsSpace(c) && c in s
    ensures c in TrimLeft(s)
  {
    if IsSpace(s[0]) {
      TrimLeftKeeps(s[1..], c);
    }
  }

  lemma {:induction false} TrimRightKeeps(s: string, c: char)
    requires !IsSpace(c) && c in s
    ensures c in TrimRight(s)
  {
    if IsSpace(s[|s| - 1]) {
      TrimRightKeeps(s[..|s| - 1], c);
    }
  }

  /** Trimming removes nothing but spaces. */
  lemma TrimKeeps(s: string, c: char)
    requires !IsSpace(c) && c in s
    ensures c in Trim(s)
  {
    TrimLeftKeeps(s, c);
    TrimRightKeeps(TrimLeft(s), c);
  }

  /** strings.Fields, with the word read so far. */
  function FieldsFrom(s: string, word: string): (fields: seq<string>)
    requires forall c | c in word :: !IsSpace(c)
    ensures forall i | 0 <= i < |fields| :: fields[i] != "" && forall c | c in fields[i] :: !IsSpace(c)
  {
    var done := if word == [] then [] else [word];
    if s == [] then done
    else if IsSpace(s[0]) then done + FieldsFrom(s[1..], [])
    else FieldsFrom(s[1..], word + [s[0]])
  }

  function Fields(s: string): seq<string> {
    FieldsFrom(s, [])
  }

  lemma {:induction false} FieldsWord(a: string, rest: string, word: string)
    requires forall c | c in a + word :: !IsSpace(c)
    ensures FieldsFrom(a + rest, word) == FieldsFrom(rest, word + a)
    decreases |a|
  {
    if a == [] {
      assert a + rest == rest && word + a == word;
    } else {
      assert a[0] in a + word;
      assert (a + rest)[1..] == a[1..] + rest;
      assert word + [a[0]] + a[1..] == word + a;
      forall c | c in a[1..] + (word + [a[0]]) ensures !IsSpace(c) {
        assert c in a + word;
      }
      FieldsWord(a[1..], rest, word + [a[0]]);
    }
  }

  /** The fields of a line are its words. */
  lemma FieldsOf(word: string, c: char, rest: string)
    requires word != "" && (forall x | x in word :: !IsSpace(x)) && IsSpace(c)
    ensures Fields("") == [] && Fields(word) == [word]
    ensures Fields([c] + rest) == Fields(rest)
    ensures Fields(word + [c] + rest) == [word] + Fields(rest)
  {
    assert word + "" == word && "" + word == word;
    FieldsWord(word, "", "");
    assert ([c] + rest)[1..] == rest;
    assert word + [c] + rest == word + ([c] + rest);
    FieldsWord(word, [c] + rest, "");
  }

  lemma TwoFields(a: string, b: string)
    requires a != [] && b != [] && forall c | c in a + b :: !IsSpace(c)
    ensures Fields(a + [' '] + b) == [a, b]
  {
    forall c | c in a ensures !IsSpace(c) { assert c in a + b; }
    forall c | c in b ensures !IsSpace(c) { assert c in a + b; }
    assert a + [' '] + b == a + ([' '] + b);
    assert a + [] == a && b + [] == b;
    FieldsWord(a, [' '] + b, []);
    assert ([' '] + b)[1..] == b;
    FieldsWord(b, [], []);
    assert [] + a == a && [] + b == b;
  }
}
