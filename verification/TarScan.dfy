/** The scan that admits an archive for extraction (tarMembersSafeOpts). */
module TarScan {
  import opened Text

  const MAX_MEMBERS := 10000
  const MAX_FILE := 0x200_0000   // 32 MiB
  const MAX_TOTAL := 0x1000_0000 // 256 MiB

  const REGULAR := '0'
  const REGULAR_OLD := '\U{0000}'
  const LINK := '1'
  const SYMLINK := '2'
  const DIRECTORY := '5'
  const PAX := 'x'
  const PAX_GLOBAL := 'g'

  datatype Member = Member(typeflag: char, name: string, size: int)
  datatype Options = Options(requirePrefix: string, allowEmpty: bool)

  // ---------- Names ----------

  /** The components of path.Clean for a relative path, given those cleaned so far. */
  function CleanParts(parts: seq<string>, done: seq<string>): seq<string>
    decreases |parts|
  {
    if parts == [] then done
    else if parts[0] == "" || parts[0] == "." then CleanParts(parts[1..], done)
    else if parts[0] == ".." && done != [] && done[|done| - 1] != ".." then CleanParts(parts[1..], done[..|done| - 1])
    else CleanParts(parts[1..], done + [parts[0]])
  }

  /** path.Clean of a path that does not start with a slash. */
  function Clean(name: string): string {
    var parts := CleanParts(Split(name, '/'), []);
    if parts == [] then "." else Join(parts, '/')
  }

  /** Where a member lands when the components of its name are followed from the directory `at`. */
  function Resolve(at: seq<string>, parts: seq<string>): seq<string>
    decreases |parts|
  {
    if parts == [] then at
    else if parts[0] == "" || parts[0] == "." then Resolve(at, parts[1..])
    else if parts[0] == ".." then Resolve(if at == [] then at else at[..|at| - 1], parts[1..])
    else Resolve(at + [parts[0]], parts[1..])
  }

  predicate Meta(m: Member) {
    m.typeflag == PAX || m.typeflag == PAX_GLOBAL
  }

  predicate IsFile(m: Member) {
    m.typeflag == REGULAR || m.typeflag == REGULAR_OLD
  }

  predicate Upwards(name: string) {
    ".." in Split(name, '/')
  }

  predicate UnderPrefix(name: string, requirePrefix: string) {
    requirePrefix == "" ||
    var pref := TrimSlash(requirePrefix);
    Clean(name) == pref || HasPrefix(Clean(name), pref + "/")
  }

  /** strings.TrimSuffix(s, "/"). */
  function TrimSlash(s: string): string {
    if HasSuffix(s, "/") then s[..|s| - 1] else s
  }

  // ---------- What is accepted ----------

  predicate NameAllowed(name: string, opts: Options) {
    && name != "" && name[0] != '/' && '\\' !in name
    && !Upwards(name)
    && UnderPrefix(name, opts.requirePrefix)
  }

  predicate Allowed(m: Member, opts: Options) {
    && NameAllowed(m.name, opts)
    && (m.typeflag == DIRECTORY || (IsFile(m) && 0 <= m.size <= MAX_FILE))
  }

  function TotalSize(members: seq<Member>): int {
    if members == [] then 0
    else
      var last := members[|members| - 1];
      TotalSize(members[..|members| - 1]) + if !Meta(last) && IsFile(last) then last.size else 0
  }

  ghost predicate AllAllowed(members: seq<Member>, opts: Options) {
    forall i | 0 <= i < |members| && !Meta(members[i]) :: Allowed(members[i], opts)
  }

  function Files(members: seq<Member>): nat {
    if members == [] then 0
    else
      var last := members[|members| - 1];
      Files(members[..|members| - 1]) + if !Meta(last) && IsFile(last) then 1 else 0
  }

  ghost predicate Admissible(members: seq<Member>, intact: bool, opts: Options) {
    && intact
    && |members| <= MAX_MEMBERS
    && AllAllowed(members, opts)
    && TotalSize(members) <= MAX_TOTAL
    && (opts.allowEmpty || Files(members) > 0)
  }

  // ---------- The same, spelled out ----------

  /** Relative, without backslash and without a component that goes up, and under the prefix if one is set. */
  ghost predicate NameFine(name: string, opts: Options) {
    && name != "" && name[0] != '/' && '\\' !in name && ".." !in Split(name, '/')
    && (opts.requirePrefix != "" ==> NamedUnder(name, TrimSlash(opts.requirePrefix)))
  }

  /** The components of the prefix come first in those of the name; the prefix "." is only met by names
      without any. */
  ghost predicate NamedUnder(name: string, pref: string) {
    if Resolve([], Split(name, '/')) == [] then pref == "." else Split(pref, '/') <= Resolve([], Split(name, '/'))
  }

  ghost predicate MemberFine(m: Member, opts: Options) {
    || m.typeflag == 'x' || m.typeflag == 'g'
    || (m.typeflag == '5' && NameFine(m.name, opts))
    || ((m.typeflag == '0' || m.typeflag as int == 0) && NameFine(m.name, opts) && 0 <= m.size <= 32 * 1024 * 1024)
  }

  function FileBytes(members: seq<Member>): int {
    if members == [] then 0
    else
      var last := members[|members| - 1];
      FileBytes(members[..|members| - 1]) + if last.typeflag == '0' || last.typeflag as int == 0 then last.size else 0
  }

  ghost predicate Accepted(members: seq<Member>, intact: bool, opts: Options) {
    && intact && |members| <= 10000
    && (forall i | 0 <= i < |members| :: MemberFine(members[i], opts))
    && FileBytes(members) <= 256 * 1024 * 1024
    && (opts.allowEmpty || exists i ::
          0 <= i < |members| && (members[i].typeflag == '0' || members[i].typeflag as int == 0))
  }

  lemma NameIff(name: string, opts: Options)
    ensures NameAllowed(name, opts) <==> NameFine(name, opts)
  {
    hide Split, Clean, Resolve, TrimSlash;
    if ".." !in Split(name, '/') && opts.requirePrefix != "" {
      UnderIff(name, TrimSlash(opts.requirePrefix));
    }
  }

  lemma UnderIff(name: string, pref: string)
    requires ".." !in Split(name, '/')
    ensures Clean(name) == pref || HasPrefix(Clean(name), pref + "/") <==> NamedUnder(name, pref)
  {
    hide Split, Resolve, CleanParts;
    var parts := Split(name, '/');
    NoUpwards(parts, []);
    var named := Real(parts);
    assert Resolve([], parts) == named && CleanParts(parts, []) == named;
    RealParts(parts);
    if named == [] {
      DotHasNoPrefix(pref);
    } else {
      SplitJoin(named, '/');
      if Clean(name) == pref || HasPrefix(Clean(name), pref + "/") {
        PrefixParts(Clean(name), pref);
      }
      if Split(pref, '/') <= named {
        PartsPrefix(named, pref);
      }
    }
  }

  lemma PartsPrefix(named: seq<string>, pref: string)
    requires Split(pref, '/') <= named
    ensures Join(named, '/') == pref || HasPrefix(Join(named, '/'), pref + "/")
  {
    SplitIsWhole(pref, '/');
    var k := |Split(pref, '/')|;
    if k < |named| {
      JoinConcat(named[..k], named[k..], '/');
      assert named == named[..k] + named[k..];
      assert named[..k] == Split(pref, '/');
      assert Join(named, '/') == pref + ['/'] + Join(named[k..], '/');
      assert (pref + "/") + Join(named[k..], '/') == pref + ['/'] + Join(named[k..], '/');
    } else {
      assert named == Split(pref, '/');
    }
  }

  lemma {:induction false} JoinConcat(a: seq<string>, b: seq<string>, sep: char)
    requires a != [] && b != []
    ensures Join(a + b, sep) == Join(a, sep) + [sep] + Join(b, sep)
  {
    if |a| == 1 {
      assert (a + b)[1..] == b;
    } else {
      assert (a + b)[1..] == a[1..] + b;
      JoinConcat(a[1..], b, sep);
    }
  }

  lemma {:induction false} SameCounts(members: seq<Member>)
    ensures TotalSize(members) == FileBytes(members)
    ensures Files(members) > 0 <==>
            exists i :: 0 <= i < |members| && (members[i].typeflag == '0' || members[i].typeflag as int == 0)
  {
    if members != [] {
      var init := members[..|members| - 1];
      SameCounts(init);
      if i :| 0 <= i < |members| && (members[i].typeflag == '0' || members[i].typeflag as int == 0) {
        assert i < |init| ==> init[i] == members[i];
      }
      if i :| 0 <= i < |init| && (init[i].typeflag == '0' || init[i].typeflag as int == 0) {
        assert members[i] == init[i];
      }
    }
  }

  lemma AdmissibleIff(members: seq<Member>, intact: bool, opts: Options)
    ensures Admissible(members, intact, opts) <==> Accepted(members, intact, opts)
  {
    hide NameAllowed, NameFine;
    SameCounts(members);
    forall i | 0 <= i < |members|
      ensures (Meta(members[i]) || Allowed(members[i], opts)) <==> MemberFine(members[i], opts)
    {
      NameIff(members[i].name, opts);
    }
  }

  /** The checks on a member's name. */
  method CheckName(name: string, opts: Options) returns (ok: bool)
    ensures ok <==> NameAllowed(name, opts)
    ensures ok <==> NameFine(name, opts)
  {
    NameIff(name, opts);
    hide NameFine;
    if name == "" || name[0] == '/' || '\\' in name {
      return false;
    }
    var clean := Clean(name);
    if clean == ".." || HasPrefix(clean, "../") {
      CleanStaysBelow(name);
      return false;
    }
    if Upwards(name) {
      return false;
    }
    if opts.requirePrefix != "" {
      var pref := TrimSlash(opts.requirePrefix);
      if clean != pref && !HasPrefix(clean, pref + "/") {
        return false;
      }
    }
    return true;
  }

  /** The scan; `intact` says that the archive ends after its last member instead of breaking off. */
  method Scan(members: seq<Member>, intact: bool, opts: Options) returns (ok: bool)
    ensures ok <==> Accepted(members, intact, opts)
  {
    hide NameAllowed, NameFine, Accepted;
    AdmissibleIff(members, intact, opts);
    var n, total, files := 0, 0, 0;
    while n < |members|
      invariant 0 <= n <= |members| && n <= MAX_MEMBERS
      invariant AllAllowed(members[..n], opts)
      invariant total == TotalSize(members[..n]) <= MAX_TOTAL
      invariant files == Files(members[..n])
    {
      var m := members[n];
      assert members[..n + 1][..n] == members[..n];
      n := n + 1;
      if n > MAX_MEMBERS {
        return false;
      }
      if Meta(m) {
        continue;
      }
      ghost var rejected := !Allowed(m, opts);
      assert rejected ==> !AllAllowed(members, opts);
      var named := CheckName(m.name, opts);
      if !named {
        return false;
      }
      if m.typeflag == SYMLINK || m.typeflag == LINK {
        return false;
      } else if IsFile(m) {
        files := files + 1;
        if m.size < 0 || m.size > MAX_FILE {
          return false;
        }
        total := total + m.size;
        if total > MAX_TOTAL {
          TotalGrows(members, n, opts);
          return false;
        }
      } else if m.typeflag != DIRECTORY {
        return false;
      }
    }
    assert members[..n] == members;
    ok := intact && (files > 0 || opts.allowEmpty);
  }

  lemma {:induction false} TotalGrows(members: seq<Member>, n: nat, opts: Options)
    requires n <= |members|
    ensures AllAllowed(members, opts) ==> TotalSize(members[..n]) <= TotalSize(members)
    decreases |members|
  {
    if n < |members| {
      var shorter := members[..|members| - 1];
      TotalGrows(shorter, n, opts);
      assert shorter[..n] == members[..n];
    } else {
      assert members[..n] == members;
    }
  }

  // ---------- What acceptance is worth ----------

  /** The components of a name that name something. */
  function Real(parts: seq<string>): seq<string> {
    if parts == [] then []
    else (if parts[0] == "" || parts[0] == "." then [] else [parts[0]]) + Real(parts[1..])
  }

  lemma {:induction false} NoUpwards(parts: seq<string>, at: seq<string>)
    requires ".." !in parts
    ensures Resolve(at, parts) == at + Real(parts)
    ensures CleanParts(parts, at) == at + Real(parts)
    decreases |parts|
  {
    if parts == [] {
      assert at + Real(parts) == at;
    } else if parts[0] == "" || parts[0] == "." {
      NoUpwards(parts[1..], at);
    } else {
      NoUpwards(parts[1..], at + [parts[0]]);
      assert at + [parts[0]] + Real(parts[1..]) == at + Real(parts);
    }
  }

  lemma {:induction false} RealParts(parts: seq<string>)
    ensures forall i | 0 <= i < |Real(parts)| :: Real(parts)[i] in parts && Real(parts)[i] != ""
              && Real(parts)[i] != "."
  {
    if parts != [] {
      RealParts(parts[1..]);
    }
  }

  lemma {:induction false} CleanFrom(parts: seq<string>, done: seq<string>)
    ensures forall x | x in CleanParts(parts, done) :: x in parts || x in done
    decreases |parts|
  {
    if parts == [] {
    } else if parts[0] == "" || parts[0] == "." {
      CleanFrom(parts[1..], done);
    } else if parts[0] == ".." && done != [] && done[|done| - 1] != ".." {
      CleanFrom(parts[1..], done[..|done| - 1]);
    } else {
      CleanFrom(parts[1..], done + [parts[0]]);
    }
  }

  /** The two checks on the cleaned name reject nothing that the check on the components lets through. */
  lemma CleanStaysBelow(name: string)
    ensures Clean(name) == ".." || HasPrefix(Clean(name), "../") ==> Upwards(name)
  {
    var parts := CleanParts(Split(name, '/'), []);
    CleanFrom(Split(name, '/'), []);
    if parts != [] && (Clean(name) == ".." || HasPrefix(Clean(name), "../")) {
      assert "../" == ".." + "/";
      PrefixParts(Clean(name), "..");
      SplitNone("..", '/');
      forall k | 0 <= k < |parts| ensures '/' !in parts[k] {
        assert parts[k] in Split(name, '/');
      }
      SplitJoin(parts, '/');
      assert parts[0] == "..";
    }
  }

  lemma DotHasNoPrefix(pref: string)
    ensures !HasPrefix(".", pref + "/")
  {
    assert (pref + "/")[|pref|] == '/';
  }

  /** Soundness: an allowed member lands below the destination, also with its first component stripped, and,
      when a prefix is required, below that prefix. */
  lemma AllowedLandsInside(m: Member, opts: Options, dest: seq<string>)
    requires Allowed(m, opts)
    ensures dest <= Resolve(dest, Split(m.name, '/'))
    ensures dest <= Resolve(dest, Split(m.name, '/')[1..])
    ensures opts.requirePrefix != "" && TrimSlash(opts.requirePrefix) != "." ==>
              dest + Split(TrimSlash(opts.requirePrefix), '/') <= Resolve(dest, Split(m.name, '/'))
    ensures m.typeflag != LINK && m.typeflag != SYMLINK
  {
    var parts := Split(m.name, '/');
    NoUpwards(parts, dest);
    NoUpwards(parts[1..], dest);
    NoUpwards(parts, []);
    var named := Real(parts);
    assert CleanParts(parts, []) == named;
    RealParts(parts);
    var pref := TrimSlash(opts.requirePrefix);
    if opts.requirePrefix != "" && pref != "." {
      DotHasNoPrefix(pref);
      if named != [] {
        SplitJoin(named, '/');
        PrefixParts(Clean(m.name), pref);
      }
    }
  }

  lemma PrefixParts(clean: string, pref: string)
    requires clean == pref || HasPrefix(clean, pref + "/")
    ensures Split(pref, '/') <= Split(clean, '/')
  {
    if clean != pref {
      var rest := clean[|pref| + 1..];
      assert clean == pref + ['/'] + rest;
      SplitAt(pref, '/', rest);
    }
  }

  /** The same for a member of an accepted archive. */
  lemma FineLandsInside(m: Member, opts: Options, dest: seq<string>)
    requires MemberFine(m, opts) && m.typeflag != 'x' && m.typeflag != 'g'
    ensures dest <= Resolve(dest, Split(m.name, '/')) && dest <= Resolve(dest, Split(m.name, '/')[1..])
    ensures opts.requirePrefix != "" && TrimSlash(opts.requirePrefix) != "." ==>
              dest + Split(TrimSlash(opts.requirePrefix), '/') <= Resolve(dest, Split(m.name, '/'))
  {
    hide NameAllowed, NameFine, Split, Resolve;
    NameIff(m.name, opts);
    AllowedLandsInside(m, opts, dest);
  }

  /** TrimSlash takes one slash off the end. */
  lemma TrimSlashIs(s: string)
    ensures TrimSlash(s + "/") == s
    ensures (s == "" || s[|s| - 1] != '/') ==> TrimSlash(s) == s
  {
    assert (s + "/")[|s|..] == "/";
    if HasSuffix(s, "/") {
      assert s[|s| - 1] == s[|s| - 1..][0];
    }
  }

  /** extractTarSafeOpts: tar is run only on an archive that was accepted, into a directory that could be made;
      `extracted` members are unpacked before it stops.  All of them land inside. */
  method Extract(members: seq<Member>, intact: bool, opts: Options, dest: seq<string>, strip: bool, made: bool,
      extracted: nat)
    returns (ok: bool, landed: seq<seq<string>>)
    ensures ok <==> Accepted(members, intact, opts) && made && extracted >= |members|
    ensures landed != [] ==> Accepted(members, intact, opts) && made
    ensures |landed| <= |members| && (ok ==> |landed| == |members|)
    ensures forall i | 0 <= i < |landed| :: LandsWell(members[i], opts, dest, strip, landed[i])
  {
    landed := [];
    ok := Scan(members, intact, opts);
    if !ok || !made {
      return false, landed;
    }
    var count := if extracted < |members| then extracted else |members|;
    for i := 0 to count
      invariant |landed| == i && forall j | 0 <= j < i :: LandsWell(members[j], opts, dest, strip, landed[j])
    {
      hide Split, Resolve, TrimSlash, NameAllowed, NameFine;
      var parts := Split(members[i].name, '/');
      if Meta(members[i]) {
        landed := landed + [dest];
      } else {
        FineLandsInside(members[i], opts, dest);
        landed := landed + [Resolve(dest, if strip then parts[1..] else parts)];
      }
    }
    ok := extracted >= |members|;
  }

  /** Inside the destination, and under the prefix if one is set and no component is stripped. */
  ghost predicate LandsWell(m: Member, opts: Options, dest: seq<string>, strip: bool, at: seq<string>) {
    && dest <= at
    && (m.typeflag != 'x' && m.typeflag != 'g' ==>
          && at == Resolve(dest, if strip then Split(m.name, '/')[1..] else Split(m.name, '/'))
          && (opts.requirePrefix != "" && TrimSlash(opts.requirePrefix) != "." && !strip ==>
                dest + Split(TrimSlash(opts.requirePrefix), '/') <= at))
  }
}
