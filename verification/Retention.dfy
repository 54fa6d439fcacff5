/** Trimming the recording buffer when it outgrows its limit (nvrTrimTmp). */
module Retention {
  import opened Collections
  import opened ExchangeSort

  /** A recording: its path, modification time and size. */
  datatype Rec = Rec(path: string, mod: int, size: nat)

  const MIB: nat := 1024 * 1024

  /** nvrMaxBytes: the limit is the configured one where that makes sense. */
  function MaxBytes(mb: int): (bytes: nat)
    ensures bytes == (1024 * 1024) * if 1 <= mb <= 4096 then mb else if mb <= 0 then 24 else 4096
  {
    var m := if mb <= 0 then 24 else mb;
    (if m > 4096 then 4096 else m) * MIB
  }

  function Sum(recs: seq<Rec>): nat {
    if recs == [] then 0 else recs[0].size + Sum(recs[1..])
  }

  lemma {:induction false} SumConcat(a: seq<Rec>, b: seq<Rec>)
    ensures Sum(a + b) == Sum(a) + Sum(b)
  {
    if a == [] {
      assert a + b == b;
    } else {
      assert (a + b)[1..] == a[1..] + b;
      SumConcat(a[1..], b);
    }
  }

  lemma SumCons(r: Rec, rest: seq<Rec>)
    ensures Sum([r] + rest) == r.size + Sum(rest)
  {
    assert ([r] + rest)[1..] == rest;
  }

  lemma SumWithout(b: seq<Rec>, j: nat)
    requires j < |b|
    ensures Sum(b) == b[j].size + Sum(Without(b, j))
  {
    var before, after := b[..j], b[j + 1..];
    SumConcat(before, after);
    SumConcat(before, [b[j]] + after);
    SumCons(b[j], after);
    assert before + ([b[j]] + after) == b;
  }

  /** Sorting does not change the total. */
  lemma {:induction false} SumOfPermutation(a: seq<Rec>, b: seq<Rec>)
    requires multiset(a) == multiset(b)
    ensures Sum(a) == Sum(b)
    decreases |a|
  {
    if a == [] {
      assert |multiset(b)| == 0;
    } else {
      assert a[0] in multiset(b);
      var j :| 0 <= j < |b| && b[j] == a[0];
      WithoutPermutes(a, 0);
      WithoutPermutes(b, j);
      SumOfPermutation(Without(a, 0), Without(b, j));
      SumWithout(a, 0);
      SumWithout(b, j);
    }
  }

  ghost predicate DistinctPaths(recs: seq<Rec>) {
    forall i, j | 0 <= i < j < |recs| :: recs[i].path != recs[j].path
  }

  ghost predicate Lists(recs: seq<Rec>, disk: map<string, Rec>) {
    && DistinctPaths(recs)
    && forall i | 0 <= i < |recs| :: recs[i].path in disk && disk[recs[i].path] == recs[i]
  }

  ghost predicate ListsAll(recs: seq<Rec>, disk: map<string, Rec>) {
    && Lists(recs, disk)
    && forall p | p in disk :: disk[p] in recs
  }

  class Buffer {
    /** Every recording under the buffer's root, by path. */
    var disk: map<string, Rec>
    /** Walking and removing may fail. */
    var faulty: bool

    ghost predicate Valid()
      reads this
    {
      forall p | p in disk :: disk[p].path == p
    }

    constructor ()
      ensures Valid() && disk == map[]
    {
      disk, faulty := map[], false;
    }

    method Walk() returns (seen: seq<Rec>)
      requires Valid()
      ensures Lists(seen, disk)
      ensures forall x :: multiset(seen)[x] <= 1
      ensures !faulty ==> ListsAll(seen, disk)
    {
      seen := [];
      var rest := disk.Keys;
      while rest != {}
        invariant rest <= disk.Keys
        invariant Lists(seen, disk)
        invariant forall i | 0 <= i < |seen| :: seen[i].path !in rest
        invariant forall x :: multiset(seen)[x] <= 1
        invariant !faulty ==> forall p | p in disk && p !in rest :: disk[p] in seen
        decreases rest
      {
        var p :| p in rest;
        rest := rest - {p};
        var readable: bool := true;
        if faulty {
          readable := *;
        }
        if readable {
          assert disk[p] !in seen;
          seen := seen + [disk[p]];
        }
      }
    }

    /** Removes the oldest recordings until the total is at most 80% of the limit.  `order` is the list of
        recordings seen, oldest first; `cut` is how many of them were to go, `kept` which of those could
        not be removed. */
    method Trim(limit: nat) returns (ghost order: seq<Rec>, ghost cut: nat, ghost kept: set<string>)
      requires Valid()
      modifies this`disk
      ensures Valid()
      ensures ListsOrPart(order, old(disk), old(faulty))
      ensures cut <= |order|
      ensures Sum(order) <= limit ==> disk == old(disk) && cut == 0
      // above the limit: the shortest run of oldest recordings that brings the total to 80% goes
      ensures Sum(order) > limit ==>
                && SortedBy(order, (r: Rec) => r.mod)
                && Sum(order[cut..]) <= limit * 8 / 10
                && forall j | 0 <= j < cut :: Sum(order[j..]) > limit * 8 / 10
      // and nothing else goes
      ensures Remaining(old(disk), disk, order, cut, kept)
      ensures !faulty ==> kept == {} && ListsAll(order[cut..], disk)
    {
      var files := Walk();
      order, cut, kept := files, 0, {};
      var total := 0;
      for i := 0 to |files|
        invariant total == Sum(files[..i]) && disk == old(disk)
      {
        SumConcat(files[..i], [files[i]]);
        assert files[..i + 1] == files[..i] + [files[i]];
        total := total + files[i].size;
      }
      assert files[..|files|] == files;
      if total <= limit {
        assert order[cut..] == files;
        return;
      }
      var a := new Rec[|files|](i requires 0 <= i < |files| => files[i]);
      assert a[..] == files;
      Sort(a, (r: Rec) => r.mod);
      var sorted := a[..];
      SortedLists(files, sorted, disk);
      SumOfPermutation(files, sorted);
      order := sorted;
      cut, kept := RemoveOldest(sorted, limit, total);
    }

    ghost predicate ListsOrPart(order: seq<Rec>, was: map<string, Rec>, part: bool) {
      Lists(order, was) && (!part ==> ListsAll(order, was))
    }

    method Remove(path: string) returns (removed: bool)
      requires Valid()
      modifies this`disk
      ensures Valid()
      ensures disk == if removed then old(disk) - {path} else old(disk)
      ensures !faulty ==> removed
    {
      removed := true;
      if faulty {
        removed := *;
      }
      if removed {
        disk := disk - {path};
      }
    }

    /** The removal loop. */
    method RemoveOldest(sorted: seq<Rec>, limit: nat, sum: nat) returns (ghost cut: nat, ghost kept: set<string>)
      requires Valid() && Lists(sorted, disk) && sum == Sum(sorted)
      modifies this`disk
      ensures Valid()
      ensures cut <= |sorted|
      ensures Sum(sorted[cut..]) <= limit * 8 / 10
      ensures forall j | 0 <= j < cut :: Sum(sorted[j..]) > limit * 8 / 10
      ensures Remaining(old(disk), disk, sorted, cut, kept)
      ensures !faulty ==> kept == {}
      ensures !faulty && ListsAll(sorted, old(disk)) ==> ListsAll(sorted[cut..], disk)
    {
      hide Sum, Lists, ListsAll, Remaining;
      assert sorted[0..] == sorted;
      var total := sum;
      var i := 0;
      kept := {};
      NoneRemoved(disk, sorted);
      while i < |sorted| && total > limit * 8 / 10
        invariant 0 <= i <= |sorted|
        invariant Valid()
        invariant total == Sum(sorted[i..])
        invariant forall j | 0 <= j < i :: Sum(sorted[j..]) > limit * 8 / 10
        invariant Remaining(old(disk), disk, sorted, i, kept)
        invariant kept <= set j | 0 <= j < i :: sorted[j].path
        invariant !faulty ==> kept == {}
      {
        ghost var before := disk;
        var removed := Remove(sorted[i].path);
        RemainingStep(old(disk), before, disk, sorted, i, kept, removed);
        kept := if removed then kept else kept + {sorted[i].path};
        SumCons(sorted[i], sorted[i + 1..]);
        assert sorted[i..] == [sorted[i]] + sorted[i + 1..];
        total := total - sorted[i].size;
        i := i + 1;
      }
      cut := i;
      if i == |sorted| {
        SumEmpty(sorted[i..]);
      }
      if !faulty && ListsAll(sorted, old(disk)) {
        RestLists(sorted, old(disk), disk, cut);
      }
    }
  }

  /** What is left of `was` once the first `cut` recordings went, those in `kept` excepted. */
  ghost predicate Remaining(was: map<string, Rec>, disk: map<string, Rec>, sorted: seq<Rec>, cut: nat,
      kept: set<string>)
    requires cut <= |sorted|
  {
    && (forall p :: p in disk <==> p in was && (p in kept || forall j | 0 <= j < cut :: sorted[j].path != p))
    && (forall p | p in disk :: disk[p] == was[p])
  }

  lemma SumEmpty(recs: seq<Rec>)
    requires |recs| == 0
    ensures Sum(recs) == 0
  {}

  lemma NoneRemoved(disk: map<string, Rec>, sorted: seq<Rec>)
    ensures Remaining(disk, disk, sorted, 0, {})
  {}

  lemma RemainingStep(was: map<string, Rec>, before: map<string, Rec>, disk: map<string, Rec>, sorted: seq<Rec>, i: nat,
      kept: set<string>, removed: bool)
    requires i < |sorted| && Lists(sorted, was)
    requires Remaining(was, before, sorted, i, kept)
    requires disk == if removed then before - {sorted[i].path} else before
    requires kept <= set j | 0 <= j < i :: sorted[j].path
    ensures Remaining(was, disk, sorted, i + 1, if removed then kept else kept + {sorted[i].path})
  {
  }

  lemma RestLists(sorted: seq<Rec>, was: map<string, Rec>, disk: map<string, Rec>, cut: nat)
    requires cut <= |sorted| && ListsAll(sorted, was)
    requires forall p | p in was :: was[p].path == p
    requires Remaining(was, disk, sorted, cut, {})
    ensures ListsAll(sorted[cut..], disk)
  {
    var rest := sorted[cut..];
    forall i | 0 <= i < |rest| ensures rest[i].path in disk && disk[rest[i].path] == rest[i] {
      assert rest[i] == sorted[cut + i];
    }
    forall i, j | 0 <= i < j < |rest| ensures rest[i].path != rest[j].path {
      assert rest[i] == sorted[cut + i] && rest[j] == sorted[cut + j];
    }
    forall p | p in disk ensures disk[p] in rest {
      assert was[p] in sorted;
      var j :| 0 <= j < |sorted| && sorted[j] == was[p];
      assert sorted[j].path == p;
      assert rest[j - cut] == sorted[j];
    }
  }

  lemma SortedLists(files: seq<Rec>, sorted: seq<Rec>, disk: map<string, Rec>)
    requires Lists(files, disk) && multiset(sorted) == multiset(files)
    requires forall x :: multiset(files)[x] <= 1
    ensures Lists(sorted, disk)
    ensures ListsAll(files, disk) ==> ListsAll(sorted, disk)
  {
    forall i | 0 <= i < |sorted| ensures sorted[i].path in disk && disk[sorted[i].path] == sorted[i] {
      assert sorted[i] in multiset(sorted);
      assert sorted[i] in files;
    }
    forall i, j | 0 <= i < j < |sorted| ensures sorted[i].path != sorted[j].path {
      TwiceInMultiset(sorted, i, j);
    }
    forall x | x in files ensures x in sorted {
      assert x in multiset(files);
    }
  }
}
