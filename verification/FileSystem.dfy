/** A disk whose calls may fail and whose power may go away between any two calls.

    Every call that changes the disk chooses, without any promise, between succeeding, failing and
    losing power.  Losing power sets `crashed`; from then on the disk is frozen and every call reports
    failure, so the disk a method leaves behind is also the disk that a crash inside that method leaves
    behind.  With `faulty` switched off, calls fail only for a reason that is on the disk. */
module FileSystem {
  datatype Option<+T> = None | Some(value: T)

  newtype Byte = b: int | 0 <= b < 256
  type Bytes = seq<Byte>

  /** What a path names.  `perm` holds permission bits only. */
  datatype Node =
    | File(data: Bytes, perm: nat)
    | Dir(entries: map<string, Node>)
    | Symlink(target: string)
    | Special

  /** What lstat reports. */
  datatype Kind = Missing | RealDir | NotADir | Unknown

  /** `left` may be what a recursive removal of `whole` leaves when it stops early. */
  ghost predicate Remnant(whole: Node, left: Node)
    decreases whole
  {
    || whole == left
    || (&& whole.Dir? && left.Dir?
        && left.entries.Keys <= whole.entries.Keys
        && forall name | name in left.entries :: Remnant(whole.entries[name], left.entries[name]))
  }

  function Get<P(==)>(m: map<P, Node>, p: P): Option<Node> {
    if p in m then Some(m[p]) else None
  }

  /** rename(2) as Go's os.Rename uses it: a directory is never replaced and never replaces. */
  predicate CanRename<P(==)>(m: map<P, Node>, a: P, b: P) {
    a in m && (b in m ==> !m[a].Dir? && !m[b].Dir?)
  }

  function Renamed<P(==)>(m: map<P, Node>, a: P, b: P): map<P, Node>
    requires a in m
  {
    (m - {a})[b := m[a]]
  }

  class Disk<P(==)> {
    var m: map<P, Node>
    var crashed: bool
    var faulty: bool

    constructor (m: map<P, Node>)
      ensures this.m == m && !crashed && !faulty
    {
      this.m, crashed, faulty := m, false, false;
    }

    /** Power comes back; `faults` says whether calls may go wrong until the next boot. */
    method Boot(faults: bool)
      modifies this`crashed, this`faulty
      ensures !crashed && faulty == faults
    {
      crashed, faulty := false, faults;
    }

    /** A call with no effect the model keeps: fsync, chmod, creating a parent directory. */
    method Touch() returns (ok: bool)
      modifies this`crashed
      ensures old(crashed) ==> crashed
      ensures crashed ==> !ok
      ensures !faulty && !old(crashed) ==> ok
    {
      ok := !crashed;
      if ok && faulty {
        ok, crashed := *, *;
        ok := ok && !crashed;
      }
    }

    method Rename(a: P, b: P) returns (ok: bool)
      requires a != b
      modifies this`m, this`crashed
      ensures old(crashed) ==> crashed && m == old(m)
      ensures crashed ==> !ok
      ensures m == old(m) || (CanRename(old(m), a, b) && m == Renamed(old(m), a, b))
      ensures ok ==> CanRename(old(m), a, b) && m == Renamed(old(m), a, b)
      ensures !ok && !crashed ==> m == old(m)
      ensures !faulty && !old(crashed) ==> !crashed && ok == CanRename(old(m), a, b)
    {
      if crashed || !CanRename(m, a, b) {
        return false;
      }
      var happens: bool := true;
      if faulty {
        happens, crashed := *, *;
      }
      if happens {
        m := Renamed(m, a, b);
      }
      ok := happens && !crashed;
    }

    /** os.RemoveAll: nothing to remove is success; stopping early may leave part of a tree. */
    method RemoveAll(p: P) returns (ok: bool)
      modifies this`m, this`crashed
      ensures old(crashed) ==> crashed && m == old(m)
      ensures crashed ==> !ok
      ensures m == old(m) - {p} || (p in old(m) && p in m && m == old(m)[p := m[p]] && Remnant(old(m)[p], m[p]))
      ensures ok ==> m == old(m) - {p}
      ensures !faulty && !old(crashed) ==> ok && !crashed
    {
      if crashed {
        assert p in m ==> m == m[p := m[p]];
        assert p !in m ==> m == m - {p};
        return false;
      }
      if p !in m {
        assert m == m - {p};
        return true;
      }
      var done: bool := true;
      if faulty {
        done, crashed := *, *;
      }
      if done {
        m := m - {p};
      } else {
        var left: Node := Prune(m[p]);
        m := m[p := left];
      }
      ok := done && !crashed;
    }

    /** Creates `p`, which must not be there. */
    method Create(p: P, node: Node) returns (ok: bool)
      modifies this`m, this`crashed
      ensures old(crashed) ==> crashed && m == old(m)
      ensures crashed ==> !ok
      ensures m == old(m) || (p !in old(m) && m == old(m)[p := node])
      ensures ok ==> p !in old(m) && m == old(m)[p := node]
      ensures !ok && !crashed ==> m == old(m)
      ensures !faulty && !old(crashed) ==> !crashed && ok == (p !in old(m))
    {
      if crashed || p in m {
        return false;
      }
      var happens: bool := true;
      if faulty {
        happens, crashed := *, *;
      }
      if happens {
        m := m[p := node];
      }
      ok := happens && !crashed;
    }

    method Mkdir(p: P) returns (ok: bool)
      modifies this`m, this`crashed
      ensures old(crashed) ==> crashed && m == old(m)
      ensures crashed ==> !ok
      ensures m == old(m) || (p !in old(m) && m == old(m)[p := Dir(map[])])
      ensures ok ==> p !in old(m) && m == old(m)[p := Dir(map[])]
      ensures !ok && !crashed ==> m == old(m)
      ensures !faulty && !old(crashed) ==> !crashed && ok == (p !in old(m))
    {
      ok := Create(p, Dir(map[]));
    }

    /** Creates or overwrites what `p` names; a write that stops early leaves some other content. */
    method Write(p: P, node: Node) returns (ok: bool)
      modifies this`m, this`crashed
      ensures old(crashed) ==> crashed && m == old(m)
      ensures crashed ==> !ok
      ensures m == old(m) || (p in m && m == old(m)[p := m[p]])
      ensures ok ==> m == old(m)[p := node]
      ensures !faulty && !old(crashed) ==> ok && !crashed
    {
      if crashed {
        return false;
      }
      var done: bool := true;
      var written := node;
      if faulty {
        done, crashed := *, *;
        if !done {
          var partial: Node := *;
          written := partial;
        }
      }
      m := m[p := written];
      ok := done && !crashed;
    }

    /** os.Remove. */
    method Remove(p: P) returns (ok: bool)
      modifies this`m, this`crashed
      ensures old(crashed) ==> crashed && m == old(m)
      ensures crashed ==> !ok
      ensures m == old(m) || m == old(m) - {p}
      ensures ok ==> p in old(m) && m == old(m) - {p}
      ensures !ok && !crashed ==> m == old(m)
      ensures !faulty && !old(crashed) ==>
                !crashed && ok == (p in old(m) && (old(m)[p].Dir? ==> old(m)[p].entries == map[]))
    {
      if crashed || p !in m || (m[p].Dir? && m[p].entries != map[]) {
        return false;
      }
      var happens: bool := true;
      if faulty {
        happens, crashed := *, *;
      }
      if happens {
        m := m - {p};
      }
      ok := happens && !crashed;
    }

    method Chmod(p: P, perm: nat) returns (ok: bool)
      modifies this`m, this`crashed
      ensures old(crashed) ==> crashed && m == old(m)
      ensures crashed ==> !ok
      ensures m == old(m) || (p in old(m) && old(m)[p].File? && m == old(m)[p := old(m)[p].(perm := perm)])
      ensures ok ==> p in old(m) && old(m)[p].File? && m == old(m)[p := old(m)[p].(perm := perm)]
      ensures !ok && !crashed ==> m == old(m)
      ensures !faulty && !old(crashed) ==> !crashed && ok == (p in old(m) && old(m)[p].File?)
    {
      if crashed || p !in m || !m[p].File? {
        return false;
      }
      var happens: bool := true;
      if faulty {
        happens, crashed := *, *;
      }
      if happens {
        m := m[p := m[p].(perm := perm)];
      }
      ok := happens && !crashed;
    }

    /** Reads a whole file, or nothing. */
    method Read(p: P) returns (data: Option<Bytes>)
      ensures data.Some? ==> p in m && m[p].File? && m[p].data == data.value && !crashed
      ensures !faulty && !crashed ==> data.Some? == (p in m && m[p].File?)
    {
      var broken: bool := crashed;
      if faulty {
        broken := *;
      }
      data := if broken || crashed || p !in m || !m[p].File? then None else Some(m[p].data);
    }

    /** lstat: changes nothing; may report `Unknown`. */
    method Lstat(p: P) returns (k: Kind)
      ensures k == Missing ==> p !in m
      ensures k == RealDir ==> p in m && m[p].Dir?
      ensures k == NotADir ==> p in m && !m[p].Dir?
      ensures crashed ==> k == Unknown
      ensures !faulty && !crashed ==> k != Unknown
    {
      var broken: bool := false;
      if faulty {
        broken := *;
      }
      if crashed || broken {
        k := Unknown;
      } else if p !in m {
        k := Missing;
      } else {
        k := if m[p].Dir? then RealDir else NotADir;
      }
    }
  }

  /** Removes an arbitrary part of a tree. */
  method Prune(whole: Node) returns (left: Node)
    ensures Remnant(whole, left)
    decreases whole
  {
    left := whole;
    if whole.Dir? {
      var rest, kept: map<string, Node> := whole.entries.Keys, map[];
      while rest != {}
        invariant rest <= whole.entries.Keys && kept.Keys <= whole.entries.Keys
        invariant forall name | name in kept :: Remnant(whole.entries[name], kept[name])
        decreases rest
      {
        var name :| name in rest;
        rest := rest - {name};
        var keep: bool := *;
        if keep {
          var sub := Prune(whole.entries[name]);
          kept := kept[name := sub];
        }
      }
      left := Dir(kept);
    }
  }
}
