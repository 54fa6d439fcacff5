/** Client material and the directory that is staged with it (copyAgentMTLSExtras and the three writes
    after it in installEdgeMTLSMaterial). */
module StagedTree {
  import opened FileSystem

  datatype Material = Material(ca: Bytes, cert: Bytes, key: Bytes)

  /** The certificate library: the serial of material that passes every check, None otherwise. */
  datatype Pki = Pki(identity: Material -> Option<int>)

  const RESERVED: set<string> := {"ca.crt", "client.crt", "client.key"}
  const OWNER_ONLY: nat := 0x180 // 0o600

  function ReadFile(entries: map<string, Node>, name: string): Option<Bytes> {
    if name in entries && entries[name].File? then Some(entries[name].data) else None
  }

  function ReadMaterial(node: Node): Option<Material> {
    if !node.Dir? then None else
    match (ReadFile(node.entries, "ca.crt"), ReadFile(node.entries, "client.crt"), ReadFile(node.entries, "client.key"))
    case (Some(ca), Some(cert), Some(key)) => Some(Material(ca, cert, key))
    case _ => None
  }

  /** The client identity a directory stands for. */
  function Identity(pki: Pki, node: Node): Option<int> {
    var m := ReadMaterial(node);
    if m.Some? then pki.identity(m.value) else None
  }

  /** Removing part of a directory can lose its identity but never turn it into another one. */
  lemma RemnantIdentity(pki: Pki, whole: Node, left: Node)
    requires Remnant(whole, left)
    ensures Identity(pki, left) in {None, Identity(pki, whole)}
  {
    if whole != left {
      forall name | name in left.entries
        ensures ReadFile(left.entries, name) == ReadFile(whole.entries, name)
      {
        assert Remnant(whole.entries[name], left.entries[name]);
      }
    }
  }

  /** What is carried over from a directory: everything, except the three files at its root. */
  function Extras(entries: map<string, Node>, root: bool): map<string, Node> {
    if root then entries - RESERVED else entries
  }

  predicate Copyable(node: Node)
    decreases node
  {
    match node
    case File(_, _) => true
    case Dir(entries) => forall name | name in entries :: Copyable(entries[name])
    case _ => false
  }

  predicate CopyableEntries(entries: map<string, Node>, root: bool) {
    forall name | name in Extras(entries, root) :: Copyable(entries[name])
  }

  /** copyAgentMTLSExtras.  The copy is returned instead of growing below a destination path. */
  method CopyExtras<P>(fs: Disk<P>, source: Option<Node>, root: bool)
    returns (ok: bool, copied: map<string, Node>)
    modifies fs`crashed
    ensures old(fs.crashed) ==> fs.crashed
    ensures fs.crashed ==> !ok
    ensures ok && source.None? ==> copied == map[]
    ensures ok && source.Some? ==>
              && source.value.Dir?
              && CopyableEntries(source.value.entries, root)
              && copied == Extras(source.value.entries, root)
    ensures !fs.faulty && !old(fs.crashed) ==>
              && !fs.crashed
              && ok == (source.Some? ==> source.value.Dir? && CopyableEntries(source.value.entries, root))
    decreases if source.Some? then source.value else Special
  {
    copied := map[];
    ok := fs.Touch(); // lstat
    if !ok || source.None? {
      return;
    }
    if !source.value.Dir? {
      return false, copied;
    }
    ok := fs.Touch(); // readdir
    if !ok {
      return;
    }
    var entries := source.value.entries;
    var rest := entries.Keys;
    while rest != {}
      invariant rest <= entries.Keys
      invariant ok && !fs.crashed
      invariant copied == Extras(entries, root) - rest
      invariant forall name | name in copied :: Copyable(entries[name])
      decreases rest
    {
      var name :| name in rest;
      rest := rest - {name};
      if root && name in RESERVED {
        continue;
      }
      var node := entries[name];
      ok := fs.Touch(); // lstat of the entry
      if !ok {
        return;
      }
      match node {
        case Dir(below) =>
          ok := fs.Touch(); // mkdir
          if !ok {
            return;
          }
          var sub: map<string, Node>;
          ok, sub := CopyExtras(fs, Some(node), false);
          if !ok {
            return;
          }
          copied := copied[name := Dir(sub)];
        case File(_, _) =>
          ok := fs.Touch(); // read, durable write
          if !ok {
            return;
          }
          copied := copied[name := node];
        case _ =>
          assert name in Extras(entries, root) && !Copyable(entries[name]);
          return false, copied;
      }
    }
  }

  /** Only a file, with whatever content and mode, or a directory. */
  predicate FileOrDir(o: Option<Node>) {
    o.Some? ==> o.value.File? || o.value.Dir?
  }

  ghost predicate Ordinary(node: Node) {
    forall path: seq<string> :: FileOrDir(Lookup(node, path))
  }

  /** What can be copied: trees in which every path leads to a file or a directory. */
  lemma {:induction false} CopyableIff(node: Node)
    ensures Copyable(node) <==> Ordinary(node)
    decreases node
  {
    assert Ordinary(node) ==> FileOrDir(Lookup(node, []));
    if node.Dir? {
      forall name | name in node.entries ensures Copyable(node.entries[name]) <==> Ordinary(node.entries[name]) {
        CopyableIff(node.entries[name]);
      }
      OrdinaryDir(node);
    } else if node.File? {
      assert Ordinary(node);
    }
  }

  lemma OrdinaryDir(node: Node)
    requires node.Dir?
    ensures Ordinary(node) <==> forall name | name in node.entries :: Ordinary(node.entries[name])
  {
    if Ordinary(node) {
      forall name | name in node.entries ensures Ordinary(node.entries[name]) {
        forall path: seq<string> ensures FileOrDir(Lookup(node.entries[name], path)) {
          LookupBelow(node, name, path);
          assert FileOrDir(Lookup(node, [name] + path));
        }
      }
    }
    if forall name | name in node.entries :: Ordinary(node.entries[name]) {
      forall path: seq<string> ensures FileOrDir(Lookup(node, path)) {
        if path != [] && path[0] in node.entries {
          assert FileOrDir(Lookup(node.entries[path[0]], path[1..]));
        }
      }
    }
  }

  lemma LookupBelow(node: Node, name: string, path: seq<string>)
    requires node.Dir? && name in node.entries
    ensures Lookup(node, [name] + path) == Lookup(node.entries[name], path)
  {
    assert ([name] + path)[1..] == path;
  }

  /** Nothing but files and directories, except at and below the three names that are replaced. */
  ghost predicate OrdinaryBelow(entries: map<string, Node>) {
    forall path: seq<string> |
      path != [] && path[0] != "ca.crt" && path[0] != "client.crt" && path[0] != "client.key" ::
        FileOrDir(Lookup(Dir(entries), path))
  }

  lemma CopyableEntriesIff(entries: map<string, Node>)
    ensures CopyableEntries(entries, true) <==> OrdinaryBelow(entries)
  {
    hide Copyable;
    forall name | name in entries ensures Copyable(entries[name]) <==> Ordinary(entries[name]) {
      CopyableIff(entries[name]);
    }
    if OrdinaryBelow(entries) {
      forall name | name in Extras(entries, true) ensures Copyable(entries[name]) {
        forall path: seq<string> ensures FileOrDir(Lookup(entries[name], path)) {
          LookupBelow(Dir(entries), name, path);
          assert FileOrDir(Lookup(Dir(entries), [name] + path));
        }
      }
    }
    if CopyableEntries(entries, true) {
      forall path: seq<string> | path != [] && path[0] != "ca.crt" && path[0] != "client.crt" && path[0] != "client.key"
        ensures FileOrDir(Lookup(Dir(entries), path))
      {
        if path[0] in entries {
          assert path[0] in Extras(entries, true);
          assert FileOrDir(Lookup(entries[path[0]], path[1..]));
        }
      }
    }
  }

  /** A directory stands for the identity of exactly the three files at its root, if they are files. */
  lemma IdentityIff(pki: Pki, node: Node, id: int)
    ensures Identity(pki, node) == Some(id) <==>
            && node.Dir?
            && "ca.crt" in node.entries && node.entries["ca.crt"].File?
            && "client.crt" in node.entries && node.entries["client.crt"].File?
            && "client.key" in node.entries && node.entries["client.key"].File?
            && pki.identity(Material(node.entries["ca.crt"].data, node.entries["client.crt"].data,
                 node.entries["client.key"].data)) == Some(id)
  {}

  /** The directory that takes the place of one holding `entries`. */
  function Staged(entries: map<string, Node>, mat: Material): map<string, Node> {
    Extras(entries, true)[
      "ca.crt" := File(mat.ca, OWNER_ONLY)][
      "client.crt" := File(mat.cert, OWNER_ONLY)][
      "client.key" := File(mat.key, OWNER_ONLY)]
  }

  function Lookup(node: Node, path: seq<string>): Option<Node> {
    if path == [] then Some(node)
    else if node.Dir? && path[0] in node.entries then Lookup(node.entries[path[0]], path[1..])
    else None
  }

  /** Only the three root files differ; files of the same names further down are kept. */
  lemma StagedIsOverlay(entries: map<string, Node>, mat: Material, path: seq<string>)
    requires path != []
    ensures path[0] != "ca.crt" && path[0] != "client.crt" && path[0] != "client.key" ==>
              Lookup(Dir(Staged(entries, mat)), path) == Lookup(Dir(entries), path)
    ensures path == ["ca.crt"] ==> Lookup(Dir(Staged(entries, mat)), path) == Some(File(mat.ca, 6 * 64))
    ensures path == ["client.crt"] ==> Lookup(Dir(Staged(entries, mat)), path) == Some(File(mat.cert, 6 * 64))
    ensures path == ["client.key"] ==> Lookup(Dir(Staged(entries, mat)), path) == Some(File(mat.key, 6 * 64))
    ensures ReadMaterial(Dir(Staged(entries, mat))) == Some(mat)
    ensures CopyableEntries(entries, true) ==> Copyable(Dir(Staged(entries, mat)))
  {
    var staged := Staged(entries, mat);
    assert path[0] in staged ==> Lookup(Dir(staged), path) == Lookup(staged[path[0]], path[1..]);
    assert path[0] in entries ==> Lookup(Dir(entries), path) == Lookup(entries[path[0]], path[1..]);
    assert path[0] in RESERVED && |path| == 1 ==> Lookup(staged[path[0]], path[1..]) == Some(staged[path[0]]);
  }
}
