/**
 What a path leads to, one component at a time, and which paths a call accepts.
 */
module ShizukuPaths {
  import opened Options
  import opened ShizukuDirectory
  import opened ShizukuTree
  import opened ShizukuUpdates

  /** A directory entry of this name, for this inode. */
  ghost predicate Names(ns: Nodes, d: nat, name: Name, n: nat) {
    d in ns && ns[d].kind == 2 && exists i :: 0 <= i < |ns[d].entries| && ns[d].entries[i].name == name && ns[d].entries[i].inode == n
  }

  /** The root is inode 1; a longer path leads to what the directory before its last component names so. */
  lemma ResolveIs(ns: Nodes, path: Path, name: Name, n: nat)
    requires TreeOk(ns)
    ensures Resolve(ns, []) == Some(1)
    ensures Resolve(ns, path + [name]) == Some(n) <==> Resolve(ns, path).Some? && Names(ns, Resolve(ns, path).value, name, n)
  {
    var longer := path + [name];
    assert longer[..|longer| - 1] == path;
    var d := Resolve(ns, path);
    if d.Some? && IsDir(ns, d.value) {
      assert DirOk(ns, d.value);
      FindIs(ns[d.value].entries, name, n);
    }
  }

  lemma FindIs(es: seq<Entry>, name: Name, n: nat)
    requires StrictlySorted(es)
    ensures Find(es, name) == Some(n) <==> exists i :: 0 <= i < |es| && es[i].name == name && es[i].inode == n
  {
    if Find(es, name).Some? {
      FindSound(es, name);
    }
    if i :| 0 <= i < |es| && es[i].name == name && es[i].inode == n {
      FindComplete(es, es[i]);
    }
  }

  /** What is seen at a path: a directory for kind 2, a file with its bytes for kind 1, nothing where nothing leads. */
  lemma ViewIs(ns: Nodes, path: Path)
    requires TreeOk(ns)
    ensures View(ns, path) == None <==> Resolve(ns, path) == None
    ensures Resolve(ns, path).Some? ==>
      var n := Resolve(ns, path).value;
      && n in ns && (ns[n].kind == 1 || ns[n].kind == 2)
      && View(ns, path) == Some(if ns[n].kind == 2 then Directory else File(ns[n].content))
    ensures View(ns, []) == Some(Directory)
  {
    if Resolve(ns, path).Some? {
      ResolvedIn(ns, path);
      assert NodeOk(ns, Resolve(ns, path).value);
    }
  }

  lemma ResolvedIn(ns: Nodes, path: Path)
    requires TreeOk(ns) && Resolve(ns, path).Some?
    ensures Resolve(ns, path).value in ns
  {
    if path != [] {
      var front, name := path[..|path| - 1], path[|path| - 1];
      assert path == front + [name];
      var d := Resolve(ns, front).value;
      assert DirOk(ns, d);
      FindSound(ns[d].entries, name);
    }
  }
}
