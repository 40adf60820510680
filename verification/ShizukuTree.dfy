/**
 The directory tree of one generation, as a map from inode numbers to what the
 inode's data chain holds, and the path map it denotes.
 */
module ShizukuTree {
  import opened Options
  import opened ByteStrings
  import opened ShizukuFormat
  import opened ShizukuDirectory

  /** One inode with its content and data blocks; `entries` is a directory's decoded content. */
  datatype Node = Node(kind: nat, parent: nat, content: seq<Byte>, entries: seq<Entry>,
                       blocks: seq<nat>, generation: nat)

  type Nodes = map<nat, Node>

  type Path = seq<Name>

  /** What a reader of the filesystem sees at a path. */
  datatype Item = Directory | File(bytes: seq<Byte>)

  predicate IsDir(ns: Nodes, d: nat) { d in ns && ns[d].kind == KIND_DIRECTORY }

  function Find(es: seq<Entry>, name: Name): Option<nat> {
    if es == [] then None
    else if es[0].name == name then Some(es[0].inode)
    else Find(es[1..], name)
  }

  /** Component-by-component lookup from the root. */
  function Resolve(ns: Nodes, path: Path): Option<nat> {
    if path == [] then Some(ROOT_INODE)
    else
      var d := Resolve(ns, path[..|path| - 1]);
      if d.None? || !IsDir(ns, d.value) then None
      else Find(ns[d.value].entries, path[|path| - 1])
  }

  function View(ns: Nodes, path: Path): Option<Item> {
    var n := Resolve(ns, path);
    if n.None? || n.value !in ns then None
    else if ns[n.value].kind == KIND_DIRECTORY then Some(Directory)
    else Some(File(ns[n.value].content))
  }

  ghost predicate Reachable(ns: Nodes, n: nat) {
    exists p: Path :: Resolve(ns, p) == Some(n)
  }

  predicate NodeOk(ns: Nodes, n: nat)
    requires n in ns
  {
    1 <= n < INODE_COUNT && ValidKind(ns[n].kind) && IsDir(ns, ns[n].parent)
  }

  ghost predicate NodesOk(ns: Nodes) {
    forall n {:trigger NodeOk(ns, n)} :: n in ns ==> NodeOk(ns, n)
  }

  ghost predicate RootOk(ns: Nodes) {
    IsDir(ns, ROOT_INODE) && ns[ROOT_INODE].parent == ROOT_INODE
  }

  /** A directory decodes, and its entries name existing children that point back at it. */
  ghost predicate DirOk(ns: Nodes, d: nat)
    requires d in ns
  {
    && StrictlySorted(ns[d].entries)
    && (forall e :: e in ns[d].entries ==>
          e.inode in ns && e.inode != ROOT_INODE && ns[e.inode].kind == e.kind && ns[e.inode].parent == d)
    && (forall e, f :: e in ns[d].entries && f in ns[d].entries && e.inode == f.inode ==> e == f)
  }

  ghost predicate LinksOk(ns: Nodes) {
    && NodesOk(ns) && RootOk(ns)
    && (forall d :: IsDir(ns, d) ==> DirOk(ns, d))
  }

  ghost predicate AllReachable(ns: Nodes) {
    forall n {:trigger Reachable(ns, n)} :: n in ns ==> Reachable(ns, n)
  }

  /** One rooted tree: every inode is reachable, and none is linked twice. */
  ghost predicate TreeOk(ns: Nodes) {
    LinksOk(ns) && AllReachable(ns)
  }

  lemma {:induction false} FindSound(es: seq<Entry>, name: Name)
    requires Find(es, name).Some?
    ensures exists e :: e in es && e.name == name && e.inode == Find(es, name).value
  {
    if es[0].name != name {
      FindSound(es[1..], name);
      var e :| e in es[1..] && e.name == name && e.inode == Find(es, name).value;
      assert e in es;
    }
  }

  lemma {:induction false} FindComplete(es: seq<Entry>, e: Entry)
    requires StrictlySorted(es) && e in es
    ensures Find(es, e.name) == Some(e.inode)
  {
    if es[0].name != e.name {
      assert e in es[1..];
      FindComplete(es[1..], e);
    } else {
      var j :| 0 <= j < |es| && es[j] == e;
      SortedNamesDistinct(es, 0, j);
    }
  }

  /** Lookup in one directory is exactly membership of an entry. */
  lemma FindIff(es: seq<Entry>, name: Name, n: nat)
    requires StrictlySorted(es)
    ensures Find(es, name) == Some(n) <==> exists e :: e in es && e.name == name && e.inode == n
  {
    if Find(es, name) == Some(n) {
      FindSound(es, name);
    }
    forall e | e in es && e.name == name && e.inode == n
      ensures Find(es, name) == Some(n)
    {
      FindComplete(es, e);
    }
  }

  /** The last step of a successful lookup is an entry of the parent directory. */
  lemma LastStep(ns: Nodes, p: Path) returns (d: nat, e: Entry)
    requires p != [] && Resolve(ns, p).Some?
    ensures Resolve(ns, p[..|p| - 1]) == Some(d) && IsDir(ns, d)
    ensures e in ns[d].entries && e.name == p[|p| - 1] && e.inode == Resolve(ns, p).value
  {
    d := Resolve(ns, p[..|p| - 1]).value;
    FindSound(ns[d].entries, p[|p| - 1]);
    e :| e in ns[d].entries && e.name == p[|p| - 1] && e.inode == Resolve(ns, p).value;
  }

  lemma {:induction false} ResolvedExists(ns: Nodes, p: Path)
    requires LinksOk(ns) && Resolve(ns, p).Some?
    ensures Resolve(ns, p).value in ns
    ensures p != [] ==> Resolve(ns, p).value != ROOT_INODE
  {
    if p != [] {
      var d, e := LastStep(ns, p);
    }
  }

  /** In one rooted tree no inode has two paths. */
  lemma {:induction false} PathsAreUnique(ns: Nodes, p: Path, q: Path)
    requires LinksOk(ns) && Resolve(ns, p).Some? && Resolve(ns, p) == Resolve(ns, q)
    ensures p == q
    decreases |p|
  {
    ResolvedExists(ns, p);
    ResolvedExists(ns, q);
    if p != [] && q != [] {
      var d, e := LastStep(ns, p);
      var d', e' := LastStep(ns, q);
      assert d == ns[e.inode].parent == d' && e == e';
      PathsAreUnique(ns, p[..|p| - 1], q[..|q| - 1]);
      assert p == p[..|p| - 1] + [e.name] && q == q[..|q| - 1] + [e.name];
    }
  }

  lemma SnocEqual(q: Path, a: Name, p: Path, b: Name)
    ensures q + [a] == p + [b] <==> q == p && a == b
  {
    if q + [a] == p + [b] {
      assert (p + [b])[..|p|] == p && (q + [a])[..|q|] == q;
      assert (p + [b])[|p|] == b && (q + [a])[|q|] == a;
    }
  }

  // ---- Replacing the content of a regular file ----

  ghost predicate Overwrites(ns: Nodes, n: nat, ns': Nodes) {
    && n in ns && ns[n].kind == KIND_FILE
    && n in ns' && ns'.Keys == ns.Keys
    && ns'[n].kind == KIND_FILE && ns'[n].parent == ns[n].parent
    && (forall m :: m in ns && m != n ==> ns'[m] == ns[m])
  }

  lemma {:induction false} OverwriteResolves(ns: Nodes, n: nat, ns': Nodes, q: Path)
    requires LinksOk(ns) && Overwrites(ns, n, ns')
    ensures Resolve(ns', q) == Resolve(ns, q)
  {
    if q != [] {
      OverwriteResolves(ns, n, ns', q[..|q| - 1]);
    }
  }

  lemma OverwriteKeepsDir(ns: Nodes, n: nat, ns': Nodes, d: nat)
    requires LinksOk(ns) && Overwrites(ns, n, ns') && IsDir(ns', d)
    ensures DirOk(ns', d)
  {
    hide StrictlySorted, NodesOk;
    assert IsDir(ns, d) && DirOk(ns, d) && ns'[d] == ns[d];
  }

  lemma OverwriteKeepsLinks(ns: Nodes, n: nat, ns': Nodes)
    requires LinksOk(ns) && Overwrites(ns, n, ns')
    ensures LinksOk(ns')
  {
    hide DirOk;
    forall m | m in ns' ensures NodeOk(ns', m) {
      assert NodeOk(ns, m);
    }
    forall d | IsDir(ns', d) ensures DirOk(ns', d) {
      OverwriteKeepsDir(ns, n, ns', d);
    }
  }

  lemma OverwriteTree(ns: Nodes, n: nat, ns': Nodes)
    requires TreeOk(ns) && Overwrites(ns, n, ns')
    ensures TreeOk(ns')
  {
    OverwriteKeepsLinks(ns, n, ns');
    forall m | m in ns' ensures Reachable(ns', m) {
      assert Reachable(ns, m);
      var p :| Resolve(ns, p) == Some(m);
      OverwriteResolves(ns, n, ns', p);
    }
  }

  /** Writing a file changes what is seen at its own path and nowhere else. */
  lemma OverwriteView(ns: Nodes, p: Path, n: nat, ns': Nodes, q: Path)
    requires LinksOk(ns) && Overwrites(ns, n, ns') && Resolve(ns, p) == Some(n)
    ensures View(ns', q) == if q == p then Some(File(ns'[n].content)) else View(ns, q)
  {
    OverwriteResolves(ns, n, ns', q);
    if Resolve(ns, q) == Some(n) {
      PathsAreUnique(ns, p, q);
    }
  }

  // ---- Linking a new inode into a directory ----

  ghost predicate Links(ns: Nodes, d: nat, e: Entry, ns': Nodes) {
    && IsDir(ns, d) && e.inode !in ns && 2 <= e.inode < INODE_COUNT && ValidKind(e.kind)
    && Find(ns[d].entries, e.name).None?
    && ns'.Keys == ns.Keys + {e.inode}
    && (forall m :: m in ns && m != d ==> ns'[m] == ns[m])
    && ns'[d].kind == KIND_DIRECTORY && ns'[d].parent == ns[d].parent
    && StrictlySorted(ns'[d].entries)
    && (forall f :: f in ns'[d].entries <==> f in ns[d].entries || f == e)
    && ns'[e.inode].kind == e.kind && ns'[e.inode].parent == d
    && (e.kind == KIND_DIRECTORY ==> ns'[e.inode].entries == [])
  }

  lemma LinkFind(ns: Nodes, d: nat, e: Entry, ns': Nodes, name: Name)
    requires LinksOk(ns) && Links(ns, d, e, ns')
    ensures Find(ns'[d].entries, name) == if name == e.name then Some(e.inode) else Find(ns[d].entries, name)
  {
    if name == e.name {
      FindIff(ns'[d].entries, name, e.inode);
    } else {
      match Find(ns[d].entries, name)
      case Some(n) =>
        FindIff(ns[d].entries, name, n);
        FindIff(ns'[d].entries, name, n);
      case None =>
        if Find(ns'[d].entries, name).Some? {
          FindSound(ns'[d].entries, name);
          var f :| f in ns'[d].entries && f.name == name;
          FindComplete(ns[d].entries, f);
        }
    }
  }

  lemma LinkIsNew(ns: Nodes, p: Path, d: nat, e: Entry, ns': Nodes)
    requires Links(ns, d, e, ns') && Resolve(ns, p) == Some(d)
    ensures Resolve(ns, p + [e.name]) == None
  {
    assert (p + [e.name])[..|p|] == p;
  }

  ghost predicate LinkSeen(ns: Nodes, p: Path, e: Entry, ns': Nodes, q: Path) {
    Resolve(ns', q) == if q == p + [e.name] then Some(e.inode) else Resolve(ns, q)
  }

  /** One further component, below a directory whose lookup is already known. */
  lemma LinkStep(ns: Nodes, p: Path, d: nat, e: Entry, ns': Nodes, q: Path, a: Name)
    requires LinksOk(ns) && Links(ns, d, e, ns') && Resolve(ns, p) == Some(d)
    requires LinkSeen(ns, p, e, ns', q)
    ensures LinkSeen(ns, p, e, ns', q + [a])
  {
    assert (q + [a])[..|q|] == q;
    SnocEqual(q, a, p, e.name);
    if q == p + [e.name] {
      LinkIsNew(ns, p, d, e, ns');
      assert q != p;
    } else if Resolve(ns, q).Some? {
      ResolvedExists(ns, q);
      if Resolve(ns, q) == Some(d) {
        PathsAreUnique(ns, p, q);
        LinkFind(ns, d, e, ns', a);
      }
    }
  }

  lemma {:induction false} LinkResolves(ns: Nodes, p: Path, d: nat, e: Entry, ns': Nodes, q: Path)
    requires LinksOk(ns) && Links(ns, d, e, ns') && Resolve(ns, p) == Some(d)
    ensures LinkSeen(ns, p, e, ns', q)
    decreases |q|
  {
    if q != [] {
      LinkResolves(ns, p, d, e, ns', q[..|q| - 1]);
      LinkStep(ns, p, d, e, ns', q[..|q| - 1], q[|q| - 1]);
      assert q == q[..|q| - 1] + [q[|q| - 1]];
    }
  }

  lemma LinkKeepsLinks(ns: Nodes, d: nat, e: Entry, ns': Nodes)
    requires LinksOk(ns) && Links(ns, d, e, ns')
    ensures LinksOk(ns')
  {
    hide DirOk, StrictlySorted, Find;
    forall m | m in ns' ensures NodeOk(ns', m) {
      assert m != e.inode ==> NodeOk(ns, m);
    }
    forall x | IsDir(ns', x) ensures DirOk(ns', x) {
      LinkKeepsDir(ns, d, e, ns', x);
    }
  }

  lemma LinkKeepsDir(ns: Nodes, d: nat, e: Entry, ns': Nodes, x: nat)
    requires LinksOk(ns) && Links(ns, d, e, ns') && IsDir(ns', x)
    ensures DirOk(ns', x)
  {
    hide NodesOk, Find;
    assert NodeOk(ns, d) by { LinkNode(ns, d); }
    if x != e.inode {
      assert IsDir(ns, x) && DirOk(ns, x);
    }
  }

  lemma LinkNode(ns: Nodes, d: nat)
    requires NodesOk(ns) && d in ns
    ensures NodeOk(ns, d)
  {
  }

  lemma LinkTree(ns: Nodes, p: Path, d: nat, e: Entry, ns': Nodes)
    requires TreeOk(ns) && Links(ns, d, e, ns') && Resolve(ns, p) == Some(d)
    ensures TreeOk(ns')
  {
    LinkKeepsLinks(ns, d, e, ns');
    forall m | m in ns' ensures Reachable(ns', m) {
      if m == e.inode {
        LinkResolves(ns, p, d, e, ns', p + [e.name]);
      } else {
        assert Reachable(ns, m);
        var q :| Resolve(ns, q) == Some(m);
        LinkResolves(ns, p, d, e, ns', q);
        LinkIsNew(ns, p, d, e, ns');
      }
    }
  }

  /** Linking makes exactly one new path visible. */
  lemma LinkView(ns: Nodes, p: Path, d: nat, e: Entry, ns': Nodes, q: Path)
    requires LinksOk(ns) && Links(ns, d, e, ns') && Resolve(ns, p) == Some(d)
    ensures View(ns', q) == if q == p + [e.name]
                            then Some(if e.kind == KIND_DIRECTORY then Directory else File(ns'[e.inode].content))
                            else View(ns, q)
  {
    LinkResolves(ns, p, d, e, ns', q);
    if q != p + [e.name] && Resolve(ns, q).Some? {
      ResolvedExists(ns, q);
    }
  }

  // ---- Unlinking a file or an empty directory ----

  ghost predicate Unlinks(ns: Nodes, d: nat, e: Entry, ns': Nodes) {
    && IsDir(ns, d) && e in ns[d].entries
    && (IsDir(ns, e.inode) ==> ns[e.inode].entries == [])
    && ns'.Keys == ns.Keys - {e.inode} && d in ns'
    && (forall m :: m in ns' && m != d ==> ns'[m] == ns[m])
    && ns'[d].kind == KIND_DIRECTORY && ns'[d].parent == ns[d].parent
    && StrictlySorted(ns'[d].entries)
    && (forall f :: f in ns'[d].entries <==> f in ns[d].entries && f.name != e.name)
  }

  lemma UnlinkFind(ns: Nodes, d: nat, e: Entry, ns': Nodes, name: Name)
    requires LinksOk(ns) && Unlinks(ns, d, e, ns')
    ensures Find(ns'[d].entries, name) == if name == e.name then None else Find(ns[d].entries, name)
  {
    if Find(ns'[d].entries, name).Some? {
      FindSound(ns'[d].entries, name);
      var f :| f in ns'[d].entries && f.name == name && f.inode == Find(ns'[d].entries, name).value;
      FindComplete(ns[d].entries, f);
    } else if name != e.name && Find(ns[d].entries, name).Some? {
      FindSound(ns[d].entries, name);
      var f :| f in ns[d].entries && f.name == name && f.inode == Find(ns[d].entries, name).value;
      FindComplete(ns'[d].entries, f);
    }
  }

  lemma UnlinkTarget(ns: Nodes, p: Path, d: nat, e: Entry, ns': Nodes)
    requires LinksOk(ns) && Unlinks(ns, d, e, ns') && Resolve(ns, p) == Some(d)
    ensures Resolve(ns, p + [e.name]) == Some(e.inode)
  {
    assert (p + [e.name])[..|p|] == p;
    FindIff(ns[d].entries, e.name, e.inode);
  }

  ghost predicate UnlinkSeen(ns: Nodes, p: Path, e: Entry, ns': Nodes, q: Path) {
    Resolve(ns', q) == if q == p + [e.name] then None else Resolve(ns, q)
  }

  lemma UnlinkStep(ns: Nodes, p: Path, d: nat, e: Entry, ns': Nodes, q: Path, a: Name)
    requires LinksOk(ns) && Unlinks(ns, d, e, ns') && Resolve(ns, p) == Some(d)
    requires UnlinkSeen(ns, p, e, ns', q)
    ensures UnlinkSeen(ns, p, e, ns', q + [a])
  {
    assert (q + [a])[..|q|] == q;
    SnocEqual(q, a, p, e.name);
    UnlinkTarget(ns, p, d, e, ns');
    if Resolve(ns, q).Some? {
      ResolvedExists(ns, q);
      if Resolve(ns, q) == Some(d) {
        PathsAreUnique(ns, p, q);
        UnlinkFind(ns, d, e, ns', a);
      } else if Resolve(ns, q) == Some(e.inode) {
        PathsAreUnique(ns, p + [e.name], q);
      }
    }
  }

  lemma {:induction false} UnlinkResolves(ns: Nodes, p: Path, d: nat, e: Entry, ns': Nodes, q: Path)
    requires LinksOk(ns) && Unlinks(ns, d, e, ns') && Resolve(ns, p) == Some(d)
    ensures UnlinkSeen(ns, p, e, ns', q)
    decreases |q|
  {
    if q != [] {
      UnlinkResolves(ns, p, d, e, ns', q[..|q| - 1]);
      UnlinkStep(ns, p, d, e, ns', q[..|q| - 1], q[|q| - 1]);
      assert q == q[..|q| - 1] + [q[|q| - 1]];
    }
  }

  /** No inode that stays has the removed one as parent. */
  lemma UnlinkParents(ns: Nodes, d: nat, e: Entry, ns': Nodes, m: nat)
    requires TreeOk(ns) && Unlinks(ns, d, e, ns') && m in ns'
    ensures IsDir(ns', ns[m].parent)
  {
    assert NodeOk(ns, m);
    ParentLists(ns, m);
  }

  /** Every inode but the root is listed in its parent. */
  lemma ParentLists(ns: Nodes, m: nat)
    requires TreeOk(ns) && m in ns
    ensures m == ROOT_INODE || (IsDir(ns, ns[m].parent) && exists f :: f in ns[ns[m].parent].entries && f.inode == m)
  {
    assert Reachable(ns, m);
    var q :| Resolve(ns, q) == Some(m);
    if q != [] {
      var x, f := LastStep(ns, q);
      assert f in ns[x].entries && ns[m].parent == x;
    }
  }

  lemma UnlinkNode(ns: Nodes, d: nat, e: Entry, ns': Nodes, m: nat)
    requires TreeOk(ns) && Unlinks(ns, d, e, ns') && m in ns'
    ensures NodeOk(ns', m)
  {
    hide StrictlySorted, DirOk, AllReachable;
    assert NodeOk(ns, m);
    UnlinkParents(ns, d, e, ns', m);
  }

  lemma UnlinkRoot(ns: Nodes, d: nat, e: Entry, ns': Nodes)
    requires LinksOk(ns) && Unlinks(ns, d, e, ns')
    ensures RootOk(ns')
  {
    hide StrictlySorted, NodesOk;
    assert DirOk(ns, d);
  }

  lemma UnlinkDir(ns: Nodes, d: nat, e: Entry, ns': Nodes, x: nat)
    requires LinksOk(ns) && Unlinks(ns, d, e, ns') && IsDir(ns', x)
    ensures DirOk(ns', x)
  {
    hide StrictlySorted;
    assert IsDir(ns, x) && DirOk(ns, x) && DirOk(ns, d);
    forall f | f in ns'[x].entries ensures f.inode in ns' {
      assert f in ns[x].entries;
      assert f.inode == e.inode ==> x == d && f == e;
    }
  }

  lemma UnlinkKeepsLinks(ns: Nodes, d: nat, e: Entry, ns': Nodes)
    requires TreeOk(ns) && Unlinks(ns, d, e, ns')
    ensures LinksOk(ns')
  {
    UnlinkRoot(ns, d, e, ns');
    hide StrictlySorted, DirOk, RootOk, Unlinks, NodeOk;
    forall m | m in ns' ensures NodeOk(ns', m) {
      UnlinkNode(ns, d, e, ns', m);
    }
    forall x | IsDir(ns', x) ensures DirOk(ns', x) {
      UnlinkDir(ns, d, e, ns', x);
    }
  }

  lemma UnlinkTree(ns: Nodes, p: Path, d: nat, e: Entry, ns': Nodes)
    requires TreeOk(ns) && Unlinks(ns, d, e, ns') && Resolve(ns, p) == Some(d)
    ensures TreeOk(ns')
  {
    UnlinkKeepsLinks(ns, d, e, ns');
    forall m | m in ns' ensures Reachable(ns', m) {
      assert Reachable(ns, m);
      var q :| Resolve(ns, q) == Some(m);
      UnlinkResolves(ns, p, d, e, ns', q);
      UnlinkTarget(ns, p, d, e, ns');
    }
  }

  /** Unlinking makes exactly one path disappear. */
  lemma UnlinkView(ns: Nodes, p: Path, d: nat, e: Entry, ns': Nodes, q: Path)
    requires LinksOk(ns) && Unlinks(ns, d, e, ns') && Resolve(ns, p) == Some(d)
    ensures View(ns', q) == if q == p + [e.name] then None else View(ns, q)
  {
    UnlinkResolves(ns, p, d, e, ns', q);
    UnlinkTarget(ns, p, d, e, ns');
    if q != p + [e.name] && Resolve(ns, q).Some? {
      ResolvedExists(ns, q);
      if Resolve(ns, q) == Some(e.inode) {
        PathsAreUnique(ns, p + [e.name], q);
      }
    }
  }
}
