/** The pseudo file system that mounts are hung into: a numbered tree, with save and restore. */
module PseudoTree {
  import opened Common

  datatype PseudoInode = PseudoInode(parent: nat, name: string, children: seq<nat>)

  /** `inodes` is keyed by inode number; children are kept as the numbers of shared inode objects. */
  datatype Fs = Fs(nextInode: nat, inodes: map<nat, PseudoInode>)

  datatype Component = RootDir | CurDir | ParentDir | Normal(name: string)

  /** ID 0 is reserved for invalid entries and ID 1 is the root. */
  const PSEUDOFS_NEXT_INODE: nat := 2

  const FRESH := Fs(PSEUDOFS_NEXT_INODE, map[ROOT_ID := PseudoInode(ROOT_ID, "/", [])])

  predicate Ascending(s: seq<nat>) {
    forall i, j | 0 <= i < j < |s| :: s[i] < s[j]
  }

  ghost predicate ChildOk(fs: Fs, n: nat, c: nat) {
    c in fs.inodes && c != ROOT_ID && fs.inodes[c].parent == n
  }

  ghost predicate Apart(fs: Fs, a: nat, b: nat) {
    a in fs.inodes && b in fs.inodes && fs.inodes[a].name == fs.inodes[b].name ==> a == b
  }

  ghost predicate NodeOk(fs: Fs, n: nat)
    requires n in fs.inodes
  {
    var node := fs.inodes[n];
    && ROOT_ID <= n < fs.nextInode
    && (n == ROOT_ID <==> node.parent == n)
    && (n != ROOT_ID ==> node.parent < n && node.parent in fs.inodes && n in fs.inodes[node.parent].children)
    && (forall c {:trigger ChildOk(fs, n, c)} :: c in node.children ==> ChildOk(fs, n, c))
    && Ascending(node.children)
    && (forall a, b {:trigger Apart(fs, a, b)} :: a in node.children && b in node.children ==> Apart(fs, a, b))
  }

  /** A tree: parents are older than their children, siblings are in order of age and have different names. */
  ghost predicate Valid(fs: Fs) {
    && ROOT_ID in fs.inodes && fs.inodes[ROOT_ID].name == "/"
    && (forall n {:trigger NodeOk(fs, n)} :: n in fs.inodes ==> NodeOk(fs, n))
  }

  /** The first child with a name, as the linear search finds it. */
  function FindChild(fs: Fs, children: seq<nat>, name: string): Option<nat> {
    if children == [] then None
    else if children[0] in fs.inodes && fs.inodes[children[0]].name == name then Some(children[0])
    else FindChild(fs, children[1..], name)
  }

  function Child(fs: Fs, n: nat, name: string): Option<nat> {
    if n in fs.inodes then FindChild(fs, fs.inodes[n].children, name) else None
  }

  function Created(fs: Fs, parent: nat, name: string): Fs
    requires parent in fs.inodes
  {
    var ino, p := fs.nextInode, fs.inodes[parent];
    Fs(ino + 1, fs.inodes[ino := PseudoInode(parent, name, [])][parent := p.(children := p.children + [ino])])
  }

  /** One component of a path; a name that is not there stops the walk. */
  function Walked(fs: Fs, at: nat, c: Component): Option<nat> {
    match c
    case RootDir => Some(at)
    case CurDir => Some(at)
    case ParentDir => if at in fs.inodes then Some(fs.inodes[at].parent) else None
    case Normal(name) => Child(fs, at, name)
  }

  function Walk(fs: Fs, path: seq<Component>): Option<nat> {
    if path == [] then Some(ROOT_ID)
    else
      var at := Walk(fs, path[..|path| - 1]);
      if at.Some? then Walked(fs, at.value, path[|path| - 1]) else None
  }

  /** One component of a mount: a name that is not there is created. */
  function Mounted1(fs: Fs, at: nat, c: Component): (Fs, nat) {
    var next := Walked(fs, at, c);
    if next.Some? then (fs, next.value)
    else if c.Normal? && at in fs.inodes then (Created(fs, at, c.name), fs.nextInode)
    else (fs, at)
  }

  function Mounted(fs: Fs, path: seq<Component>): (Fs, nat) {
    if path == [] then (fs, ROOT_ID)
    else
      var (fs1, at) := Mounted(fs, path[..|path| - 1]);
      Mounted1(fs1, at, path[|path| - 1])
  }

  predicate HasRoot(path: seq<Component>) {
    path != [] && path[0] == RootDir
  }

  function Evicted(fs: Fs, ino: nat): Fs
    requires ino in fs.inodes && fs.inodes[ino].parent in fs.inodes
  {
    if ino == fs.inodes[ino].parent then fs
    else
      var p := fs.inodes[ino].parent;
      var kids := Without(fs, fs.inodes[p].children, fs.inodes[ino].name);
      fs.(inodes := fs.inodes[p := fs.inodes[p].(children := kids)] - {ino})
  }

  /** The children without the first one that has the name. */
  function Without(fs: Fs, children: seq<nat>, name: string): seq<nat> {
    if children == [] then []
    else if children[0] in fs.inodes && fs.inodes[children[0]].name == name then children[1..]
    else [children[0]] + Without(fs, children[1..], name)
  }

  // ---------------------------------------------------------------- the tree stays a tree

  lemma {:induction false} FindChildFinds(fs: Fs, children: seq<nat>, name: string)
    ensures var r := FindChild(fs, children, name);
            if r.Some? then r.value in children && r.value in fs.inodes && fs.inodes[r.value].name == name
            else forall c <- children :: c in fs.inodes ==> fs.inodes[c].name != name
  {
    if children == [] {
    } else {
      FindChildFinds(fs, children[1..], name);
    }
  }

  lemma AscendingJoin(a: seq<nat>, b: seq<nat>)
    requires Ascending(a) && Ascending(b) && forall x, y | x in a && y in b :: x < y
    ensures Ascending(a + b)
  {
    forall i, j | 0 <= i < j < |a + b| ensures (a + b)[i] < (a + b)[j] {
      if i < |a| <= j { assert (a + b)[i] in a && (a + b)[j] in b; }
    }
  }

  lemma NextIsFree(fs: Fs)
    requires Valid(fs)
    ensures forall n | n in fs.inodes :: n < fs.nextInode
  {
    forall n | n in fs.inodes ensures n < fs.nextInode { assert NodeOk(fs, n); }
  }

  lemma CreatedValid(fs: Fs, parent: nat, name: string)
    requires Valid(fs) && parent in fs.inodes && Child(fs, parent, name).None?
    ensures Valid(Created(fs, parent, name))
  {
    FindChildFinds(fs, fs.inodes[parent].children, name);
    var fs', ino := Created(fs, parent, name), fs.nextInode;
    assert NodeOk(fs, parent);
    AscendingJoin(fs.inodes[parent].children, [ino]) by {
      forall c | c in fs.inodes[parent].children ensures c < ino {
        assert ChildOk(fs, parent, c) && NodeOk(fs, c);
      }
    }
    forall n | n in fs'.inodes ensures NodeOk(fs', n) {
      if n == ino {
      } else {
        CreatedNode(fs, parent, name, n);
      }
    }
  }

  /** Siblings that keep their parents and names stay children, and stay apart. */
  lemma SiblingsKept(fs: Fs, fs': Fs, n: nat, kids: seq<nat>)
    requires n in fs.inodes && NodeOk(fs, n)
    requires forall c <- kids :: c in fs.inodes[n].children && c in fs'.inodes
    requires forall m | m in fs.inodes && m in fs'.inodes ::
               fs'.inodes[m].parent == fs.inodes[m].parent && fs'.inodes[m].name == fs.inodes[m].name
    ensures forall c | c in kids :: ChildOk(fs', n, c)
    ensures forall a, b | a in kids && b in kids :: Apart(fs', a, b)
  {
    forall c | c in kids ensures ChildOk(fs', n, c) { assert ChildOk(fs, n, c); }
    forall a, b | a in kids && b in kids ensures Apart(fs', a, b) {
      assert ChildOk(fs, n, a) && ChildOk(fs, n, b) && Apart(fs, a, b);
    }
  }

  lemma CreatedNode(fs: Fs, parent: nat, name: string, n: nat)
    requires Valid(fs) && parent in fs.inodes && n in fs.inodes
    requires Ascending(fs.inodes[parent].children + [fs.nextInode])
    requires forall c <- fs.inodes[parent].children :: c in fs.inodes ==> fs.inodes[c].name != name
    ensures NodeOk(Created(fs, parent, name), n)
  {
    var fs', ino := Created(fs, parent, name), fs.nextInode;
    assert NodeOk(fs, n);
    NextIsFree(fs);
    var kids := fs.inodes[n].children;
    forall c | c in kids ensures c in fs.inodes && c != ino { assert ChildOk(fs, n, c); }
    SiblingsKept(fs, fs', n, kids);
    assert fs'.inodes[n].children == if n == parent then kids + [ino] else kids;
    assert n != ROOT_ID ==> n in fs'.inodes[fs'.inodes[n].parent].children;
    hide Ascending, Valid;
    if n == parent {
      assert fs'.inodes[ino].parent == n && fs'.inodes[ino].name == name;
      hide Created;
      forall a | a in kids ensures Apart(fs', a, ino) && Apart(fs', ino, a) {
        assert fs'.inodes[a].name == fs.inodes[a].name;
      }
      assert forall c | c in kids + [ino] :: c in kids || c == ino;
    }
  }

  lemma {:induction false} WithoutOnly(fs: Fs, children: seq<nat>, ino: nat)
    requires ino in fs.inodes && ino in children && Ascending(children)
    requires forall c <- children :: c in fs.inodes && (fs.inodes[c].name == fs.inodes[ino].name ==> c == ino)
    ensures var w := Without(fs, children, fs.inodes[ino].name);
            && Ascending(w) && (forall c :: c in w <==> c in children && c != ino)
  {
    assert children == [children[0]] + children[1..];
    assert forall c <- children[1..] :: children[0] < c;
    if children[0] != ino {
      WithoutOnly(fs, children[1..], ino);
      AscendingJoin([children[0]], Without(fs, children[1..], fs.inodes[ino].name));
    }
  }

  lemma EvictedValid(fs: Fs, ino: nat)
    requires Valid(fs) && ino in fs.inodes && fs.inodes[ino].children == []
    ensures fs.inodes[ino].parent in fs.inodes
    ensures Valid(Evicted(fs, ino))
  {
    assert NodeOk(fs, ino);
    var p, fs' := fs.inodes[ino].parent, Evicted(fs, ino);
    if ino != ROOT_ID {
      assert NodeOk(fs, p);
      var kids := fs.inodes[p].children;
      forall c | c in kids ensures c in fs.inodes && (fs.inodes[c].name == fs.inodes[ino].name ==> c == ino) {
        assert ChildOk(fs, p, c) && Apart(fs, c, ino);
      }
      WithoutOnly(fs, kids, ino);
      forall n | n in fs'.inodes ensures NodeOk(fs', n) { EvictedNode(fs, fs', ino, n); }
    }
  }

  /** Evicting an inode changes the children of its parent, and nothing else. */
  lemma EvictedFrame(fs: Fs, ino: nat, n: nat)
    requires Valid(fs) && ino in fs.inodes && ino != ROOT_ID && fs.inodes[ino].parent in fs.inodes
    requires n in Evicted(fs, ino).inodes && fs.inodes[ino].parent in Evicted(fs, ino).inodes
    requires var w := Evicted(fs, ino).inodes[fs.inodes[ino].parent].children;
             Ascending(w) && forall c :: c in w <==> c in fs.inodes[fs.inodes[ino].parent].children && c != ino
    ensures var fs' := Evicted(fs, ino);
            && fs'.nextInode == fs.nextInode && fs'.inodes.Keys == fs.inodes.Keys - {ino}
            && Ascending(fs'.inodes[n].children)
            && (forall m | m in fs'.inodes ::
                  fs'.inodes[m].parent == fs.inodes[m].parent && fs'.inodes[m].name == fs.inodes[m].name)
            && (forall m | m in fs'.inodes ::
                  forall c :: c in fs'.inodes[m].children <==> c in fs.inodes[m].children && c != ino)
  {
    assert NodeOk(fs, n) && NodeOk(fs, ino);
    var fs', p := Evicted(fs, ino), fs.inodes[ino].parent;
    hide Ascending;
    forall m | m in fs'.inodes && m != p ensures fs'.inodes[m] == fs.inodes[m] && ino !in fs.inodes[m].children {
      assert NodeOk(fs, m);
      assert ino in fs.inodes[m].children ==> ChildOk(fs, m, ino);
    }
  }

  lemma EvictedNode(fs: Fs, fs': Fs, ino: nat, n: nat)
    requires Valid(fs) && ino in fs.inodes && ino != ROOT_ID && fs.inodes[ino].children == []
    requires fs.inodes[ino].parent in fs.inodes && fs' == Evicted(fs, ino) && n in fs'.inodes
    requires fs.inodes[ino].parent in fs'.inodes
    requires var w := fs'.inodes[fs.inodes[ino].parent].children;
             Ascending(w) && forall c :: c in w <==> c in fs.inodes[fs.inodes[ino].parent].children && c != ino
    ensures NodeOk(fs', n)
  {
    assert NodeOk(fs, n) && NodeOk(fs, ino);
    EvictedFrame(fs, ino, n);
    hide Evicted, Valid, Ascending;
    assert n == ROOT_ID || fs.inodes[n].parent != ino;
    forall c | c in fs'.inodes[n].children ensures c in fs'.inodes { assert ChildOk(fs, n, c); }
    SiblingsKept(fs, fs', n, fs'.inodes[n].children);
  }

  // ---------------------------------------------------------------- mounts and walks

  lemma ChildIsInTree(fs: Fs, n: nat, name: string)
    requires Valid(fs) && n in fs.inodes && Child(fs, n, name).Some?
    ensures Child(fs, n, name).value in fs.inodes
  {
    FindChildFinds(fs, fs.inodes[n].children, name);
  }

  lemma WalkedIsInTree(fs: Fs, at: nat, c: Component)
    requires Valid(fs) && at in fs.inodes
    ensures Walked(fs, at, c).Some? ==> Walked(fs, at, c).value in fs.inodes
    ensures !c.Normal? ==> Walked(fs, at, c).Some?
  {
    assert NodeOk(fs, at);
    if c.Normal? && Child(fs, at, c.name).Some? { ChildIsInTree(fs, at, c.name); }
  }

  lemma {:induction false} WalkIsInTree(fs: Fs, path: seq<Component>)
    requires Valid(fs)
    ensures Walk(fs, path).Some? ==> Walk(fs, path).value in fs.inodes
  {
    if path == [] {
    } else {
      WalkIsInTree(fs, path[..|path| - 1]);
      if Walk(fs, path[..|path| - 1]).Some? {
        WalkedIsInTree(fs, Walk(fs, path[..|path| - 1]).value, path[|path| - 1]);
      }
    }
  }

  /** Nothing that was found before is lost or renumbered. */
  ghost predicate Grows(fs: Fs, fs': Fs) {
    && fs.inodes.Keys <= fs'.inodes.Keys && fs.nextInode <= fs'.nextInode
    && (forall n | n in fs.inodes ::
          && fs'.inodes[n].parent == fs.inodes[n].parent && fs'.inodes[n].name == fs.inodes[n].name
          && fs.inodes[n].children <= fs'.inodes[n].children)
  }

  lemma {:induction false} FindChildGrows(fs: Fs, fs': Fs, kids: seq<nat>, kids': seq<nat>, name: string)
    requires Grows(fs, fs') && kids <= kids' && (forall c <- kids :: c in fs.inodes)
    requires FindChild(fs, kids, name).Some?
    ensures FindChild(fs', kids', name) == FindChild(fs, kids, name)
  {
    if !(fs.inodes[kids[0]].name == name) { FindChildGrows(fs, fs', kids[1..], kids'[1..], name); }
  }

  lemma WalkedGrows(fs: Fs, fs': Fs, at: nat, c: Component)
    requires Valid(fs) && Grows(fs, fs') && at in fs.inodes && Walked(fs, at, c).Some?
    ensures Walked(fs', at, c) == Walked(fs, at, c)
  {
    if c.Normal? {
      var kids := fs.inodes[at].children;
      assert NodeOk(fs, at);
      forall k | k in kids ensures k in fs.inodes { assert ChildOk(fs, at, k); }
      FindChildGrows(fs, fs', kids, fs'.inodes[at].children, c.name);
    }
  }

  lemma {:induction false} WalkGrows(fs: Fs, fs': Fs, path: seq<Component>)
    requires Valid(fs) && Grows(fs, fs') && Walk(fs, path).Some?
    ensures Walk(fs', path) == Walk(fs, path)
  {
    if path == [] {
    } else {
      var before := path[..|path| - 1];
      WalkGrows(fs, fs', before);
      WalkIsInTree(fs, before);
      WalkedGrows(fs, fs', Walk(fs, before).value, path[|path| - 1]);
    }
  }

  lemma CreatedGrows(fs: Fs, parent: nat, name: string)
    requires Valid(fs) && parent in fs.inodes && Child(fs, parent, name).None?
    ensures Grows(fs, Created(fs, parent, name))
    ensures Child(Created(fs, parent, name), parent, name) == Some(fs.nextInode)
  {
    var fs', ino, kids := Created(fs, parent, name), fs.nextInode, fs.inodes[parent].children;
    NextIsFree(fs);
    FindChildFinds(fs, kids, name);
    FindChildFinds(fs', kids + [ino], name);
    assert ino in kids + [ino];
    assert NodeOk(fs, parent);
    forall c | c in kids ensures c in fs.inodes { assert ChildOk(fs, parent, c); }
  }

  /** Mounting a path creates what is missing and nothing else: the tree stays valid, every walk that
      succeeded still gives the same number, and walking the mounted path gives the returned one. A path
      that is already there is left alone. */
  lemma {:induction false} MountThenWalk(fs: Fs, path: seq<Component>)
    requires Valid(fs)
    ensures var (fs', ino) := Mounted(fs, path);
            && Valid(fs') && Grows(fs, fs') && ino in fs'.inodes
            && Walk(fs', path) == Some(ino)
            && (Walk(fs, path).Some? ==> fs' == fs)
  {
    if path == [] {
    } else {
      var before, c := path[..|path| - 1], path[|path| - 1];
      MountThenWalk(fs, before);
      var (fs1, at) := Mounted(fs, before);
      WalkedIsInTree(fs1, at, c);
      if Walked(fs1, at, c).None? {
        CreatedValid(fs1, at, c.name);
        CreatedGrows(fs1, at, c.name);
        WalkGrows(fs1, Created(fs1, at, c.name), before);
      }
    }
  }

  // ---------------------------------------------------------------- runs

  datatype Op = Mount(path: seq<Component>) | Evict(ino: nat)

  /** One call. A relative mount path is refused; only an inode that exists and has no children is evicted. */
  function Applied(fs: Fs, op: Op): Fs {
    match op
    case Mount(path) => if HasRoot(path) then Mounted(fs, path).0 else fs
    case Evict(ino) =>
      if ino in fs.inodes && fs.inodes[ino].parent in fs.inodes && fs.inodes[ino].children == [] then Evicted(fs, ino)
      else fs
  }

  function Run(ops: seq<Op>): Fs {
    if ops == [] then FRESH else Applied(Run(ops[..|ops| - 1]), ops[|ops| - 1])
  }

  lemma {:induction false} RunIsTree(ops: seq<Op>)
    ensures Valid(Run(ops))
  {
    if ops == [] {
      assert NodeOk(FRESH, ROOT_ID);
    } else {
      var fs, op := Run(ops[..|ops| - 1]), ops[|ops| - 1];
      RunIsTree(ops[..|ops| - 1]);
      match op
      case Mount(path) => MountThenWalk(fs, path);
      case Evict(ino) => if ino in fs.inodes && fs.inodes[ino].children == [] { EvictedValid(fs, ino); }
    }
  }
}
