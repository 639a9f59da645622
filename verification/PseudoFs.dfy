/** The pseudo file system object: its loops, proved against the functions on trees and snapshots. */
module PseudoFs {
  import opened Common
  import opened PseudoTree
  import opened PseudoSnapshot

  /** Of the children, the one at `at` is the first with the name. */
  lemma {:induction false} FirstNamed(fs: Fs, children: seq<nat>, at: nat, name: string)
    requires at < |children| && children[at] in fs.inodes && fs.inodes[children[at]].name == name
    requires forall c <- children[..at] :: c in fs.inodes ==> fs.inodes[c].name != name
    ensures FindChild(fs, children, name) == Some(children[at])
    ensures Without(fs, children, name) == children[..at] + children[at + 1..]
  {
    if at > 0 {
      assert children[0] in children[..at];
      assert children[1..][..at - 1] == children[1..at];
      assert forall c <- children[1..][..at - 1] :: c in children[..at];
      FirstNamed(fs, children[1..], at - 1, name);
    }
  }

  method Rebuild(list: seq<InodeState>) returns (nodes: map<nat, PseudoInode>)
    ensures nodes == Rebuilt(list)
  {
    nodes := map[];
    for i := 0 to |list|
      invariant nodes == Rebuilt(list[..i])
    {
      assert list[..i + 1][..i] == list[..i];
      nodes := nodes[list[i].ino := PseudoInode(list[i].parent, list[i].name, [])];
    }
    assert list[..|list|] == list;
  }

  /** Appends each inode to its parent's children, up to the first whose parent is missing. */
  method Connect(start: map<nat, PseudoInode>, list: seq<InodeState>) returns (ok: bool, nodes: map<nat, PseudoInode>)
    ensures ok <==> Connected(start, list).Ok?
    ensures ok ==> Connected(start, list) == Ok(nodes)
    ensures exists k :: 0 <= k <= |list| && Grown(start, nodes, list[..k])
  {
    nodes := start;
    for i := 0 to |list|
      invariant Connected(start, list[..i]) == Ok(nodes)
    {
      var s := list[i];
      assert list[..i + 1][..i] == list[..i];
      if s.ino !in nodes || nodes[s.ino].parent !in nodes {
        ConnectedGathers(start, list[..i]);
        ConnectedGathers(start, list[..i + 1]);
        ConnectedGathers(start, list);
        assert forall x <- list[..i + 1] :: x in list;
        return false, nodes;
      }
      nodes := Adopt(nodes, s.ino);
    }
    assert list[..|list|] == list;
    ConnectedGathers(start, list);
    return true, nodes;
  }

  class PseudoFs {
    var nextInode: nat
    var inodes: map<nat, PseudoInode>

    ghost function Tree(): Fs
      reads this
    {
      Fs(nextInode, inodes)
    }

    constructor ()
      ensures Tree() == FRESH && Valid(Tree())
    {
      nextInode := PSEUDOFS_NEXT_INODE;
      inodes := map[ROOT_ID := PseudoInode(ROOT_ID, "/", [])];
      new;
      RunIsTree([]);
    }

    /** The position of the first child with a name. */
    method Position(ino: nat, name: string) returns (at: nat)
      requires Valid(Tree()) && ino in inodes
      ensures at <= |inodes[ino].children|
      ensures forall c <- inodes[ino].children[..at] :: c in inodes && inodes[c].name != name
      ensures at < |inodes[ino].children| ==>
              inodes[ino].children[at] in inodes && inodes[inodes[ino].children[at]].name == name
    {
      at := 0;
      var children := inodes[ino].children;
      while at < |children|
        invariant at <= |children|
        invariant forall c <- children[..at] :: c in inodes && inodes[c].name != name
      {
        assert NodeOk(Tree(), ino) && ChildOk(Tree(), ino, children[at]);
        if inodes[children[at]].name == name { return; }
        assert children[..at + 1] == children[..at] + [children[at]];
        at := at + 1;
      }
    }

    method FindChildOf(ino: nat, name: string) returns (child: Option<nat>)
      requires Valid(Tree()) && ino in inodes
      ensures child == Child(Tree(), ino, name)
    {
      var children := inodes[ino].children;
      var at := Position(ino, name);
      if at < |children| {
        FirstNamed(Tree(), children, at, name);
        return Some(children[at]);
      }
      FindChildFinds(Tree(), children, name);
      assert children[..at] == children;
      return None;
    }

    method CreateInode(name: string, parent: nat) returns (ino: nat)
      requires Valid(Tree()) && parent in inodes && Child(Tree(), parent, name).None?
      modifies this
      ensures ino == old(nextInode) && Tree() == Created(old(Tree()), parent, name)
      ensures Valid(Tree()) && ino !in old(inodes) && Child(Tree(), parent, name) == Some(ino)
    {
      CreatedValid(Tree(), parent, name);
      CreatedGrows(Tree(), parent, name);
      NextIsFree(Tree());
      ino := nextInode;
      nextInode := nextInode + 1;
      inodes := inodes[ino := PseudoInode(parent, name, [])];
      inodes := inodes[parent := inodes[parent].(children := inodes[parent].children + [ino])];
    }

    /** Creates the path, reusing what exists. */
    method Mount(path: seq<Component>) returns (r: Result<nat>)
      requires Valid(Tree())
      modifies this
      ensures Valid(Tree()) && Grows(old(Tree()), Tree())
      ensures r.Ok? <==> HasRoot(path)
      ensures r.Ok? ==> Walk(Tree(), path) == Some(r.value) && (Tree(), r.value) == Mounted(old(Tree()), path)
      ensures r.Err? ==> Tree() == old(Tree())
    {
      if !HasRoot(path) { return Err; }
      ghost var before := Tree();
      var inode := ROOT_ID;
      for i := 0 to |path|
        invariant Valid(Tree()) && inode in inodes
        invariant (Tree(), inode) == Mounted(before, path[..i])
      {
        assert path[..i + 1][..i] == path[..i];
        WalkedIsInTree(Tree(), inode, path[i]);
        match path[i] {
          case RootDir =>
          case CurDir =>
          case ParentDir => inode := inodes[inode].parent;
          case Normal(name) =>
            var child := FindChildOf(inode, name);
            if child.Some? { inode := child.value; } else { inode := CreateInode(name, inode); }
        }
      }
      assert path[..|path|] == path;
      MountThenWalk(before, path);
      return Ok(inode);
    }

    /** Follows the path; it changes nothing. */
    method PathWalk(path: seq<Component>) returns (r: Result<Option<nat>>)
      requires Valid(Tree())
      ensures r == if HasRoot(path) then Ok(Walk(Tree(), path)) else Err
    {
      if !HasRoot(path) { return Err; }
      var inode := ROOT_ID;
      for i := 0 to |path|
        invariant Walk(Tree(), path[..i]) == Some(inode) && inode in inodes
      {
        assert path[..i + 1][..i] == path[..i];
        WalkedIsInTree(Tree(), inode, path[i]);
        match path[i] {
          case RootDir =>
          case CurDir =>
          case ParentDir => inode := inodes[inode].parent;
          case Normal(name) =>
            var child := FindChildOf(inode, name);
            if child.None? {
              WalkStops(Tree(), path, i + 1);
              return Ok(None);
            }
            inode := child.value;
        }
      }
      assert path[..|path|] == path;
      return Ok(Some(inode));
    }

    /** Drops an inode that is not the root; the tree is still one when the inode had no children. */
    method EvictInode(ino: nat)
      requires Valid(Tree()) && ino in inodes && inodes[ino].parent in inodes
      modifies this
      ensures Tree() == Evicted(old(Tree()), ino)
      ensures old(inodes[ino].children) == [] ==> Valid(Tree())
    {
      ghost var before := Tree();
      var inode := inodes[ino];
      if inode.children == [] { EvictedValid(before, ino); }
      assert NodeOk(before, ino);
      if ino == inode.parent { return; }
      var children := inodes[inode.parent].children;
      var at := Position(inode.parent, inode.name);
      assert at < |children| by {
        assert children[..|children|] == children;
        assert ino in children;
      }
      FirstNamed(before, children, at, inode.name);
      inodes := inodes[inode.parent := inodes[inode.parent].(children := children[..at] + children[at + 1..])];
      inodes := inodes - {ino};
    }

    /** Lists every inode but the root, in no particular order. */
    method Save() returns (st: FsState)
      requires ROOT_ID in inodes
      ensures IsSaved(Tree(), st)
    {
      var list: seq<InodeState> := [];
      var todo := inodes.Keys;
      while todo != {}
        invariant todo <= inodes.Keys && Distinct(list)
        invariant forall s <- list :: Listed(Tree(), s) && s.ino !in todo
        invariant forall n | n in inodes && n != ROOT_ID && n !in todo :: Entry(Tree(), n) in list
        decreases todo
      {
        var ino :| ino in todo;
        todo := todo - {ino};
        if ino != ROOT_ID { list := list + [InodeState(ino, inodes[ino].parent, inodes[ino].name)]; }
      }
      return FsState(nextInode, list);
    }

    /** Rebuilds the inodes of a saved state around the root. It succeeds exactly when every inode has its parent;
        when it fails, the root may keep some of the new children and nothing else has changed. */
    method Restore(st: FsState) returns (r: Result<()>)
      requires ROOT_ID in inodes
      modifies this
      ensures r.Ok? <==> forall s <- st.inodes :: Parented(Unconnected(old(Tree()), st), s)
      ensures r.Ok? ==> Restored(old(Tree()), st) == Ok(Tree())
      ensures r.Err? ==>
        && nextInode == old(nextInode) && inodes.Keys == old(inodes.Keys)
        && old(inodes[ROOT_ID].children) <= inodes[ROOT_ID].children
        && inodes == old(inodes)[ROOT_ID := old(inodes[ROOT_ID]).(children := inodes[ROOT_ID].children)]
    {
      var nodes := Rebuild(st.inodes);
      nodes := nodes[ROOT_ID := inodes[ROOT_ID]];
      var list := Sorted(st.inodes);
      SortedMembers(st.inodes);
      ConnectedGathers(nodes, list);
      var ok, connected := Connect(nodes, list);
      if !ok {
        inodes := inodes[ROOT_ID := connected[ROOT_ID]];
        return Err;
      }
      inodes := connected;
      nextInode := st.nextInode;
      return Ok(());
    }
  }

  /** Once a name is missing the rest of the path leads nowhere. */
  lemma {:induction false} WalkStops(fs: Fs, path: seq<Component>, k: nat)
    requires k <= |path| && Walk(fs, path[..k]).None?
    ensures Walk(fs, path).None?
  {
    if k == |path| {
      assert path[..k] == path;
    } else {
      assert path[..|path| - 1][..k] == path[..k];
      WalkStops(fs, path[..|path| - 1], k);
    }
  }
}
