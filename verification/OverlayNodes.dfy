/** The nodes an overlay keeps in memory, the real inodes behind them, and which layer each change goes to.
    What a layer answers is left open: every answer is considered. */
module OverlayNodes {
  import opened Common

  datatype Kind = Directory | Symlink | Regular | Other

  /** An inode of one layer; `upper` says that the layer is the upper one. */
  datatype Real = Real(upper: bool, inode: nat, kind: Kind, whiteout: bool, isOpaque: bool)

  datatype Node = Node(
    path: seq<string>,
    parent: Option<nat>,
    reals: seq<Real>,
    whiteout: bool,
    children: map<string, nat>)

  type Nodes = map<nat, Node>

  datatype Op =
    | Mkdir | Mknod | Create | Link | MakeSymlink | Whiteout | DeleteWhiteout | SetOpaque | Rmdir | Unlink
    | Setattr | Setxattr | Removexattr | Write | OpenForWriting | Fallocate

  /** A change of names, attributes or contents that the overlay asked of a layer. */
  datatype Change = Change(op: Op, upper: bool, inode: nat)

  /** An open file: the node it was opened on, the real inode behind it, and whether it was opened to be changed. */
  datatype RealHandle = RealHandle(node: nat, upper: bool, inode: nat, writable: bool)

  // ---------------------------------------------------------------- what holds of nodes

  /** There is a real inode; only the first can be in the upper layer; several are directories. A whiteout is
      a device node. */
  predicate RealsOk(reals: seq<Real>, whiteout: bool) {
    && reals != [] && whiteout == reals[0].whiteout && (whiteout ==> reals[0].kind == Other)
    && (forall i | 1 <= i < |reals| :: !reals[i].upper)
    && (|reals| > 1 ==> forall i | 0 <= i < |reals| :: reals[i].kind == Directory)
  }

  /** A parent is nearer the root, and a child further away. */
  ghost predicate PlaceOk(nodes: Nodes, node: Node) {
    && (node.parent.Some? ==> node.parent.value in nodes && |nodes[node.parent.value].path| < |node.path|)
    && (forall name | name in node.children ::
          node.children[name] in nodes && |node.path| < |nodes[node.children[name]].path|)
  }

  ghost predicate NodeOk(nodes: Nodes, node: Node) {
    RealsOk(node.reals, node.whiteout) && PlaceOk(nodes, node)
  }

  ghost predicate AllOk(nodes: Nodes) {
    forall n | n in nodes :: NodeOk(nodes, nodes[n])
  }

  predicate InUpper(node: Node) {
    node.reals != [] && node.reals[0].upper
  }

  /** What copying up makes of a kind; a special file comes out as a regular one. */
  function Copied(k: Kind): Kind {
    if k == Other then Regular else k
  }

  /** The node is as it was, or has been copied up: a directory in front of its lower ones, anything else
      instead of the lower one. */
  ghost predicate Lifted(a: Node, b: Node) {
    && b.path == a.path && b.parent == a.parent && a.reals != [] && b.reals != []
    && (|| (b.reals == a.reals && b.whiteout == a.whiteout)
        || (&& !InUpper(a) && InUpper(b) && !b.whiteout && b.reals[0].kind == Copied(a.reals[0].kind)
            && b.reals[1..] == if a.reals[0].kind == Directory then a.reals else []))
  }

  ghost predicate AllLifted(a: Nodes, b: Nodes) {
    a.Keys <= b.Keys && forall n | n in a :: Lifted(a[n], b[n])
  }

  /** Nodes further from the root than `depth` are the same. */
  ghost predicate SameBelow(a: Nodes, b: Nodes, depth: int) {
    forall n | n in a && n in b && |a[n].path| > depth :: a[n] == b[n]
  }

  lemma LiftedTwice(a: Nodes, b: Nodes, c: Nodes)
    requires AllLifted(a, b) && AllLifted(b, c)
    ensures AllLifted(a, c)
  {
    forall n | n in a ensures Lifted(a[n], c[n]) { assert Lifted(a[n], b[n]) && Lifted(b[n], c[n]); }
  }

  lemma LiftedNone(a: Nodes)
    requires AllOk(a)
    ensures AllLifted(a, a)
  {
    forall n | n in a ensures Lifted(a[n], a[n]) { assert NodeOk(a, a[n]); }
  }

  lemma LiftedOnce(a: Nodes, b: Nodes, n: nat, ri: Real)
    requires AllLifted(a, b) && n in a && b[n] == a[n] && !InUpper(a[n]) && ri.upper && !ri.whiteout
    requires ri.kind == Copied(a[n].reals[0].kind)
    ensures var lowers := if a[n].reals[0].kind == Directory then a[n].reals else [];
            AllLifted(a, b[n := b[n].(reals := [ri] + lowers, whiteout := false)])
  {
    var lowers := if a[n].reals[0].kind == Directory then a[n].reals else [];
    var c := b[n := b[n].(reals := [ri] + lowers, whiteout := false)];
    forall m | m in a ensures Lifted(a[m], c[m]) {
      assert Lifted(a[m], b[m]);
      assert ([ri] + lowers)[1..] == lowers;
    }
  }

  lemma NodeReplaced(nodes: Nodes, n: nat, node: Node)
    requires AllOk(nodes) && n in nodes && node.path == nodes[n].path
    requires RealsOk(node.reals, node.whiteout) && PlaceOk(nodes, node)
    ensures AllOk(nodes[n := node])
  {
    var nodes' := nodes[n := node];
    forall m | m in nodes' ensures NodeOk(nodes', nodes'[m]) {
      assert m != n ==> NodeOk(nodes, nodes[m]);
    }
  }

  lemma NodeAdded(nodes: Nodes, n: nat, node: Node)
    requires AllOk(nodes) && n !in nodes && NodeOk(nodes, node)
    ensures AllOk(nodes[n := node])
  {
    var nodes' := nodes[n := node];
    forall m | m in nodes' ensures NodeOk(nodes', nodes'[m]) {
      assert m != n ==> NodeOk(nodes, nodes[m]);
    }
  }

  /** What was opened to be changed is in the upper layer. */
  predicate HandlesOk(handles: map<nat, RealHandle>) {
    forall h | h in handles :: handles[h].writable ==> handles[h].upper
  }

  // ---------------------------------------------------------------- the overlay

  class OverlayFs {
    /** Every node made so far, by its address. */
    var nodes: Nodes
    var nextNode: nat
    var handles: map<nat, RealHandle>
    var nextHandle: nat
    const hasUpper: bool
    /** The changes asked of layers so far. */
    ghost var issued: set<Change>

    ghost predicate Valid()
      reads this
    {
      && AllOk(nodes) && (forall n | n in nodes :: n < nextNode)
      && (forall c <- issued :: c.upper)
      && HandlesOk(handles)
    }

    /** The root, over the roots of all layers; without any layer the import fails. */
    constructor (upper: Option<Real>, lowers: seq<Real>)
      requires upper.Some? || lowers != []
      requires upper.Some? ==> upper.value.upper && upper.value.kind == Directory && !upper.value.whiteout
      requires forall i | 0 <= i < |lowers| :: !lowers[i].upper && lowers[i].kind == Directory && !lowers[i].whiteout
      ensures Valid() && issued == {} && 0 in nodes && hasUpper == upper.Some?
      ensures nodes[0].reals == (if upper.Some? then [upper.value] else []) + lowers
    {
      var reals := if upper.Some? then [upper.value] else [];
      nodes := map[0 := Node([], None, reals + lowers, false, map[])];
      nextNode := 1;
      handles := map[];
      nextHandle := 1;
      hasUpper := upper.Some?;
      issued := {};
    }

    /** The answer of a layer: an inode or an error. */
    method Ask() returns (r: Result<nat>)
    {
      r := *;
    }

    /** A node's attributes, from the first of its layers that still has it. */
    method Stat(n: nat) returns (r: Result<Kind>)
      requires Valid() && n in nodes
      ensures r.Ok? ==> r.value == nodes[n].reals[0].kind
    {
      var i: int := *;
      assert NodeOk(nodes, nodes[n]);
      return if 0 <= i < |nodes[n].reals| then Ok(nodes[n].reals[i].kind) else Err;
    }

    ghost method Issue(op: Op, upper: bool, inode: nat)
      requires Valid() && upper
      modifies this`issued
      ensures Valid() && issued == old(issued) + {Change(op, upper, inode)}
    {
      issued := issued + {Change(op, upper, inode)};
    }

    /** The mutators of a real inode: each makes a new entry in it, and refuses a lower one. */
    method MakeIn(dir: Real, op: Op, kind: Kind) returns (r: Result<Real>)
      requires Valid()
      modifies this`issued
      ensures Valid() && old(issued) <= issued
      ensures r.Ok? ==> dir.upper && r.value.upper && r.value.kind == kind && (r.value.whiteout <==> op == Whiteout)
      ensures r.Ok? ==> issued == old(issued) + {Change(op, true, dir.inode)}
      ensures !dir.upper ==> r.Err? && issued == old(issued)
    {
      if !dir.upper { return Err; }
      Issue(op, dir.upper, dir.inode);
      var answer := Ask();
      return if answer.Ok? then Ok(Real(true, answer.value, kind, op == Whiteout, false)) else Err;
    }

    /** Puts a new upper inode in front of a node's real inodes, or in their place. */
    method AddUpperInode(n: nat, ri: Real, clearLowers: bool)
      requires Valid() && n in nodes && ri.upper
      requires ri.whiteout ==> ri.kind == Other
      requires !clearLowers ==> !InUpper(nodes[n]) && nodes[n].reals[0].kind == Directory && ri.kind == Directory
      modifies this`nodes
      ensures Valid()
      ensures nodes == old(nodes)[n := old(nodes[n]).(reals := [ri] + (if clearLowers then [] else old(nodes[n].reals)),
                                                     whiteout := ri.whiteout)]
    {
      assert NodeOk(nodes, nodes[n]);
      var node := nodes[n].(reals := [ri] + if clearLowers then [] else nodes[n].reals, whiteout := ri.whiteout);
      NodeReplaced(nodes, n, node);
      nodes := nodes[n := node];
    }

    /** Makes the directory in the upper layer, and first those above it. Each call is one step nearer the
        root, so this ends. */
    method CreateUpperDir(n: nat) returns (ok: bool)
      requires Valid() && n in nodes
      modifies this`nodes, this`issued
      ensures Valid() && AllLifted(old(nodes), nodes) && nodes.Keys == old(nodes.Keys) && old(issued) <= issued
      ensures SameBelow(old(nodes), nodes, |old(nodes[n]).path|)
      ensures ok ==> InUpper(nodes[n])
      decreases |nodes[n].path|, 1
    {
      assert NodeOk(nodes, nodes[n]);
      LiftedNone(nodes);
      hide HandlesOk, AllOk, AllLifted;
      var st := Stat(n);
      if st.Err? || st.value != Directory { return false; }
      if InUpper(nodes[n]) { return true; }
      var dir := RaiseParent(n);
      if dir.Err? { return false; }
      var ri := MakeIn(dir.value, Mkdir, Directory);
      if ri.Err? { return false; }
      PutUp(old(nodes), n, ri.value);
      return true;
    }

    /** The upper inode of a node's parent, which is made first if need be. */
    method RaiseParent(n: nat) returns (dir: Result<Real>)
      requires Valid() && n in nodes
      modifies this`nodes, this`issued
      ensures Valid() && AllLifted(old(nodes), nodes) && nodes.Keys == old(nodes.Keys) && old(issued) <= issued
      ensures SameBelow(old(nodes), nodes, |old(nodes[n]).path| - 1) && nodes[n] == old(nodes[n])
      ensures dir.Ok? ==> dir.value.upper
      decreases |nodes[n].path|, 0
    {
      assert NodeOk(nodes, nodes[n]);
      LiftedNone(nodes);
      if nodes[n].parent.None? { return Err; }
      var p := nodes[n].parent.value;
      if !InUpper(nodes[p]) {
        var ok := CreateUpperDir(p);
        if !ok { return Err; }
      }
      return Ok(nodes[p].reals[0]);
    }

    /** The copy takes its place in the node: in front of lower directories, instead of anything else. */
    method PutUp(ghost before: Nodes, n: nat, ri: Real)
      requires Valid() && n in nodes && n in before && AllLifted(before, nodes) && nodes[n] == before[n]
      requires !InUpper(nodes[n]) && ri.upper && !ri.whiteout && nodes[n].reals != []
      requires ri.kind == Copied(nodes[n].reals[0].kind)
      modifies this`nodes
      ensures Valid() && AllLifted(before, nodes) && nodes == old(nodes)[n := nodes[n]] && nodes.Keys == old(nodes).Keys
      ensures InUpper(nodes[n]) && nodes[n].path == old(nodes[n]).path
    {
      LiftedOnce(before, nodes, n, ri);
      AddUpperInode(n, ri, nodes[n].reals[0].kind != Directory);
    }

    method CopySymlinkUp(n: nat) returns (ok: bool)
      requires Valid() && n in nodes && nodes[n].reals != [] && nodes[n].reals[0].kind == Symlink
      modifies this`nodes, this`issued
      ensures Valid() && AllLifted(old(nodes), nodes) && nodes.Keys == old(nodes.Keys) && old(issued) <= issued
      ensures ok ==> InUpper(nodes[n])
    {
      LiftedNone(nodes);
      hide AllOk, AllLifted, SameBelow;
      if InUpper(nodes[n]) { return true; }
      var dir := RaiseParent(n);
      if dir.Err? { return false; }
      var target := Ask();
      if target.Err? { return false; }
      var ri := MakeIn(dir.value, MakeSymlink, Symlink);
      if ri.Err? { return false; }
      PutUp(old(nodes), n, ri.value);
      return true;
    }

    /** The new file is filled with any number of writes before the node points to it. */
    method CopyRegfileUp(n: nat, writes: nat) returns (ok: bool)
      requires Valid() && n in nodes && nodes[n].reals != [] && nodes[n].reals[0].kind in {Regular, Other}
      modifies this`nodes, this`issued
      ensures Valid() && AllLifted(old(nodes), nodes) && nodes.Keys == old(nodes.Keys) && old(issued) <= issued
      ensures ok ==> InUpper(nodes[n])
    {
      LiftedNone(nodes);
      hide AllOk, AllLifted, SameBelow;
      if InUpper(nodes[n]) { return true; }
      var st := Stat(n);
      if st.Err? { return false; }
      var dir := RaiseParent(n);
      if dir.Err? { return false; }
      ghost var raised := nodes;
      var ri := MakeIn(dir.value, Create, Regular);
      if ri.Err? { return false; }
      ok := Fill(ri.value, writes);
      if !ok { return false; }
      assert nodes == raised;
      PutUp(old(nodes), n, ri.value);
    }

    /** Fills a new file from the lower one, through a temporary file. Any call can fail: the open, the reads and
        the close below, the writes and the close above. */
    method Fill(ri: Real, writes: nat) returns (ok: bool)
      requires Valid() && ri.upper
      modifies this`issued
      ensures Valid() && old(issued) <= issued
      ensures issued <= old(issued) + {Change(Write, true, ri.inode)}
    {
      var lower := Ask();
      if lower.Err? { return false; }
      var reading: int := *;
      while reading > 0
        invariant Valid() && issued == old(issued)
      {
        var got := Ask();
        if got.Err? { return false; }
        reading := reading - 1;
      }
      var closed := Ask();
      if closed.Err? { return false; }
      for i := 0 to writes
        invariant Valid() && old(issued) <= issued <= old(issued) + {Change(Write, true, ri.inode)}
      {
        Issue(Write, ri.upper, ri.inode);
        var stored := Ask();
        if stored.Err? { return false; }
      }
      closed := Ask();
      // A layer that does not know the call is taken to have closed the file.
      var unknown: bool := *;
      return closed.Ok? || unknown;
    }

    /** Brings a node to the upper layer. Whatever fails on the way, every node still has its real inodes, and
        the only nodes changed are ones that have been copied up. */
    method CopyNodeUp(n: nat, writes: nat) returns (ok: bool)
      requires Valid() && n in nodes
      modifies this`nodes, this`issued
      ensures Valid() && AllLifted(old(nodes), nodes) && nodes.Keys == old(nodes.Keys) && old(issued) <= issued
      ensures ok ==> InUpper(nodes[n])
    {
      assert NodeOk(nodes, nodes[n]);
      if InUpper(nodes[n]) { return true; }
      var st := Stat(n);
      if st.Err? { return false; }
      if st.value == Directory {
        ok := CreateUpperDir(n);
      } else if st.value == Symlink {
        ok := CopySymlinkUp(n);
      } else {
        ok := CopyRegfileUp(n, writes);
      }
    }

    // -------------------------------------------------------------- making nodes

    /** Records a new node as a child of `parent`, with or without a link back. */
    method AddChild(parent: nat, name: string, reals: seq<Real>, linked: bool) returns (c: nat)
      requires Valid() && parent in nodes && reals != [] && RealsOk(reals, reals[0].whiteout)
      modifies this`nodes, this`nextNode
      ensures Valid() && c == old(nextNode) && c !in old(nodes)
      ensures nodes == WithChild(old(nodes), parent, name, c,
                                 Node(old(nodes[parent]).path + [name], if linked then Some(parent) else None, reals,
                                      reals[0].whiteout, map[]))
    {
      assert NodeOk(nodes, nodes[parent]);
      c := nextNode;
      nextNode := nextNode + 1;
      var p := nodes[parent];
      var node := Node(p.path + [name], if linked then Some(parent) else None, reals, reals[0].whiteout, map[]);
      NodeAdded(nodes, c, node);
      nodes := nodes[c := node];
      NodeReplaced(nodes, parent, p.(children := p.children[name := c]));
      nodes := nodes[parent := p.(children := p.children[name := c])];
    }

    /** One name of a directory that is being loaded: the layers are read from the top down to the first that
        hides the rest, and the real inodes found are kept down to the first that hides the rest. `found` is
        what each layer has under the name. */
    method LoadChild(n: nat, name: string, found: seq<Option<Found>>) returns (c: Option<nat>)
      requires Valid() && n in nodes && |found| == |nodes[n].reals|
      modifies this`nodes, this`nextNode
      ensures Valid() && AllLifted(old(nodes), nodes) && issued == old(issued)
      ensures c.None? <==> ColumnOf(old(nodes[n]).reals, found) == []
      ensures c.Some? ==> c.value !in old(nodes) && c.value in nodes && nodes[c.value].parent == Some(n)
                          && nodes[c.value].reals == KeptOf(ColumnOf(old(nodes[n]).reals, found))
                          && nodes[c.value].whiteout == ColumnOf(old(nodes[n]).reals, found)[0].whiteout
                          && name in nodes[n].children && nodes[n].children[name] == c.value
      ensures nodes == if c.None? then old(nodes)
                       else WithChild(old(nodes), n, name, c.value, nodes[c.value])
    {
      assert NodeOk(nodes, nodes[n]);
      LiftedNone(nodes);
      var reals := nodes[n].reals;
      var column := Column(reals, found);
      ColumnIsOk(reals, found);
      if column == [] { return None; }
      var kept := Kept(column);
      KeptIsOk(column);
      hide ColumnOf, KeptOf, RealsOk;
      var child := AddChild(n, name, kept, true);
      AddedIsLifted(old(nodes), child, nodes[child], n, nodes[n]);
      return Some(child);
    }

    /** Loads a directory: every name that its layers show gets a node. A name may be refused a number, and then
        those before it stay. A directory that has been loaded shows no new names. */
    method LoadDirectory(n: nat, listing: Listing) returns (ok: bool)
      requires Valid() && n in nodes && ListingOk(listing, |nodes[n].reals|)
      modifies this`nodes, this`nextNode
      ensures Valid() && AllLifted(old(nodes), nodes) && issued == old(issued)
      ensures n in nodes && nodes[n].reals == old(nodes[n].reals)
      ensures ok ==> Listed(old(nodes), nodes, n, listing, |listing|)
    {
      LiftedNone(nodes);
      var read := Ask();
      if read.Err? { return false; }
      ListedNone(nodes, n, listing);
      hide AllOk, AllLifted, Listed;
      for i := 0 to |listing|
        invariant Valid() && AllLifted(old(nodes), nodes) && issued == old(issued)
        invariant n in nodes && nodes[n].reals == old(nodes[n].reals)
        invariant Listed(old(nodes), nodes, n, listing, i)
      {
        ghost var before := nodes;
        var number := Ask();
        if number.Err? { return false; }
        var c := LoadChild(n, listing[i].0, listing[i].1);
        LiftedTwice(old(nodes), before, nodes);
        ListedNext(old(nodes), before, nodes, n, listing, i, c);
      }
      return true;
    }

    // -------------------------------------------------------------- changing names

    /** Makes a directory, in place of a whiteout if there is one: a new node over one upper inode. */
    method DoMkdir(parent: nat, name: string, found: Option<nat>, writes: nat) returns (r: Result<nat>)
      requires Valid() && parent in nodes && (found.Some? ==> found.value in nodes)
      modifies this`nodes, this`nextNode, this`issued
      ensures Valid() && AllLifted(old(nodes), nodes) && old(issued) <= issued
      ensures r.Ok? ==> hasUpper && (found.Some? ==> old(nodes[found.value]).whiteout)
                        && Made(nodes, parent, name, r.value, Directory)
      ensures r.Ok? ==> r.value !in old(nodes)
      ensures r.Ok? ==> DirChanges(nodes[parent].reals[0], nodes[r.value].reals[0],
                                   found.Some? && InUpper(old(nodes[found.value])),
                                   found.Some? && !UpperOnly(old(nodes[found.value]))) <= issued
    {
      LiftedNone(nodes);
      if !hasUpper || nodes[parent].whiteout { return Err; }
      if found.Some? && !nodes[found.value].whiteout { return Err; }
      var deleteWhiteout := found.Some? && InUpper(nodes[found.value]);
      var setOpaque := found.Some? && !UpperOnly(nodes[found.value]);
      var up := CopyNodeUp(parent, writes);
      if !up { return Err; }
      ghost var raised := nodes;
      hide AllOk, AllLifted;
      r := PlaceDir(nodes[parent].reals[0], parent, name, deleteWhiteout, setOpaque);
      LiftedTwice(old(nodes), raised, nodes);
    }

    method PlaceDir(dir: Real, parent: nat, name: string, deleteWhiteout: bool, setOpaque: bool)
      returns (r: Result<nat>)
      requires Valid() && dir.upper && parent in nodes && InUpper(nodes[parent])
      modifies this`nodes, this`nextNode, this`issued
      ensures Valid() && AllLifted(old(nodes), nodes) && old(issued) <= issued
      ensures r.Ok? ==> r.value !in old(nodes) && Made(nodes, parent, name, r.value, Directory)
      ensures r.Ok? ==> issued == old(issued) + DirChanges(dir, nodes[r.value].reals[0], deleteWhiteout, setOpaque)
      ensures nodes[parent].reals == old(nodes[parent].reals)
    {
      LiftedNone(nodes);
      var child := MakeDir(dir, deleteWhiteout, setOpaque);
      if child.Err? { return Err; }
      var c := AddChild(parent, name, [child.value], false);
      AddedIsLifted(old(nodes), c, nodes[c], parent, nodes[parent]);
      return Ok(c);
    }

    /** The calls to the upper layer that make a directory. */
    method MakeDir(dir: Real, deleteWhiteout: bool, setOpaque: bool) returns (r: Result<Real>)
      requires Valid() && dir.upper
      modifies this`issued
      ensures Valid() && old(issued) <= issued
      ensures r.Ok? ==> r.value.upper && r.value.kind == Directory && !r.value.whiteout
      ensures r.Ok? ==> issued == old(issued) + DirChanges(dir, r.value, deleteWhiteout, setOpaque)
    {
      if deleteWhiteout { Issue(DeleteWhiteout, dir.upper, dir.inode); }
      var ino := Ask();
      if ino.Err? { return Err; }
      r := MakeIn(dir, Mkdir, Directory);
      if r.Err? || !setOpaque { return r; }
      Issue(SetOpaque, r.value.upper, r.value.inode);
      var answer := Ask();
      if answer.Err? { return Err; }
    }

    /** Makes a device node, a file or a symbolic link. A node that was a whiteout becomes the new entry. */
    method DoMake(op: Op, kind: Kind, parent: nat, name: string, found: Option<nat>, writes: nat)
      returns (r: Result<nat>)
      requires op in {Mknod, Create, MakeSymlink} && kind != Directory
      requires Valid() && parent in nodes && (found.Some? ==> found.value in nodes)
      modifies this`nodes, this`nextNode, this`issued
      ensures Valid() && old(nodes).Keys <= nodes.Keys && old(issued) <= issued
      ensures AllLifted(Except(old(nodes), found), nodes)
      ensures r.Ok? ==> hasUpper && (found.Some? ==> old(nodes[found.value]).whiteout && r.value == found.value)
      ensures r.Ok? ==> r.value in nodes && NewEntry(nodes[r.value], kind)
                        && (found.None? ==> Made(nodes, parent, name, r.value, kind))
      ensures r.Ok? ==> InUpper(nodes[parent]) && Change(op, true, nodes[parent].reals[0].inode) in issued
    {
      LiftedNone(nodes);
      LiftedPart(nodes, nodes, found);
      if !hasUpper || nodes[parent].whiteout { return Err; }
      if found.Some? && !nodes[found.value].whiteout { return Err; }
      var up := CopyNodeUp(parent, writes);
      LiftedPart(old(nodes), nodes, found);
      if !up { return Err; }
      hide HandlesOk, AllOk, AllLifted, Except;
      ghost var raised := nodes;
      r := Place(op, kind, nodes[parent].reals[0], parent, name, found);
      LiftedThrough(old(nodes), raised, nodes, found);
    }

    /** The end of making an entry, in the upper directory of its parent. */
    method Place(op: Op, kind: Kind, dir: Real, parent: nat, name: string, found: Option<nat>) returns (r: Result<nat>)
      requires op != Whiteout && kind != Directory && dir.upper
      requires Valid() && parent in nodes && InUpper(nodes[parent]) && (found.Some? ==> found.value in nodes)
      modifies this`nodes, this`nextNode, this`issued
      ensures Valid() && old(nodes).Keys <= nodes.Keys && old(issued) <= issued
      ensures AllLifted(Except(old(nodes), found), nodes)
      ensures r.Ok? ==> r.value in nodes && NewEntry(nodes[r.value], kind)
      ensures r.Ok? ==> if found.Some? then r.value == found.value else Made(nodes, parent, name, r.value, kind)
      ensures r.Ok? ==> issued == old(issued) + EntryChanges(op, dir, found.Some? && InUpper(old(nodes[found.value])))
      ensures found != Some(parent) ==> nodes[parent].reals == old(nodes[parent].reals)
    {
      LiftedNone(nodes);
      LiftedPart(nodes, nodes, found);
      hide AllLifted, AllOk, Except;
      var child := MakeEntry(op, kind, dir, found.Some? && InUpper(nodes[found.value]));
      if child.Err? { return Err; }
      if found.Some? {
        ReplacedIsLifted(nodes, found.value, nodes[found.value].(reals := [child.value], whiteout := false));
        AddUpperInode(found.value, child.value, true);
        return Ok(found.value);
      }
      r := PlaceNew(child.value, parent, name);
      LiftedPart(old(nodes), nodes, found);
    }

    /** The new entry gets a node of its own. */
    method PlaceNew(child: Real, parent: nat, name: string) returns (r: Result<nat>)
      requires Valid() && parent in nodes && InUpper(nodes[parent]) && child.upper && !child.whiteout
      modifies this`nodes, this`nextNode
      ensures Valid() && AllLifted(old(nodes), nodes) && nodes[parent].reals == old(nodes[parent].reals)
      ensures r.Ok? ==> r.value !in old(nodes) && Made(nodes, parent, name, r.value, child.kind)
    {
      LiftedNone(nodes);
      hide AllLifted, AllOk;
      var ino := Ask();
      if ino.Err? { return Err; }
      var c := AddChild(parent, name, [child], false);
      AddedIsLifted(old(nodes), c, nodes[c], parent, nodes[parent]);
      return Ok(c);
    }

    /** The calls to the upper layer that make an entry. */
    method MakeEntry(op: Op, kind: Kind, dir: Real, deleteWhiteout: bool) returns (r: Result<Real>)
      requires Valid() && op != Whiteout && dir.upper
      modifies this`issued
      ensures Valid() && old(issued) <= issued
      ensures r.Ok? ==> r.value.upper && r.value.kind == kind && !r.value.whiteout
      ensures r.Ok? ==> issued == old(issued) + EntryChanges(op, dir, deleteWhiteout)
    {
      if deleteWhiteout { Issue(DeleteWhiteout, dir.upper, dir.inode); }
      r := MakeIn(dir, op, kind);
    }

    /** Creates a file and opens it: the handle, if the layer gives one and files are opened at all, is on the new
        upper inode. */
    method DoCreate(parent: nat, name: string, found: Option<nat>, noOpen: bool, writes: nat)
      returns (r: Result<nat>, handle: Option<nat>)
      requires Valid() && parent in nodes && (found.Some? ==> found.value in nodes)
      modifies this`nodes, this`nextNode, this`issued, this`handles, this`nextHandle
      ensures Valid() && old(nodes).Keys <= nodes.Keys && old(issued) <= issued
      ensures AllLifted(Except(old(nodes), found), nodes)
      ensures r.Ok? ==> hasUpper && (found.Some? ==> old(nodes[found.value]).whiteout && r.value == found.value)
      ensures r.Ok? ==> r.value in nodes && NewEntry(nodes[r.value], Regular)
                        && (found.None? ==> Made(nodes, parent, name, r.value, Regular))
      ensures r.Ok? ==> InUpper(nodes[parent]) && Change(Create, true, nodes[parent].reals[0].inode) in issued
      ensures r.Err? || noOpen ==> handle.None?
      ensures if handle.Some?
              then handles ==
                   old(handles)[handle.value := RealHandle(r.value, true, nodes[r.value].reals[0].inode, true)]
              else handles == old(handles)
    {
      handle := None;
      r := DoMake(Create, Regular, parent, name, found, writes);
      hide AllOk, AllLifted, Except, HandlesOk, Made;
      if r.Err? || noOpen { return; }
      var given: bool := *;
      if given {
        var number := AddHandle(RealHandle(r.value, true, nodes[r.value].reals[0].inode, true));
        handle := Some(number);
      }
    }

    /** Makes a hard link. Both the file and the new parent are brought up first. */
    method DoLink(src: nat, parent: nat, name: string, found: Option<nat>, writes: nat) returns (r: Result<nat>)
      requires Valid() && src in nodes && parent in nodes && (found.Some? ==> found.value in nodes)
      modifies this`nodes, this`nextNode, this`issued
      ensures Valid() && old(nodes).Keys <= nodes.Keys && old(issued) <= issued
      ensures AllLifted(Except(old(nodes), found), nodes)
      ensures r.Ok? ==> r.value in nodes && NewEntry(nodes[r.value], Copied(old(nodes[src]).reals[0].kind))
      ensures r.Ok? ==> hasUpper && !old(nodes[src]).whiteout && !old(nodes[parent]).whiteout
                        && old(nodes[src]).reals[0].kind != Directory
      ensures r.Ok? ==> if found.Some? then old(nodes[found.value]).whiteout && r.value == found.value
                        else Made(nodes, parent, name, r.value, nodes[r.value].reals[0].kind)
      ensures r.Ok? ==> InUpper(nodes[src]) && InUpper(nodes[parent])
                        && Change(Link, true, nodes[parent].reals[0].inode) in issued
    {
      assert NodeOk(nodes, nodes[src]);
      LiftedNone(nodes);
      LiftedPart(nodes, nodes, found);
      if !hasUpper || nodes[src].whiteout || nodes[parent].whiteout { return Err; }
      var st := Stat(src);
      if st.Err? || st.value == Directory { return Err; }
      var up := CopyBothUp(src, parent, writes);
      LiftedPart(old(nodes), nodes, found);
      if !up || (found.Some? && !nodes[found.value].whiteout) { return Err; }
      assert found.Some? ==> Lifted(old(nodes)[found.value], nodes[found.value]);
      ghost var raised := nodes;
      hide AllOk, AllLifted, Except;
      r := Place(Link, Copied(st.value), nodes[parent].reals[0], parent, name, found);
      LiftedThrough(old(nodes), raised, nodes, found);
      StillUpper(raised, nodes, found, src);
    }

    method CopyBothUp(a: nat, b: nat, writes: nat) returns (ok: bool)
      requires Valid() && a in nodes && b in nodes
      modifies this`nodes, this`issued
      ensures Valid() && AllLifted(old(nodes), nodes) && nodes.Keys == old(nodes.Keys) && old(issued) <= issued
      ensures ok ==> InUpper(nodes[a]) && InUpper(nodes[b])
    {
      ok := CopyNodeUp(a, writes);
      if !ok { return; }
      ghost var first := nodes;
      ok := CopyNodeUp(b, writes);
      LiftedTwice(old(nodes), first, nodes);
      assert Lifted(first[a], nodes[a]);
    }

    // -------------------------------------------------------------- removing names

    method RemoveChild(n: nat, name: string)
      requires Valid() && n in nodes
      modifies this`nodes
      ensures Valid() && Pruned(old(nodes), nodes) && SameAbove(old(nodes), nodes, |old(nodes[n]).path|)
      ensures nodes == old(nodes)[n := old(nodes[n]).(children := old(nodes[n]).children - {name})]
    {
      assert NodeOk(nodes, nodes[n]);
      NodeReplaced(nodes, n, nodes[n].(children := nodes[n].children - {name}));
      nodes := nodes[n := nodes[n].(children := nodes[n].children - {name})];
    }

    /** Deletes what an upper directory holds in the upper layer; entries of lower layers stay. Every call is
        one step further from the root, and there is a deepest node. Whether it ends well or not, every entry
        gone, at any depth, was in the upper layer and has been deleted there. */
    method EmptyNodeDirectory(n: nat, ghost deepest: nat) returns (ok: bool)
      requires Valid() && n in nodes && NoneDeeper(nodes, deepest)
      modifies this`nodes, this`issued
      ensures Valid() && Pruned(old(nodes), nodes) && SameAbove(old(nodes), nodes, |old(nodes[n]).path|)
      ensures old(issued) <= issued && Swept(old(nodes), nodes, issued)
      ensures ok && InUpper(nodes[n]) ==> NoneUpper(nodes, n)
      decreases deepest - |nodes[n].path|, 2
    {
      assert NodeOk(nodes, nodes[n]);
      PrunedNone(nodes);
      SweptNone(nodes, issued);
      var st := Stat(n);
      if st.Err? || st.value != Directory { return false; }
      var first := nodes[n].reals[0];
      if !first.upper { return true; }
      var todo := nodes[n].children.Keys;
      assert Emptying(nodes, nodes, n, todo);
      hide AllOk, Pruned, SameAbove, NoneDeeper, Lower, Swept;
      while todo != {}
        invariant Valid() && old(issued) <= issued && NoneDeeper(nodes, deepest)
        invariant Emptying(old(nodes), nodes, n, todo) && Swept(old(nodes), nodes, issued)
        decreases todo
      {
        var name :| name in todo;
        ghost var before, asked := nodes, issued;
        EmptyingFirst(old(nodes), nodes, n, todo);
        ok := EmptyOne(n, first, name, deepest);
        EmptyingStep(old(nodes), before, nodes, n, todo, name, ok);
        SweptTwice(old(nodes), before, nodes, asked, issued);
        PrunedDepth(before, nodes, deepest);
        if !ok { return false; }
        todo := todo - {name};
      }
      return true;
    }

    method EmptyOne(n: nat, dir: Real, name: string, ghost deepest: nat) returns (ok: bool)
      requires Valid() && dir.upper && n in nodes && nodes[n].reals != [] && nodes[n].reals[0] == dir
      requires name in nodes[n].children && NoneDeeper(nodes, deepest)
      modifies this`nodes, this`issued
      ensures Valid() && Pruned(old(nodes), nodes) && SameAbove(old(nodes), nodes, |old(nodes[n]).path|)
      ensures old(issued) <= issued && Swept(old(nodes), nodes, issued)
      ensures nodes[n] == old(nodes[n]).(children := nodes[n].children)
      ensures ok ==> nodes[n].children == if Lower(nodes, old(nodes[n]).children[name]) then old(nodes[n]).children
                                          else old(nodes[n]).children - {name}
      decreases deepest - |nodes[n].path|, 1
    {
      assert NodeOk(nodes, nodes[n]);
      PrunedNone(nodes);
      SweptNone(nodes, issued);
      hide AllOk, Pruned, SameAbove, Swept;
      if !InUpper(nodes[nodes[n].children[name]]) { return true; }
      ok := DropOne(n, dir, name, deepest);
    }

    method DropOne(n: nat, dir: Real, name: string, ghost deepest: nat) returns (ok: bool)
      requires Valid() && dir.upper && n in nodes && nodes[n].reals != [] && nodes[n].reals[0] == dir
      requires name in nodes[n].children && NoneDeeper(nodes, deepest)
      requires nodes[n].children[name] in nodes && InUpper(nodes[nodes[n].children[name]])
      requires |nodes[n].path| < |nodes[nodes[n].children[name]].path|
      modifies this`nodes, this`issued
      ensures Valid() && Pruned(old(nodes), nodes) && SameAbove(old(nodes), nodes, |old(nodes[n]).path|)
      ensures old(issued) <= issued && Swept(old(nodes), nodes, issued) && !Lower(nodes, old(nodes[n]).children[name])
      ensures nodes[n] ==
              old(nodes[n]).(children := if ok then old(nodes[n]).children - {name} else old(nodes[n]).children)
      decreases deepest - |nodes[n].path|, 0
    {
      hide AllOk, Pruned, SameAbove, Swept, NoneUpper;
      var child := nodes[n].children[name];
      ok := EmptyChild(dir, child, deepest);
      ghost var before := nodes;
      hide InUpper, Lower;
      ChildEmptied(old(nodes), before, n, child);
      if !ok { return false; }
      RemoveChild(n, name);
      ChildGone(old(nodes), before, nodes, issued, n, name);
    }

    /** Deletes one entry of an upper directory: a whiteout, a file, or a directory that is emptied first. */
    method EmptyChild(dir: Real, child: nat, ghost deepest: nat) returns (ok: bool)
      requires Valid() && dir.upper && child in nodes && InUpper(nodes[child]) && NoneDeeper(nodes, deepest)
      modifies this`nodes, this`issued
      ensures Valid() && Pruned(old(nodes), nodes) && old(issued) <= issued && Swept(old(nodes), nodes, issued)
      ensures SameAbove(old(nodes), nodes, |old(nodes[child]).path|)
      ensures ok ==> Change(DeletionOf(old(nodes[child])), true, dir.inode) in issued
      ensures ok && DeletionOf(old(nodes[child])) == Rmdir ==> NoneUpper(nodes, child)
      decreases deepest - |nodes[child].path|, 3
    {
      assert NodeOk(nodes, nodes[child]);
      PrunedNone(nodes);
      SweptNone(nodes, issued);
      hide AllOk, Pruned, SameAbove, Swept;
      if nodes[child].whiteout {
        Issue(DeleteWhiteout, dir.upper, dir.inode);
      } else {
        var st := Stat(child);
        if st.Err? { return false; }
        if st.value == Directory {
          if nodes[child].children != map[] {
            ok := EmptyNodeDirectory(child, deepest);
            if !ok { return false; }
            PrunedStays(old(nodes), nodes, child);
          }
          ghost var asked := issued;
          Issue(Rmdir, dir.upper, dir.inode);
          SweptMore(old(nodes), nodes, asked, issued);
        } else {
          Issue(Unlink, dir.upper, dir.inode);
        }
      }
      SweptMore(old(nodes), nodes, old(issued), issued);
      var answer := Ask();
      return answer.Ok?;
    }

    /** A directory can go when it can be loaded and all it shows are whiteouts; those in the upper layer are
        deleted. */
    method ClearDirectory(n: nat, listing: Listing) returns (ok: bool)
      requires Valid() && n in nodes && ListingOk(listing, |nodes[n].reals|)
      modifies this`nodes, this`nextNode, this`issued
      ensures Valid() && AllLifted(old(nodes), nodes) && old(issued) <= issued
      ensures ok ==> OnlyHidden(old(nodes), n, listing)
    {
      ok := LoadDirectory(n, listing);
      if !ok { return false; }
      assert NodeOk(nodes, nodes[n]);
      ghost var full := nodes;
      var st := Stat(n);
      if st.Err? || st.value != Directory { return false; }
      if !OnlyWhiteouts(nodes, n) { return false; }
      OnlyWhiteoutsMeans(old(nodes), full, n, listing);
      hide AllOk, AllLifted, OnlyWhiteouts, OnlyHidden, Listed;
      if nodes[n].children != map[] && InUpper(nodes[n]) {
        ghost var deepest := DeepestNode(nodes);
        ok := EmptyNodeDirectory(n, deepest);
        PrunedIsLifted(full, nodes);
        LiftedTwice(old(nodes), full, nodes);
        return;
      }
      return true;
    }

    /** Removes a name. What was in the upper layer is deleted there; what a lower layer may still hold is
        covered by a whiteout. On success nothing is left under the name, or a whiteout is. */
    method DoRm(parent: nat, node: nat, name: string, dir: bool, listing: Listing, writes: nat) returns (ok: bool)
      requires Valid() && parent in nodes && node in nodes && ListingOk(listing, |nodes[node].reals|)
      modifies this`nodes, this`nextNode, this`issued
      ensures Valid() && AllLifted(old(nodes), nodes) && old(issued) <= issued
      ensures ok ==> InUpper(nodes[parent]) && !old(nodes[node]).whiteout
      ensures ok && dir ==> OnlyHidden(old(nodes), node, listing)
      ensures ok ==> Gone(nodes, issued, parent, node, name, dir)
    {
      LiftedNone(nodes);
      if !hasUpper || nodes[parent].whiteout || nodes[node].whiteout { return false; }
      if dir {
        ok := ClearDirectory(node, listing);
        if !ok { return false; }
      }
      ghost var cleared := nodes;
      hide AllOk, AllLifted, OnlyHidden;
      ok := CopyNodeUp(parent, writes);
      LiftedTwice(old(nodes), cleared, nodes);
      if !ok { return false; }
      ghost var raised := nodes;
      ok := TakeOut(parent, node, name, dir);
      LiftedTwice(old(nodes), raised, nodes);
    }

    method TakeOut(parent: nat, node: nat, name: string, dir: bool) returns (ok: bool)
      requires Valid() && parent in nodes && InUpper(nodes[parent]) && node in nodes
      modifies this`nodes, this`nextNode, this`issued
      ensures Valid() && AllLifted(old(nodes), nodes) && old(issued) <= issued
      ensures InUpper(nodes[parent])
      ensures ok ==> Gone(nodes, issued, parent, node, name, dir)
    {
      LiftedNone(nodes);
      var needWhiteout := !UpperOnly(nodes[node]);
      var upperDir := nodes[parent].reals[0];
      hide HandlesOk, AllOk, AllLifted;
      if InUpper(nodes[node]) {
        if upperDir.isOpaque { needWhiteout := false; }
        Issue(if dir then Rmdir else Unlink, upperDir.upper, upperDir.inode);
        var answer := Ask();
        if answer.Err? { return false; }
      }
      RemoveChild(parent, name);
      PrunedIsLifted(old(nodes), nodes);
      if !needWhiteout { return true; }
      ghost var removed := nodes;
      ok := CoverUp(upperDir, parent, name);
      LiftedTwice(old(nodes), removed, nodes);
    }

    method CoverUp(dir: Real, parent: nat, name: string) returns (ok: bool)
      requires Valid() && dir.upper && parent in nodes && InUpper(nodes[parent])
      modifies this`nodes, this`nextNode, this`issued
      ensures Valid() && AllLifted(old(nodes), nodes) && old(issued) <= issued
      ensures SameReals(old(nodes), nodes)
      ensures ok ==> Change(Whiteout, true, dir.inode) in issued && Covered(nodes, parent, name)
    {
      LiftedNone(nodes);
      hide HandlesOk, AllOk, AllLifted;
      var ri := MakeIn(dir, Whiteout, Other);
      if ri.Err? { return false; }
      var ino := Ask();
      if ino.Err? { return false; }
      var c := AddChild(parent, name, [ri.value], false);
      AddedIsLifted(old(nodes), c, nodes[c], parent, nodes[parent]);
      return true;
    }

    // -------------------------------------------------------------- attributes and contents

    /** Sets attributes through an upper handle if there is one, and otherwise on the node, which is brought
        up first. */
    method SetAttr(n: nat, handle: Option<nat>, noOpen: bool, writes: nat) returns (ok: bool)
      requires Valid() && n in nodes
      modifies this`nodes, this`issued
      ensures Valid() && AllLifted(old(nodes), nodes) && old(issued) <= issued
      ensures ok ==> hasUpper
      ensures ok ==> if !noOpen && handle.Some? && handle.value in handles && handles[handle.value].upper
                     then nodes == old(nodes) && Change(Setattr, true, handles[handle.value].inode) in issued
                     else InUpper(nodes[n]) && Change(Setattr, true, nodes[n].reals[0].inode) in issued
    {
      LiftedNone(nodes);
      if !hasUpper { return false; }
      if !noOpen && handle.Some? && handle.value in handles && handles[handle.value].upper {
        var open := handles[handle.value];
        Issue(Setattr, open.upper, open.inode);
        var answer := Ask();
        return answer.Ok?;
      }
      ok := ChangeNode(Setattr, n, writes);
    }

    /** Sets or removes an extended attribute of a node that is not a whiteout. */
    method ChangeXattr(op: Op, n: nat, writes: nat) returns (ok: bool)
      requires op in {Setxattr, Removexattr} && Valid() && n in nodes
      modifies this`nodes, this`issued
      ensures Valid() && AllLifted(old(nodes), nodes) && old(issued) <= issued
      ensures ok ==> !old(nodes[n]).whiteout && InUpper(nodes[n]) && Change(op, true, nodes[n].reals[0].inode) in issued
    {
      LiftedNone(nodes);
      if nodes[n].whiteout { return false; }
      ok := ChangeNode(op, n, writes);
    }

    method ChangeNode(op: Op, n: nat, writes: nat) returns (ok: bool)
      requires Valid() && n in nodes
      modifies this`nodes, this`issued
      ensures Valid() && AllLifted(old(nodes), nodes) && nodes.Keys == old(nodes.Keys) && old(issued) <= issued
      ensures ok ==> InUpper(nodes[n]) && Change(op, true, nodes[n].reals[0].inode) in issued
    {
      ok := CopyNodeUp(n, writes);
      if !ok { return false; }
      var first := nodes[n].reals[0];
      Issue(op, first.upper, first.inode);
      var answer := Ask();
      return answer.Ok?;
    }

    /** Opens a file. A handle that can write is a handle on the upper layer. */
    method Open(n: nat, readonly: bool, writes: nat) returns (h: Result<nat>)
      requires Valid() && n in nodes
      modifies this`nodes, this`issued, this`handles, this`nextHandle
      ensures Valid() && AllLifted(old(nodes), nodes) && old(issued) <= issued
      ensures h.Ok? ==> h.value in handles && nodes[n].reals != [] && (readonly || handles[h.value].upper)
                        && handles[h.value] ==
                           RealHandle(n, nodes[n].reals[0].upper, nodes[n].reals[0].inode, !readonly)
      ensures h.Err? ==> handles == old(handles)
    {
      LiftedNone(nodes);
      assert NodeOk(nodes, nodes[n]);
      hide AllOk, AllLifted, HandlesOk;
      if nodes[n].whiteout { return Err; }
      if !readonly {
        var ok := ReadyToWrite(n, writes);
        if !ok { return Err; }
      }
      var answer := Ask();
      if answer.Err? { return Err; }
      var number := AddHandle(RealHandle(n, nodes[n].reals[0].upper, nodes[n].reals[0].inode, !readonly));
      return Ok(number);
    }

    method AddHandle(handle: RealHandle) returns (number: nat)
      requires Valid() && (handle.writable ==> handle.upper)
      modifies this`handles, this`nextHandle
      ensures Valid() && handles == old(handles)[number := handle]
    {
      hide AllOk;
      number := nextHandle;
      handles := handles[number := handle];
      nextHandle := nextHandle + 1;
    }

    /** Brings the node up, and opens it there for writing. */
    method ReadyToWrite(n: nat, writes: nat) returns (ok: bool)
      requires Valid() && n in nodes
      modifies this`nodes, this`issued
      ensures Valid() && AllLifted(old(nodes), nodes) && nodes.Keys == old(nodes.Keys) && old(issued) <= issued
      ensures ok ==> InUpper(nodes[n])
    {
      hide AllOk, AllLifted;
      ok := CopyNodeUp(n, writes);
      if ok { Issue(OpenForWriting, nodes[n].reals[0].upper, nodes[n].reals[0].inode); }
    }

    /** The real inode behind a request: that of the handle, if the handle is one of the node; without open, the
        first one of a node that is not a whiteout, which is brought up first if it is to be changed. Whatever
        may be changed through it is in the upper layer, and a request that only reads changes nothing. */
    method GetData(handle: Option<nat>, n: nat, readonly: bool, noOpen: bool, writes: nat)
      returns (r: Option<RealHandle>)
      requires Valid() && n in nodes
      modifies this`nodes, this`issued
      ensures Valid() && AllLifted(old(nodes), nodes) && nodes.Keys == old(nodes.Keys) && old(issued) <= issued
      ensures r.Some? ==> r.value.node == n && (r.value.writable ==> r.value.upper)
      ensures readonly || !noOpen ==> nodes == old(nodes) && issued == old(issued)
      ensures !noOpen ==> (r.Some? <==> handle.Some? && handle.value in handles && handles[handle.value].node == n)
                          && (r.Some? ==> r.value == handles[handle.value])
      ensures noOpen && readonly ==> (r.None? <==> nodes[n].whiteout)
      ensures noOpen && r.Some? ==> (r.value.writable <==> !readonly) && nodes[n].reals != []
                                    && r.value.upper == InUpper(nodes[n]) && r.value.inode == nodes[n].reals[0].inode
      ensures noOpen && !readonly && r.Some? ==> hasUpper && !old(nodes[n]).whiteout && InUpper(nodes[n])
    {
      LiftedNone(nodes);
      assert NodeOk(nodes, nodes[n]);
      hide AllOk, AllLifted;
      if !noOpen {
        if handle.Some? && handle.value in handles && handles[handle.value].node == n {
          return Some(handles[handle.value]);
        }
        return None;
      }
      if nodes[n].whiteout { return None; }
      if !readonly {
        if !hasUpper { return None; }
        var ok := CopyNodeUp(n, writes);
        if !ok { return None; }
      }
      return Some(RealHandle(n, nodes[n].reals[0].upper, nodes[n].reals[0].inode, !readonly));
    }

    /** Allocates space; a real inode of a lower layer is refused, and no node is copied up. */
    method FallocateOn(handle: nat, n: nat, noOpen: bool) returns (ok: bool)
      requires Valid() && n in nodes
      modifies this`nodes, this`issued
      ensures Valid() && nodes == old(nodes)
      ensures !noOpen ==>
                if handle in handles && handles[handle].node == n && handles[handle].upper
                then issued == old(issued) + {Change(Fallocate, true, handles[handle].inode)}
                else !ok && issued == old(issued)
      ensures noOpen ==>
                if !nodes[n].whiteout && InUpper(nodes[n])
                then issued == old(issued) + {Change(Fallocate, true, nodes[n].reals[0].inode)}
                else !ok && issued == old(issued)
    {
      var data := GetData(Some(handle), n, true, noOpen, 0);
      if data.None? || !data.value.upper { return false; }
      Issue(Fallocate, data.value.upper, data.value.inode);
      var answer := Ask();
      return answer.Ok?;
    }
  }

  type LeafKind = k: Kind | k != Directory witness Regular

  /** What a layer has under a name. Only a directory can be opaque, and only another node a whiteout. */
  datatype Found =
    | FoundDir(inode: nat, isOpaque: bool)
    | FoundLeaf(inode: nat, kind: LeafKind)
    | FoundWhiteout(inode: nat)

  function RealOf(upper: bool, f: Found): (r: Real)
    ensures r.upper == upper && (r.whiteout ==> r.kind == Other)
  {
    match f
    case FoundDir(inode, isOpaque) => Real(upper, inode, Directory, false, isOpaque)
    case FoundLeaf(inode, kind) => Real(upper, inode, kind, false, false)
    case FoundWhiteout(inode) => Real(upper, inode, Other, true, false)
  }

  /** What the layers have under a name, from the top down to the first that hides the rest. */
  function ColumnOf(reals: seq<Real>, found: seq<Option<Found>>): seq<Real>
    requires |found| == |reals|
  {
    if reals == [] || reals[0].whiteout || reals[0].kind != Directory then []
    else
      (if found[0].Some? then [RealOf(reals[0].upper, found[0].value)] else [])
      + if reals[0].isOpaque then [] else ColumnOf(reals[1..], found[1..])
  }

  method Column(reals: seq<Real>, found: seq<Option<Found>>) returns (column: seq<Real>)
    requires |found| == |reals|
    ensures column == ColumnOf(reals, found)
  {
    column := [];
    assert reals[0..] == reals && found[0..] == found;
    NothingMore(ColumnOf(reals, found));
    hide ColumnOf, RealOf;
    for i := 0 to |reals|
      invariant column + ColumnOf(reals[i..], found[i..]) == ColumnOf(reals, found)
    {
      ColumnFrom(reals, found, i);
      NothingMore(column);
      if reals[i].whiteout || reals[i].kind != Directory { return; }
      var entry := if found[i].Some? then [RealOf(reals[i].upper, found[i].value)] else [];
      Regroup(column, entry, if reals[i].isOpaque then [] else ColumnOf(reals[i + 1..], found[i + 1..]));
      column := column + entry;
      NothingMore(column);
      if reals[i].isOpaque { return; }
    }
    ColumnStep([], []);
    assert reals[|reals|..] == [] && found[|reals|..] == [];
    NothingMore(column);
  }

  lemma ColumnFrom(reals: seq<Real>, found: seq<Option<Found>>, i: nat)
    requires |found| == |reals| && i < |reals|
    ensures ColumnOf(reals[i..], found[i..]) ==
            if reals[i].whiteout || reals[i].kind != Directory then []
            else (if found[i].Some? then [RealOf(reals[i].upper, found[i].value)] else [])
                 + if reals[i].isOpaque then [] else ColumnOf(reals[i + 1..], found[i + 1..])
  {
    FromNext(reals, i);
    FromNext(found, i);
    ColumnStep(reals[i..], found[i..]);
    hide ColumnOf, RealOf;
  }

  lemma ColumnStep(reals: seq<Real>, found: seq<Option<Found>>)
    requires |found| == |reals|
    ensures ColumnOf(reals, found) ==
            if reals == [] || reals[0].whiteout || reals[0].kind != Directory then []
            else (if found[0].Some? then [RealOf(reals[0].upper, found[0].value)] else [])
                 + if reals[0].isOpaque then [] else ColumnOf(reals[1..], found[1..])
  {
  }

  /** Devices stay devices, and a stack without the upper layer gives a column without it. */
  lemma {:induction false} ColumnLower(reals: seq<Real>, found: seq<Option<Found>>)
    requires |found| == |reals|
    ensures var column := ColumnOf(reals, found);
            && (forall i | 0 <= i < |column| :: column[i].whiteout ==> column[i].kind == Other)
            && ((forall i | 0 <= i < |reals| :: !reals[i].upper) ==> forall i | 0 <= i < |column| :: !column[i].upper)
  {
    if reals == [] {
    } else {
      ColumnLower(reals[1..], found[1..]);
      ColumnStep(reals, found);
      hide ColumnOf;
    }
  }

  /** Of the real inodes found for a name only the first can be in the upper layer. */
  lemma ColumnIsOk(reals: seq<Real>, found: seq<Option<Found>>)
    requires |found| == |reals| && forall i | 1 <= i < |reals| :: !reals[i].upper
    ensures var column := ColumnOf(reals, found);
            && (forall i | 1 <= i < |column| :: !column[i].upper)
            && (forall i | 0 <= i < |column| :: column[i].whiteout ==> column[i].kind == Other)
  {
    ColumnLower(reals, found);
    if reals != [] {
      ColumnLower(reals[1..], found[1..]);
      ColumnStep(reals, found);
      hide ColumnOf;
    }
  }

  /** What the layers of a directory have under each name that one of them shows. */
  type Listing = seq<(string, seq<Option<Found>>)>

  predicate ListingOk(listing: Listing, layers: nat) {
    && (forall i | 0 <= i < |listing| :: |listing[i].1| == layers)
    && (forall i, j | 0 <= i < j < |listing| :: listing[i].0 != listing[j].0)
  }

  /** The nodes with one more, under a name of `n`. */
  function WithChild(nodes: Nodes, n: nat, name: string, c: nat, node: Node): Nodes
    requires n in nodes
  {
    nodes[c := node][n := nodes[n].(children := nodes[n].children[name := c])]
  }

  /** The first `k` names of the listing have nodes as their layers show them, and other names those they had. */
  ghost predicate Listed(a: Nodes, b: Nodes, n: nat, listing: Listing, k: nat)
    requires k <= |listing|
  {
    && n in a && n in b && ListingOk(listing, |a[n].reals|)
    && (forall i | 0 <= i < k :: ListedAt(b, n, listing[i].0, ColumnOf(a[n].reals, listing[i].1)))
    && (forall name | name in a[n].children :: Replaced(a[n].reals, listing, k, name) || KeptAt(a, b, n, name))
  }

  /** A layer that is not hidden shows this name. */
  ghost predicate Replaced(reals: seq<Real>, listing: Listing, k: nat, name: string)
    requires k <= |listing| && ListingOk(listing, |reals|)
  {
    exists i | 0 <= i < k :: listing[i].0 == name && ColumnOf(reals, listing[i].1) != []
  }

  ghost predicate ListedAt(b: Nodes, n: nat, name: string, column: seq<Real>)
    requires n in b
  {
    column != [] ==>
      && name in b[n].children && b[n].children[name] in b
      && b[b[n].children[name]].whiteout == column[0].whiteout
  }

  ghost predicate KeptAt(a: Nodes, b: Nodes, n: nat, name: string)
    requires n in a && n in b && name in a[n].children
  {
    var c := a[n].children[name];
    name in b[n].children && b[n].children[name] == c && c in a && c in b && b[c].whiteout == a[c].whiteout
  }

  /** Whiteouts are all that the layers show under the directory, and all that was known to be there. */
  ghost predicate OnlyHidden(nodes: Nodes, n: nat, listing: Listing) {
    && n in nodes && ListingOk(listing, |nodes[n].reals|)
    && (forall i | 0 <= i < |listing| :: HiddenAt(ColumnOf(nodes[n].reals, listing[i].1)))
    && (forall name | name in nodes[n].children && !Replaced(nodes[n].reals, listing, |listing|, name) ::
          nodes[n].children[name] in nodes && nodes[nodes[n].children[name]].whiteout)
  }

  predicate HiddenAt(column: seq<Real>) {
    column != [] ==> column[0].whiteout
  }

  lemma OnlyWhiteoutsMeans(a: Nodes, b: Nodes, n: nat, listing: Listing)
    requires Listed(a, b, n, listing, |listing|) && OnlyWhiteouts(b, n)
    ensures OnlyHidden(a, n, listing)
  {
    forall i | 0 <= i < |listing| ensures HiddenAt(ColumnOf(a[n].reals, listing[i].1)) {
      assert ListedAt(b, n, listing[i].0, ColumnOf(a[n].reals, listing[i].1));
    }
    forall name | name in a[n].children && !Replaced(a[n].reals, listing, |listing|, name)
      ensures a[n].children[name] in a && a[a[n].children[name]].whiteout
    {
      assert KeptAt(a, b, n, name);
    }
  }

  lemma ListedNone(a: Nodes, n: nat, listing: Listing)
    requires AllOk(a) && n in a && ListingOk(listing, |a[n].reals|)
    ensures Listed(a, a, n, listing, 0)
  {
    assert NodeOk(a, a[n]);
  }

  lemma OthersKept(a: Nodes, b: Nodes, n: nat, name: string, c: nat, node: Node, other: string)
    requires n in a && n in b && c !in b && other != name
    ensures var b' := WithChild(b, n, name, c, node);
            && (forall column :: ListedAt(b, n, other, column) ==> ListedAt(b', n, other, column))
            && (other in a[n].children && KeptAt(a, b, n, other) ==> KeptAt(a, b', n, other))
  {
  }

  lemma ListedNext(a: Nodes, b: Nodes, c: Nodes, n: nat, listing: Listing, k: nat, made: Option<nat>)
    requires k < |listing| && Listed(a, b, n, listing, k)
    requires var column := ColumnOf(a[n].reals, listing[k].1);
             && (made.None? <==> column == [])
             && (made.Some? ==> made.value !in b && made.value in c && c[made.value].whiteout == column[0].whiteout)
             && c == if made.None? then b else WithChild(b, n, listing[k].0, made.value, c[made.value])
    ensures Listed(a, c, n, listing, k + 1)
  {
    var name, reals := listing[k].0, a[n].reals;
    hide ColumnOf;
    forall i | 0 <= i < k + 1 ensures ListedAt(c, n, listing[i].0, ColumnOf(reals, listing[i].1)) {
      if i < k {
        assert ListedAt(b, n, listing[i].0, ColumnOf(reals, listing[i].1));
        if made.Some? { OthersKept(a, b, n, name, made.value, c[made.value], listing[i].0); }
      }
    }
    forall other | other in a[n].children ensures Replaced(reals, listing, k + 1, other) || KeptAt(a, c, n, other) {
      if other == name && made.Some? {
        assert listing[k].0 == other;
      } else if !Replaced(reals, listing, k, other) {
        if made.Some? { OthersKept(a, b, n, name, made.value, c[made.value], other); }
      }
    }
  }

  /** The real inodes a node keeps: the first, and the directories under it down to the first that hides the rest. */
  function KeptOf(column: seq<Real>): seq<Real> {
    if column == [] then []
    else [column[0]] + if Hides(column[0]) then [] else Merging(column[1..])
  }

  predicate Hides(r: Real) {
    r.whiteout || r.kind != Directory || r.isOpaque
  }

  function Merging(reals: seq<Real>): seq<Real> {
    if reals == [] || reals[0].whiteout || reals[0].kind != Directory then []
    else [reals[0]] + if reals[0].isOpaque then [] else Merging(reals[1..])
  }

  method Kept(column: seq<Real>) returns (kept: seq<Real>)
    requires column != []
    ensures kept == KeptOf(column)
  {
    kept := [column[0]];
    if column[0].whiteout || column[0].kind != Directory || column[0].isOpaque { return; }
    hide Merging, KeptOf;
    for i := 1 to |column|
      invariant kept + Merging(column[i..]) == KeptOf(column)
    {
      FromNext(column, i);
      MergingStep(column[i..]);
      NothingMore(kept);
      if column[i].whiteout || column[i].kind != Directory { return; }
      Regroup(kept, [column[i]], if column[i].isOpaque then [] else Merging(column[i + 1..]));
      kept := kept + [column[i]];
      NothingMore(kept);
      if column[i].isOpaque { return; }
    }
    assert column[|column|..] == [];
    MergingStep([]);
    NothingMore(kept);
  }

  lemma MergingStep(reals: seq<Real>)
    ensures Merging(reals) == if reals == [] || reals[0].whiteout || reals[0].kind != Directory then []
                              else [reals[0]] + if reals[0].isOpaque then [] else Merging(reals[1..])
  {
  }

  lemma {:induction false} MergingIsPrefix(reals: seq<Real>)
    ensures Merging(reals) <= reals && forall i | 0 <= i < |Merging(reals)| :: Merging(reals)[i].kind == Directory
  {
    if reals == [] {
    } else {
      MergingIsPrefix(reals[1..]);
      MergingStep(reals);
      hide Merging;
      assert reals == [reals[0]] + reals[1..];
    }
  }

  /** The real inodes kept are a non-empty prefix, and well-formed. */
  lemma KeptIsOk(column: seq<Real>)
    requires column != [] && forall i | 1 <= i < |column| :: !column[i].upper
    requires forall i | 0 <= i < |column| :: column[i].whiteout ==> column[i].kind == Other
    ensures var kept := KeptOf(column); kept != [] && kept <= column && RealsOk(kept, kept[0].whiteout)
  {
    MergingIsPrefix(column[1..]);
    hide Merging;
    assert column == [column[0]] + column[1..];
  }

  /** A fresh entry: one real inode, in the upper layer. */
  predicate NewEntry(node: Node, kind: Kind) {
    |node.reals| == 1 && InUpper(node) && node.reals[0].kind == kind && !node.whiteout
  }

  predicate Made(nodes: Nodes, parent: nat, name: string, c: nat, kind: Kind) {
    && parent in nodes && InUpper(nodes[parent]) && name in nodes[parent].children && nodes[parent].children[name] == c
    && c in nodes && NewEntry(nodes[c], kind)
  }

  /** The nodes without the one that was found under the name. */
  function Except(nodes: Nodes, found: Option<nat>): Nodes {
    if found.Some? then nodes - {found.value} else nodes
  }

  lemma LiftedPart(a: Nodes, b: Nodes, found: Option<nat>)
    requires AllLifted(a, b)
    ensures AllLifted(Except(a, found), b)
  {
  }

  lemma LiftedThrough(a: Nodes, b: Nodes, c: Nodes, found: Option<nat>)
    requires AllLifted(a, b) && AllLifted(Except(b, found), c)
    ensures AllLifted(Except(a, found), c)
  {
    LiftedPart(a, b, found);
    var a', b' := Except(a, found), Except(b, found);
    forall n | n in a' ensures Lifted(a'[n], c[n]) { assert Lifted(a[n], b[n]) && Lifted(b'[n], c[n]); }
  }

  /** Only children have been taken away. */
  ghost predicate Pruned(a: Nodes, b: Nodes) {
    && b.Keys == a.Keys
    && (forall n | n in a ::
          && b[n] == a[n].(children := b[n].children)
          && (forall name | name in b[n].children ::
                name in a[n].children && b[n].children[name] == a[n].children[name]))
  }

  /** Nodes nearer the root than `depth` are the same. */
  ghost predicate SameAbove(a: Nodes, b: Nodes, depth: int) {
    forall n | n in a && n in b && |a[n].path| < depth :: a[n] == b[n]
  }

  ghost predicate NoneDeeper(nodes: Nodes, deepest: nat) {
    forall n | n in nodes :: |nodes[n].path| <= deepest
  }

  predicate Lower(nodes: Nodes, n: nat) {
    n in nodes && !InUpper(nodes[n])
  }

  lemma PrunedNone(a: Nodes)
    ensures Pruned(a, a) && forall depth :: SameAbove(a, a, depth)
  {
  }

  lemma PrunedTwice(a: Nodes, b: Nodes, c: Nodes, depth: int)
    requires Pruned(a, b) && Pruned(b, c) && SameAbove(a, b, depth) && SameAbove(b, c, depth)
    ensures Pruned(a, c) && SameAbove(a, c, depth)
  {
  }

  lemma PrunedShallower(a: Nodes, b: Nodes, depth: int, less: int)
    requires SameAbove(a, b, depth) && less <= depth
    ensures SameAbove(a, b, less)
  {
  }

  lemma PrunedAbove(a: Nodes, b: Nodes, depth: int, n: nat)
    requires Pruned(a, b) && SameAbove(a, b, depth) && n in a && |a[n].path| < depth
    ensures n in b && b[n] == a[n]
  {
  }

  lemma PrunedDepth(a: Nodes, b: Nodes, deepest: nat)
    requires Pruned(a, b) && NoneDeeper(a, deepest)
    ensures NoneDeeper(b, deepest)
  {
  }

  lemma PrunedLower(a: Nodes, b: Nodes)
    requires Pruned(a, b)
    ensures forall n :: Lower(b, n) <==> Lower(a, n)
  {
  }

  lemma PrunedStays(a: Nodes, b: Nodes, n: nat)
    requires Pruned(a, b) && n in a
    ensures n in b && b[n] == a[n].(children := b[n].children)
  {
  }

  /** None of the entries of the directory is in the upper layer. */
  ghost predicate NoneUpper(nodes: Nodes, n: nat) {
    n in nodes && forall name | name in nodes[n].children :: Lower(nodes, nodes[n].children[name])
  }

  /** The entry was in the upper layer and has been deleted there by its own call, a directory after what it had
      there. */
  ghost predicate SweptAway(a: Nodes, b: Nodes, issued: set<Change>, n: nat, name: string)
    requires n in a && name in a[n].children
  {
    var c := a[n].children[name];
    && c in a && InUpper(a[c]) && a[n].reals != []
    && Change(DeletionOf(a[c]), true, a[n].reals[0].inode) in issued
    && (DeletionOf(a[c]) == Rmdir ==> NoneUpper(b, c))
  }

  ghost predicate Swept(a: Nodes, b: Nodes, issued: set<Change>) {
    forall n, name | n in a && n in b && name in a[n].children && name !in b[n].children ::
      SweptAway(a, b, issued, n, name)
  }

  lemma SweptNone(a: Nodes, issued: set<Change>)
    ensures Swept(a, a, issued)
  {
  }

  lemma SweptMore(a: Nodes, b: Nodes, issued: set<Change>, more: set<Change>)
    requires issued <= more
    ensures Swept(a, b, issued) ==> Swept(a, b, more)
  {
    if Swept(a, b, issued) {
      forall n, name | n in a && n in b && name in a[n].children && name !in b[n].children
        ensures SweptAway(a, b, more, n, name)
      {
        assert SweptAway(a, b, issued, n, name);
      }
    }
  }

  lemma NoneUpperStays(b: Nodes, c: Nodes, n: nat)
    requires Pruned(b, c) && NoneUpper(b, n)
    ensures NoneUpper(c, n)
  {
    PrunedLower(b, c);
  }

  lemma SweptTwice(a: Nodes, b: Nodes, c: Nodes, issued: set<Change>, more: set<Change>)
    requires Pruned(a, b) && Pruned(b, c) && Swept(a, b, issued) && Swept(b, c, more) && issued <= more
    ensures Swept(a, c, more)
  {
    forall n, name | n in a && n in c && name in a[n].children && name !in c[n].children
      ensures SweptAway(a, c, more, n, name)
    {
      var child := a[n].children[name];
      if name in b[n].children {
        assert SweptAway(b, c, more, n, name);
      } else {
        assert SweptAway(a, b, issued, n, name);
        if NoneUpper(b, child) { NoneUpperStays(b, c, child); }
      }
    }
  }

  /** Taking an entry out of its directory, once it has been deleted in the upper layer. */
  lemma SweptRemoved(a: Nodes, b: Nodes, c: Nodes, issued: set<Change>, n: nat, name: string)
    requires Pruned(a, b) && Pruned(b, c) && Swept(a, b, issued) && n in a && n in b && b[n] == a[n]
             && name in a[n].children
    requires c == b[n := b[n].(children := b[n].children - {name})]
    requires SweptAway(a, b, issued, n, name)
    ensures Swept(a, c, issued)
  {
    forall m, other | m in a && m in c && other in a[m].children && other !in c[m].children
      ensures SweptAway(a, c, issued, m, other)
    {
      assert SweptAway(a, b, issued, m, other);
      var child := a[m].children[other];
      if NoneUpper(b, child) { NoneUpperStays(b, c, child); }
    }
  }

  lemma ChildEmptied(a: Nodes, b: Nodes, n: nat, child: nat)
    requires n in a && child in a && |a[n].path| < |a[child].path|
    requires Pruned(a, b) && SameAbove(a, b, |a[child].path|) && InUpper(a[child])
    ensures n in b && b[n] == a[n] && SameAbove(a, b, |a[n].path|) && !Lower(b, child)
  {
    PrunedLower(a, b);
    PrunedShallower(a, b, |a[child].path|, |a[n].path|);
    PrunedAbove(a, b, |a[child].path|, n);
  }

  lemma ChildGone(a: Nodes, b: Nodes, c: Nodes, issued: set<Change>, n: nat, name: string)
    requires n in a && n in b && b[n] == a[n] && name in a[n].children && a[n].children[name] in a
    requires Pruned(a, b) && Pruned(b, c) && SameAbove(a, b, |a[n].path|) && SameAbove(b, c, |b[n].path|)
    requires c == b[n := b[n].(children := b[n].children - {name})] && Swept(a, b, issued)
    requires InUpper(a[a[n].children[name]]) && a[n].reals != []
    requires Change(DeletionOf(a[a[n].children[name]]), true, a[n].reals[0].inode) in issued
    requires DeletionOf(a[a[n].children[name]]) == Rmdir ==> NoneUpper(b, a[n].children[name])
    ensures Pruned(a, c) && SameAbove(a, c, |a[n].path|) && Swept(a, c, issued)
    ensures !Lower(c, a[n].children[name])
  {
    PrunedTwice(a, b, c, |a[n].path|);
    PrunedLower(a, c);
    hide Pruned, SameAbove, Swept;
    SweptRemoved(a, b, c, issued, n, name);
  }

  /** Whiteouts are all that is under the node. */
  predicate OnlyWhiteouts(nodes: Nodes, n: nat) {
    n in nodes && forall name | name in nodes[n].children ::
      nodes[n].children[name] in nodes && nodes[nodes[n].children[name]].whiteout
  }

  /** The call that deletes an entry. */
  function DeletionOf(node: Node): Op {
    if node.whiteout then DeleteWhiteout
    else if node.reals != [] && node.reals[0].kind == Directory then Rmdir
    else Unlink
  }

  predicate UpperOnly(node: Node) {
    InUpper(node) && |node.reals| == 1
  }

  /** Calls that make an entry in an upper directory, in place of a whiteout there or not. */
  function EntryChanges(op: Op, dir: Real, deleteWhiteout: bool): set<Change> {
    {Change(op, true, dir.inode)} + if deleteWhiteout then {Change(DeleteWhiteout, true, dir.inode)} else {}
  }

  function DirChanges(dir: Real, made: Real, deleteWhiteout: bool, setOpaque: bool): set<Change> {
    EntryChanges(Mkdir, dir, deleteWhiteout) + if setOpaque then {Change(SetOpaque, true, made.inode)} else {}
  }

  ghost predicate SameReals(a: Nodes, b: Nodes) {
    forall n | n in a :: n in b && b[n].reals == a[n].reals
  }

  predicate Covered(nodes: Nodes, parent: nat, name: string) {
    && parent in nodes && name in nodes[parent].children && nodes[parent].children[name] in nodes
    && nodes[nodes[parent].children[name]].whiteout
  }

  /** The name shows nothing. What the upper layer had is deleted there; there is a whiteout exactly when a
      lower layer may still show the name. */
  ghost predicate Gone(nodes: Nodes, issued: set<Change>, parent: nat, node: nat, name: string, dir: bool) {
    && parent in nodes && node in nodes && InUpper(nodes[parent])
    && var upperDir := nodes[parent].reals[0];
    && (InUpper(nodes[node]) ==> Change(if dir then Rmdir else Unlink, true, upperDir.inode) in issued)
    && if UpperOnly(nodes[node]) || (InUpper(nodes[node]) && upperDir.isOpaque) then name !in nodes[parent].children
       else Covered(nodes, parent, name) && Change(Whiteout, true, upperDir.inode) in issued
  }

  /** While a directory is emptied: what is gone from `todo` is gone from the upper layer. */
  ghost predicate Emptying(a: Nodes, b: Nodes, n: nat, todo: set<string>) {
    && n in a && Pruned(a, b) && SameAbove(a, b, |a[n].path|) && n in b && b[n].path == a[n].path
    && todo <= b[n].children.Keys
    && (forall name | name in b[n].children && name !in todo :: Lower(b, b[n].children[name]))
  }

  lemma EmptyingFirst(a: Nodes, b: Nodes, n: nat, todo: set<string>)
    requires Emptying(a, b, n, todo)
    ensures n in b && b[n].reals == a[n].reals && todo <= b[n].children.Keys
  {
  }

  lemma EmptyingStep(a: Nodes, b: Nodes, c: Nodes, n: nat, todo: set<string>, name: string, ok: bool)
    requires Emptying(a, b, n, todo) && name in todo && Pruned(b, c) && SameAbove(b, c, |b[n].path|)
    requires ok ==> c[n].children == if Lower(c, b[n].children[name]) then b[n].children else b[n].children - {name}
    ensures Pruned(a, c) && SameAbove(a, c, |a[n].path|)
    ensures ok ==> Emptying(a, c, n, todo - {name})
  {
    PrunedTwice(a, b, c, |a[n].path|);
    PrunedLower(b, c);
  }

  lemma PrunedIsLifted(a: Nodes, b: Nodes)
    requires AllOk(a) && Pruned(a, b)
    ensures AllLifted(a, b)
  {
    forall n | n in a ensures Lifted(a[n], b[n]) { assert NodeOk(a, a[n]); }
  }

  lemma {:induction false} DeepestNode(nodes: Nodes) returns (deepest: nat)
    ensures NoneDeeper(nodes, deepest)
    decreases nodes.Keys
  {
    if nodes == map[] { return 0; }
    var n :| n in nodes;
    var rest := DeepestNode(nodes - {n});
    deepest := if rest < |nodes[n].path| then |nodes[n].path| else rest;
    assert forall m | m in nodes && m != n :: m in nodes - {n} && nodes[m] == (nodes - {n})[m];
  }

  lemma ReplacedIsLifted(a: Nodes, n: nat, node: Node)
    requires AllOk(a) && n in a
    ensures AllLifted(Except(a, Some(n)), a[n := node])
  {
    LiftedNone(a);
    forall m | m in Except(a, Some(n)) ensures Lifted(Except(a, Some(n))[m], a[n := node][m]) {
      assert Lifted(a[m], a[m]);
    }
  }

  lemma StillUpper(a: Nodes, b: Nodes, found: Option<nat>, n: nat)
    requires AllLifted(Except(a, found), b) && n in a && found != Some(n) && InUpper(a[n])
    ensures n in b && InUpper(b[n])
  {
    assert n in Except(a, found) && Lifted(Except(a, found)[n], b[n]);
  }

  /** Adding a node, and changing the children of another, changes no real inode. */
  lemma AddedIsLifted(a: Nodes, c: nat, node: Node, p: nat, parent: Node)
    requires AllOk(a) && c !in a && p in a && parent == a[p].(children := parent.children)
    ensures AllLifted(a, a[c := node][p := parent])
  {
    LiftedNone(a);
    forall n | n in a ensures Lifted(a[n], a[c := node][p := parent][n]) { assert Lifted(a[n], a[n]); }
  }
}
