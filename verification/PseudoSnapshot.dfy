/** Saving the pseudo file system as a flat list of inodes, and building it again from such a list. */
module PseudoSnapshot {
  import opened Common
  import opened PseudoTree

  datatype InodeState = InodeState(ino: nat, parent: nat, name: string)

  datatype FsState = FsState(nextInode: nat, inodes: seq<InodeState>)

  ghost predicate Listed(fs: Fs, s: InodeState) {
    && s.ino in fs.inodes && s.ino != ROOT_ID
    && s.parent == fs.inodes[s.ino].parent && s.name == fs.inodes[s.ino].name
  }

  predicate Distinct(list: seq<InodeState>) {
    forall i, j | 0 <= i < j < |list| :: list[i].ino != list[j].ino
  }

  function Entry(fs: Fs, n: nat): InodeState
    requires n in fs.inodes
  {
    InodeState(n, fs.inodes[n].parent, fs.inodes[n].name)
  }

  /** Every inode but the root, each once, in whatever order the hash map gave them. */
  ghost predicate IsSaved(fs: Fs, st: FsState) {
    && st.nextInode == fs.nextInode && Distinct(st.inodes)
    && (forall s <- st.inodes :: Listed(fs, s))
    && (forall n | n in fs.inodes && n != ROOT_ID :: Entry(fs, n) in st.inodes)
  }

  /** The inodes of the list, not yet connected; of two with one number the later one stays. */
  function Rebuilt(list: seq<InodeState>): map<nat, PseudoInode> {
    if list == [] then map[]
    else
      var last := list[|list| - 1];
      Rebuilt(list[..|list| - 1])[last.ino := PseudoInode(last.parent, last.name, [])]
  }

  function Insert(x: InodeState, list: seq<InodeState>): seq<InodeState> {
    if list == [] || x.ino <= list[0].ino then [x] + list else [list[0]] + Insert(x, list[1..])
  }

  /** Stable sorting by number. */
  function Sorted(list: seq<InodeState>): seq<InodeState> {
    if list == [] then [] else Insert(list[0], Sorted(list[1..]))
  }

  predicate Parented(nodes: map<nat, PseudoInode>, s: InodeState) {
    s.ino in nodes && nodes[s.ino].parent in nodes
  }

  function Adopt(nodes: map<nat, PseudoInode>, ino: nat): map<nat, PseudoInode>
    requires ino in nodes && nodes[ino].parent in nodes
  {
    var p := nodes[ino].parent;
    nodes[p := nodes[p].(children := nodes[p].children + [ino])]
  }

  /** Each inode of the list in turn is appended to its parent's children. */
  function Connected(nodes: map<nat, PseudoInode>, list: seq<InodeState>): Result<map<nat, PseudoInode>> {
    if list == [] then Ok(nodes)
    else
      var last := list[|list| - 1];
      var r := Connected(nodes, list[..|list| - 1]);
      if r.Ok? && Parented(r.value, last) then Ok(Adopt(r.value, last.ino)) else Err
  }

  function Unconnected(fs: Fs, st: FsState): map<nat, PseudoInode>
    requires ROOT_ID in fs.inodes
  {
    Rebuilt(st.inodes)[ROOT_ID := fs.inodes[ROOT_ID]]
  }

  /** What restoring a state into `fs` gives: its root is kept, with the children it already had. */
  function Restored(fs: Fs, st: FsState): Result<Fs>
    requires ROOT_ID in fs.inodes
  {
    var r := Connected(Unconnected(fs, st), Sorted(st.inodes));
    if r.Ok? then Ok(Fs(st.nextInode, r.value)) else Err
  }

  // ---------------------------------------------------------------- rebuilding and sorting

  lemma {:induction false} RebuiltHas(list: seq<InodeState>, s: InodeState)
    requires Distinct(list) && s in list
    ensures s.ino in Rebuilt(list) && Rebuilt(list)[s.ino] == PseudoInode(s.parent, s.name, [])
  {
    if s != list[|list| - 1] { RebuiltHas(list[..|list| - 1], s); }
  }

  lemma {:induction false} RebuiltOnly(list: seq<InodeState>)
    ensures forall n :: n in Rebuilt(list) <==> exists i :: 0 <= i < |list| && list[i].ino == n
    ensures forall n :: n in Rebuilt(list) ==> Rebuilt(list)[n].children == []
  {
    if list == [] {
    } else {
      var front, last := list[..|list| - 1], list[|list| - 1];
      RebuiltOnly(front);
      forall n ensures n in Rebuilt(list) <==> exists i :: 0 <= i < |list| && list[i].ino == n {
        if n in Rebuilt(front) {
          var i :| 0 <= i < |front| && front[i].ino == n;
          assert list[i].ino == n;
        }
        if i :| 0 <= i < |list| && list[i].ino == n { assert i < |front| ==> front[i].ino == n; }
      }
    }
  }

  lemma {:induction false} InsertMembers(x: InodeState, list: seq<InodeState>)
    ensures forall s :: s in Insert(x, list) <==> s == x || s in list
  {
    if !(list == [] || x.ino <= list[0].ino) {
      InsertMembers(x, list[1..]);
      assert list == [list[0]] + list[1..];
    }
  }

  lemma {:induction false} SortedMembers(list: seq<InodeState>)
    ensures forall s :: s in Sorted(list) <==> s in list
  {
    if list == [] {
    } else {
      SortedMembers(list[1..]);
      assert list == [list[0]] + list[1..];
      InsertMembers(list[0], Sorted(list[1..]));
    }
  }

  predicate InOrder(list: seq<InodeState>) {
    forall i, j | 0 <= i < j < |list| :: list[i].ino < list[j].ino
  }

  lemma {:induction false} InsertInOrder(x: InodeState, list: seq<InodeState>)
    requires InOrder(list) && forall s <- list :: s.ino != x.ino
    ensures InOrder(Insert(x, list))
  {
    if !(list == [] || x.ino <= list[0].ino) {
      InsertInOrder(x, list[1..]);
      assert list == [list[0]] + list[1..];
      var rest := Insert(x, list[1..]);
      InsertMembers(x, list[1..]);
      forall j | 0 <= j < |rest| ensures list[0].ino < rest[j].ino { assert rest[j] in rest; }
    }
  }

  lemma {:induction false} SortedInOrder(list: seq<InodeState>)
    requires Distinct(list)
    ensures InOrder(Sorted(list))
  {
    if list == [] {
    } else {
      SortedInOrder(list[1..]);
      SortedMembers(list[1..]);
      InsertInOrder(list[0], Sorted(list[1..]));
    }
  }

  // ---------------------------------------------------------------- connecting

  /** The numbers in the list whose parent is `n`. */
  function KidsOf(nodes: map<nat, PseudoInode>, list: seq<InodeState>, n: nat): seq<nat> {
    if list == [] then []
    else
      var last := list[|list| - 1];
      KidsOf(nodes, list[..|list| - 1], n) + if last.ino in nodes && nodes[last.ino].parent == n then [last.ino] else []
  }

  ghost predicate Grown(nodes: map<nat, PseudoInode>, nodes': map<nat, PseudoInode>, list: seq<InodeState>) {
    && nodes'.Keys == nodes.Keys
    && (forall n | n in nodes ::
          nodes'[n] == PseudoInode(nodes[n].parent, nodes[n].name, nodes[n].children + KidsOf(nodes, list, n)))
  }

  lemma GrownNext(nodes: map<nat, PseudoInode>, mid: map<nat, PseudoInode>, list: seq<InodeState>)
    requires list != [] && Grown(nodes, mid, list[..|list| - 1]) && Parented(nodes, list[|list| - 1])
    ensures Parented(mid, list[|list| - 1]) && Grown(nodes, Adopt(mid, list[|list| - 1].ino), list)
  {
    var front, last := list[..|list| - 1], list[|list| - 1].ino;
    var nodes' := Adopt(mid, last);
    forall n | n in nodes
      ensures nodes'[n] == PseudoInode(nodes[n].parent, nodes[n].name, nodes[n].children + KidsOf(nodes, list, n))
    {
      var now := if nodes[last].parent == n then [last] else [];
      assert KidsOf(nodes, list, n) == KidsOf(nodes, front, n) + now;
      hide KidsOf;
      Regroup(nodes[n].children, KidsOf(nodes, front, n), now);
      NothingMore(nodes[n].children + KidsOf(nodes, front, n));
    }
  }

  lemma AllParented(nodes: map<nat, PseudoInode>, list: seq<InodeState>)
    requires list != []
    ensures (forall s <- list :: Parented(nodes, s)) <==>
            (forall s <- list[..|list| - 1] :: Parented(nodes, s)) && Parented(nodes, list[|list| - 1])
  {
    hide Parented;
    assert list == list[..|list| - 1] + [list[|list| - 1]];
  }

  lemma GrownParents(nodes: map<nat, PseudoInode>, nodes': map<nat, PseudoInode>, list: seq<InodeState>, s: InodeState)
    requires Grown(nodes, nodes', list)
    ensures Parented(nodes', s) <==> Parented(nodes, s)
  {
    hide KidsOf;
  }

  /** Connecting succeeds exactly when every inode of the list has its parent in the map, and then it gives
      every inode the numbers that name it as their parent, in the order of the list. */
  lemma {:induction false} ConnectedGathers(nodes: map<nat, PseudoInode>, list: seq<InodeState>)
    ensures Connected(nodes, list).Ok? <==> forall s <- list :: Parented(nodes, s)
    ensures Connected(nodes, list).Ok? ==> Grown(nodes, Connected(nodes, list).value, list)
  {
    if list == [] {
    } else {
      var front, last := list[..|list| - 1], list[|list| - 1];
      hide Grown, Parented, Adopt;
      ConnectedGathers(nodes, front);
      AllParented(nodes, list);
      var r := Connected(nodes, front);
      if r.Ok? {
        GrownParents(nodes, r.value, front, last);
        if Parented(nodes, last) { GrownNext(nodes, r.value, list); }
      }
    }
  }

  lemma {:induction false} KidsAreOrdered(nodes: map<nat, PseudoInode>, list: seq<InodeState>, n: nat)
    requires InOrder(list)
    ensures Ascending(KidsOf(nodes, list, n))
    ensures forall c :: c in KidsOf(nodes, list, n) <==>
                        c in nodes && nodes[c].parent == n && exists i :: 0 <= i < |list| && list[i].ino == c
  {
    if list == [] {
    } else {
      var front, last := list[..|list| - 1], list[|list| - 1];
      assert list == front + [last];
      KidsAreOrdered(nodes, front, n);
      var now := if last.ino in nodes && nodes[last.ino].parent == n then [last.ino] else [];
      AscendingJoin(KidsOf(nodes, front, n), now);
    }
  }

  /** An ascending list is determined by its members. */
  lemma {:induction false} AscendingUnique(a: seq<nat>, b: seq<nat>)
    requires Ascending(a) && Ascending(b) && forall c :: c in a <==> c in b
    ensures a == b
  {
    assert a == [] <==> b == [] by {
      assert a != [] ==> a[0] in b;
      assert b != [] ==> b[0] in a;
    }
    if a == [] {
    } else {
      assert a[0] in b && b[0] in a;
      assert a[0] == b[0];
      assert a == [a[0]] + a[1..] && b == [b[0]] + b[1..];
      forall c ensures c in a[1..] <==> c in b[1..] { assert c in a <==> c in b; }
      AscendingUnique(a[1..], b[1..]);
    }
  }

  // ---------------------------------------------------------------- save, then restore

  lemma SavedParents(fs: Fs, st: FsState)
    requires Valid(fs) && IsSaved(fs, st)
    ensures var nodes := Unconnected(FRESH, st);
            && nodes.Keys == fs.inodes.Keys
            && (forall n | n in fs.inodes ::
                  nodes[n] == PseudoInode(fs.inodes[n].parent, fs.inodes[n].name, []))
  {
    var nodes := Unconnected(FRESH, st);
    RebuiltOnly(st.inodes);
    forall n | n in fs.inodes
      ensures n in nodes && nodes[n] == PseudoInode(fs.inodes[n].parent, fs.inodes[n].name, [])
    {
      if n == ROOT_ID { assert NodeOk(fs, n); } else { RebuiltHas(st.inodes, Entry(fs, n)); }
    }
    forall n | n in nodes ensures n in fs.inodes {
      if n != ROOT_ID {
        var i :| 0 <= i < |st.inodes| && st.inodes[i].ino == n;
        assert Listed(fs, st.inodes[i]);
      }
    }
  }

  lemma SavedKids(fs: Fs, st: FsState, n: nat)
    requires Valid(fs) && IsSaved(fs, st) && n in fs.inodes
    ensures KidsOf(Unconnected(FRESH, st), Sorted(st.inodes), n) == fs.inodes[n].children
  {
    var nodes, list := Unconnected(FRESH, st), Sorted(st.inodes);
    var kids := KidsOf(nodes, list, n);
    SavedParents(fs, st);
    SortedInOrder(st.inodes);
    SortedMembers(st.inodes);
    KidsAreOrdered(nodes, list, n);
    assert NodeOk(fs, n);
    hide Sorted, KidsOf, Unconnected, Ascending;
    forall c ensures c in kids <==> c in fs.inodes[n].children {
      if c in kids {
        var i :| 0 <= i < |list| && list[i].ino == c;
        assert list[i] in st.inodes && Listed(fs, list[i]) && NodeOk(fs, c);
      }
      if c in fs.inodes[n].children {
        assert ChildOk(fs, n, c) && Entry(fs, c) in list;
      }
    }
    AscendingUnique(kids, fs.inodes[n].children);
  }

  /** Restoring a saved tree into a fresh file system gives back the tree: numbers, parents, names, the order
      of children and the next number. */
  lemma RestoreUndoesSave(fs: Fs, st: FsState)
    requires Valid(fs) && IsSaved(fs, st)
    ensures Restored(FRESH, st) == Ok(fs)
  {
    var nodes, list := Unconnected(FRESH, st), Sorted(st.inodes);
    SavedParents(fs, st);
    SortedMembers(st.inodes);
    ConnectedGathers(nodes, list);
    forall s | s in list ensures Parented(nodes, s) { assert Listed(fs, s) && NodeOk(fs, s.ino); }
    var r := Connected(nodes, list);
    forall n | n in fs.inodes ensures r.value[n] == fs.inodes[n] { SavedKids(fs, st, n); }
    assert r.value == fs.inodes;
  }

  /** Whatever mounts and evictions of childless inodes came before, a restored copy is the same file system:
      every path leads to the same number and every listing is the same. */
  lemma RestoreAfterAnyRun(ops: seq<Op>, st: FsState)
    requires IsSaved(Run(ops), st)
    ensures Restored(FRESH, st) == Ok(Run(ops))
  {
    RunIsTree(ops);
    RestoreUndoesSave(Run(ops), st);
  }

  /** Evicting an inode leaves a state that can be restored exactly when it had no children, or was the root,
      which is never evicted. */
  lemma EvictedIsRestorable(fs: Fs, ino: nat, st: FsState)
    requires Valid(fs) && ino in fs.inodes && fs.inodes[ino].parent in fs.inodes
    requires IsSaved(Evicted(fs, ino), st)
    ensures Restored(FRESH, st).Ok? <==> ino == ROOT_ID || fs.inodes[ino].children == []
  {
    assert NodeOk(fs, ino);
    var fs' := Evicted(fs, ino);
    if ino == ROOT_ID {
      RestoreUndoesSave(fs, st);
    } else if fs.inodes[ino].children == [] {
      EvictedValid(fs, ino);
      RestoreUndoesSave(fs', st);
    } else {
      var c := fs.inodes[ino].children[0];
      assert ChildOk(fs, ino, c) && NodeOk(fs, c);
      var nodes, s := Unconnected(FRESH, st), Entry(fs', c);
      assert s in st.inodes;
      RebuiltHas(st.inodes, s);
      RebuiltOnly(st.inodes);
      SortedMembers(st.inodes);
      ConnectedGathers(nodes, Sorted(st.inodes));
      forall i | 0 <= i < |st.inodes| ensures st.inodes[i].ino != ino { assert Listed(fs', st.inodes[i]); }
      assert !Parented(nodes, s);
    }
  }

  /** The path /a/b. */
  const DEEP: seq<Component> := [RootDir, Normal("a"), Normal("b")]

  /** Mount /a/b and evict a: what is saved cannot be restored. */
  lemma ChildIsLost(st: FsState)
    ensures var fs := Run([Mount(DEEP)]);
            && 2 in fs.inodes && fs.inodes[2].parent in fs.inodes
            && (IsSaved(Evicted(fs, 2), st) ==> Restored(FRESH, st).Err?)
  {
    var fs := Run([Mount(DEEP)]);
    DeepTree();
    RunIsTree([Mount(DEEP)]);
    hide Run;
    if IsSaved(Evicted(fs, 2), st) { EvictedIsRestorable(fs, 2, st); }
  }

  lemma DeepTree()
    ensures var fs := Run([Mount(DEEP)]);
            1 in fs.inodes && 2 in fs.inodes && fs.inodes[2].parent == 1 && fs.inodes[2].children == [3]
  {
    assert [Mount(DEEP)][..0] == [] && Run([]) == FRESH;
    var one, two := DEEP[..1], DEEP[..2];
    assert one[..0] == [] && two[..1] == one && DEEP[..2] == two;
    assert Mounted(FRESH, one) == (FRESH, ROOT_ID);
    var fs1 := Created(FRESH, ROOT_ID, "a");
    assert Mounted(FRESH, two) == (fs1, 2);
    assert Mounted(FRESH, DEEP) == (Created(fs1, 2, "b"), 3);
  }
}
