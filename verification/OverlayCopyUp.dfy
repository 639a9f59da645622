/** Copying a node into the upper layer, with the ancestors it needs. */
module OverlayCopyUp {
  import opened Common
  import opened OverlayMerge

  type Path = seq<Name>

  /** The root's real inodes: the upper layer first, then the lower ones. */
  function Layers(upper: Node, lowers: seq<Node>): seq<Real> {
    [Real(true, upper)] + seq(|lowers|, i requires 0 <= i < |lowers| => Real(false, lowers[i]))
  }

  /** The real inodes of a child node; none when the name is not there. */
  function RealsOf(reals: seq<Real>, name: Name): seq<Real> {
    var column := Column(Scanned(reals), name);
    if column == [] then [] else Cut(column)
  }

  /** The real inodes of the node at a path below a node. */
  function RealsAt(reals: seq<Real>, path: Path): seq<Real>
    decreases path
  {
    if path == [] then reals else RealsAt(RealsOf(reals, path[0]), path[1..])
  }

  function At(n: Node, path: Path): Option<Node> {
    if path == [] then Some(n)
    else if n.Dir? && path[0] in n.children then At(n.children[path[0]], path[1..])
    else None
  }

  /** There is a directory in this layer to create the last name of the path in. */
  predicate CanPut(n: Node, path: Path) {
    path != [] && n.Dir? && (|path| == 1 || (path[0] in n.children && CanPut(n.children[path[0]], path[1..])))
  }

  function Put(n: Node, path: Path, child: Node): Node
    requires CanPut(n, path)
  {
    n.(children := n.children[path[0] := if |path| == 1 then child else Put(n.children[path[0]], path[1..], child)])
  }

  /** A file that is copied byte by byte: a regular one, and a special one, which goes the same way. */
  predicate IsCopied(n: Node) {
    n.File? && !n.leaf.Symlink?
  }

  predicate IsSpecial(n: Node) {
    n.File? && n.leaf.Special?
  }

  /** What one call makes in the upper layer for a directory or a link: an empty directory of the same mode,
      a link with the same target. A file that is copied is the same file once all its bytes are there, if it
      is a regular one. */
  function UpperCopy(n: Node): Node
    requires !n.Whiteout?
  {
    if n.Dir? then Dir(n.mode, false, map[]) else n
  }

  /** How the layers answer one copy: the new entry is refused; or it is made, and a later call to look it up,
      open, read, write or close fails when some bytes are stored; or all calls succeed. `CopyBytes` says which
      bytes are stored then. Only a file has bytes. */
  datatype Answer = Refused | Interrupted(stored: seq<nat>) | Done(stored: seq<nat>)

  /** A file whose first bytes are written over, without being cut first. */
  function Overwritten(was: seq<nat>, bytes: seq<nat>): seq<nat> {
    bytes + if |bytes| < |was| then was[|bytes|..] else []
  }

  /** `create` without the exclusive and truncate flags, and some writes: a regular file that is there is opened
      and keeps its mode. */
  function Written(there: Option<Node>, mode: nat, bytes: seq<nat>): Node {
    if there.Some? && there.value.File? && there.value.leaf.Regular?
    then File(Regular(there.value.leaf.mode, Overwritten(there.value.leaf.bytes, bytes)))
    else File(Regular(mode, bytes))
  }

  /** What a copy leaves in the upper layer where `there` is. */
  function Left(n: Node, answer: Answer, there: Option<Node>): Option<Node>
    requires !n.Whiteout?
  {
    if answer.Refused? then None
    else if IsCopied(n) then Some(Written(there, n.leaf.mode, answer.stored))
    else Some(UpperCopy(n))
  }

  /** The upper layer after a copy-up, and whether it succeeded. */
  datatype Attempt = Attempt(upper: Node, ok: bool)

  /** `copy_node_up`, with `create_upper_dir` for the parent: each call is one step nearer the root.
      `answer(k)` is for the copy of the ancestor whose path has `k` names. */
  function CopyUp(upper: Node, lowers: seq<Node>, path: Path, answer: nat -> Answer): Attempt
    decreases |path|
  {
    var reals := RealsAt(Layers(upper, lowers), path);
    if reals == [] || reals[0].node.Whiteout? then Attempt(upper, false)
    else if reals[0].inUpper then Attempt(upper, true)
    else if path == [] then Attempt(upper, false)
    else
      var parent := CopyUp(upper, lowers, path[..|path| - 1], answer);
      if !parent.ok || !CanPut(parent.upper, path) then Attempt(parent.upper, false)
      else
        var left := Left(reals[0].node, answer(|path|), None);
        Attempt(if left.Some? then Put(parent.upper, path, left.value) else parent.upper, answer(|path|).Done?)
  }

  /** The copy of the node itself is tried: the upper layer lacks it, and its parent got there. */
  predicate Reached(upper: Node, lowers: seq<Node>, path: Path, answer: nat -> Answer) {
    path != [] && At(upper, path).None? && CopyUp(upper, lowers, path[..|path| - 1], answer).ok
  }

  /** The copy leaves a file that is not the one copied. */
  predicate Spoils(n: Node, answer: Answer) {
    n.File? && Left(n, answer, None).Some? && Left(n, answer, None).value != n
  }

  // ---------------------------------------------------------------- which real inode is the upper one

  ghost predicate NoneUpper(reals: seq<Real>) {
    forall i | 0 <= i < |reals| :: !reals[i].inUpper
  }

  /** Only the first real inode can be in the upper layer. */
  ghost predicate FirstUpper(reals: seq<Real>) {
    reals != [] && reals[0].inUpper && NoneUpper(reals[1..])
  }

  lemma {:induction false} ColumnNoneUpper(dirs: seq<Real>, name: Name)
    requires NoneUpper(dirs)
    ensures NoneUpper(Column(dirs, name))
  {
    if dirs == [] {
    } else {
      ColumnNoneUpper(dirs[1..], name);
    }
  }

  lemma RealsOfNoneUpper(reals: seq<Real>, name: Name)
    requires NoneUpper(reals)
    ensures NoneUpper(RealsOf(reals, name))
  {
    ScannedIsPrefix(reals);
    ColumnNoneUpper(Scanned(reals), name);
    ScannedIsPrefix(Column(Scanned(reals), name));
  }

  /** A child has an upper real inode exactly when the upper directory has the name. */
  lemma RealsOfFirstUpper(reals: seq<Real>, name: Name)
    requires FirstUpper(reals) && RealsOf(reals, name) != []
    ensures var top, rs := reals[0].node, RealsOf(reals, name);
            && top.Dir?
            && if name in top.children then FirstUpper(rs) && rs[0].node == top.children[name] else NoneUpper(rs)
  {
    var dirs := Scanned(reals);
    ScannedIsPrefix(reals);
    ColumnNoneUpper(dirs[1..], name);
    ScannedIsPrefix(Column(dirs, name));
  }

  lemma {:induction false} RealsAtNoneUpper(reals: seq<Real>, path: Path)
    requires NoneUpper(reals)
    ensures NoneUpper(RealsAt(reals, path))
    decreases path
  {
    if path == [] {
    } else {
      RealsOfNoneUpper(reals, path[0]);
      RealsAtNoneUpper(RealsOf(reals, path[0]), path[1..]);
    }
  }

  lemma {:induction false} RealsAtNothing(path: Path)
    ensures RealsAt([], path) == []
  {
    if path == [] {
    } else {
      RealsAtNothing(path[1..]);
    }
  }

  /** At any path, the first real inode is the upper one exactly when the upper layer has the path. */
  lemma {:induction false} UpperFirst(reals: seq<Real>, path: Path)
    requires FirstUpper(reals) && RealsAt(reals, path) != []
    ensures var rs, own := RealsAt(reals, path), At(reals[0].node, path);
            if own.Some? then FirstUpper(rs) && rs[0].node == own.value else NoneUpper(rs)
    decreases path
  {
    if path == [] {
    } else {
      RealsAtNothing(path[1..]);
      RealsOfFirstUpper(reals, path[0]);
      var rs := RealsOf(reals, path[0]);
      if path[0] in reals[0].node.children { UpperFirst(rs, path[1..]); } else { RealsAtNoneUpper(rs, path[1..]); }
    }
  }

  // ---------------------------------------------------------------- real inodes and the folded tree

  lemma {:induction false} FoldedScanned(reals: seq<Real>)
    requires reals != [] && reals[0].node.Dir?
    ensures Scanned(reals) != [] && Folded(Scanned(reals)) == Folded(reals)
  {
    var top, rest := reals[0], reals[1..];
    assert reals == [top] + rest;
    FoldedStep(top, rest);
    FoldedStep(top, Scanned(rest));
    FoldedStep(top, []);
    assert [top] + [] == [top];
    if rest == [] {
    } else {
      if rest[0].node.Dir? { FoldedScanned(rest); } else { FoldedLeaf(rest); }
    }
  }

  lemma FoldedCut(reals: seq<Real>)
    requires reals != []
    ensures Folded(Cut(reals)) == Folded(reals)
  {
    if reals[0].node.Dir? { FoldedScanned(reals); } else { FoldedLeaf(reals); FoldedLeaf([reals[0]]); }
  }

  /** The node at a path of the folded tree is the fold of the real inodes at that path. */
  lemma {:induction false} FoldedAt(reals: seq<Real>, path: Path)
    requires reals != []
    ensures At(Folded(reals), path).Some? <==> RealsAt(reals, path) != []
    ensures RealsAt(reals, path) != [] ==> At(Folded(reals), path) == Some(Folded(RealsAt(reals, path)))
    decreases path
  {
    if path == [] {
    } else {
      var name := path[0];
      RealsAtNothing(path[1..]);
      if !reals[0].node.Dir? {
        FoldedLeaf(reals);
      } else {
        FoldedDir(reals);
        var dirs := Scanned(reals);
        ColumnIsLower(dirs, name, Tallest(dirs));
        if name in Names(dirs) {
          FoldedCut(Column(dirs, name));
          FoldedAt(RealsOf(reals, name), path[1..]);
        }
      }
    }
  }

  /** Kind, mode and contents of a folded stack are those of its top. */
  lemma FoldedTop(reals: seq<Real>)
    requires reals != []
    ensures var f, top := Folded(reals), reals[0].node;
            if top.Dir? then f.Dir? && f.mode == top.mode else f == top
  {
    if reals[0].node.Dir? { FoldedDir(reals); } else { FoldedLeaf(reals); }
  }

  // ---------------------------------------------------------------- putting a copy into the upper layer

  lemma {:induction false} AtAppend(n: Node, path: Path, name: Name)
    ensures At(n, path + [name]) ==
            var p := At(n, path);
            if p.Some? && p.value.Dir? && name in p.value.children then Some(p.value.children[name]) else None
  {
    if path == [] {
      assert path + [name] == [name] && [name][1..] == [];
    } else {
      assert (path + [name])[0] == path[0] && (path + [name])[1..] == path[1..] + [name];
      if n.Dir? && path[0] in n.children { AtAppend(n.children[path[0]], path[1..], name); }
    }
  }

  lemma {:induction false} CanPutBelow(n: Node, path: Path, name: Name)
    requires At(n, path).Some? && At(n, path).value.Dir?
    ensures CanPut(n, path + [name])
  {
    if path == [] {
    } else {
      assert (path + [name])[1..] == path[1..] + [name];
      CanPutBelow(n.children[path[0]], path[1..], name);
    }
  }

  lemma {:induction false} AtPut(n: Node, path: Path, child: Node)
    requires CanPut(n, path)
    ensures At(Put(n, path, child), path) == Some(child)
  {
    if |path| > 1 { AtPut(n.children[path[0]], path[1..], child); }
  }

  /** A name the upper layer lacks, put there as a copy of what the layers below show, changes nothing. */
  lemma {:induction false} PutKeepsOver(upper: Node, lower: Node, path: Path, child: Node)
    requires CanPut(upper, path) && At(upper, path).None? && At(Over(upper, lower), path).Some?
    requires Over(child, At(Over(upper, lower), path).value) == At(Over(upper, lower), path).value
    ensures Over(Put(upper, path, child), lower) == Over(upper, lower)
  {
    var name := path[0];
    assert !upper.isOpaque && lower.Dir? && name in lower.children;
    if |path| > 1 {
      PutKeepsOver(upper.children[name], lower.children[name], path[1..], child);
    } else {
      assert path[1..] == [];
    }
    assert OverChildren(Put(upper, path, child), lower) == OverChildren(upper, lower);
  }

  /** A file in the upper layer is what the merged tree has at its path. */
  lemma {:induction false} UpperFileShows(upper: Node, lower: Node, path: Path)
    requires At(upper, path).Some? && At(upper, path).value.File?
    ensures At(Over(upper, lower), path) == At(upper, path)
  {
    if path != [] && upper.Dir? && !upper.isOpaque && lower.Dir? && path[0] in lower.children {
      UpperFileShows(upper.children[path[0]], lower.children[path[0]], path[1..]);
    }
  }

  // ---------------------------------------------------------------- copy-up changes nothing that shows

  ghost function Merged(upper: Node, lowers: seq<Node>): Node {
    Folded(Layers(upper, lowers))
  }

  lemma MergedIsOver(upper: Node, lowers: seq<Node>)
    ensures Merged(upper, lowers) == if lowers == [] then upper else Over(upper, Fold(lowers))
  {
    var low := seq(|lowers|, i requires 0 <= i < |lowers| => Real(false, lowers[i]));
    FoldedStep(Real(true, upper), low);
    assert Nodes(low) == lowers;
  }

  /** What copying up relies on, read off the real inodes: the upper layer lacks the path, the merged tree
      has it, and what is copied is what the merged tree has there. */
  lemma CopySource(upper: Node, lowers: seq<Node>, path: Path)
    requires RealsAt(Layers(upper, lowers), path) != []
    ensures var reals, own := RealsAt(Layers(upper, lowers), path), At(upper, path);
            var shown := At(Merged(upper, lowers), path);
            && (reals[0].inUpper <==> own.Some?) && (own.Some? ==> reals[0].node == own.value)
            && shown.Some?
            && (if reals[0].node.Dir? then shown.value.Dir? && shown.value.mode == reals[0].node.mode
                else shown.value == reals[0].node)
            && (own.None? ==> lowers != [])
  {
    var layers := Layers(upper, lowers);
    assert FirstUpper(layers);
    UpperFirst(layers, path);
    FoldedAt(layers, path);
    FoldedTop(RealsAt(layers, path));
    MergedIsOver(upper, lowers);
  }

  /** After one name has been added to the upper layer the layers merge to the same tree exactly when a
      directory was copied, or the file added is the one that showed. */
  lemma OneCopy(upper: Node, lowers: seq<Node>, path: Path, child: Node)
    requires CanPut(upper, path) && At(upper, path).None?
    requires RealsAt(Layers(upper, lowers), path) != []
    requires var n := RealsAt(Layers(upper, lowers), path)[0].node;
             !n.Whiteout? && if n.Dir? then child == UpperCopy(n) else child.File?
    ensures var n := RealsAt(Layers(upper, lowers), path)[0].node;
            Merged(Put(upper, path, child), lowers) == Merged(upper, lowers) <==> n.Dir? || child == n
  {
    var n := RealsAt(Layers(upper, lowers), path)[0].node;
    var upper' := Put(upper, path, child);
    CopySource(upper, lowers, path);
    MergedIsOver(upper, lowers);
    MergedIsOver(upper', lowers);
    AtPut(upper, path, child);
    var lower, shown := Fold(lowers), At(Merged(upper, lowers), path).value;
    if n.File? && child != n {
      UpperFileShows(upper', lower, path);
    } else {
      if n.Dir? { assert OverChildren(child, shown) == shown.children; }
      PutKeepsOver(upper, lower, path, child);
    }
  }

  lemma DirShows(reals: seq<Real>, dir: Path, name: Name)
    requires reals != [] && RealsAt(reals, dir + [name]) != []
    ensures RealsAt(reals, dir) != [] && RealsAt(reals, dir)[0].node.Dir?
  {
    hide RealsAt, At, Folded;
    FoldedAt(reals, dir + [name]);
    AtAppend(Folded(reals), dir, name);
    FoldedAt(reals, dir);
    FoldedTop(RealsAt(reals, dir));
  }

  lemma ParentShows(upper: Node, lowers: seq<Node>, path: Path)
    requires path != [] && RealsAt(Layers(upper, lowers), path) != []
    ensures var reals := RealsAt(Layers(upper, lowers), path[..|path| - 1]); reals != [] && reals[0].node.Dir?
  {
    hide RealsAt;
    assert path == path[..|path| - 1] + [path[|path| - 1]];
    DirShows(Layers(upper, lowers), path[..|path| - 1], path[|path| - 1]);
  }

  /** Nothing below the path is added or taken away in the upper layer. */
  ghost predicate SameBelow(upper: Node, upper': Node, path: Path) {
    forall name: Name :: At(upper', path + [name]).Some? <==> At(upper, path + [name]).Some?
  }

  /** Copying a node up, with all the ancestors it needs, succeeds exactly when the node is in the upper
      layer or every copy does. Whether it succeeds or fails half way, the merged tree is as it was, unless
      the file was left with other contents: after a failed or a short write, or as any copy of a special file. */
  lemma {:induction false} CopyUpKeepsTree(upper: Node, lowers: seq<Node>, path: Path, answer: nat -> Answer)
    requires upper.Dir?
    requires var reals := RealsAt(Layers(upper, lowers), path); reals != [] && !reals[0].node.Whiteout?
    ensures var n, r := RealsAt(Layers(upper, lowers), path)[0].node, CopyUp(upper, lowers, path, answer);
            && r.upper.Dir?
            && (r.ok <==> At(upper, path).Some? || (Reached(upper, lowers, path, answer) && answer(|path|).Done?))
            && (r.ok ==> At(r.upper, path).Some? && (n.Dir? ==> At(r.upper, path).value.Dir?))
            && (r.ok ==> SameBelow(upper, r.upper, path))
            && (Merged(r.upper, lowers) == Merged(upper, lowers) <==>
                !(Reached(upper, lowers, path, answer) && Spoils(n, answer(|path|))))
    decreases |path|
  {
    CopySource(upper, lowers, path);
    if At(upper, path).None? {
      var parent, name := path[..|path| - 1], path[|path| - 1];
      assert path == parent + [name];
      ParentShows(upper, lowers, path);
      CopyUpKeepsTree(upper, lowers, parent, answer);
      if CopyUp(upper, lowers, parent, answer).ok { LastCopyKeepsTree(upper, lowers, parent, name, answer); }
    }
  }

  /** The last of the copies, once the parent is there. */
  lemma LastCopyKeepsTree(upper: Node, lowers: seq<Node>, parent: Path, name: Name, answer: nat -> Answer)
    requires upper.Dir? && At(upper, parent + [name]).None?
    requires var reals := RealsAt(Layers(upper, lowers), parent + [name]); reals != [] && !reals[0].node.Whiteout?
    requires var p := CopyUp(upper, lowers, parent, answer);
             && p.ok && p.upper.Dir? && At(p.upper, parent).Some? && At(p.upper, parent).value.Dir?
             && SameBelow(upper, p.upper, parent) && Merged(p.upper, lowers) == Merged(upper, lowers)
    ensures var path := parent + [name];
            var n, r := RealsAt(Layers(upper, lowers), path)[0].node, CopyUp(upper, lowers, path, answer);
            && r.upper.Dir? && (r.ok <==> answer(|path|).Done?)
            && (r.ok ==> At(r.upper, path).Some? && (n.Dir? ==> At(r.upper, path).value.Dir?))
            && (r.ok ==> SameBelow(upper, r.upper, path))
            && (Merged(r.upper, lowers) == Merged(upper, lowers) <==> !Spoils(n, answer(|path|)))
  {
    var path := parent + [name];
    CopySource(upper, lowers, path);
    assert path[..|path| - 1] == parent;
    var upper1 := CopyUp(upper, lowers, parent, answer).upper;
    CanPutBelow(upper1, parent, name);
    assert At(upper1, parent + [name]).None?;
    var n, upper' := RealsAt(Layers(upper, lowers), path)[0].node, CopyUp(upper, lowers, path, answer).upper;
    FoldedAt(Layers(upper, lowers), path);
    FoldedAt(Layers(upper1, lowers), path);
    CopySource(upper1, lowers, path);
    var n1, left := RealsAt(Layers(upper1, lowers), path)[0].node, Left(n, answer(|path|), None);
    assert if n.Dir? then n1.Dir? && n1.mode == n.mode else n1 == n;
    if left.Some? {
      OneCopy(upper1, lowers, path, left.value);
      AtPut(upper1, path, left.value);
      forall m: Name ensures answer(|path|).Done? ==> (At(upper', path + [m]).Some? <==> At(upper, path + [m]).Some?) {
        AtAppend(upper, path, m);
        AtAppend(upper', path, m);
      }
    }
  }

  /** So the tree that clients see, read lazily from the layers, is the same after a copy-up that leaves no file
      with other contents. */
  lemma CopyUpKeepsView(upper: Node, lowers: seq<Node>, path: Path, answer: nat -> Answer)
    requires upper.Dir?
    requires var reals := RealsAt(Layers(upper, lowers), path);
             && reals != [] && !reals[0].node.Whiteout?
             && !(Reached(upper, lowers, path, answer) && Spoils(reals[0].node, answer(|path|)))
    ensures View(Layers(CopyUp(upper, lowers, path, answer).upper, lowers)) == View(Layers(upper, lowers))
  {
    CopyUpKeepsTree(upper, lowers, path, answer);
    LazyMergeIsFold(Layers(upper, lowers));
    LazyMergeIsFold(Layers(CopyUp(upper, lowers, path, answer).upper, lowers));
  }

  /** A copy of a regular file is the file exactly when all its bytes are stored, and no copy of a special file is. */
  lemma SpoiledMeans(n: Node, answer: Answer)
    requires IsCopied(n) && !answer.Refused?
    ensures Spoils(n, answer) <==> IsSpecial(n) || answer.stored != n.leaf.bytes
  {
  }

  /** A pipe in the lower layer, with all calls of its copy succeeding: the merged tree gets an empty file. */
  lemma SpecialIsLost()
    ensures var upper, lower := Dir(0, false, map[]), Dir(0, false, map["p" := File(Special(0, 0))]);
            var r := CopyUp(upper, [lower], ["p"], _ => Done([]));
            r.ok && Merged(r.upper, [lower]) != Merged(upper, [lower])
  {
    var upper, lower := Dir(0, false, map[]), Dir(0, false, map["p" := File(Special(0, 0))]);
    var reals, answer := Layers(upper, [lower]), (_: nat) => Done([]);
    var low, pipe := [Real(false, lower)], [Real(false, lower.children["p"])];
    assert reals == [Real(true, upper)] + low && reals[1..] == low && low[1..] == [];
    NothingMore(low);
    assert Scanned(low) == low + Scanned([]);
    assert Scanned(reals) == [reals[0]] + Scanned(reals[1..]) == reals;
    NothingMore(pipe);
    assert Column(low, "p") == pipe + Column([], "p");
    assert Column(reals, "p") == [] + Column(low, "p");
    assert ["p"][0] == "p" && ["p"][1..] == [] && Cut(pipe) == pipe;
    assert RealsOf(reals, "p") == pipe && RealsAt(reals, ["p"]) == RealsAt(pipe, []) == pipe;
    assert RealsAt(reals, []) == reals && ["p"][..0] == [];
    assert CopyUp(upper, [lower], [], answer).ok && At(upper, ["p"]).None?;
    SpoiledMeans(lower.children["p"], answer(1));
    CopyUpKeepsTree(upper, [lower], ["p"], answer);
    assert Reached(upper, [lower], ["p"], answer);
  }

  // ---------------------------------------------------------------- the bytes of a regular file

  /** How much the i-th write is handed when `left` bytes of the temporary file have not been read: at most
      `chunk(i)`, whatever keeps that below the 4 MiB of the source. */
  function Handed(chunk: nat -> nat, i: nat, left: nat): nat {
    if chunk(i) < left then chunk(i) else left
  }

  /** From the i-th write on, with `left` bytes to go, every write has room for what it is handed. */
  predicate AllFit(chunk: nat -> nat, room: nat -> nat, i: nat, left: nat)
    requires forall k :: chunk(k) > 0
    decreases left
  {
    left == 0 || (Handed(chunk, i, left) <= room(i) && AllFit(chunk, room, i + 1, left - Handed(chunk, i, left)))
  }

  /** The two loops of `copy_regfile_up`: the lower file into a temporary one, and that into the upper
      file. The i-th read moves at most `got(i)` bytes, and the i-th write stores at most `room(i)` of the
      bytes it is handed. The bytes arrive exactly when every write has room for what it is handed; after a
      short write the copy comes out too short. */
  method CopyBytes(lower: seq<nat>, got: nat -> nat, chunk: nat -> nat, room: nat -> nat) returns (upper: seq<nat>)
    requires forall i :: got(i) > 0
    requires forall i :: chunk(i) > 0
    ensures if AllFit(chunk, room, 0, |lower|) then upper == lower else |upper| < |lower|
  {
    var temp := CopyToTemp(lower, got);
    var position, call := 0, 0;
    ghost var short := false;
    upper := [];
    while true
      invariant |upper| <= position <= |lower|
      invariant AllFit(chunk, room, 0, |lower|) <==> !short && AllFit(chunk, room, call, |lower| - position)
      invariant if short then |upper| < position else upper == lower[..position]
      decreases |lower| - position
    {
      var handed := Handed(chunk, call, |lower| - position);
      if handed == 0 { break; }
      var ret := if room(call) < handed then room(call) else handed;
      upper := upper + temp[position..position + ret];
      short := short || ret < handed;
      position := position + handed;
      call := call + 1;
      if ret == 0 { break; }
    }
  }

  /** A file of four bytes and a write that has room for three: the copy comes out shorter. */
  lemma NoRoom()
    ensures !AllFit(_ => 4, _ => 3, 0, 4)
  {
  }

  method CopyToTemp(lower: seq<nat>, got: nat -> nat) returns (temp: seq<nat>)
    requires forall i :: got(i) > 0
    ensures temp == lower
  {
    temp := [];
    var call := 0;
    while true
      invariant temp <= lower
      decreases |lower| - |temp|
    {
      var ret := Handed(got, call, |lower| - |temp|);
      if ret == 0 { break; }
      temp := temp + lower[|temp|..|temp| + ret];
      call := call + 1;
    }
  }
}
