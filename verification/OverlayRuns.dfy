/** Whole runs of loads and copy-ups: what they do to the nodes in memory, to the layers and to the merged tree,
    when any copy can fail half way and be tried again. */
module OverlayRuns {
  import opened Common
  import opened OverlayMerge
  import opened OverlayCopyUp
  import opened OverlayMemory

  /** Loading a name of a directory, and one copy of a loaded node. */
  datatype Op = Load(dir: Path, name: Name) | Raise(path: Path, answer: Answer)

  function Parent(path: Path): Path
    requires path != []
  {
    path[..|path| - 1]
  }

  /** The node's parent is known to be in the upper layer. */
  predicate ParentUp(o: Overlay, path: Path) {
    && path != [] && Parent(path) in o.loaded
    && o.loaded[Parent(path)] != [] && o.loaded[Parent(path)][0] == 0
  }

  predicate IsRegular(n: Node) {
    n.File? && n.leaf.Regular?
  }

  /** A copy of this node is tried: the node is not known to be in the upper layer, and its parent is. A layer
      refuses to make a directory or a link that it has, and opens a file that it has. */
  predicate Tries(o: Overlay, path: Path) {
    && path in o.loaded && o.loaded[path] != [] && o.loaded[path][0] != 0
    && ParentUp(o, path) && CanPut(o.upper, path)
    && Source(o, path).Some? && !Source(o, path).value.Whiteout?
    && (At(o.upper, path).None? || (IsCopied(Source(o, path).value) && IsRegular(At(o.upper, path).value)))
  }

  function Raised(o: Overlay, path: Path, answer: Answer): Overlay {
    if !Tries(o, path) then o
    else
      var n := Source(o, path).value;
      var left := Left(n, answer, At(o.upper, path));
      Overlay(if left.Some? then Put(o.upper, path, left.value) else o.upper, o.lowers,
              if answer.Done? then o.loaded[path := WithUpper(o.loaded[path], 0, !n.Dir?)] else o.loaded)
  }

  function Applied(o: Overlay, op: Op): Overlay {
    match op
    case Load(dir, name) => Loaded(o, dir, name)
    case Raise(path, answer) => Raised(o, path, answer)
  }

  function Run(o: Overlay, ops: seq<Op>): Overlay {
    if ops == [] then o else Applied(Run(o, ops[..|ops| - 1]), ops[|ops| - 1])
  }

  /** The root, over all layers. */
  function Start(upper: Node, lowers: seq<Node>): Overlay {
    Overlay(upper, lowers, map[[] := seq(|lowers| + 1, i => i)])
  }

  /** The copy leaves something in the upper layer and then fails, so the node does not learn of it. */
  predicate Interrupts(o: Overlay, op: Op) {
    op.Raise? && Tries(o, op.path) && op.answer.Interrupted?
  }

  /** All calls of a copy of this path succeed. */
  predicate Finishes(op: Op, path: Path) {
    op.Raise? && op.path == path && op.answer.Done?
  }

  // ---------------------------------------------------------------- adding a name to a tree

  /** What may be put where nothing is, or a file. */
  predicate IsBare(n: Node) {
    n.File? || (n.Dir? && n.children == map[])
  }

  lemma {:induction false} PutPaths(n: Node, path: Path, child: Node, q: Path)
    requires CanPut(n, path) && IsBare(child) && q != path
    requires At(n, path).Some? ==> At(n, path).value.File?
    ensures At(Put(n, path, child), q).Some? <==> At(n, q).Some?
  {
    if q == [] || q[0] != path[0] {
    } else if |path| == 1 {
      assert path[1..] == [] && path == [path[0]] && q == [q[0]] + q[1..];
      assert q[1..] != [];
      assert path[0] in n.children ==> At(n, path) == At(n.children[path[0]], []);
    } else {
      assert path == [path[0]] + path[1..] && q == [q[0]] + q[1..];
      PutPaths(n.children[path[0]], path[1..], child, q[1..]);
    }
  }

  /** Off the path nothing changes. */
  lemma {:induction false} PutBeside(n: Node, path: Path, child: Node, q: Path)
    requires CanPut(n, path) && !(q <= path) && !(path <= q)
    ensures At(Put(n, path, child), q) == At(n, q)
    ensures CanPut(Put(n, path, child), q) <==> CanPut(n, q)
  {
    if q[0] == path[0] {
      assert path == [path[0]] + path[1..] && q == [q[0]] + q[1..];
      assert |path| == 1 ==> path <= q;
      PutBeside(n.children[path[0]], path[1..], child, q[1..]);
    }
  }

  lemma {:induction false} PutHere(n: Node, path: Path, child: Node)
    requires CanPut(n, path)
    ensures CanPut(Put(n, path, child), path)
  {
    if |path| > 1 { PutHere(n.children[path[0]], path[1..], child); }
  }

  /** The second of two puts at one path is the one that stays. */
  lemma {:induction false} PutTwice(n: Node, path: Path, a: Node, b: Node)
    requires CanPut(n, path) && CanPut(Put(n, path, a), path)
    ensures Put(Put(n, path, a), path, b) == Put(n, path, b)
  {
    if |path| > 1 {
      PutHere(n.children[path[0]], path[1..], a);
      PutTwice(n.children[path[0]], path[1..], a, b);
    }
  }

  /** A path that something can be put at leads through directories that have the names on it. */
  lemma {:induction false} WayTo(n: Node, path: Path, q: Path)
    requires CanPut(n, path) && q <= path && |q| < |path|
    ensures At(n, q).Some? && At(n, q).value.Dir?
    ensures |q| + 1 < |path| ==> path[|q|] in At(n, q).value.children
  {
    if q == [] {
    } else {
      WayTo(n.children[path[0]], path[1..], q[1..]);
    }
  }

  // ---------------------------------------------------------------- what a node has not been told

  /** The upper layer has the path and the node does not know. */
  predicate Pending(o: Overlay, path: Path) {
    path in o.loaded && o.loaded[path] != [] && o.loaded[path][0] != 0 && At(o.upper, path).Some?
  }

  /** What an interrupted copy of a node can leave. */
  predicate IsLeft(n: Node, left: Node)
    requires !n.Whiteout?
  {
    if IsCopied(n) then IsRegular(left) && left.leaf.mode == n.leaf.mode else left == UpperCopy(n)
  }

  ghost predicate Leftover(o: Overlay, path: Path) {
    && ParentUp(o, path) && CanPut(o.upper, path) && At(o.upper, path).Some?
    && Source(o, path).Some? && !Source(o, path).value.Whiteout?
    && IsLeft(Source(o, path).value, At(o.upper, path).value)
  }

  /** The overlay in which every node knows of what its interrupted copies left. */
  function Told(o: Overlay): Overlay {
    o.(loaded := map path | path in o.loaded :: ToldRefs(o, path))
  }

  function ToldRefs(o: Overlay, path: Path): seq<nat>
    requires path in o.loaded
  {
    if Pending(o, path) && Source(o, path).Some?
    then WithUpper(o.loaded[path], 0, !Source(o, path).value.Dir?) else o.loaded[path]
  }

  /** Once told, every node has the real inodes that merging the layers anew gives it. */
  ghost predicate Sound(o: Overlay) {
    Consistent(Told(o)) && forall path | Pending(o, path) :: Leftover(o, path)
  }

  lemma NonePending(o: Overlay)
    requires Sound(o) && forall path :: !Pending(o, path)
    ensures Consistent(o)
  {
    assert Told(o) == o;
  }

  lemma PendingIsWrong(o: Overlay, path: Path)
    requires Pending(o, path)
    ensures !Consistent(o)
  {
    if Matches(o, path) { RefsByUpper(o, path); }
  }

  /** A way that leads through an empty directory ends there. */
  lemma WayEnds(n: Node, path: Path, q: Path)
    requires CanPut(n, path) && q <= path && |q| < |path| && At(n, q).Some? && IsBare(At(n, q).value)
    ensures Parent(path) == q
  {
    WayTo(n, path, q);
  }

  /** No copy is tried at, below or on the way to a leftover other than its own. */
  lemma LeftoverApart(o: Overlay, path: Path, q: Path)
    requires Tries(o, path) && Pending(o, q) && Leftover(o, q) && q != path
    ensures !(q <= path) && !(path <= q)
  {
    if q <= path {
      WayEnds(o.upper, path, q);
      assert false;
    }
    if path <= q {
      WayTo(o.upper, q, path);
      assert false;
    }
  }

  // ---------------------------------------------------------------- one copy

  /** A node that is not known to be in the upper layer shows what it showed. */
  lemma SourceStays(o: Overlay, o': Overlay, q: Path)
    requires o'.lowers == o.lowers && q in o.loaded && q in o'.loaded && o'.loaded[q] == o.loaded[q]
    ensures o.loaded[q] != [] && o.loaded[q][0] != 0 ==> Source(o', q) == Source(o, q)
  {
  }

  /** A copy of one node tells the others nothing new. */
  lemma ToldOthers(o: Overlay, o': Overlay, path: Path, child: Node, q: Path)
    requires CanPut(o.upper, path) && IsBare(child) && (At(o.upper, path).Some? ==> At(o.upper, path).value.File?)
    requires o'.upper == Put(o.upper, path, child) && o'.lowers == o.lowers
    requires q in o.loaded && q in o'.loaded && o'.loaded[q] == o.loaded[q] && q != path
    ensures ToldRefs(o', q) == ToldRefs(o, q) && (Pending(o', q) <==> Pending(o, q))
  {
    PutPaths(o.upper, path, child, q);
    hide At, Put, CanPut;
    SourceStays(o, o', q);
  }

  /** The layers and the references after a copy that is not refused. */
  lemma RaisedIs(o: Overlay, path: Path, answer: Answer)
    requires Tries(o, path) && !answer.Refused?
    ensures var n, o' := Source(o, path).value, Raised(o, path, answer);
            var child := Left(n, answer, At(o.upper, path)).value;
            && o'.upper == Put(o.upper, path, child) && o'.lowers == o.lowers && o'.loaded.Keys == o.loaded.Keys
            && (forall q | q in o.loaded && q != path :: o'.loaded[q] == o.loaded[q])
            && o'.loaded[path] == (if answer.Done? then WithUpper(o.loaded[path], 0, !n.Dir?) else o.loaded[path])
            && IsBare(child) && (if n.Dir? then child == UpperCopy(n) else child.File?)
            && ToldRefs(o', path) == WithUpper(o.loaded[path], 0, !n.Dir?)
  {
    var n, o' := Source(o, path).value, Raised(o, path, answer);
    AtPut(o.upper, path, Left(n, answer, At(o.upper, path)).value);
    if !answer.Done? { SourceStays(o, o', path); }
  }

  lemma ToldWith(o: Overlay, o': Overlay, path: Path)
    requires path in o'.loaded && o'.loaded.Keys == o.loaded.Keys + {path}
    requires forall q | q in o.loaded && q != path :: ToldRefs(o', q) == ToldRefs(o, q)
    ensures Told(o').loaded == Told(o).loaded[path := ToldRefs(o', path)]
  {
    hide ToldRefs;
  }

  /** The copy of a node that has nothing in the upper layer yet. */
  lemma FreshIsAdded(o: Overlay, path: Path, answer: Answer)
    requires Sound(o) && Tries(o, path) && At(o.upper, path).None? && !answer.Refused?
    ensures var child := Left(Source(o, path).value, answer, None).value;
            CanAdd(Told(o), path, child) && Told(Raised(o, path, answer)) == Added(Told(o), path, child)
  {
    var n, o', t := Source(o, path).value, Raised(o, path, answer), Told(o);
    var child := Left(n, answer, None).value;
    RaisedIs(o, path, answer);
    assert t.loaded[path] == o.loaded[path];
    assert Source(t, path) == Source(o, path);
    hide Raised, Left, ToldRefs, Sound, At, Put, CanPut, UpperCopy;
    forall q | q in o.loaded && q != path ensures ToldRefs(o', q) == ToldRefs(o, q) {
      ToldOthers(o, o', path, child, q);
    }
    ToldWith(o, o', path);
  }

  /** A copy that is tried again writes over the file that the last one left. */
  lemma RetryIsRewrite(o: Overlay, path: Path, answer: Answer)
    requires Sound(o) && Tries(o, path) && At(o.upper, path).Some? && !answer.Refused?
    ensures var child := Left(Source(o, path).value, answer, At(o.upper, path)).value;
            && Told(o).loaded[path] == [0] && child.File?
            && Told(Raised(o, path, answer)) == Told(o).(upper := Put(o.upper, path, child))
  {
    var o' := Raised(o, path, answer);
    var child := Left(Source(o, path).value, answer, At(o.upper, path)).value;
    RaisedIs(o, path, answer);
    assert ToldRefs(o, path) == [0] == ToldRefs(o', path);
    hide Raised, Left, ToldRefs, Sound, At, Put, CanPut, UpperCopy;
    forall q | q in o.loaded && q != path ensures ToldRefs(o', q) == ToldRefs(o, q) {
      ToldOthers(o, o', path, child, q);
    }
    ToldWith(o, o', path);
    assert Told(o).loaded[path := [0]] == Told(o).loaded;
  }

  /** What a copy leaves where nothing was, or where an interrupted one left a file. */
  lemma LeftIsLeft(n: Node, answer: Answer, there: Option<Node>)
    requires !n.Whiteout? && !answer.Refused? && (there.Some? ==> IsCopied(n) && IsLeft(n, there.value))
    ensures IsLeft(n, Left(n, answer, there).value)
  {
  }

  lemma RaiseLeaves(o: Overlay, path: Path, answer: Answer, q: Path)
    requires Sound(o) && Tries(o, path) && !answer.Refused? && Pending(Raised(o, path, answer), q)
    ensures Leftover(Raised(o, path, answer), q)
  {
    var n, o' := Source(o, path).value, Raised(o, path, answer);
    var child := Left(n, answer, At(o.upper, path)).value;
    assert At(o.upper, path).Some? ==> Leftover(o, path);
    LeftIsLeft(n, answer, At(o.upper, path));
    if q == path {
      AtPut(o.upper, path, child);
      PutHere(o.upper, path, child);
      SourceStays(o, o', path);
    } else {
      PutPaths(o.upper, path, child, q);
      SourceStays(o, o', q);
      assert Leftover(o, q);
      LeftoverApart(o, path, q);
      PutBeside(o.upper, path, child, q);
    }
  }

  /** One copy keeps the overlay sound, however it ends. */
  lemma RaiseSound(o: Overlay, path: Path, answer: Answer)
    requires Sound(o)
    ensures Sound(Raised(o, path, answer))
  {
    if Tries(o, path) && !answer.Refused? {
      var o' := Raised(o, path, answer);
      if At(o.upper, path).None? {
        FreshIsAdded(o, path, answer);
        AddKeeps(Told(o), path, Left(Source(o, path).value, answer, None).value);
      } else {
        RetryIsRewrite(o, path, answer);
        RewriteKeeps(Told(o), path, Left(Source(o, path).value, answer, At(o.upper, path)).value);
      }
      hide Consistent, Told;
      forall q | Pending(o', q) ensures Leftover(o', q) { RaiseLeaves(o, path, answer, q); }
    }
  }

  // ---------------------------------------------------------------- one load

  /** What a scan finds depends on the layers and the references only. */
  lemma FoundSame(o: Overlay, t: Overlay, dir: Path, refs: seq<nat>, name: Name)
    requires t.upper == o.upper && t.lowers == o.lowers
    ensures AllShow(t, dir, refs) <==> AllShow(o, dir, refs)
    ensures AllShow(o, dir, refs) ==> Found(t, dir, refs, name) == Found(o, dir, refs, name)
  {
    assert forall path, i: nat :: Shows(t, path, i) == Shows(o, path, i);
    hide Shows, LayerOf;
    if AllShow(o, dir, refs) {
      assert Deref(t, dir, refs) == Deref(o, dir, refs);
      var scanned := |Scanned(Deref(o, dir, refs))|;
      if scanned <= |refs| {
        HavingSame(o, t, dir, refs[..scanned], name);
        var column := Having(o, dir, refs[..scanned], name);
        if AllShow(o, dir + [name], column) {
          assert Deref(t, dir + [name], column) == Deref(o, dir + [name], column);
        }
      }
    }
  }

  lemma {:induction false} HavingSame(o: Overlay, t: Overlay, dir: Path, refs: seq<nat>, name: Name)
    requires forall i: nat :: Shows(t, dir + [name], i) == Shows(o, dir + [name], i)
    ensures Having(t, dir, refs, name) == Having(o, dir, refs, name)
  {
    hide Shows;
    if refs == [] {
    } else {
      HavingSame(o, t, dir, refs[1..], name);
    }
  }

  /** A directory that an interrupted copy left is empty, so a scan that does not know of it finds the same. */
  lemma FoundUnderEmpty(o: Overlay, dir: Path, refs: seq<nat>, name: Name)
    requires AllShow(o, dir, refs) && At(o.upper, dir).Some? && IsBare(At(o.upper, dir).value)
    requires At(o.upper, dir).value.Dir? && !At(o.upper, dir).value.isOpaque
    ensures AllShow(o, dir, [0] + refs) && Found(o, dir, [0] + refs, name) == Found(o, dir, refs, name)
  {
    var told, reals := [0] + refs, Deref(o, dir, refs);
    forall k | 0 <= k < |told| ensures Shows(o, dir, told[k]).Some? { assert k > 0 ==> told[k] == refs[k - 1]; }
    var top := Real(true, At(o.upper, dir).value);
    assert Deref(o, dir, told) == [top] + reals;
    assert ([top] + reals)[1..] == reals;
    assert Scanned([top] + reals) == [top] + Scanned(reals);
    var n := |Scanned(reals)|;
    ScannedIsPrefix(reals);
    AtAppend(o.upper, dir, name);
    assert told[..n + 1] == [0] + refs[..n] && ([0] + refs[..n])[1..] == refs[..n];
    assert Having(o, dir, told[..n + 1], name) == Having(o, dir, refs[..n], name);
  }

  lemma FoundUntold(o: Overlay, dir: Path, name: Name)
    requires Sound(o) && dir in o.loaded && AllShow(o, dir, o.loaded[dir])
    ensures var told := Told(o).loaded[dir];
            AllShow(o, dir, told) && Found(o, dir, told, name) == Found(o, dir, o.loaded[dir], name)
  {
    var refs := o.loaded[dir];
    if Pending(o, dir) {
      assert Leftover(o, dir);
      var n := Source(o, dir).value;
      assert Deref(o, dir, refs)[0].node == n;
      if n.Dir? {
        FoundUnderEmpty(o, dir, refs, name);
      } else {
        assert Shows(o, dir, 0) == At(o.upper, dir);
        assert Scanned(Deref(o, dir, [0])) == [] && Scanned(Deref(o, dir, refs)) == [];
        assert Having(o, dir, [], name) == [] && refs[..0] == [] && [0][..0] == [];
      }
    }
  }

  /** Loading a name tells nothing and asks for nothing to be told. */
  lemma LoadedIsTold(o: Overlay, dir: Path, name: Name)
    requires Sound(o) && Loaded(o, dir, name) != o
    ensures !Pending(Loaded(o, dir, name), dir + [name])
    ensures Told(Loaded(o, dir, name)) == Loaded(Told(o), dir, name)
  {
    var o', path, t := Loaded(o, dir, name), dir + [name], Told(o);
    FoundUntold(o, dir, name);
    FoundSame(o, t, dir, t.loaded[dir], name);
    LoadKeeps(t, dir, name);
    var t' := Loaded(t, dir, name);
    assert path !in t.loaded && t' == t.(loaded := t.loaded[path := o'.loaded[path]]);
    assert o'.loaded == o.loaded[path := o'.loaded[path]] && o'.upper == o.upper && o'.lowers == o.lowers;
    hide Loaded, Found, Sound, Told, RealsAt, At;
    assert Matches(t', path);
    RefsByUpper(t', path);
    forall q | q in o.loaded ensures ToldRefs(o', q) == ToldRefs(o, q) { SourceStays(o, o', q); }
    ToldWith(o, o', path);
  }

  /** Loading a name keeps the overlay sound, also in a directory that has not been told. */
  lemma LoadSound(o: Overlay, dir: Path, name: Name)
    requires Sound(o)
    ensures Sound(Loaded(o, dir, name))
  {
    var o' := Loaded(o, dir, name);
    if o' != o {
      LoadedIsTold(o, dir, name);
      LoadKeeps(Told(o), dir, name);
      hide Consistent, Told;
      forall q | Pending(o', q) ensures Leftover(o', q) {
        assert Pending(o, q) && Leftover(o, q);
        SourceStays(o, o', q);
      }
    }
  }

  // ---------------------------------------------------------------- which leftovers there are

  /** A leftover file goes with the next copy of it that finishes; a directory or link stays one for good. */
  predicate Mends(o: Overlay, op: Op, path: Path) {
    Finishes(op, path) && CopiesFile(o, path)
  }

  predicate CopiesFile(o: Overlay, path: Path) {
    Source(o, path).Some? && IsCopied(Source(o, path).value)
  }

  lemma PendingAfterRaise(o: Overlay, path: Path, answer: Answer, q: Path)
    requires Sound(o)
    ensures var op := Raise(path, answer);
            Pending(Raised(o, path, answer), q) <==>
            (Interrupts(o, op) && path == q) || (Pending(o, q) && !Mends(o, op, q))
  {
    if Tries(o, path) && !answer.Refused? {
      RaisedIs(o, path, answer);
      var child := Left(Source(o, path).value, answer, At(o.upper, path)).value;
      AtPut(o.upper, path, child);
      hide Raised, Left, Put, CanPut, Sound;
      if q != path && q in o.loaded { ToldOthers(o, Raised(o, path, answer), path, child, q); }
    } else if Pending(o, q) && path == q {
      assert Leftover(o, q);
    }
  }

  lemma PendingStep(o: Overlay, op: Op, q: Path)
    requires Sound(o)
    ensures Pending(Applied(o, op), q) <==> (Interrupts(o, op) && op.path == q) || (Pending(o, q) && !Mends(o, op, q))
  {
    match op
    case Raise(path, answer) => PendingAfterRaise(o, path, answer, q);
    case Load(dir, name) =>
      if Loaded(o, dir, name) != o && q == dir + [name] { LoadedIsTold(o, dir, name); }
  }

  // ---------------------------------------------------------------- every run

  lemma StartIsSound(upper: Node, lowers: seq<Node>)
    ensures Sound(Start(upper, lowers)) && forall q :: !Pending(Start(upper, lowers), q)
  {
    var o := Start(upper, lowers);
    assert Deref(o, [], o.loaded[[]]) == Roots(o);
    assert Told(o) == o;
  }

  lemma {:induction false} RunIsSound(upper: Node, lowers: seq<Node>, ops: seq<Op>)
    ensures Sound(Run(Start(upper, lowers), ops))
  {
    hide Sound, Applied;
    if ops == [] {
      StartIsSound(upper, lowers);
    } else {
      var front, op := ops[..|ops| - 1], ops[|ops| - 1];
      RunIsSound(upper, lowers, front);
      SoundStep(Run(Start(upper, lowers), front), op);
    }
  }

  lemma SoundStep(o: Overlay, op: Op)
    requires Sound(o)
    ensures Sound(Applied(o, op))
  {
    hide Sound, Loaded, Raised;
    match op
    case Load(dir, name) => LoadSound(o, dir, name);
    case Raise(path, answer) => RaiseSound(o, path, answer);
  }

  /** The k-th operation interrupts a copy, and nothing mends what it leaves. */
  ghost predicate LeavesForGood(o: Overlay, ops: seq<Op>, k: nat)
    requires k < |ops|
  {
    var b := Run(o, ops[..k]);
    && Interrupts(b, ops[k])
    && !(CopiesFile(b, ops[k].path) && exists j | k < j < |ops| :: Finishes(ops[j], ops[k].path))
  }

  /** References change only when the node learns that it is in the upper layer. */
  lemma RefsStay(o: Overlay, op: Op, q: Path)
    requires q in o.loaded
    ensures var o' := Applied(o, op);
            && o'.lowers == o.lowers && q in o'.loaded
            && (o'.loaded[q] == o.loaded[q] || (o'.loaded[q] != [] && o'.loaded[q][0] == 0))
            && (o.loaded[q] != [] && o.loaded[q][0] == 0 ==> o'.loaded[q] == o.loaded[q])
  {
    hide Found, Left, At, CanPut, Put;
  }

  lemma {:induction false} SourceFixed(o: Overlay, ops: seq<Op>, k: nat, q: Path)
    requires k <= |ops| && q in Run(o, ops[..k]).loaded
    ensures var b, o' := Run(o, ops[..k]), Run(o, ops);
            && o'.lowers == b.lowers && q in o'.loaded
            && (o'.loaded[q] != [] && o'.loaded[q][0] != 0 ==>
                  o'.loaded[q] == b.loaded[q] && Source(o', q) == Source(b, q))
            && (b.loaded[q] != [] && b.loaded[q][0] == 0 ==> o'.loaded[q] == b.loaded[q])
  {
    hide Applied, Source;
    if k == |ops| {
      assert ops[..k] == ops;
    } else {
      var front := ops[..|ops| - 1];
      assert front[..k] == ops[..k];
      SourceFixed(o, front, k, q);
      RefsStay(Run(o, front), ops[|front|], q);
      var b, o' := Run(o, ops[..k]), Run(o, ops);
      if o'.loaded[q] != [] && o'.loaded[q][0] != 0 { SourceStays(b, o', q); }
    }
  }

  lemma {:induction false} RunStaysSound(o: Overlay, ops: seq<Op>)
    requires Sound(o)
    ensures Sound(Run(o, ops))
  {
    hide Sound, Applied;
    if ops == [] {
    } else {
      RunStaysSound(o, ops[..|ops| - 1]);
      SoundStep(Run(o, ops[..|ops| - 1]), ops[|ops| - 1]);
    }
  }

  /** What is left for good by a run, one operation longer. */
  lemma LeavesForGoodNext(o: Overlay, ops: seq<Op>, k: nat)
    requires k < |ops| - 1
    ensures var front, op, b := ops[..|ops| - 1], ops[|ops| - 1], Run(o, ops[..k]);
            LeavesForGood(o, ops, k) <==>
            LeavesForGood(o, front, k) && !(Finishes(op, ops[k].path) && CopiesFile(b, ops[k].path))
  {
    hide Run, Tries, CopiesFile, Finishes;
    var front, last := ops[..|ops| - 1], |ops| - 1;
    assert front[..k] == ops[..k] && front[k] == ops[k];
    if ops[k].Raise? {
      var path := ops[k].path;
      assert (exists j | k < j < |ops| :: Finishes(ops[j], path)) <==>
             (exists j | k < j < |front| :: Finishes(front[j], path)) || Finishes(ops[last], path) by {
        if j :| k < j < |ops| && Finishes(ops[j], path) { assert j < last ==> Finishes(front[j], path); }
        if j :| k < j < |front| && Finishes(front[j], path) { assert Finishes(ops[j], path); }
      }
    }
  }

  /** A leftover is of the node that was copied. */
  lemma SameSource(o: Overlay, ops: seq<Op>, k: nat, q: Path)
    requires k < |ops| && Pending(Run(o, ops), q) && LeavesForGood(o, ops, k) && ops[k].path == q
    ensures CopiesFile(Run(o, ops), q) <==> CopiesFile(Run(o, ops[..k]), q)
  {
    SourceFixed(o, ops, k, q);
  }

  /** Whether a leftover is pending after one more operation. */
  lemma PendingNext(o: Overlay, ops: seq<Op>, q: Path)
    requires Sound(o) && ops != []
    ensures var b, op := Run(o, ops[..|ops| - 1]), ops[|ops| - 1];
            Pending(Run(o, ops), q) <==> (Interrupts(b, op) && op.path == q) || (Pending(b, q) && !Mends(b, op, q))
  {
    RunStaysSound(o, ops[..|ops| - 1]);
    hide Applied, Sound;
    PendingStep(Run(o, ops[..|ops| - 1]), ops[|ops| - 1], q);
  }

  /** The interruption behind a pending leftover. */
  lemma {:induction false} Cause(o: Overlay, ops: seq<Op>, q: Path) returns (k: nat)
    requires Sound(o) && !Pending(o, q) && Pending(Run(o, ops), q)
    ensures k < |ops| && LeavesForGood(o, ops, k) && ops[k].path == q
  {
    var front, op := ops[..|ops| - 1], ops[|ops| - 1];
    PendingNext(o, ops, q);
    hide Run, Sound, Pending, Tries, CopiesFile, Finishes;
    if Interrupts(Run(o, front), op) && op.path == q {
      k := |front|;
      assert ops[..k] == front;
    } else {
      k := Cause(o, front, q);
      assert front[k] == ops[k] && front[..k] == ops[..k];
      SameSource(o, front, k, q);
      LeavesForGoodNext(o, ops, k);
    }
  }

  lemma {:induction false} Effect(o: Overlay, ops: seq<Op>, k: nat)
    requires Sound(o) && k < |ops| && LeavesForGood(o, ops, k)
    ensures ops[k].Raise? && Pending(Run(o, ops), ops[k].path)
  {
    PendingNext(o, ops, ops[k].path);
    hide Run, Sound, Pending, Tries, CopiesFile, Finishes;
    if k < |ops| - 1 {
      var front := ops[..|ops| - 1];
      LeavesForGoodNext(o, ops, k);
      assert front[k] == ops[k] && front[..k] == ops[..k];
      Effect(o, front, k);
      SameSource(o, front, k, ops[k].path);
    }
  }

  lemma MatchesUnlessLeft(upper: Node, lowers: seq<Node>, ops: seq<Op>)
    ensures var o := Start(upper, lowers);
            Consistent(Run(o, ops)) <==> forall k | 0 <= k < |ops| :: !LeavesForGood(o, ops, k)
  {
    var o := Start(upper, lowers);
    StartIsSound(upper, lowers);
    RunIsSound(upper, lowers, ops);
    hide Start, Run, Sound, Consistent, LeavesForGood, Pending;
    if k :| 0 <= k < |ops| && LeavesForGood(o, ops, k) {
      Effect(o, ops, k);
      PendingIsWrong(Run(o, ops), ops[k].path);
    } else if q :| Pending(Run(o, ops), q) {
      var k := Cause(o, ops, q);
      assert false;
    } else {
      NonePending(Run(o, ops));
    }
  }

  /** After any run of loads and copies, of any names in any order, every loaded node has exactly the real inodes
      that merging the layers anew would give it, if and only if every copy that left something and failed was
      of a file, and a later copy of that file finished. */
  lemma MemoryMatchesLayers(upper: Node, lowers: seq<Node>, ops: seq<Op>)
    ensures var o := Start(upper, lowers);
            Consistent(Run(o, ops)) <==>
            forall k | 0 <= k < |ops| && Interrupts(Run(o, ops[..k]), ops[k]) ::
              CopiesFile(Run(o, ops[..k]), ops[k].path) && exists j | k < j < |ops| :: Finishes(ops[j], ops[k].path)
  {
    var o := Start(upper, lowers);
    hide Start, Run, Consistent, Tries, Finishes, CopiesFile;
    MatchesUnlessLeft(upper, lowers, ops);
    assert forall k | 0 <= k < |ops| && Interrupts(Run(o, ops[..k]), ops[k]) ::
      !LeavesForGood(o, ops, k) <==>
      CopiesFile(Run(o, ops[..k]), ops[k].path) && exists j | k < j < |ops| :: Finishes(ops[j], ops[k].path);
  }

  // ---------------------------------------------------------------- a whole copy-up

  /** `copy_node_up` as it works on the nodes in memory: the parent first, then the node. */
  function CopyNodeUp(o: Overlay, path: Path, answer: nat -> Answer): (Overlay, bool)
    decreases |path|
  {
    if Source(o, path).None? || Source(o, path).value.Whiteout? then (o, false)
    else if o.loaded[path][0] == 0 then (o, true)
    else if path == [] then (o, false)
    else
      var (o1, ok) := CopyNodeUp(o, Parent(path), answer);
      if !ok then (o1, false) else (Raised(o1, path, answer(|path|)), Tries(o1, path) && answer(|path|).Done?)
  }

  /** The copies that it tries. */
  function CopyOps(o: Overlay, path: Path, answer: nat -> Answer): seq<Op>
    decreases |path|
  {
    if Source(o, path).None? || Source(o, path).value.Whiteout? || o.loaded[path][0] == 0 || path == [] then []
    else
      CopyOps(o, Parent(path), answer)
      + if CopyNodeUp(o, Parent(path), answer).1 then [Raise(path, answer(|path|))] else []
  }

  lemma {:induction false} CopyNodeUpIsRun(o: Overlay, path: Path, answer: nat -> Answer)
    ensures CopyNodeUp(o, path, answer).0 == Run(o, CopyOps(o, path, answer))
    decreases |path|
  {
    hide Raised, Tries, Source, Loaded;
    if path == [] {
    } else {
      CopyNodeUpIsRun(o, Parent(path), answer);
      var ops := CopyOps(o, Parent(path), answer);
      assert (ops + [Raise(path, answer(|path|))])[..|ops|] == ops;
      NothingMore(ops);
    }
  }

  lemma {:induction false} RunJoins(o: Overlay, a: seq<Op>, b: seq<Op>)
    ensures Run(o, a + b) == Run(Run(o, a), b)
    decreases |b|
  {
    hide Applied;
    if b == [] {
      NothingMore(a);
    } else {
      assert (a + b)[..|a + b| - 1] == a + b[..|b| - 1] && (a + b)[|a + b| - 1] == b[|b| - 1];
      RunJoins(o, a, b[..|b| - 1]);
    }
  }

  /** Loading goes down from the root, so the parent of a loaded node is loaded. */
  ghost predicate Closed(o: Overlay) {
    [] in o.loaded && forall path | path in o.loaded && path != [] :: Parent(path) in o.loaded
  }

  lemma {:induction false} RunIsClosed(upper: Node, lowers: seq<Node>, ops: seq<Op>)
    requires upper.Dir?
    ensures var o := Run(Start(upper, lowers), ops); Closed(o) && o.upper.Dir? && o.lowers == lowers
  {
    if ops == [] {
    } else {
      var front, op := ops[..|ops| - 1], ops[|ops| - 1];
      RunIsClosed(upper, lowers, front);
      if op.Load? { assert Parent(op.dir + [op.name]) == op.dir; }
    }
  }

  lemma {:induction false} CopyNodeUpFrame(o: Overlay, path: Path, answer: nat -> Answer)
    ensures var (o', ok) := CopyNodeUp(o, path, answer);
            && o'.lowers == o.lowers && o'.loaded.Keys == o.loaded.Keys
            && (forall q | q in o.loaded && |q| > |path| :: o'.loaded[q] == o.loaded[q])
            && (ok ==> path in o'.loaded && o'.loaded[path] != [] && o'.loaded[path][0] == 0)
    decreases |path|
  {
    hide Left, At, CanPut, Put;
    if path == [] {
    } else {
      CopyNodeUpFrame(o, Parent(path), answer);
    }
  }

  /** Driven by the nodes in memory, a copy-up does to the upper layer what it does when the layers are merged
      anew for every node on the way. */
  lemma {:induction false} CopyNodeUpIsCopyUp(o: Overlay, path: Path, answer: nat -> Answer)
    requires Consistent(o) && Closed(o) && path in o.loaded && o.upper.Dir?
    ensures var (o', ok) := CopyNodeUp(o, path, answer);
            CopyUp(o.upper, o.lowers, path, answer) == Attempt(o'.upper, ok)
    decreases |path|
  {
    assert Matches(o, path);
    var refs, rs := o.loaded[path], RealsAt(Roots(o), path);
    assert rs[0] == Real(refs[0] == 0, Source(o, path).value);
    RefsByUpper(o, path);
    hide RealsAt, Matches, Consistent, At, Source;
    if !rs[0].inUpper && !rs[0].node.Whiteout? && path != [] {
      ParentReady(o, path, answer);
      CopyNodeUpFrame(o, Parent(path), answer);
      hide CopyUp, CopyNodeUp, Raised, Tries, Closed;
      CopyNodeUpIsCopyUp(o, Parent(path), answer);
      var o1 := CopyNodeUp(o, Parent(path), answer).0;
      SourceStays(o, o1, path);
      if CopyUp(o.upper, o.lowers, Parent(path), answer).ok { RaisedIsCopy(o, o1, path, answer); }
      CopiesStep(o, path, answer);
    }
  }

  lemma ParentReady(o: Overlay, path: Path, answer: nat -> Answer)
    requires Closed(o) && path in o.loaded && path != [] && o.upper.Dir? && At(o.upper, path).None?
    requires RealsAt(Roots(o), path) != []
    ensures Parent(path) in o.loaded
    ensures var p := CopyUp(o.upper, o.lowers, Parent(path), answer); p.ok ==> At(p.upper, path).None?
  {
    assert path == Parent(path) + [path[|path| - 1]];
    ParentShows(o.upper, o.lowers, path);
    CopyUpKeepsTree(o.upper, o.lowers, Parent(path), answer);
    hide RealsAt, At, CopyUp;
  }

  /** The step both take once the parent has been tried. */
  lemma CopiesStep(o: Overlay, path: Path, answer: nat -> Answer)
    requires path != [] && path in o.loaded && o.loaded[path] != [] && o.loaded[path][0] != 0
    requires Source(o, path).Some? && !Source(o, path).value.Whiteout?
    requires var rs := RealsAt(Roots(o), path); rs != [] && !rs[0].inUpper && !rs[0].node.Whiteout?
    ensures var (o1, ok) := CopyNodeUp(o, Parent(path), answer);
            CopyNodeUp(o, path, answer) ==
            if !ok then (o1, false) else (Raised(o1, path, answer(|path|)), Tries(o1, path) && answer(|path|).Done?)
    ensures var p := CopyUp(o.upper, o.lowers, Parent(path), answer);
            !p.ok ==> CopyUp(o.upper, o.lowers, path, answer) == Attempt(p.upper, false)
  {
    hide Source;
  }

  lemma RaisedIsCopy(o: Overlay, o1: Overlay, path: Path, answer: nat -> Answer)
    requires path != [] && CopyUp(o.upper, o.lowers, Parent(path), answer) == Attempt(o1.upper, true)
    requires path in o1.loaded && o1.loaded[path] != [] && o1.loaded[path][0] != 0 && At(o1.upper, path).None?
    requires ParentUp(o1, path)
    requires var rs := RealsAt(Roots(o), path);
             rs != [] && !rs[0].inUpper && !rs[0].node.Whiteout? && Source(o1, path) == Some(rs[0].node)
    ensures CopyUp(o.upper, o.lowers, path, answer) ==
            Attempt(Raised(o1, path, answer(|path|)).upper, Tries(o1, path) && answer(|path|).Done?)
  {
    hide RealsAt, At, CanPut, Put, Source;
  }

  /** So in every state of a run in which no node has anything left to learn, copying any loaded node up is a longer
      run, and it does to the upper layer what copying up is proved to do when the layers are merged anew. */
  lemma RunCopiesUp(upper: Node, lowers: seq<Node>, ops: seq<Op>, path: Path, answer: nat -> Answer)
    requires upper.Dir? && path in Run(Start(upper, lowers), ops).loaded
    requires forall k | 0 <= k < |ops| :: !LeavesForGood(Start(upper, lowers), ops, k)
    ensures var o := Run(Start(upper, lowers), ops);
            var (o', ok) := CopyNodeUp(o, path, answer);
            && o' == Run(Start(upper, lowers), ops + CopyOps(o, path, answer))
            && CopyUp(o.upper, lowers, path, answer) == Attempt(o'.upper, ok)
  {
    var o := Run(Start(upper, lowers), ops);
    hide Start, Run, Consistent, Closed, CopyNodeUp, CopyOps, CopyUp, LeavesForGood;
    MatchesUnlessLeft(upper, lowers, ops);
    RunIsClosed(upper, lowers, ops);
    CopyNodeUpIsCopyUp(o, path, answer);
    CopyNodeUpIsRun(o, path, answer);
    RunJoins(Start(upper, lowers), ops, CopyOps(o, path, answer));
  }

  // ---------------------------------------------------------------- an interrupted copy

  const ABOVE := Dir(0, false, map[])
  const BELOW := Dir(0, false, map["f" := File(Regular(0, [1])), "d" := Dir(0, false, map[])])

  lemma ExampleLoads(name: Name)
    requires name in BELOW.children
    ensures Run(Start(ABOVE, [BELOW]), [Load([], name)]) == Overlay(ABOVE, [BELOW], map[[] := [0, 1], [name] := [1]])
  {
    var o := Start(ABOVE, [BELOW]);
    assert [Load([], name)][..0] == [] && [] + [name] == [name] && [name][1..] == [];
    assert o.loaded[[]] == [0, 1];
    var reals := Deref(o, [], [0, 1]);
    var low := [Real(false, BELOW)];
    assert reals == [Real(true, ABOVE)] + low && reals[1..] == low && low[1..] == [];
    NothingMore(low);
    assert Scanned(low) == low + Scanned([]);
    assert Scanned(reals) == [reals[0]] + Scanned(reals[1..]) == reals;
    assert [0, 1][..2] == [0, 1] && [0, 1][1..] == [1] && [1][1..] == [];
    assert At(BELOW, [name]) == At(BELOW.children[name], []);
    assert Shows(o, [name], 0).None? && Shows(o, [name], 1) == Some(BELOW.children[name]);
    assert Having(o, [], [1], name) == [1] && Having(o, [], [0, 1], name) == [1];
    assert Deref(o, [name], [1]) == [Real(false, BELOW.children[name])];
    var found := [Real(false, BELOW.children[name])];
    assert found[1..] == [] && Scanned([]) == [] && |Cut(found)| == 1 && [1][..1] == [1];
    assert Found(o, [], [0, 1], name) == [1];
  }

  lemma ExampleInterrupts(name: Name)
    requires name in BELOW.children
    ensures var o := Run(Start(ABOVE, [BELOW]), [Load([], name)]);
            Interrupts(o, Raise([name], Interrupted([]))) && (CopiesFile(o, [name]) <==> name == "f")
  {
    ExampleLoads(name);
    hide Run;
    assert [name][..0] == [] && [name][1..] == [] && At(BELOW, [name]) == At(BELOW.children[name], []);
  }

  /** Load a file and interrupt its copy: memory and layers differ. */
  lemma InterruptedIsUnknown()
    ensures !Consistent(Run(Start(ABOVE, [BELOW]), [Load([], "f"), Raise(["f"], Interrupted([]))]))
  {
    var ops := [Load([], "f"), Raise(["f"], Interrupted([]))];
    ExampleInterrupts("f");
    hide Start, Run, Consistent, Interrupts, CopiesFile;
    assert ops[..1] == [Load([], "f")];
    assert Interrupts(Run(Start(ABOVE, [BELOW]), ops[..1]), ops[1]);
    MemoryMatchesLayers(ABOVE, [BELOW], ops);
  }

  /** Copy it again, and they agree. */
  lemma RetriedIsKnown()
    ensures Consistent(Run(Start(ABOVE, [BELOW]),
                           [Load([], "f"), Raise(["f"], Interrupted([])), Raise(["f"], Done([1]))]))
  {
    var o, ops := Start(ABOVE, [BELOW]), [Load([], "f"), Raise(["f"], Interrupted([])), Raise(["f"], Done([1]))];
    ExampleInterrupts("f");
    hide Start, Run, Consistent, Tries, CopiesFile;
    assert ops[..1] == [Load([], "f")];
    forall k | 0 <= k < |ops| && Interrupts(Run(o, ops[..k]), ops[k])
      ensures CopiesFile(Run(o, ops[..k]), ops[k].path) && exists j | k < j < |ops| :: Finishes(ops[j], ops[k].path)
    {
      assert k == 1 && Finishes(ops[2], ["f"]);
    }
    MemoryMatchesLayers(ABOVE, [BELOW], ops);
  }

  /** An interrupted copy of a directory is not mended by another. */
  lemma DirectoryStaysUnknown()
    ensures !Consistent(Run(Start(ABOVE, [BELOW]),
                            [Load([], "d"), Raise(["d"], Interrupted([])), Raise(["d"], Done([]))]))
  {
    var ops := [Load([], "d"), Raise(["d"], Interrupted([])), Raise(["d"], Done([]))];
    ExampleInterrupts("d");
    hide Start, Run, Consistent, Interrupts, CopiesFile;
    assert ops[..1] == [Load([], "d")];
    assert Interrupts(Run(Start(ABOVE, [BELOW]), ops[..1]), ops[1]);
    MemoryMatchesLayers(ABOVE, [BELOW], ops);
  }
}
