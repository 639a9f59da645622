/** The overlay's nodes in memory against its layers, one load or copy at a time. A real inode is a reference into
    a layer, so what it shows changes with the layer; which ones a node has changes only when the node is loaded or
    copied up. */
module OverlayMemory {
  import opened Common
  import opened OverlayMerge
  import opened OverlayCopyUp

  // ---------------------------------------------------------------- stacks of real inodes

  lemma {:induction false} RealsAtJoin(reals: seq<Real>, path: Path, rest: Path)
    ensures RealsAt(reals, path + rest) == RealsAt(RealsAt(reals, path), rest)
    decreases path
  {
    if path == [] {
      assert path + rest == rest;
    } else {
      assert (path + rest)[0] == path[0] && (path + rest)[1..] == path[1..] + rest;
      RealsAtJoin(RealsOf(reals, path[0]), path[1..], rest);
    }
  }

  lemma RealsAtAppend(reals: seq<Real>, path: Path, name: Name)
    ensures RealsAt(reals, path + [name]) == RealsOf(RealsAt(reals, path), name)
  {
    RealsAtJoin(reals, path, [name]);
    assert [name][1..] == [];
  }

  /** The same stack with another node on top. */
  function Retop(reals: seq<Real>, top: Node): seq<Real>
    requires reals != []
  {
    [Real(reals[0].inUpper, top)] + reals[1..]
  }

  /** A directory on top that differs in one name gives the other names the same column. */
  lemma RealsOfOther(reals: seq<Real>, top: Node, name: Name)
    requires reals != [] && reals[0].node.Dir? && top.Dir? && top.isOpaque == reals[0].node.isOpaque
    requires name in top.children <==> name in reals[0].node.children
    requires name in top.children ==> top.children[name] == reals[0].node.children[name]
    ensures RealsOf(Retop(reals, top), name) == RealsOf(reals, name)
  {
    assert Retop(reals, top)[1..] == reals[1..];
    var dirs, dirs' := Scanned(reals), Scanned(Retop(reals, top));
    assert dirs'[1..] == dirs[1..];
    assert Column(dirs, name) == Column(dirs', name);
  }

  lemma RealsOfRetop(reals: seq<Real>, top: Node, name: Name)
    requires reals != [] && reals[0].node.Dir? && name in reals[0].node.children
    requires top.Dir? && top.isOpaque == reals[0].node.isOpaque && name in top.children
    requires top.children[name].Dir? && reals[0].node.children[name].Dir?
    requires top.children[name].isOpaque == reals[0].node.children[name].isOpaque
    ensures RealsOf(reals, name) != []
    ensures RealsOf(Retop(reals, top), name) == Retop(RealsOf(reals, name), top.children[name])
  {
    assert Retop(reals, top)[1..] == reals[1..];
    var dirs, dirs' := Scanned(reals), Scanned(Retop(reals, top));
    assert dirs'[1..] == dirs[1..];
    var column, column' := Column(dirs, name), Column(dirs', name);
    assert column[1..] == column'[1..] == Column(dirs[1..], name);
    assert Scanned(column)[1..] == Scanned(column')[1..];
  }

  /** Cutting what is below the top first makes no difference. */
  lemma CutTwice(top: Real, column: seq<Real>)
    requires column != []
    ensures Cut([top] + Cut(column)) == Cut([top] + column)
  {
    ScannedIsPrefix(column);
    assert ([top] + Cut(column))[1..] == Cut(column) && ([top] + column)[1..] == column;
    if column[0].node.Dir? {
      assert Scanned(Cut(column)) == Scanned(column);
    } else {
      assert Scanned(Cut(column)) == [] == Scanned(column);
    }
  }

  /** A name added to the top goes in front of what the name had. */
  lemma RealsOfPut(reals: seq<Real>, name: Name, child: Node)
    requires reals != [] && reals[0].node.Dir? && name !in reals[0].node.children && RealsOf(reals, name) != []
    ensures RealsOf(Retop(reals, Put(reals[0].node, [name], child)), name)
         == Cut([Real(reals[0].inUpper, child)] + RealsOf(reals, name))
  {
    var reals' := Retop(reals, Put(reals[0].node, [name], child));
    assert reals'[1..] == reals[1..];
    var dirs, dirs' := Scanned(reals), Scanned(reals');
    assert dirs'[1..] == dirs[1..];
    var column, column' := Column(dirs, name), Column(dirs', name);
    assert column == Column(dirs[1..], name);
    assert column' == [Real(reals[0].inUpper, child)] + column;
    CutTwice(Real(reals[0].inUpper, child), column);
  }

  // ---------------------------------------------------------------- after one name has been added

  /** The stack of layers after a name has been added to the upper one. */
  function AfterPut(reals: seq<Real>, path: Path, child: Node): seq<Real>
    requires reals != [] && CanPut(reals[0].node, path)
  {
    Retop(reals, Put(reals[0].node, path, child))
  }

  lemma PutStep(reals: seq<Real>, path: Path, child: Node)
    requires reals != [] && CanPut(reals[0].node, path) && |path| > 1
    ensures var rs := RealsOf(reals, path[0]);
            && rs != [] && rs[0] == Real(reals[0].inUpper, reals[0].node.children[path[0]])
            && CanPut(rs[0].node, path[1..])
            && (At(reals[0].node, path).None? ==> At(rs[0].node, path[1..]).None?)
            && RealsOf(AfterPut(reals, path, child), path[0]) == AfterPut(rs, path[1..], child)
  {
    var top, name := reals[0].node, path[0];
    var top' := Put(top, path, child);
    assert CanPut(top.children[name], path[1..]) && top'.children[name] == Put(top.children[name], path[1..], child);
    RealsOfRetop(reals, top', name);
    assert Column(Scanned(reals), name)[0] == Real(reals[0].inUpper, top.children[name]);
  }

  /** At the path itself. */
  lemma {:induction false} RealsAtPut(reals: seq<Real>, path: Path, child: Node)
    requires reals != [] && CanPut(reals[0].node, path) && At(reals[0].node, path).None? && RealsAt(reals, path) != []
    ensures RealsAt(AfterPut(reals, path, child), path) == Cut([Real(reals[0].inUpper, child)] + RealsAt(reals, path))
    decreases path
  {
    if |path| == 1 {
      assert path == [path[0]] && path[1..] == [];
      RealsOfPut(reals, path[0], child);
    } else {
      PutStep(reals, path, child);
      RealsAtPut(RealsOf(reals, path[0]), path[1..], child);
    }
  }

  /** Above the path only the top node is another. */
  lemma {:induction false} RealsAbovePut(reals: seq<Real>, path: Path, child: Node, q: Path)
    requires reals != [] && CanPut(reals[0].node, path) && q <= path && |q| < |path|
    ensures RealsAt(reals, q) != [] && At(Put(reals[0].node, path, child), q).Some?
    ensures RealsAt(AfterPut(reals, path, child), q) ==
            Retop(RealsAt(reals, q), At(Put(reals[0].node, path, child), q).value)
    decreases path
  {
    if q == [] {
    } else {
      PutStep(reals, path, child);
      RealsAbovePut(RealsOf(reals, path[0]), path[1..], child, q[1..]);
    }
  }

  /** Off the path nothing changes. */
  lemma {:induction false} RealsBesidePut(reals: seq<Real>, path: Path, child: Node, q: Path)
    requires reals != [] && CanPut(reals[0].node, path) && !(q <= path) && !(path <= q)
    ensures RealsAt(AfterPut(reals, path, child), q) == RealsAt(reals, q)
    ensures At(Put(reals[0].node, path, child), q) == At(reals[0].node, q)
    decreases path
  {
    var top := reals[0].node;
    if q[0] != path[0] {
      RealsOfOther(reals, Put(top, path, child), q[0]);
    } else {
      assert path == [path[0]] + path[1..] && q == [q[0]] + q[1..];
      PutStep(reals, path, child);
      RealsBesidePut(RealsOf(reals, path[0]), path[1..], child, q[1..]);
    }
  }

  /** A file put at a path is all there is at the path, whatever was there. */
  lemma {:induction false} RealsAtFile(reals: seq<Real>, path: Path, child: Node)
    requires reals != [] && CanPut(reals[0].node, path) && child.File?
    ensures RealsAt(AfterPut(reals, path, child), path) == [Real(reals[0].inUpper, child)]
    decreases path
  {
    if |path| == 1 {
      assert path == [path[0]] && path[1..] == [];
      var reals' := AfterPut(reals, path, child);
      assert Column(Scanned(reals'), path[0])[0] == Real(reals[0].inUpper, child);
    } else {
      PutStep(reals, path, child);
      RealsAtFile(RealsOf(reals, path[0]), path[1..], child);
    }
  }

  /** And there is nothing below a file. */
  lemma NothingUnderFile(reals: seq<Real>, path: Path, q: Path)
    requires RealsAt(reals, path) != [] && !RealsAt(reals, path)[0].node.Dir? && path <= q && |path| < |q|
    ensures RealsAt(reals, q) == []
  {
    var name, rest := q[|path|], q[|path| + 1..];
    RealsAtAppend(reals, path, name);
    RealsAtJoin(reals, path + [name], rest);
    RealsAtNothing(rest);
    hide RealsAt;
    assert q == (path + [name]) + rest;
  }

  /** An empty plain directory on top of a stack changes no child. */
  lemma RealsUnderEmptyDir(reals: seq<Real>, mode: nat, inUpper: bool, name: Name)
    ensures RealsOf([Real(inUpper, Dir(mode, false, map[]))] + reals, name) == RealsOf(reals, name)
  {
    var stack := [Real(inUpper, Dir(mode, false, map[]))] + reals;
    assert stack[1..] == reals;
    assert Scanned(stack)[1..] == Scanned(reals);
    assert Column(Scanned(stack), name) == [] + Column(Scanned(stack)[1..], name) == Column(Scanned(reals), name);
  }

  /** A node's real inodes below the root survive another scan unchanged. */
  lemma {:induction false} RealsAtIsCut(reals: seq<Real>, path: Path)
    requires path != [] && RealsAt(reals, path) != []
    ensures var rs := RealsAt(reals, path); Cut(rs) == rs
    decreases path
  {
    RealsAtNothing(path[1..]);
    var column := Column(Scanned(reals), path[0]);
    ScannedIsPrefix(column);
    if |path| > 1 { RealsAtIsCut(RealsOf(reals, path[0]), path[1..]); } else { assert path[1..] == []; }
  }

  /** What `add_upper_inode` makes of a node's real inodes. */
  function WithUpper<T>(refs: seq<T>, upper: T, clearLowers: bool): seq<T> {
    [upper] + if clearLowers then [] else refs
  }

  lemma CutUnder(top: Real, reals: seq<Real>)
    requires reals != [] && Cut(reals) == reals
    requires top.node.Dir? <==> reals[0].node.Dir?
    requires top.node.Dir? ==> !top.node.isOpaque
    ensures Cut([top] + reals) == WithUpper(reals, top, !top.node.Dir?)
  {
    assert ([top] + reals)[1..] == reals;
  }

  /** At the path, a finished copy comes before the lower directories, or instead of anything else. */
  lemma RealsAtCopy(reals: seq<Real>, path: Path)
    requires reals != [] && CanPut(reals[0].node, path) && At(reals[0].node, path).None?
    requires RealsAt(reals, path) != [] && !RealsAt(reals, path)[0].node.Whiteout?
    ensures var rs := RealsAt(reals, path);
            RealsAt(AfterPut(reals, path, UpperCopy(rs[0].node)), path)
            == WithUpper(rs, Real(reals[0].inUpper, UpperCopy(rs[0].node)), !rs[0].node.Dir?)
  {
    var rs := RealsAt(reals, path);
    RealsAtPut(reals, path, UpperCopy(rs[0].node));
    RealsAtIsCut(reals, path);
    CutUnder(Real(reals[0].inUpper, UpperCopy(rs[0].node)), rs);
  }

  /** A new directory is empty, and under anything else there is nothing. */
  lemma RealsUnderCopy(rs: seq<Real>, inUpper: bool, name: Name)
    requires rs != [] && !rs[0].node.Whiteout?
    ensures RealsOf(WithUpper(rs, Real(inUpper, UpperCopy(rs[0].node)), !rs[0].node.Dir?), name) == RealsOf(rs, name)
  {
    if rs[0].node.Dir? { RealsUnderEmptyDir(rs, rs[0].node.mode, inUpper, name); }
  }

  /** So below a finished copy nothing changes. */
  lemma RealsBelowCopy(reals: seq<Real>, path: Path, q: Path)
    requires reals != [] && CanPut(reals[0].node, path) && At(reals[0].node, path).None?
    requires RealsAt(reals, path) != [] && !RealsAt(reals, path)[0].node.Whiteout?
    requires path <= q && |path| < |q|
    ensures RealsAt(AfterPut(reals, path, UpperCopy(RealsAt(reals, path)[0].node)), q) == RealsAt(reals, q)
  {
    hide RealsAt, CanPut, At, Put, RealsOf, AfterPut, UpperCopy;
    var rs, name, rest := RealsAt(reals, path), q[|path|], q[|path| + 1..];
    var reals' := AfterPut(reals, path, UpperCopy(rs[0].node));
    RealsAtCopy(reals, path);
    RealsUnderCopy(rs, reals[0].inUpper, name);
    RealsAtAppend(reals, path, name);
    RealsAtAppend(reals', path, name);
    RealsAtJoin(reals, path + [name], rest);
    RealsAtJoin(reals', path + [name], rest);
    assert q == (path + [name]) + rest;
  }

  // ---------------------------------------------------------------- the overlay

  /** The layers, and for every loaded path the layers its real inodes are in, by number; the upper layer is
      number 0. */
  datatype Overlay = Overlay(upper: Node, lowers: seq<Node>, loaded: map<Path, seq<nat>>)

  function LayerOf(o: Overlay, i: nat): Option<Node> {
    if i == 0 then Some(o.upper) else if i <= |o.lowers| then Some(o.lowers[i - 1]) else None
  }

  /** The node that the layer has at a path. */
  function Shows(o: Overlay, path: Path, i: nat): Option<Node> {
    if LayerOf(o, i).Some? then At(LayerOf(o, i).value, path) else None
  }

  predicate AllShow(o: Overlay, path: Path, refs: seq<nat>) {
    forall k | 0 <= k < |refs| :: Shows(o, path, refs[k]).Some?
  }

  /** What the references show in the layers as they are. */
  function Deref(o: Overlay, path: Path, refs: seq<nat>): (rs: seq<Real>)
    requires AllShow(o, path, refs)
    ensures |rs| == |refs|
  {
    seq(|refs|, k requires 0 <= k < |refs| => Real(refs[k] == 0, Shows(o, path, refs[k]).value))
  }

  function Roots(o: Overlay): seq<Real> {
    Layers(o.upper, o.lowers)
  }

  /** The node in memory has the real inodes that merging the layers anew would give it. */
  ghost predicate Matches(o: Overlay, path: Path)
    requires path in o.loaded
  {
    && o.loaded[path] != [] && AllShow(o, path, o.loaded[path])
    && Deref(o, path, o.loaded[path]) == RealsAt(Roots(o), path)
  }

  ghost predicate Consistent(o: Overlay) {
    forall path | path in o.loaded :: Matches(o, path)
  }

  /** The layers that have the name in the directory, of those given. */
  function Having(o: Overlay, dir: Path, refs: seq<nat>, name: Name): seq<nat> {
    if refs == [] then []
    else (if Shows(o, dir + [name], refs[0]).Some? then [refs[0]] else []) + Having(o, dir, refs[1..], name)
  }

  /** The real inodes a scan of a directory over `refs` gives to a name: of the layers that are scanned those
      that have it, as many as are kept. */
  function Found(o: Overlay, dir: Path, refs: seq<nat>, name: Name): seq<nat>
    requires AllShow(o, dir, refs)
  {
    var scanned := |Scanned(Deref(o, dir, refs))|;
    if scanned > |refs| then []
    else
      var column := Having(o, dir, refs[..scanned], name);
      if column == [] || !AllShow(o, dir + [name], column) then []
      else
        var kept := |Cut(Deref(o, dir + [name], column))|;
        if kept > |column| then [] else column[..kept]
  }

  function Loaded(o: Overlay, dir: Path, name: Name): Overlay {
    if dir in o.loaded && dir + [name] !in o.loaded && AllShow(o, dir, o.loaded[dir])
       && Found(o, dir, o.loaded[dir], name) != []
    then o.(loaded := o.loaded[dir + [name] := Found(o, dir, o.loaded[dir], name)])
    else o
  }

  // ---------------------------------------------------------------- loads

  lemma {:induction false} HavingIsColumn(o: Overlay, dir: Path, refs: seq<nat>, name: Name)
    requires AllShow(o, dir, refs)
    ensures AllShow(o, dir + [name], Having(o, dir, refs, name))
    ensures Deref(o, dir + [name], Having(o, dir, refs, name)) == Column(Deref(o, dir, refs), name)
  {
    if refs == [] {
    } else {
      HavingIsColumn(o, dir, refs[1..], name);
      assert Deref(o, dir, refs)[1..] == Deref(o, dir, refs[1..]);
      AtAppend(LayerOf(o, refs[0]).value, dir, name);
    }
  }

  lemma DerefPrefix(o: Overlay, path: Path, refs: seq<nat>, n: nat)
    requires AllShow(o, path, refs) && n <= |refs|
    ensures AllShow(o, path, refs[..n]) && Deref(o, path, refs[..n]) == Deref(o, path, refs)[..n]
  {
  }

  lemma CutIsPrefix(reals: seq<Real>)
    requires reals != []
    ensures |Cut(reals)| <= |reals| && Cut(reals) == reals[..|Cut(reals)|]
  {
    ScannedIsPrefix(reals);
  }

  /** What a scan finds in memory is what merging the layers anew gives. */
  lemma FoundIsMerged(o: Overlay, dir: Path, name: Name)
    requires dir in o.loaded && Matches(o, dir)
    ensures var refs := Found(o, dir, o.loaded[dir], name);
            AllShow(o, dir + [name], refs) && Deref(o, dir + [name], refs) == RealsAt(Roots(o), dir + [name])
  {
    var refs := o.loaded[dir];
    var reals := Deref(o, dir, refs);
    ScannedIsPrefix(reals);
    assert reals[..|Scanned(reals)|] == Scanned(reals);
    DerefPrefix(o, dir, refs, |Scanned(reals)|);
    HavingIsColumn(o, dir, refs[..|Scanned(reals)|], name);
    RealsAtAppend(Roots(o), dir, name);
    var column := Having(o, dir, refs[..|Scanned(reals)|], name);
    if column != [] {
      var kept := Cut(Deref(o, dir + [name], column));
      CutIsPrefix(Deref(o, dir + [name], column));
      DerefPrefix(o, dir + [name], column, |kept|);
    }
  }

  /** The layers alone say whether references match. */
  lemma MatchesWith(o: Overlay, o': Overlay, path: Path)
    requires o'.upper == o.upper && o'.lowers == o.lowers && path in o'.loaded && o'.loaded[path] != []
    requires AllShow(o, path, o'.loaded[path]) && Deref(o, path, o'.loaded[path]) == RealsAt(Roots(o), path)
    ensures Matches(o', path)
  {
    hide RealsAt, At;
    var refs := o'.loaded[path];
    assert forall k | 0 <= k < |refs| :: Shows(o', path, refs[k]) == Shows(o, path, refs[k]);
    assert Deref(o', path, refs) == Deref(o, path, refs);
  }

  lemma MatchesAlways(o: Overlay, o': Overlay, path: Path)
    requires o'.upper == o.upper && o'.lowers == o.lowers && path in o.loaded && Matches(o, path)
    requires path in o'.loaded && o'.loaded[path] == o.loaded[path]
    ensures Matches(o', path)
  {
    hide RealsAt, Deref, AllShow;
    MatchesWith(o, o', path);
  }

  lemma LoadKeeps(o: Overlay, dir: Path, name: Name)
    requires Consistent(o)
    ensures Consistent(Loaded(o, dir, name))
  {
    var o' := Loaded(o, dir, name);
    if o' != o {
      assert Matches(o, dir);
      FoundIsMerged(o, dir, name);
      hide Found, Matches, RealsAt, AllShow;
      forall path | path in o'.loaded ensures Matches(o', path) {
        if path == dir + [name] {
          MatchesWith(o, o', path);
        } else {
          assert Matches(o, path);
          MatchesAlways(o, o', path);
        }
      }
    }
  }

  // ---------------------------------------------------------------- copies

  lemma RootsAfterPut(o: Overlay, path: Path, child: Node)
    requires CanPut(o.upper, path)
    ensures Roots(o.(upper := Put(o.upper, path, child))) == AfterPut(Roots(o), path, child)
  {
  }

  /** Which reference is the one into the upper layer. */
  lemma RefsByUpper(o: Overlay, path: Path)
    requires path in o.loaded && Matches(o, path)
    ensures var refs := o.loaded[path];
            && (At(o.upper, path).Some? <==> refs[0] == 0)
            && (forall k | 1 <= k < |refs| :: refs[k] != 0)
  {
    var refs, rs := o.loaded[path], RealsAt(Roots(o), path);
    assert FirstUpper(Roots(o));
    UpperFirst(Roots(o), path);
    assert rs[0].inUpper == (refs[0] == 0);
    forall k | 1 <= k < |refs| ensures refs[k] != 0 {
      assert rs[k].inUpper == (refs[k] == 0);
      if At(o.upper, path).Some? { assert rs[1..][k - 1] == rs[k]; }
    }
  }

  /** References that do not go into the upper layer show what they showed. */
  lemma LowerRefsStay(o: Overlay, o': Overlay, path: Path, refs: seq<nat>)
    requires o'.lowers == o.lowers && AllShow(o, path, refs)
    requires (forall k | 0 <= k < |refs| :: refs[k] != 0) || At(o'.upper, path) == At(o.upper, path)
    ensures AllShow(o', path, refs) && Deref(o', path, refs) == Deref(o, path, refs)
  {
    forall k | 0 <= k < |refs| ensures Shows(o', path, refs[k]) == Shows(o, path, refs[k]) {}
  }

  lemma MatchesAbove(o: Overlay, o': Overlay, path: Path, child: Node, q: Path)
    requires q in o.loaded && Matches(o, q) && CanPut(o.upper, path) && q <= path && |q| < |path|
    requires o'.upper == Put(o.upper, path, child) && o'.lowers == o.lowers && q in o'.loaded
             && o'.loaded[q] == o.loaded[q]
    ensures Matches(o', q)
  {
    RealsAbovePut(Roots(o), path, child, q);
    RootsAfterPut(o, path, child);
    RefsByUpper(o, q);
    assert At(o.upper, q).Some? by { UpperAbove(o.upper, path, q); }
    hide RealsAt, Put, CanPut, At, AfterPut;
    var refs := o.loaded[q];
    forall k | 0 <= k < |refs|
      ensures Shows(o', q, refs[k]) == if k == 0 then At(o'.upper, q) else Shows(o, q, refs[k]) {}
    assert Deref(o', q, refs) == Retop(Deref(o, q, refs), At(o'.upper, q).value);
  }

  lemma {:induction false} UpperAbove(n: Node, path: Path, q: Path)
    requires CanPut(n, path) && q <= path && |q| < |path|
    ensures At(n, q).Some?
  {
    if q == [] {
    } else {
      UpperAbove(n.children[path[0]], path[1..], q[1..]);
    }
  }

  lemma MatchesBeside(o: Overlay, o': Overlay, path: Path, child: Node, q: Path)
    requires q in o.loaded && Matches(o, q) && CanPut(o.upper, path) && !(q <= path) && !(path <= q)
    requires o'.upper == Put(o.upper, path, child) && o'.lowers == o.lowers && q in o'.loaded
             && o'.loaded[q] == o.loaded[q]
    ensures Matches(o', q)
  {
    RealsBesidePut(Roots(o), path, child, q);
    RootsAfterPut(o, path, child);
    LowerRefsStay(o, o', q, o.loaded[q]);
  }

  lemma {:induction false} UpperBelow(n: Node, path: Path, q: Path)
    requires At(n, path).None? && path <= q
    ensures At(n, q).None?
  {
    if path != [] && n.Dir? && path[0] in n.children { UpperBelow(n.children[path[0]], path[1..], q[1..]); }
  }

  /** The node that a loaded path shows first. */
  function Source(o: Overlay, path: Path): Option<Node> {
    if path in o.loaded && o.loaded[path] != [] then Shows(o, path, o.loaded[path][0]) else None
  }

  /** A node below the upper layer, a copy of which can be put there. */
  ghost predicate CanAdd(o: Overlay, path: Path, child: Node) {
    && path in o.loaded && o.loaded[path] != [] && o.loaded[path][0] != 0 && CanPut(o.upper, path)
    && Source(o, path).Some? && !Source(o, path).value.Whiteout?
    && if Source(o, path).value.Dir? then child == UpperCopy(Source(o, path).value) else child.File?
  }

  /** The copy is put there, and the node learns of it. */
  function Added(o: Overlay, path: Path, child: Node): Overlay
    requires CanAdd(o, path, child)
  {
    Overlay(Put(o.upper, path, child), o.lowers,
            o.loaded[path := WithUpper(o.loaded[path], 0, !Source(o, path).value.Dir?)])
  }

  lemma MatchesBelow(o: Overlay, o': Overlay, path: Path, child: Node, q: Path)
    requires q in o.loaded && Matches(o, q) && CanAdd(o, path, child) && Matches(o, path) && path <= q && |path| < |q|
    requires o'.upper == Put(o.upper, path, child) && o'.lowers == o.lowers && q in o'.loaded
             && o'.loaded[q] == o.loaded[q]
    ensures Matches(o', q)
  {
    RefsByUpper(o, path);
    if Source(o, path).value.Dir? {
      RealsBelowCopy(Roots(o), path, q);
      RootsAfterPut(o, path, child);
      UpperBelow(o.upper, path, q);
      RefsByUpper(o, q);
      hide RealsAt, Put, CanPut, At, AfterPut, UpperCopy;
      LowerRefsStay(o, o', q, o.loaded[q]);
    } else {
      NothingUnderFile(Roots(o), path, q);
      assert false;
    }
  }

  lemma MatchesAt(o: Overlay, path: Path, child: Node)
    requires CanAdd(o, path, child) && Matches(o, path)
    ensures Matches(Added(o, path, child), path)
  {
    var n, o' := Source(o, path).value, Added(o, path, child);
    RootsAfterPut(o, path, child);
    RefsByUpper(o, path);
    AtPut(o.upper, path, child);
    if n.Dir? {
      RealsAtCopy(Roots(o), path);
      LowerRefsStay(o, o', path, o.loaded[path]);
    } else {
      RealsAtFile(Roots(o), path, child);
    }
    hide RealsAt, Put, CanPut, At, AfterPut, UpperCopy, Deref, AllShow;
    LowerRefsStay(o, o', path, o.loaded[path]);
    DerefWithUpper(o', path, o.loaded[path], child, !n.Dir?);
  }

  lemma DerefWithUpper(o: Overlay, path: Path, refs: seq<nat>, node: Node, clear: bool)
    requires AllShow(o, path, refs) && At(o.upper, path) == Some(node)
    ensures AllShow(o, path, WithUpper(refs, 0, clear))
    ensures Deref(o, path, WithUpper(refs, 0, clear)) == WithUpper(Deref(o, path, refs), Real(true, node), clear)
  {
    var refs' := WithUpper(refs, 0, clear);
    assert Shows(o, path, 0) == Some(node);
    forall k | 0 <= k < |refs'| ensures Shows(o, path, refs'[k]).Some? {
      assert k > 0 ==> refs'[k] == refs[k - 1];
    }
  }

  /** One copy that the node learns of keeps memory and layers together, whatever a file comes to hold. */
  lemma AddKeeps(o: Overlay, path: Path, child: Node)
    requires Consistent(o) && CanAdd(o, path, child)
    ensures Consistent(Added(o, path, child))
  {
    var o' := Added(o, path, child);
    forall q | q in o'.loaded ensures Matches(o', q) {
      assert Matches(o, path) && Matches(o, q);
      hide Matches;
      if q == path { MatchesAt(o, path, child); }
      else if q <= path { MatchesAbove(o, o', path, child, q); }
      else if path <= q { MatchesBelow(o, o', path, child, q); }
      else { MatchesBeside(o, o', path, child, q); }
    }
  }

  /** So does writing over a file that the node knows of. */
  lemma RewriteKeeps(o: Overlay, path: Path, child: Node)
    requires Consistent(o) && CanPut(o.upper, path) && child.File?
    requires path in o.loaded && o.loaded[path] == [0] && At(o.upper, path).Some? && At(o.upper, path).value.File?
    ensures Consistent(o.(upper := Put(o.upper, path, child)))
  {
    var o' := o.(upper := Put(o.upper, path, child));
    forall q | q in o'.loaded ensures Matches(o', q) {
      assert Matches(o, path) && Matches(o, q);
      if q == path { MatchesRewritten(o, path, child); }
      else if q <= path { hide Matches; MatchesAbove(o, o', path, child, q); }
      else if path <= q { NothingUnderFile(Roots(o), path, q); assert false; }
      else { hide Matches; MatchesBeside(o, o', path, child, q); }
    }
  }

  lemma MatchesRewritten(o: Overlay, path: Path, child: Node)
    requires CanPut(o.upper, path) && child.File? && path in o.loaded && o.loaded[path] == [0]
    ensures Matches(o.(upper := Put(o.upper, path, child)), path)
  {
    var o' := o.(upper := Put(o.upper, path, child));
    RootsAfterPut(o, path, child);
    RealsAtFile(Roots(o), path, child);
    AtPut(o.upper, path, child);
    hide RealsAt, Put, CanPut, At, AfterPut;
    assert Shows(o', path, 0) == Some(child);
    assert Deref(o', path, [0]) == [Real(true, child)];
  }
}
