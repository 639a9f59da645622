/** The union of overlay layers: the lazy, directory-at-a-time merge of the source against a plain
    two-layer overlay folded over the layers. */
module OverlayMerge {
  import opened Common

  type Name = string

  datatype Leaf =
    | Regular(mode: nat, bytes: seq<nat>)
    | Symlink(target: seq<nat>)
    | Special(mode: nat, rdev: nat)

  /** What one layer holds at a name. */
  datatype Node =
    | File(leaf: Leaf)
    | Whiteout
    | Dir(mode: nat, isOpaque: bool, children: map<Name, Node>)

  /** What a client of the overlay sees. */
  datatype Visible = VFile(leaf: Leaf) | VDir(mode: nat, entries: map<Name, Visible>)

  /** A real inode: a node of one layer, marked when that layer is the writable one. */
  datatype Real = Real(inUpper: bool, node: Node)

  // ---------------------------------------------------------------- the reference: fold a two-layer overlay

  function Over(upper: Node, lower: Node): Node
    decreases upper, 1
  {
    if upper.Dir? && !upper.isOpaque && lower.Dir?
    then Dir(upper.mode, lower.isOpaque, OverChildren(upper, lower))
    else upper
  }

  function OverChildren(upper: Node, lower: Node): map<Name, Node>
    requires upper.Dir? && lower.Dir?
    decreases upper, 0
  {
    map name | name in upper.children.Keys + lower.children.Keys ::
      if name !in upper.children then lower.children[name]
      else if name !in lower.children then upper.children[name]
      else Over(upper.children[name], lower.children[name])
  }

  function Fold(layers: seq<Node>): Node
    requires layers != []
  {
    if |layers| == 1 then layers[0] else Over(layers[0], Fold(layers[1..]))
  }

  /** A tree without its whiteouts. */
  function Shown(n: Node): Option<Visible>
    decreases n, 1
  {
    match n
    case File(leaf) => Some(VFile(leaf))
    case Whiteout => None
    case Dir(mode, _, _) => Some(VDir(mode, ShownChildren(n)))
  }

  function ShownChildren(n: Node): map<Name, Visible>
    requires n.Dir?
    decreases n, 0
  {
    map name | name in n.children && Shown(n.children[name]).Some? :: Shown(n.children[name]).value
  }

  // ---------------------------------------------------------------- the lazy merge

  ghost function MaxOf(s: set<nat>): (m: nat)
    ensures forall y | y in s :: y <= m
  {
    if s == {} then 0
    else
      var x :| x in s;
      var rest := MaxOf(s - {x});
      assert forall y | y in s :: y == x || y in s - {x};
      if x < rest then rest else x
  }

  ghost function Height(n: Node): nat
    decreases n, 1
  {
    if n.Dir? then 1 + MaxOf(ChildHeights(n)) else 0
  }

  ghost function ChildHeights(n: Node): set<nat>
    requires n.Dir?
    decreases n, 0
  {
    set name | name in n.children :: Height(n.children[name])
  }

  ghost function Tallest(reals: seq<Real>): (m: nat)
    ensures forall i | 0 <= i < |reals| :: Height(reals[i].node) <= m
    ensures reals != [] ==> exists i :: 0 <= i < |reals| && m == Height(reals[i].node)
  {
    if reals == [] then 0
    else
      var rest := Tallest(reals[1..]);
      if rest <= Height(reals[0].node) then Height(reals[0].node) else rest
  }

  /** The leading directories, down to the first one that hides what is below it: the real inodes that
      `scan_childrens` reads. */
  function Scanned(reals: seq<Real>): seq<Real> {
    if reals == [] || !reals[0].node.Dir? then []
    else if reals[0].node.isOpaque then [reals[0]]
    else [reals[0]] + Scanned(reals[1..])
  }

  /** The real inodes that `new_from_real_inodes` keeps for a name. */
  function Cut(reals: seq<Real>): (kept: seq<Real>)
    requires reals != []
    ensures kept != [] && kept[0] == reals[0]
  {
    if reals[0].node.Dir? then Scanned(reals) else [reals[0]]
  }

  /** The real inodes of one name in a stack of directories, topmost first. */
  function Column(dirs: seq<Real>, name: Name): seq<Real> {
    if dirs == [] then []
    else
      (if dirs[0].node.Dir? && name in dirs[0].node.children
       then [Real(dirs[0].inUpper, dirs[0].node.children[name])] else [])
      + Column(dirs[1..], name)
  }

  function Names(dirs: seq<Real>): set<Name> {
    if dirs == [] then {}
    else (if dirs[0].node.Dir? then dirs[0].node.children.Keys else {}) + Names(dirs[1..])
  }

  lemma ChildHeight(n: Node, name: Name)
    requires n.Dir? && name in n.children
    ensures Height(n.children[name]) < Height(n)
  {
    assert Height(n.children[name]) in ChildHeights(n);
  }

  lemma {:induction false} ColumnIsLower(dirs: seq<Real>, name: Name, h: nat)
    requires forall i | 0 <= i < |dirs| :: Height(dirs[i].node) <= h
    ensures name in Names(dirs) <==> Column(dirs, name) != []
    ensures forall i | 0 <= i < |Column(dirs, name)| :: Height(Column(dirs, name)[i].node) < h
  {
    if dirs == [] {
    } else {
      ColumnIsLower(dirs[1..], name, h);
      if dirs[0].node.Dir? && name in dirs[0].node.children {
        ChildHeight(dirs[0].node, name);
        assert Column(dirs, name)[1..] == Column(dirs[1..], name);
      }
    }
  }

  lemma {:induction false} ScannedIsPrefix(reals: seq<Real>)
    ensures Scanned(reals) <= reals
    ensures reals != [] && reals[0].node.Dir? ==> Scanned(reals) != []
    ensures Scanned(Scanned(reals)) == Scanned(reals)
    ensures forall i | 0 <= i < |Scanned(reals)| :: Scanned(reals)[i].node.Dir?
  {
    if reals != [] && reals[0].node.Dir? && !reals[0].node.isOpaque {
      ScannedIsPrefix(reals[1..]);
      assert Scanned(reals)[1..] == Scanned(reals[1..]);
    }
  }

  lemma ChildIsLower(reals: seq<Real>, name: Name)
    requires reals != [] && name in Names(Scanned(reals))
    ensures Column(Scanned(reals), name) != []
    ensures Tallest(Cut(Column(Scanned(reals), name))) < Tallest(reals)
  {
    ScannedIsPrefix(reals);
    ColumnIsLower(Scanned(reals), name, Tallest(reals));
    ScannedIsPrefix(Column(Scanned(reals), name));
  }

  /** What a node shows, from its real inodes: its own kind and mode from the first one, its entries by
      scanning the directories and building a node for each name. */
  function View(reals: seq<Real>): Option<Visible>
    requires reals != []
    decreases Tallest(reals), 2
  {
    match reals[0].node
    case File(leaf) => Some(VFile(leaf))
    case Whiteout => None
    case Dir(mode, _, _) => Some(VDir(mode, Entries(reals)))
  }

  function Entries(reals: seq<Real>): map<Name, Visible>
    requires reals != []
    decreases Tallest(reals), 1
  {
    map name | name in Names(Scanned(reals)) && ChildView(reals, name).Some? :: ChildView(reals, name).value
  }

  function ChildView(reals: seq<Real>, name: Name): Option<Visible>
    requires reals != [] && name in Names(Scanned(reals))
    decreases Tallest(reals), 0
  {
    ChildIsLower(reals, name);
    View(Cut(Column(Scanned(reals), name)))
  }

  // ---------------------------------------------------------------- the two agree

  function Nodes(reals: seq<Real>): (ns: seq<Node>)
    ensures |ns| == |reals|
    ensures forall i | 0 <= i < |ns| :: ns[i] == reals[i].node
  {
    seq(|reals|, i requires 0 <= i < |reals| => reals[i].node)
  }

  ghost function Folded(reals: seq<Real>): Node
    requires reals != []
  {
    Fold(Nodes(reals))
  }

  lemma FoldedStep(r: Real, rest: seq<Real>)
    ensures Folded([r] + rest) == if rest == [] then r.node else Over(r.node, Folded(rest))
  {
    assert Nodes([r] + rest) == [r.node] + Nodes(rest);
    if rest != [] { assert Nodes([r] + rest)[1..] == Nodes(rest); }
  }

  lemma FoldedLeaf(reals: seq<Real>)
    requires reals != [] && !reals[0].node.Dir?
    ensures Folded(reals) == reals[0].node
  {
    assert reals == [reals[0]] + reals[1..];
    FoldedStep(reals[0], reals[1..]);
  }

  /** The fold of a stack whose top is a directory is a directory: its mode is the top's, and each entry
      is the fold of that name's column. */
  ghost predicate FoldsByColumn(f: Node, mode: nat, dirs: seq<Real>) {
    && f.Dir? && f.mode == mode && f.children.Keys == Names(dirs)
    && forall name <- Names(dirs) :: Column(dirs, name) != [] && f.children[name] == Folded(Column(dirs, name))
  }

  lemma FoldedAlone(top: Real)
    requires top.node.Dir?
    ensures FoldsByColumn(top.node, top.node.mode, [top])
  {
    assert Names([top]) == top.node.children.Keys;
    forall name | name in Names([top])
      ensures Column([top], name) != [] && top.node.children[name] == Folded(Column([top], name))
    {
      FoldedStep(Real(top.inUpper, top.node.children[name]), []);
      assert [Real(top.inUpper, top.node.children[name])] + [] == Column([top], name);
    }
  }

  lemma FoldedOver(top: Real, deep: seq<Real>, f: Node)
    requires top.node.Dir? && !top.node.isOpaque && f.Dir? && FoldsByColumn(f, f.mode, deep)
    ensures FoldsByColumn(Over(top.node, f), top.node.mode, [top] + deep)
  {
    var dirs := [top] + deep;
    assert dirs[1..] == deep;
    assert Names(dirs) == top.node.children.Keys + f.children.Keys == Over(top.node, f).children.Keys;
    forall name | name in Names(dirs)
      ensures Column(dirs, name) != [] && Over(top.node, f).children[name] == Folded(Column(dirs, name))
    {
      ColumnIsLower(deep, name, Tallest(deep));
      if name in top.node.children {
        FoldedStep(Real(top.inUpper, top.node.children[name]), Column(deep, name));
      } else {
        assert Column(dirs, name) == Column(deep, name);
      }
    }
  }

  lemma {:induction false} FoldedDir(reals: seq<Real>)
    requires reals != [] && reals[0].node.Dir?
    ensures FoldsByColumn(Folded(reals), reals[0].node.mode, Scanned(reals))
  {
    var top, rest := reals[0], reals[1..];
    assert reals == [top] + rest;
    FoldedStep(top, rest);
    if top.node.isOpaque || rest == [] {
      FoldedAlone(top);
    } else if !rest[0].node.Dir? {
      FoldedLeaf(rest);
      FoldedAlone(top);
    } else {
      FoldedDir(rest);
      FoldedOver(top, Scanned(rest), Folded(rest));
    }
  }

  /** Real inodes dropped by the cut do not matter. */
  lemma ViewCut(reals: seq<Real>)
    requires reals != []
    ensures View(Cut(reals)) == View(reals)
  {
    ScannedIsPrefix(reals);
    if reals[0].node.Dir? {
      assert Scanned(Cut(reals)) == Scanned(reals);
      assert Entries(Cut(reals)) == Entries(reals);
    }
  }

  lemma ColumnIsShorter(reals: seq<Real>, name: Name)
    requires reals != [] && name in Names(Scanned(reals))
    ensures Column(Scanned(reals), name) != [] && Tallest(Column(Scanned(reals), name)) < Tallest(reals)
  {
    ScannedIsPrefix(reals);
    ColumnIsLower(Scanned(reals), name, Tallest(reals));
    hide Height, Scanned, Column, Names;
  }

  lemma SameView(reals: seq<Real>, f: Node)
    requires reals != [] && reals[0].node.Dir? && f.Dir? && f.mode == reals[0].node.mode
    requires f.children.Keys == Names(Scanned(reals))
    requires forall name <- Names(Scanned(reals)) :: ChildView(reals, name) == Shown(f.children[name])
    ensures View(reals) == Shown(f)
  {
    assert Entries(reals) == ShownChildren(f) by { hide View, Shown, Scanned, Names, ChildView; }
  }

  /** For any stack of layers, what repeated scanning shows is the folded overlay without its whiteouts. */
  lemma {:induction false} LazyMergeIsFold(reals: seq<Real>)
    requires reals != []
    ensures View(reals) == Shown(Folded(reals))
    decreases Tallest(reals)
  {
    if !reals[0].node.Dir? {
      FoldedLeaf(reals);
      hide Folded;
    } else {
      hide View, Shown, Column, Names, Scanned, Cut, Height, Folded, Entries, ShownChildren, Tallest;
      FoldedDir(reals);
      var f, dirs := Folded(reals), Scanned(reals);
      forall name | name in Names(dirs) ensures ChildView(reals, name) == Shown(f.children[name]) {
        ColumnIsShorter(reals, name);
        LazyMergeIsFold(Column(dirs, name));
        ViewCut(Column(dirs, name));
      }
      SameView(reals, f);
    }
  }
}
