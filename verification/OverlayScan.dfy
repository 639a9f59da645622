/** The loops that build overlay nodes from real inodes. */
module OverlayScan {
  import opened Common
  import opened OverlayMerge

  /** Builds the node of one name from its real inodes, topmost layer first. */
  method NewFromRealInodes(reals: seq<Real>) returns (r: Result<seq<Real>>)
    ensures reals == [] <==> r.Err?
    ensures reals != [] ==> r == Ok(Cut(reals))
  {
    if reals == [] { return Err; }
    var kept: seq<Real> := [];
    var first := true;
    for i := 0 to |reals|
      invariant first == (i == 0) && (first ==> kept == [])
      invariant i > 0 ==> Cut(reals) == kept + Scanned(reals[i..])
    {
      var ri := reals[i];
      assert reals[i..] == [ri] + reals[i + 1..];
      if first {
        first := false;
        kept := [ri];
        if ri.node.Whiteout? || !ri.node.Dir? || ri.node.isOpaque { return Ok(kept); }
      } else {
        if ri.node.Whiteout? || !ri.node.Dir? {
          assert Scanned(reals[i..]) == [] && kept + [] == kept;
          return Ok(kept);
        }
        kept := kept + [ri];
        if ri.node.isOpaque { return Ok(kept); }
      }
      assert Scanned([ri] + reals[i + 1..]) == [ri] + Scanned(reals[i + 1..]);
    }
    assert Scanned(reals[|reals|..]) == [] && kept + [] == kept;
    return Ok(kept);
  }

  /** The real inode that one directory has for a name, if any. */
  function Entry(ri: Real, name: Name): seq<Real> {
    if ri.node.Dir? && name in ri.node.children then [Real(ri.inUpper, ri.node.children[name])] else []
  }

  function Pushed(m: map<Name, seq<Real>>, name: Name): seq<Real> {
    if name in m then m[name] else []
  }

  lemma {:induction false} ColumnSnoc(dirs: seq<Real>, r: Real, name: Name)
    ensures Column(dirs + [r], name) == Column(dirs, name) + Entry(r, name)
  {
    if dirs == [] {
      assert dirs + [r] == [r] && [r][1..] == [];
    } else {
      assert (dirs + [r])[1..] == dirs[1..] + [r];
      ColumnSnoc(dirs[1..], r, name);
    }
  }

  lemma {:induction false} NamesSnoc(dirs: seq<Real>, r: Real)
    requires r.node.Dir?
    ensures Names(dirs + [r]) == Names(dirs) + r.node.children.Keys
  {
    if dirs == [] {
      assert dirs + [r] == [r] && [r][1..] == [];
    } else {
      assert (dirs + [r])[1..] == dirs[1..] + [r];
      NamesSnoc(dirs[1..], r);
    }
  }

  /** The entries of one directory are pushed onto the columns of their names. */
  method MergeEntries(all: map<Name, seq<Real>>, ri: Real) returns (merged: map<Name, seq<Real>>)
    requires ri.node.Dir?
    ensures merged.Keys == all.Keys + ri.node.children.Keys
    ensures forall name :: Pushed(merged, name) == Pushed(all, name) + Entry(ri, name)
  {
    var entries := ri.node.children;
    merged := all;
    var todo := entries.Keys;
    while todo != {}
      invariant todo <= entries.Keys
      invariant merged.Keys == all.Keys + (entries.Keys - todo)
      invariant forall name :: Pushed(merged, name) == Pushed(all, name) + if name in todo then [] else Entry(ri, name)
      decreases todo
    {
      var name :| name in todo;
      ghost var before := merged;
      merged := merged[name := Pushed(merged, name) + [Real(ri.inUpper, entries[name])]];
      assert forall other :: other != name ==> Pushed(merged, other) == Pushed(before, other);
      todo := todo - {name};
    }
  }

  /** The first `n` directories can be read. */
  predicate AllReadable(readable: nat -> bool, n: nat) {
    forall i | 0 <= i < n :: readable(i)
  }

  /** The map holds the columns of all names in these directories. */
  ghost predicate Columns(all: map<Name, seq<Real>>, dirs: seq<Real>) {
    all.Keys == Names(dirs) && forall name :: Pushed(all, name) == Column(dirs, name)
  }

  lemma ColumnsSnoc(all: map<Name, seq<Real>>, dirs: seq<Real>, r: Real, merged: map<Name, seq<Real>>)
    requires Columns(all, dirs) && r.node.Dir?
    requires merged.Keys == all.Keys + r.node.children.Keys
    requires forall name :: Pushed(merged, name) == Pushed(all, name) + Entry(r, name)
    ensures Columns(merged, dirs + [r])
  {
    NamesSnoc(dirs, r);
    forall name ensures Pushed(merged, name) == Column(dirs + [r], name) { ColumnSnoc(dirs, r, name); }
  }

  lemma ScannedStep(reals: seq<Real>)
    ensures Scanned(reals) == if reals == [] || !reals[0].node.Dir? then []
                              else if reals[0].node.isOpaque then [reals[0]]
                              else [reals[0]] + Scanned(reals[1..])
  {
  }

  /** How the scan goes on from the i-th directory. */
  lemma ScannedFrom(reals: seq<Real>, i: nat)
    requires i < |reals| && Scanned(reals) == reals[..i] + Scanned(reals[i..])
    ensures reals[..i + 1] == reals[..i] + [reals[i]]
    ensures if !reals[i].node.Dir? then Scanned(reals) == reals[..i]
            else if reals[i].node.isOpaque then Scanned(reals) == reals[..i + 1]
            else Scanned(reals) == reals[..i + 1] + Scanned(reals[i + 1..])
  {
    FromNext(reals, i);
    ScannedStep(reals[i..]);
    NothingMore(reals[..i]);
    hide Scanned;
    Regroup(reals[..i], [reals[i]], Scanned(reals[i + 1..]));
  }

  /** The columns of all names, read layer by layer. The i-th directory can be read or not; one that is hidden
      is not read. */
  method ScanLayers(reals: seq<Real>, readable: nat -> bool) returns (r: Result<map<Name, seq<Real>>>)
    ensures r.Ok? <==> AllReadable(readable, |Scanned(reals)|)
    ensures r.Ok? ==> Columns(r.value, Scanned(reals))
  {
    var all: map<Name, seq<Real>> := map[];
    assert reals[..0] == [] && reals[0..] == reals;
    NothingMore(Scanned(reals));
    assert Columns(all, []);
    hide Columns, Scanned;
    for i := 0 to |reals|
      invariant Scanned(reals) == reals[..i] + Scanned(reals[i..])
      invariant AllReadable(readable, i) && Columns(all, reals[..i])
    {
      var ri := reals[i];
      ScannedFrom(reals, i);
      if ri.node.Whiteout? || !ri.node.Dir? { return Ok(all); }
      assert |Scanned(reals)| >= i + 1;
      if !readable(i) { return Err; }
      all := PushEntries(all, reals[..i], ri);
      if ri.node.isOpaque { return Ok(all); }
    }
    ScannedEnd(reals);
    return Ok(all);
  }

  method PushEntries(all: map<Name, seq<Real>>, ghost dirs: seq<Real>, ri: Real) returns (merged: map<Name, seq<Real>>)
    requires ri.node.Dir? && Columns(all, dirs)
    ensures Columns(merged, dirs + [ri])
  {
    hide Columns;
    merged := MergeEntries(all, ri);
    ColumnsSnoc(all, dirs, ri, merged);
  }

  lemma ScannedEnd(reals: seq<Real>)
    requires Scanned(reals) == reals[..|reals|] + Scanned(reals[|reals|..])
    ensures Scanned(reals) == reals[..|reals|]
  {
  }

  /** Reads every directory of a node and builds a node for every name found, as `scan_childrens` does. */
  method ScanChildrens(reals: seq<Real>, readable: nat -> bool) returns (r: Result<map<Name, seq<Real>>>)
    ensures r.Ok? <==> reals != [] && reals[0].node.Dir? && AllReadable(readable, |Scanned(reals)|)
    ensures r.Ok? ==> r.value.Keys == Names(Scanned(reals))
    ensures r.Ok? ==> forall name <- r.value :: r.value[name] != [] && View(r.value[name]) == ChildView(reals, name)
  {
    if reals == [] || !reals[0].node.Dir? { return Err; }
    var scanned := ScanLayers(reals, readable);
    if scanned.Err? { return Err; }
    var all := scanned.value;
    var childrens: map<Name, seq<Real>> := map[];
    var todo := all.Keys;
    while todo != {}
      invariant todo <= all.Keys && childrens.Keys == all.Keys - todo
      invariant forall name <- childrens :: childrens[name] != [] && View(childrens[name]) == ChildView(reals, name)
      decreases todo
    {
      var name :| name in todo;
      assert all[name] == Pushed(all, name) == Column(Scanned(reals), name);
      ChildIsLower(reals, name);
      var kept := NewFromRealInodes(all[name]);
      childrens := childrens[name := kept.value];
      todo := todo - {name};
    }
    return Ok(childrens);
  }
}
