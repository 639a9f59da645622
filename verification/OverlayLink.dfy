/** The nodes that only know inodes and answers, against the layers as trees: what a load keeps is what the
    merge keeps. The layers number their inodes as they like. */
module OverlayLink {
  import opened Common
  import M = OverlayMerge
  import C = OverlayCopyUp
  import N = OverlayNodes

  function KindOf(n: M.Node): N.Kind {
    match n
    case Dir(_, _, _) => N.Directory
    case Whiteout => N.Other
    case File(Regular(_, _)) => N.Regular
    case File(Symlink(_)) => N.Symlink
    case File(Special(_, _)) => N.Other
  }

  /** A real inode as the overlay's nodes see it, with the number that its layer has given it. */
  function Seen(r: M.Real, ino: nat): N.Real {
    N.Real(r.inUpper, ino, KindOf(r.node), r.node.Whiteout?, r.node.Dir? && r.node.isOpaque)
  }

  function SeenAll(reals: seq<M.Real>, inos: seq<nat>): (rs: seq<N.Real>)
    requires |inos| == |reals|
    ensures |rs| == |reals|
  {
    seq(|reals|, i requires 0 <= i < |reals| => Seen(reals[i], inos[i]))
  }

  /** A layer's answer to a lookup. */
  function Answer(n: M.Node, ino: nat): N.Found {
    match n
    case Dir(_, isOpaque, _) => N.FoundDir(ino, isOpaque)
    case Whiteout => N.FoundWhiteout(ino)
    case File(_) => N.FoundLeaf(ino, KindOf(n))
  }

  function AnswerFor(r: M.Real, name: M.Name, ino: nat): Option<N.Found> {
    if r.node.Dir? && name in r.node.children then Some(Answer(r.node.children[name], ino)) else None
  }

  /** The answers of the layers; `kids[i]` is what the i-th one calls its inode, if it has the name. */
  function Answers(reals: seq<M.Real>, name: M.Name, kids: seq<nat>): (found: seq<Option<N.Found>>)
    requires |kids| == |reals|
    ensures |found| == |reals|
  {
    seq(|reals|, i requires 0 <= i < |reals| => AnswerFor(reals[i], name, kids[i]))
  }

  /** The numbers of a name in a stack of directories: one for each directory that has it. */
  function ColumnInos(dirs: seq<M.Real>, name: M.Name, kids: seq<nat>): (inos: seq<nat>)
    requires |dirs| <= |kids|
    ensures |inos| == |M.Column(dirs, name)|
  {
    if dirs == [] then []
    else (if AnswerFor(dirs[0], name, kids[0]).Some? then [kids[0]] else []) + ColumnInos(dirs[1..], name, kids[1..])
  }

  lemma SeenJoin(a: seq<M.Real>, x: seq<nat>, b: seq<M.Real>, y: seq<nat>)
    requires |x| == |a| && |y| == |b|
    ensures SeenAll(a + b, x + y) == SeenAll(a, x) + SeenAll(b, y)
  {
  }

  lemma AnswerIsSeen(upper: bool, n: M.Node, ino: nat)
    ensures N.RealOf(upper, Answer(n, ino)) == Seen(M.Real(upper, n), ino)
  {
  }

  lemma SeenRest(reals: seq<M.Real>, inos: seq<nat>)
    requires |inos| == |reals| > 0
    ensures SeenAll(reals, inos)[0] == Seen(reals[0], inos[0])
    ensures SeenAll(reals, inos)[1..] == SeenAll(reals[1..], inos[1..])
  {
    hide Seen;
  }

  lemma AnswersRest(reals: seq<M.Real>, name: M.Name, kids: seq<nat>)
    requires |kids| == |reals| > 0
    ensures Answers(reals, name, kids)[0] == AnswerFor(reals[0], name, kids[0])
    ensures Answers(reals, name, kids)[1..] == Answers(reals[1..], name, kids[1..])
  {
    hide AnswerFor;
  }

  lemma SeenFew(r: M.Real, ino: nat)
    ensures SeenAll([r], [ino]) == [Seen(r, ino)] && SeenAll([], []) == []
  {
  }

  lemma ScannedIsShorter(reals: seq<M.Real>)
    ensures |M.Scanned(reals)| <= |reals|
  {
    M.ScannedIsPrefix(reals);
  }

  /** The column of a name, one layer down. */
  lemma ScannedColumn(reals: seq<M.Real>, name: M.Name, kids: seq<nat>)
    requires reals != [] && reals[0].node.Dir? && |kids| == |reals|
    ensures |M.Scanned(reals)| <= |reals| && |M.Scanned(reals[1..])| <= |reals[1..]|
    ensures var top := reals[0];
            var deep := if top.node.isOpaque then [] else M.Scanned(reals[1..]);
            && M.Column(M.Scanned(reals), name) ==
               (if name in top.node.children then [M.Real(top.inUpper, top.node.children[name])] else [])
               + M.Column(deep, name)
            && ColumnInos(M.Scanned(reals), name, kids) ==
               (if name in top.node.children then [kids[0]] else []) + ColumnInos(deep, name, kids[1..])
    ensures M.Column([], name) == []
  {
    ScannedIsShorter(reals);
    ScannedIsShorter(reals[1..]);
    var deep := if reals[0].node.isOpaque then [] else M.Scanned(reals[1..]);
    assert M.Scanned(reals) == [reals[0]] + deep && ([reals[0]] + deep)[1..] == deep;
  }

  lemma {:induction false} ColumnIsSeen(reals: seq<M.Real>, inos: seq<nat>, name: M.Name, kids: seq<nat>)
    requires |inos| == |reals| == |kids|
    ensures |M.Scanned(reals)| <= |reals|
    ensures N.ColumnOf(SeenAll(reals, inos), Answers(reals, name, kids))
         == SeenAll(M.Column(M.Scanned(reals), name), ColumnInos(M.Scanned(reals), name, kids))
  {
    ScannedIsShorter(reals);
    N.ColumnStep(SeenAll(reals, inos), Answers(reals, name, kids));
    if reals == [] || !reals[0].node.Dir? {
      assert M.Scanned(reals) == [] && M.Column([], name) == [];
    } else {
      var top, rest := reals[0], reals[1..];
      ColumnIsSeen(rest, inos[1..], name, kids[1..]);
      SeenRest(reals, inos);
      AnswersRest(reals, name, kids);
      ScannedColumn(reals, name, kids);
      hide M.Scanned, M.Column, SeenAll, Answers, ColumnInos, N.ColumnOf, N.RealOf;
      var deep := if top.node.isOpaque then [] else M.Scanned(rest);
      var has := name in top.node.children;
      var first := if has then [M.Real(top.inUpper, top.node.children[name])] else [];
      SeenJoin(first, if has then [kids[0]] else [], M.Column(deep, name), ColumnInos(deep, name, kids[1..]));
      SeenFew(M.Real(top.inUpper, if has then top.node.children[name] else top.node), kids[0]);
      if has { AnswerIsSeen(top.inUpper, top.node.children[name], kids[0]); }
    }
  }

  lemma {:induction false} MergingIsSeen(reals: seq<M.Real>, inos: seq<nat>)
    requires |inos| == |reals|
    ensures |M.Scanned(reals)| <= |reals|
    ensures N.Merging(SeenAll(reals, inos)) == SeenAll(M.Scanned(reals), inos[..|M.Scanned(reals)|])
  {
    ScannedIsShorter(reals);
    N.MergingStep(SeenAll(reals, inos));
    if reals == [] || !reals[0].node.Dir? {
      assert M.Scanned(reals) == [];
    } else {
      var deep := if reals[0].node.isOpaque then [] else M.Scanned(reals[1..]);
      MergingIsSeen(reals[1..], inos[1..]);
      SeenRest(reals, inos);
      assert M.Scanned(reals) == [reals[0]] + deep;
      assert inos[..1 + |deep|] == [inos[0]] + inos[1..][..|deep|];
      hide M.Scanned, N.Merging, Seen;
      SeenJoin([reals[0]], [inos[0]], deep, inos[1..][..|deep|]);
      SeenFew(reals[0], inos[0]);
    }
  }

  lemma KeptIsSeen(column: seq<M.Real>, inos: seq<nat>)
    requires |inos| == |column| > 0
    ensures |M.Cut(column)| <= |column|
    ensures N.KeptOf(SeenAll(column, inos)) == SeenAll(M.Cut(column), inos[..|M.Cut(column)|])
  {
    ScannedIsShorter(column);
    MergingIsSeen(column[1..], inos[1..]);
    SeenRest(column, inos);
    SeenFew(column[0], inos[0]);
    assert inos[..1] == [inos[0]];
    if column[0].node.Dir? && !column[0].node.isOpaque {
      var deep := M.Scanned(column[1..]);
      assert inos[..1 + |deep|] == [inos[0]] + inos[1..][..|deep|];
      SeenJoin([column[0]], [inos[0]], deep, inos[1..][..|deep|]);
    }
    hide SeenAll, N.Merging, Seen;
  }

  /** A node over some real inodes that is asked for a name, with the layers' own answers, gets a child over
      exactly the real inodes that merging gives the name, each under the number that its layer gave it; and none
      exactly when merging gives none. */
  lemma LoadIsMerge(reals: seq<M.Real>, inos: seq<nat>, name: M.Name, kids: seq<nat>)
    requires |inos| == |reals| == |kids|
    ensures |M.Scanned(reals)| <= |reals|
    ensures |C.RealsOf(reals, name)| <= |ColumnInos(M.Scanned(reals), name, kids)|
    ensures N.KeptOf(N.ColumnOf(SeenAll(reals, inos), Answers(reals, name, kids)))
         == SeenAll(C.RealsOf(reals, name), ColumnInos(M.Scanned(reals), name, kids)[..|C.RealsOf(reals, name)|])
  {
    ColumnIsSeen(reals, inos, name, kids);
    var column, numbers := M.Column(M.Scanned(reals), name), ColumnInos(M.Scanned(reals), name, kids);
    hide M.Scanned, M.Column, ColumnInos, N.ColumnOf, Answers;
    if column != [] { KeptIsSeen(column, numbers); }
  }
}
