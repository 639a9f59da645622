/** What whole runs of loads and copy-ups do to the merged tree: nothing but the contents of files whose copies
    failed, and those come back when a copy is tried again and finishes. */
module OverlayTree {
  import opened Common
  import opened OverlayMerge
  import opened OverlayCopyUp
  import opened OverlayMemory
  import opened OverlayRuns

  // ---------------------------------------------------------------- one file

  /** A file put into the upper layer is put into the merged tree. */
  lemma {:induction false} OverPut(upper: Node, lower: Node, path: Path, child: Node)
    requires CanPut(upper, path) && child.File?
    ensures CanPut(Over(upper, lower), path)
    ensures Over(Put(upper, path, child), lower) == Put(Over(upper, lower), path, child)
  {
    var name := path[0];
    if upper.isOpaque || !lower.Dir? {
    } else {
      var both := Over(upper, lower);
      assert both.children == OverChildren(upper, lower);
      if |path| > 1 {
        if name in lower.children { OverPut(upper.children[name], lower.children[name], path[1..], child); }
        assert CanPut(both.children[name], path[1..]);
      }
      var upper' := Put(upper, path, child);
      assert upper'.children[name] == if |path| == 1 then child else Put(upper.children[name], path[1..], child);
      assert OverChildren(upper', lower)[name] == Put(both, path, child).children[name];
      assert OverChildren(upper', lower) == Put(both, path, child).children;
    }
  }

  lemma MergedPut(upper: Node, lowers: seq<Node>, path: Path, child: Node)
    requires CanPut(upper, path) && child.File?
    ensures CanPut(Merged(upper, lowers), path)
    ensures Merged(Put(upper, path, child), lowers) == Put(Merged(upper, lowers), path, child)
  {
    MergedIsOver(upper, lowers);
    MergedIsOver(Put(upper, path, child), lowers);
    if lowers != [] { OverPut(upper, Fold(lowers), path, child); }
  }

  ghost function Tree(o: Overlay): Node {
    Merged(o.upper, o.lowers)
  }

  /** The node that a copy is made of is the one that the merged tree has, unless an earlier copy left another. */
  lemma CopiedShows(o: Overlay, path: Path)
    requires Sound(o) && Tries(o, path) && At(o.upper, path).None?
    ensures var reals, n := RealsAt(Roots(o), path), Source(o, path).value;
            && reals != [] && reals[0].node == n && At(Tree(o), path).Some?
            && (if n.Dir? then At(Tree(o), path).value.Dir? else At(Tree(o), path) == Some(n))
  {
    var t := Told(o);
    assert t.loaded[path] == o.loaded[path] && Matches(t, path);
    assert Roots(t) == Roots(o) && Shows(t, path, t.loaded[path][0]) == Source(o, path);
    assert Deref(t, path, t.loaded[path])[0].node == Source(o, path).value;
    CopySource(o.upper, o.lowers, path);
  }

  /** One copy changes the merged tree by the file it leaves, and by nothing else. */
  lemma RaisedTree(o: Overlay, path: Path, answer: Answer)
    requires Sound(o)
    ensures var o' := Raised(o, path, answer);
            if Tries(o, path) && !answer.Refused? && CopiesFile(o, path)
            then var child := Left(Source(o, path).value, answer, At(o.upper, path)).value;
                 && child.File? && CanPut(Tree(o), path) && Tree(o') == Put(Tree(o), path, child)
            else Tree(o') == Tree(o)
  {
    if Tries(o, path) && !answer.Refused? {
      var n := Source(o, path).value;
      RaisedIs(o, path, answer);
      var child := Left(n, answer, At(o.upper, path)).value;
      if IsCopied(n) {
        MergedPut(o.upper, o.lowers, path, child);
      } else {
        CopiedShows(o, path);
        OneCopy(o.upper, o.lowers, path, child);
      }
    }
  }

  // ---------------------------------------------------------------- a copy that is tried again

  /** The bytes of a file after some copies of it, none of which found a file when the first one began. */
  function Kept(answers: seq<Answer>): Option<seq<nat>> {
    if answers == [] then None
    else
      var front, last := Kept(answers[..|answers| - 1]), answers[|answers| - 1];
      if last.Refused? then front
      else if front.None? then Some(last.stored)
      else Some(Overwritten(front.value, last.stored))
  }

  function Raises(path: Path, answers: seq<Answer>): (ops: seq<Op>)
    ensures |ops| == |answers|
  {
    seq(|answers|, i requires 0 <= i < |answers| => Raise(path, answers[i]))
  }

  /** The layers after copies of one file that did not finish. */
  ghost predicate IsTried(o: Overlay, path: Path, answers: seq<Answer>, o': Overlay)
    requires CanPut(o.upper, path) && CopiesFile(o, path)
  {
    && o'.lowers == o.lowers && o'.loaded == o.loaded && Tries(o', path) && Source(o', path) == Source(o, path)
    && o'.upper == if Kept(answers).None? then o.upper
                   else Put(o.upper, path, File(Regular(Source(o, path).value.leaf.mode, Kept(answers).value)))
  }

  lemma {:induction false} TriedAgain(o: Overlay, path: Path, answers: seq<Answer>)
    requires Tries(o, path) && At(o.upper, path).None? && CopiesFile(o, path) && forall a <- answers :: !a.Done?
    ensures IsTried(o, path, answers, Run(o, Raises(path, answers)))
  {
    if answers == [] {
    } else {
      var front, last := answers[..|answers| - 1], answers[|answers| - 1];
      assert Raises(path, answers)[..|answers| - 1] == Raises(path, front);
      TriedAgain(o, path, front);
      hide Run;
      assert Run(o, Raises(path, answers)) == Raised(Run(o, Raises(path, front)), path, last) by {
        RunLast(o, Raises(path, answers));
      }
      TriedOnce(o, path, front, last, Run(o, Raises(path, front)));
    }
  }

  lemma RunLast(o: Overlay, ops: seq<Op>)
    requires ops != []
    ensures Run(o, ops) == Applied(Run(o, ops[..|ops| - 1]), ops[|ops| - 1])
  {
  }

  lemma TriedOnce(o: Overlay, path: Path, front: seq<Answer>, last: Answer, b: Overlay)
    requires Tries(o, path) && At(o.upper, path).None? && CopiesFile(o, path) && IsTried(o, path, front, b)
    ensures var o' := Raised(b, path, last);
            && o'.lowers == o.lowers
            && (if last.Done? then o'.loaded == o.loaded[path := [0]] else o'.loaded == o.loaded)
            && o'.upper == (if Kept(front + [last]).None? then o.upper
                            else Put(o.upper, path,
                                     File(Regular(Source(o, path).value.leaf.mode, Kept(front + [last]).value))))
            && (!last.Done? ==> IsTried(o, path, front + [last], o'))
  {
    var n, o' := Source(o, path).value, Raised(b, path, last);
    assert (front + [last])[..|front|] == front;
    if !last.Refused? {
      RaisedIs(b, path, last);
      var mode := n.leaf.mode;
      var left := Left(n, last, At(b.upper, path)).value;
      if Kept(front).Some? {
        var before := File(Regular(mode, Kept(front).value));
        AtPut(o.upper, path, before);
        PutTwice(o.upper, path, before, left);
      }
      AtPut(o.upper, path, left);
      PutHere(o.upper, path, left);
      if last.Done? {
        assert WithUpper(o.loaded[path], 0, true) == [0];
        assert o'.loaded == o.loaded[path := [0]];
      } else {
        SourceStays(b, o', path);
      }
    }
  }

  /** A leftover file goes when a copy of it finishes, and then the merged tree is as it was before the first copy
      if and only if the file is a regular one and all its bytes are there. */
  lemma RetryRestores(o: Overlay, path: Path, answers: seq<Answer>, stored: seq<nat>)
    requires Sound(o) && Tries(o, path) && At(o.upper, path).None? && CopiesFile(o, path)
    requires forall a <- answers :: !a.Done?
    ensures var o', n := Run(o, Raises(path, answers + [Done(stored)])), Source(o, path).value;
            && !Pending(o', path)
            && (Tree(o') == Tree(o) <==> n.leaf.Regular? && Kept(answers + [Done(stored)]) == Some(n.leaf.bytes))
  {
    var all, n := answers + [Done(stored)], Source(o, path).value;
    var ops, b := Raises(path, all), Run(o, Raises(path, answers));
    assert all[..|answers|] == answers && ops[..|answers|] == Raises(path, answers);
    TriedAgain(o, path, answers);
    RunLast(o, ops);
    hide Run;
    TriedOnce(o, path, answers, Done(stored), b);
    CopiedShows(o, path);
    OneCopy(o.upper, o.lowers, path, File(Regular(n.leaf.mode, Kept(all).value)));
  }

  lemma {:induction false} KeptFits(answers: seq<Answer>, n: nat)
    ensures (Kept(answers).Some? ==> |Kept(answers).value| <= n) <==>
            forall i | 0 <= i < |answers| && !answers[i].Refused? :: |answers[i].stored| <= n
    ensures Kept(answers).None? ==> forall i | 0 <= i < |answers| :: answers[i].Refused?
  {
    if answers == [] {
    } else {
      var front := answers[..|answers| - 1];
      KeptFits(front, n);
      assert forall i | 0 <= i < |front| :: front[i] == answers[i];
    }
  }

  lemma FullKept(answers: seq<Answer>, bytes: seq<nat>)
    requires forall a <- answers :: !a.Done?
    ensures Kept(answers + [Done(bytes)]) == Some(bytes) <==>
            forall i | 0 <= i < |answers| && answers[i].Interrupted? :: |answers[i].stored| <= |bytes|
  {
    KeptFits(answers, |bytes|);
    assert (answers + [Done(bytes)])[..|answers|] == answers;
    assert forall i | 0 <= i < |answers| :: answers[i] in answers && !answers[i].Done?;
    NothingMore(bytes);
    if Kept(answers).Some? && |Kept(answers).value| > |bytes| {
      assert |Overwritten(Kept(answers).value, bytes)| == |Kept(answers).value|;
    }
  }

  /** So once all bytes of a regular file have been stored, the merged tree is as it was if and only if none of the
      copies before stored more than the file has. */
  lemma FullRetryRestores(o: Overlay, path: Path, answers: seq<Answer>)
    requires Sound(o) && Tries(o, path) && At(o.upper, path).None? && CopiesFile(o, path)
    requires Source(o, path).value.leaf.Regular? && forall a <- answers :: !a.Done?
    ensures var bytes := Source(o, path).value.leaf.bytes;
            Tree(Run(o, Raises(path, answers + [Done(bytes)]))) == Tree(o) <==>
            forall i | 0 <= i < |answers| && answers[i].Interrupted? :: |answers[i].stored| <= |bytes|
  {
    var bytes := Source(o, path).value.leaf.bytes;
    hide Run, Tree, Sound, Tries, CopiesFile, Raises;
    RetryRestores(o, path, answers, bytes);
    FullKept(answers, bytes);
  }

  // ---------------------------------------------------------------- every run

  /** The same node but for what is below it. */
  predicate SameTop(a: Node, b: Node) {
    if a.Dir? then b.Dir? && b.mode == a.mode && b.isOpaque == a.isOpaque else b == a
  }

  ghost predicate SameAt(a: Node, b: Node, q: Path) {
    (At(a, q).Some? <==> At(b, q).Some?) && (At(a, q).Some? ==> SameTop(At(a, q).value, At(b, q).value))
  }

  /** Trees that are the same at every path are the same. */
  lemma {:induction false} TreesEqual(a: Node, b: Node)
    requires forall q: Path :: SameAt(a, b, q)
    ensures a == b
  {
    assert SameAt(a, b, []);
    if a.Dir? {
      forall name: Name ensures name in a.children <==> name in b.children
        ensures name in a.children && name in b.children ==> a.children[name] == b.children[name]
      {
        assert SameAt(a, b, [name]) && [name][1..] == [];
        assert name in a.children ==> At(a, [name]) == At(a.children[name], []);
        assert name in b.children ==> At(b, [name]) == At(b.children[name], []);
        if name in a.children && name in b.children {
          forall q: Path ensures SameAt(a.children[name], b.children[name], q) {
            assert SameAt(a, b, [name] + q) && ([name] + q)[1..] == q && ([name] + q)[0] == name;
            assert At(a, [name] + q) == At(a.children[name], q) && At(b, [name] + q) == At(b.children[name], q);
          }
          TreesEqual(a.children[name], b.children[name]);
        }
      }
      assert a.children == b.children;
    }
  }

  /** Putting a file where a file is, or nothing, changes no other node. */
  lemma {:induction false} PutTops(n: Node, path: Path, child: Node, q: Path)
    requires CanPut(n, path) && IsBare(child) && q != path
    requires At(n, path).Some? ==> At(n, path).value.File?
    ensures SameAt(n, Put(n, path, child), q)
  {
    PutPaths(n, path, child, q);
    if At(n, q).Some? {
      if q == [] || q[0] != path[0] {
      } else {
        assert path == [path[0]] + path[1..] && q == [q[0]] + q[1..];
        if |path| > 1 { PutTops(n.children[path[0]], path[1..], child, q[1..]); }
      }
    }
  }

  /** A file that the run has put into the upper layer. */
  predicate IsNew(upper: Node, o: Overlay, q: Path) {
    At(upper, q).None? && At(o.upper, q).Some? && At(o.upper, q).value.File?
  }

  /** Of the tree at the start, only files that the run has put into the upper layer can be others. */
  ghost predicate Alike(start: Overlay, o: Overlay, q: Path) {
    || SameAt(Tree(start), Tree(o), q)
    || (&& IsNew(start.upper, o, q) && At(Tree(start), q).Some? && At(Tree(start), q).value.File?
        && At(Tree(o), q).Some? && At(Tree(o), q).value.File?)
  }

  ghost predicate Grown(start: Overlay, o: Overlay) {
    && o.lowers == start.lowers
    && (forall q :: Alike(start, o, q))
    && (forall q | At(start.upper, q).Some? :: At(o.upper, q).Some?)
    && (forall q | Pending(o, q) :: At(start.upper, q).None?)
  }

  /** A copy that is not of a file byte by byte keeps the tree. */
  lemma GrownByCopy(start: Overlay, o: Overlay, path: Path, answer: Answer, q: Path)
    requires Sound(o) && Grown(start, o) && Tries(o, path) && !answer.Refused? && !CopiesFile(o, path)
    ensures Alike(start, Raised(o, path, answer), q)
  {
    RaisedTree(o, path, answer);
    RaisedIs(o, path, answer);
    var child := Left(Source(o, path).value, answer, At(o.upper, path)).value;
    assert Alike(start, o, q);
    if q != path { PutTops(o.upper, path, child, q); }
    hide Tree, Raised, Left, Put, CanPut, Sound;
  }

  /** A file that is copied is one in the tree at the start, and was not in the upper layer then. */
  lemma GrownSource(start: Overlay, o: Overlay, path: Path)
    requires Sound(o) && Grown(start, o) && Tries(o, path) && CopiesFile(o, path)
    ensures At(start.upper, path).None?
    ensures At(Tree(o), path).Some? && At(Tree(o), path).value.File?
    ensures At(Tree(start), path).Some? && At(Tree(start), path).value.File?
  {
    if At(o.upper, path).None? {
      CopiedShows(o, path);
    } else {
      assert Pending(o, path);
      NewShows(o, path);
    }
    assert Alike(start, o, path);
  }

  lemma GrownByFile(start: Overlay, o: Overlay, path: Path, answer: Answer, q: Path)
    requires Sound(o) && Grown(start, o) && Tries(o, path) && !answer.Refused? && CopiesFile(o, path)
    ensures Alike(start, Raised(o, path, answer), q)
  {
    RaisedTree(o, path, answer);
    RaisedIs(o, path, answer);
    GrownSource(start, o, path);
    var child := Left(Source(o, path).value, answer, At(o.upper, path)).value;
    if q == path {
      AtPut(o.upper, path, child);
      AtPut(Tree(o), path, child);
    } else {
      assert Alike(start, o, q);
      PutTops(o.upper, path, child, q);
      PutTops(Tree(o), path, child, q);
    }
    hide Tree, Raised, Left, Put, CanPut, Sound;
  }

  lemma GrownUpper(start: Overlay, o: Overlay, path: Path, answer: Answer, q: Path)
    requires Sound(o) && Grown(start, o) && Tries(o, path) && !answer.Refused?
    ensures var o' := Raised(o, path, answer);
            (At(start.upper, q).Some? ==> At(o'.upper, q).Some?) && (Pending(o', q) ==> At(start.upper, q).None?)
  {
    RaisedIs(o, path, answer);
    var child := Left(Source(o, path).value, answer, At(o.upper, path)).value;
    PendingAfterRaise(o, path, answer, q);
    assert At(o.upper, path).Some? ==> Pending(o, path);
    if q == path { AtPut(o.upper, path, child); } else { PutPaths(o.upper, path, child, q); }
    hide Raised, Left, Put, CanPut, Sound;
  }

  lemma GrownStep(start: Overlay, o: Overlay, op: Op)
    requires Sound(o) && Grown(start, o)
    ensures Grown(start, Applied(o, op))
  {
    var o' := Applied(o, op);
    if op.Raise? && Tries(o, op.path) && !op.answer.Refused? {
      RaisedIs(o, op.path, op.answer);
      hide Sound, Raised, Alike, Pending;
      forall q ensures Alike(start, o', q) {
        if CopiesFile(o, op.path) { GrownByFile(start, o, op.path, op.answer, q); }
        else { GrownByCopy(start, o, op.path, op.answer, q); }
      }
      forall q
        ensures (At(start.upper, q).Some? ==> At(o'.upper, q).Some?) && (Pending(o', q) ==> At(start.upper, q).None?)
      {
        GrownUpper(start, o, op.path, op.answer, q);
      }
    } else {
      assert o'.upper == o.upper && o'.lowers == o.lowers;
      forall q ensures Alike(start, o', q) { assert Alike(start, o, q); }
      forall q | Pending(o', q) ensures At(start.upper, q).None? { PendingStep(o, op, q); }
    }
  }

  lemma {:induction false} RunGrows(upper: Node, lowers: seq<Node>, ops: seq<Op>)
    ensures Grown(Start(upper, lowers), Run(Start(upper, lowers), ops))
  {
    hide Sound, Applied, Grown;
    if ops == [] {
      GrownNone(upper, lowers);
    } else {
      var front := ops[..|ops| - 1];
      RunGrows(upper, lowers, front);
      RunIsSound(upper, lowers, front);
      GrownStep(Start(upper, lowers), Run(Start(upper, lowers), front), ops[|ops| - 1]);
    }
  }

  lemma GrownNone(upper: Node, lowers: seq<Node>)
    ensures Grown(Start(upper, lowers), Start(upper, lowers))
  {
    StartIsSound(upper, lowers);
    hide At, Tree;
  }

  /** After any run of loads and copies the merged tree has the paths it had, with the same directories and links
      at them; and it is the same tree if and only if every file that the run has put into the upper layer is the
      one that was there to see. */
  lemma RunKeepsTree(upper: Node, lowers: seq<Node>, ops: seq<Op>)
    ensures var start, o := Start(upper, lowers), Run(Start(upper, lowers), ops);
            && (forall q :: Alike(start, o, q))
            && (Tree(o) == Tree(start) <==> forall q | IsNew(upper, o, q) :: At(o.upper, q) == At(Tree(start), q))
  {
    var start, o := Start(upper, lowers), Run(Start(upper, lowers), ops);
    RunGrows(upper, lowers, ops);
    hide Run;
    forall q | IsNew(upper, o, q) ensures At(Tree(o), q) == At(o.upper, q) { NewShows(o, q); }
    if forall q | IsNew(upper, o, q) :: At(o.upper, q) == At(Tree(start), q) {
      forall q: Path ensures SameAt(Tree(start), Tree(o), q) {
        assert Alike(start, o, q);
        if IsNew(upper, o, q) { assert At(Tree(o), q) == At(o.upper, q) == At(Tree(start), q); }
      }
      TreesEqual(Tree(start), Tree(o));
    }
  }

  lemma NewShows(o: Overlay, q: Path)
    requires At(o.upper, q).Some? && At(o.upper, q).value.File?
    ensures At(Tree(o), q) == At(o.upper, q)
  {
    MergedIsOver(o.upper, o.lowers);
    if o.lowers != [] { UpperFileShows(o.upper, Fold(o.lowers), q); }
  }
}
