/** Numbering the nodes of the overlay: a search for a free number that wraps around. */
module OverlayInodeStore {
  import opened Common

  predicate InRange(n: nat) {
    1 <= n <= VFS_MAX_INO
  }

  /** The k-th number tried when the search starts at `start`: upwards, then again from 1. */
  function Candidate(start: nat, k: nat): nat {
    if start > VFS_MAX_INO then k + 1
    else if start + k <= VFS_MAX_INO then start + k
    else start + k - VFS_MAX_INO
  }

  /** Whatever the start, the search tries every number once. */
  lemma CandidatesCoverAll(start: nat, n: nat)
    requires start >= 1 && InRange(n)
    ensures exists k :: 0 <= k < VFS_MAX_INO && Candidate(start, k) == n
    ensures forall j, k | 0 <= j < k < VFS_MAX_INO :: Candidate(start, j) != Candidate(start, k)
    ensures forall k | 0 <= k < VFS_MAX_INO :: InRange(Candidate(start, k))
  {
    var k := if start > VFS_MAX_INO then n - 1 else if n >= start then n - start else n + VFS_MAX_INO - start;
    assert Candidate(start, k) == n;
  }

  class InodeStore<Node> {
    var inodes: map<nat, Node>
    var deleted: map<nat, Node>
    var pathMapping: map<string, nat>
    var nextInode: nat

    predicate Free(n: nat)
      reads this
    {
      n !in inodes && n !in deleted
    }

    constructor ()
      ensures inodes == map[] && deleted == map[] && pathMapping == map[] && nextInode == 1
    {
      inodes, deleted, pathMapping, nextInode := map[], map[], map[], 1;
    }

    /** Finds the first number from `nextInode` on, wrapping around, that neither map uses. It fails exactly when
        every number is used, and then changes nothing. */
    method AllocUniqueInode() returns (r: Result<nat>)
      requires nextInode >= 1
      modifies this`nextInode
      ensures r.Err? <==> forall n | InRange(n) :: !Free(n)
      ensures r.Ok? ==> InRange(r.value) && Free(r.value) && nextInode == r.value + 1
      ensures r.Ok? ==> exists k :: 0 <= k < VFS_MAX_INO && r.value == Candidate(old(nextInode), k)
                                    && forall j | 0 <= j < k :: !Free(Candidate(old(nextInode), j))
      ensures r.Err? ==> nextInode == old(nextInode)
    {
      var ino := nextInode;
      for i := 0 to VFS_MAX_INO
        invariant nextInode == old(nextInode) && ino >= 1
        invariant i < VFS_MAX_INO ==> (if ino > VFS_MAX_INO then 1 else ino) == Candidate(nextInode, i)
        invariant forall j | 0 <= j < i :: !Free(Candidate(nextInode, j))
      {
        if ino > VFS_MAX_INO { ino := 1; }
        if ino !in inodes && ino !in deleted {
          nextInode := ino + 1;
          assert InRange(ino) && Free(ino);
          return Ok(ino);
        }
        ino := ino + 1;
      }
      forall n | InRange(n) ensures !Free(n) { CandidatesCoverAll(nextInode, n); }
      return Err;
    }

    /** A path that had a number keeps it. */
    method AllocInode(path: string) returns (r: Result<nat>)
      requires nextInode >= 1
      modifies this`nextInode
      ensures path in pathMapping ==> r == Ok(pathMapping[path]) && nextInode == old(nextInode)
      ensures path !in pathMapping ==> (r.Err? <==> forall n | InRange(n) :: !Free(n))
      ensures path !in pathMapping && r.Ok? ==> InRange(r.value) && Free(r.value) && nextInode == r.value + 1
      ensures r.Err? ==> nextInode == old(nextInode)
    {
      if path in pathMapping { return Ok(pathMapping[path]); }
      r := AllocUniqueInode();
    }
  }
}
