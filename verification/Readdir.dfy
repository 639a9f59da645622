/** Listing a directory of the passthrough file system, and what that does to the lookup counts. */
module Readdir {
  import opened Common
  import opened InodeRuns

  type Byte = n: nat | n < 0x100

  /** A directory entry as the kernel gave it; the name is padded with zero bytes. */
  datatype Dirent64 = Dirent64(ino: nat, off: nat, kind: nat, name: seq<Byte>)

  const CURRENT_DIR: seq<Byte> := [0x2e, 0]
  const PARENT_DIR: seq<Byte> := [0x2e, 0x2e, 0]

  predicate IsDot(d: Dirent64) {
    CURRENT_DIR <= d.name || PARENT_DIR <= d.name
  }

  predicate Terminated(d: Dirent64) {
    0 in d.name
  }

  /** What `do_lookup` and `add_entry` answer for the entry at each place of the stream. */
  datatype Answers = Answers(lookup: nat -> Result<nat>, add: nat -> Result<nat>)

  /** The entry at `i` is looked up, offered and taken. */
  predicate Taken(stream: seq<Dirent64>, a: Answers, i: nat)
    requires i < |stream|
  {
    Terminated(stream[i]) && a.lookup(i).Ok? && a.add(i).Ok? && a.add(i).value > 0
  }

  /** The inodes of the entries taken from place `i` on: up to the first that is refused or fails. The two
      dot entries are passed over. */
  function Served(stream: seq<Dirent64>, a: Answers, i: nat): seq<nat>
    decreases |stream| - i
  {
    if i >= |stream| then []
    else if IsDot(stream[i]) then Served(stream, a, i + 1)
    else if Taken(stream, a, i) then [a.lookup(i).value] + Served(stream, a, i + 1)
    else []
  }

  /** Where the listing stops, if it does before the end. */
  function StopsAt(stream: seq<Dirent64>, a: Answers, i: nat): (k: nat)
    ensures i <= |stream| ==> i <= k <= |stream|
    decreases |stream| - i
  {
    if i >= |stream| then i
    else if IsDot(stream[i]) || Taken(stream, a, i) then StopsAt(stream, a, i + 1)
    else i
  }

  function Times(s: seq<nat>, n: nat): nat {
    if s == [] then 0 else (if s[0] == n then 1 else 0) + Times(s[1..], n)
  }

  /** The count taken for the entry where the listing stopped and never given back: `add_entry` failed. */
  function Leaked(stream: seq<Dirent64>, a: Answers, i: nat): Option<nat> {
    var k := StopsAt(stream, a, i);
    if k < |stream| && Terminated(stream[k]) && a.lookup(k).Ok? && a.add(k).Err? then Some(a.lookup(k).value) else None
  }

  /** What a listing from place `i` on adds to the count of `n`: nothing, for `readdir`. */
  function Gain(plus: bool, stream: seq<Dirent64>, a: Answers, i: nat, n: nat): nat {
    if plus then Times(Served(stream, a, i), n) + if Leaked(stream, a, i) == Some(n) then 1 else 0 else 0
  }

  /** The listing one entry further on. */
  lemma StopsStep(stream: seq<Dirent64>, a: Answers, i: nat)
    requires i < |stream|
    ensures StopsAt(stream, a, i) == if IsDot(stream[i]) || Taken(stream, a, i) then StopsAt(stream, a, i + 1) else i
    ensures StopsAt(stream, a, |stream|) == |stream|
  {
    hide IsDot, Taken;
  }

  lemma GainStep(plus: bool, stream: seq<Dirent64>, a: Answers, i: nat, n: nat)
    requires i < |stream|
    ensures Gain(plus, stream, a, i, n) ==
            if IsDot(stream[i]) then Gain(plus, stream, a, i + 1, n)
            else if Taken(stream, a, i)
            then Gain(plus, stream, a, i + 1, n) + if plus && a.lookup(i).value == n then 1 else 0
            else if plus && Terminated(stream[i]) && a.lookup(i) == Ok(n) && a.add(i).Err? then 1 else 0
  {
    StopsStep(stream, a, i);
    hide IsDot, StopsAt;
  }

  /** Every count but the root's has gained what the listing adds. */
  ghost predicate Gained(was: map<nat, nat>, now: map<nat, nat>, plus: bool, stream: seq<Dirent64>, a: Answers) {
    forall n | n != ROOT_ID :: Count(now, n) == Count(was, n) + Gain(plus, stream, a, 0, n)
  }

  /** With the listing at place `i`, the counts lack what the rest of it adds. */
  ghost predicate Owing(was: map<nat, nat>, now: map<nat, nat>, plus: bool, stream: seq<Dirent64>, a: Answers, i: nat) {
    forall n | n != ROOT_ID ::
      Count(now, n) + Gain(plus, stream, a, i, n) == Count(was, n) + Gain(plus, stream, a, 0, n)
  }

  /** The entry at `i` has been passed over, or offered. */
  ghost predicate Offered(was: map<nat, nat>, now: map<nat, nat>, plus: bool, stream: seq<Dirent64>, a: Answers, i: nat)
    requires i < |stream|
  {
    if IsDot(stream[i]) || !Terminated(stream[i]) then now == was
    else forall n | n != ROOT_ID ::
           Count(now, n) == Count(was, n) + if plus && a.lookup(i) == Ok(n) && a.add(i) != Ok(0) then 1 else 0
  }

  lemma OwingNext(was: map<nat, nat>, mid: map<nat, nat>, now: map<nat, nat>, plus: bool,
                  stream: seq<Dirent64>, a: Answers, i: nat)
    requires i < |stream| && Owing(was, mid, plus, stream, a, i) && Offered(mid, now, plus, stream, a, i)
    ensures if IsDot(stream[i]) || Taken(stream, a, i) then Owing(was, now, plus, stream, a, i + 1)
            else Gained(was, now, plus, stream, a)
  {
    hide Gain, Count, IsDot;
    forall n | n != ROOT_ID
      ensures Count(now, n) + (if IsDot(stream[i]) || Taken(stream, a, i) then Gain(plus, stream, a, i + 1, n) else 0)
           == Count(was, n) + Gain(plus, stream, a, 0, n)
    {
      GainStep(plus, stream, a, i, n);
    }
  }

  lemma OwingStart(counts: map<nat, nat>, plus: bool, stream: seq<Dirent64>, a: Answers)
    ensures Owing(counts, counts, plus, stream, a, 0)
  {
  }

  lemma OwingEnd(was: map<nat, nat>, now: map<nat, nat>, plus: bool, stream: seq<Dirent64>, a: Answers)
    requires Owing(was, now, plus, stream, a, |stream|)
    ensures Gained(was, now, plus, stream, a)
  {
  }

  lemma NothingTaken(was: map<nat, nat>, now: map<nat, nat>, plus: bool, stream: seq<Dirent64>, a: Answers)
    requires stream != [] && StopsAt(stream, a, 0) == 0 && a.lookup(0).Err? && Gained(was, now, plus, stream, a)
    ensures forall n | n != ROOT_ID :: Count(now, n) == Count(was, n)
  {
  }

  class Listing {
    /** Lookup counts by inode number: the atomic map that lookups and forgets act on. */
    var counts: map<nat, nat>

    constructor (counts: map<nat, nat>)
      ensures this.counts == counts
    {
      this.counts := counts;
    }

    method DoLookup(answer: Result<nat>)
      modifies this
      ensures counts == if answer.Ok? then Apply(old(counts), Acquire(answer.value)) else old(counts)
    {
      if answer.Ok? { counts := counts[answer.value := Count(counts, answer.value) + 1]; }
    }

    method ForgetOne(inode: nat, count: nat)
      modifies this
      ensures counts == if inode == ROOT_ID || inode !in old(counts) then old(counts)
                        else Apply(old(counts), Release(inode, count))
    {
      if inode == ROOT_ID || inode !in counts { return; }
      var left := if count <= counts[inode] then counts[inode] - count else 0;
      if left == 0 { counts := counts - {inode}; } else { counts := counts[inode := left]; }
    }

    /** The closure of `readdir`: the count taken by the lookup is given back at once. */
    method Offer(lookup: Result<nat>, add: Result<nat>) returns (r: Result<nat>)
      modifies this
      ensures r == if lookup.Err? then Err else add
      ensures forall n | n != ROOT_ID :: Count(counts, n) == Count(old(counts), n)
    {
      DoLookup(lookup);
      if lookup.Err? { return Err; }
      ForgetOne(lookup.value, 1);
      return add;
    }

    /** The closure of `readdirplus`: the count is given back if the entry did not fit. */
    method OfferPlus(lookup: Result<nat>, add: Result<nat>) returns (r: Result<nat>)
      modifies this
      ensures r == if lookup.Err? then Err else add
      ensures forall n | n != ROOT_ID ::
                Count(counts, n) == Count(old(counts), n) + if lookup == Ok(n) && add != Ok(0) then 1 else 0
    {
      DoLookup(lookup);
      if lookup.Err? { return Err; }
      if add == Ok(0) { ForgetOne(lookup.value, 1); }
      return add;
    }

    /** Either closure. */
    method OfferTo(plus: bool, lookup: Result<nat>, add: Result<nat>) returns (r: Result<nat>)
      modifies this
      ensures r == if lookup.Err? then Err else add
      ensures forall n | n != ROOT_ID ::
                Count(counts, n) == Count(old(counts), n) + if plus && lookup == Ok(n) && add != Ok(0) then 1 else 0
    {
      if plus {
        r := OfferPlus(lookup, add);
      } else {
        r := Offer(lookup, add);
      }
    }

    /** The loop over the entries of a stream. `readdir` keeps every count but the root's; `readdirplus` adds
        one for each entry taken and none for one refused, and one more only if `add_entry` failed. With
        `add_entry` never failing and all names terminated, an error is only reported when no count was taken. */
    method DoReaddir(plus: bool, stream: seq<Dirent64>, a: Answers) returns (r: Result<()>)
      modifies this
      ensures Gained(old(counts), counts, plus, stream, a)
      ensures var k := StopsAt(stream, a, 0);
              r.Err? <==> k < |stream| && (!Terminated(stream[k]) || (k == 0 && (a.lookup(k).Err? || a.add(k).Err?)))
      ensures r.Err? && (forall i :: a.add(i).Ok?) && (forall d <- stream :: Terminated(d)) ==>
                forall n | n != ROOT_ID :: Count(counts, n) == Count(old(counts), n)
    {
      hide Gain, StopsAt, Owing, IsDot, Count, Gained;
      var i := 0;
      OwingStart(counts, plus, stream, a);
      while i < |stream|
        invariant i <= |stream| && StopsAt(stream, a, i) == StopsAt(stream, a, 0)
        invariant Owing(old(counts), counts, plus, stream, a, i)
      {
        ghost var mid := counts;
        StopsStep(stream, a, i);
        var res := Ok(1);
        if !IsDot(stream[i]) {
          if !Terminated(stream[i]) {
            OwingNext(old(counts), mid, counts, plus, stream, a, i);
            return Err;
          }
          res := OfferTo(plus, a.lookup(i), a.add(i));
        }
        OwingNext(old(counts), mid, counts, plus, stream, a, i);
        match res {
          case Err =>
            if i == 0 && a.lookup(0).Err? { NothingTaken(old(counts), counts, plus, stream, a); }
            return if i == 0 then Err else Ok(());
          case Ok(n) =>
            if n == 0 { return Ok(()); }
            i := i + 1;
        }
      }
      if stream != [] { StopsStep(stream, a, 0); }
      OwingEnd(old(counts), counts, plus, stream, a);
      return Ok(());
    }
  }
}
