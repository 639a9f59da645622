/** A chain of memory slices that is read, written and split as if it were one run of bytes. */
module IoBuffers {
  import opened Common

  type Address = nat

  /** The value of a byte; nothing depends on its range. */
  type Byte = nat

  /** `len` bytes of guest memory from address `start`. */
  datatype Slice = Slice(start: Address, len: nat)

  const USIZE_MAX: nat := U64_MAX

  type Usize = n: nat | n <= USIZE_MAX

  function Bytes(s: Slice): seq<Address> {
    seq(s.len, i requires 0 <= i < s.len => s.start + i)
  }

  /** The addresses behind a chain of slices, in order. */
  function Flat(slices: seq<Slice>): seq<Address> {
    if slices == [] then [] else Bytes(slices[0]) + Flat(slices[1..])
  }

  lemma {:induction false} FlatJoin(a: seq<Slice>, b: seq<Slice>)
    ensures Flat(a + b) == Flat(a) + Flat(b)
  {
    if a == [] {
      assert a + b == b;
    } else {
      assert (a + b)[1..] == a[1..] + b;
      FlatJoin(a[1..], b);
    }
  }

  lemma SliceCut(s: Slice, k: nat)
    requires k <= s.len
    ensures Bytes(Slice(s.start, k)) == Bytes(s)[..k] && Bytes(Slice(s.start + k, s.len - k)) == Bytes(s)[k..]
  {
  }

  lemma FlatSnoc(slices: seq<Slice>, i: nat)
    requires i < |slices|
    ensures Flat(slices[..i + 1]) == Flat(slices[..i]) + Bytes(slices[i]) && |Bytes(slices[i])| == slices[i].len
    ensures |Flat(slices[..i + 1])| <= |Flat(slices)|
  {
    assert slices == slices[..i + 1] + slices[i + 1..] && slices[..i + 1] == slices[..i] + [slices[i]];
    FlatJoin(slices[..i + 1], slices[i + 1..]);
    FlatJoin(slices[..i], [slices[i]]);
    assert Flat([slices[i]]) == Bytes(slices[i]) + Flat([]);
  }

  /** The slices over the first `n` bytes: whole ones, and the last one cut short. */
  function Front(slices: seq<Slice>, n: int): seq<Slice> {
    if slices == [] || n <= 0 then []
    else if slices[0].len > n then [Slice(slices[0].start, n)]
    else [slices[0]] + Front(slices[1..], n - slices[0].len)
  }

  lemma {:induction false} FrontIsFlat(slices: seq<Slice>, n: nat)
    ensures Flat(Front(slices, n)) == Flat(slices)[..Min(n, |Flat(slices)|)]
  {
    if slices != [] && n > 0 {
      if slices[0].len > n {
        SliceCut(slices[0], n);
        assert Flat([Slice(slices[0].start, n)]) == Bytes(Slice(slices[0].start, n)) + Flat([]);
      } else {
        FrontIsFlat(slices[1..], n - slices[0].len);
        assert ([slices[0]] + Front(slices[1..], n - slices[0].len))[1..] == Front(slices[1..], n - slices[0].len);
      }
    }
  }

  /** The slices that stay in front of a split: like `Front`, with any empty slices at the cut. */
  function Upto(slices: seq<Slice>, n: nat): seq<Slice> {
    if slices == [] then []
    else if n < slices[0].len then if n > 0 then [Slice(slices[0].start, n)] else []
    else [slices[0]] + Upto(slices[1..], n - slices[0].len)
  }

  lemma {:induction false} UptoIsFlat(slices: seq<Slice>, n: nat)
    ensures Flat(Upto(slices, n)) == Flat(slices)[..Min(n, |Flat(slices)|)]
  {
    if slices == [] {
    } else {
      if n < slices[0].len {
        SliceCut(slices[0], n);
        assert Flat([Slice(slices[0].start, n)]) == Bytes(Slice(slices[0].start, n)) + Flat([]);
      } else {
        UptoIsFlat(slices[1..], n - slices[0].len);
        assert ([slices[0]] + Upto(slices[1..], n - slices[0].len))[1..] == Upto(slices[1..], n - slices[0].len);
      }
    }
  }

  lemma FrontStep(slices: seq<Slice>, n: int)
    requires slices != []
    ensures Front(slices, n) == if n <= 0 then [] else if slices[0].len > n then [Slice(slices[0].start, n)]
                                else [slices[0]] + Front(slices[1..], n - slices[0].len)
    ensures n > 0 && slices[0].len > n ==> Front(slices, n) == [Slice(slices[0].start, n)] + Front(slices[1..], 0)
  {
  }

  lemma FrontEnd(slices: seq<Slice>, n: int)
    requires slices == [] || n <= 0
    ensures Front(slices, n) == []
  {
  }

  /** What marking the front marks: the first slice, cut short or not, and the front of the rest. */
  lemma FrontMarks(slices: seq<Slice>, n: int)
    requires slices != []
    ensures n <= 0 ==> Marked(Flat(Front(slices, n))) == {}
    ensures n > 0 ==>
              var first := if slices[0].len > n then Slice(slices[0].start, n) else slices[0];
              Marked(Flat(Front(slices, n))) == Marked(Bytes(first)) + Marked(Flat(Front(slices[1..], n - first.len)))
  {
    FrontStep(slices, n);
    if n > 0 {
      var first := if slices[0].len > n then Slice(slices[0].start, n) else slices[0];
      var rest := Front(slices[1..], n - first.len);
      hide Front, Flat, Bytes, Marked;
      FlatCons(first, rest);
      MarkedJoin(Bytes(first), Flat(rest));
    } else {
      assert Flat([]) == [] && Marked([]) == {};
    }
  }

  lemma FlatCons(first: Slice, rest: seq<Slice>)
    ensures Flat([first] + rest) == Bytes(first) + Flat(rest)
  {
    assert ([first] + rest)[1..] == rest;
  }

  lemma MarkedJoin(a: seq<Address>, b: seq<Address>)
    ensures Marked(a + b) == Marked(a) + Marked(b)
  {
  }

  lemma RestStep(slices: seq<Slice>, n: nat)
    ensures Rest(slices, n) == if slices == [] then []
                               else if n < slices[0].len
                               then [Slice(slices[0].start + n, slices[0].len - n)] + slices[1..]
                               else Rest(slices[1..], n - slices[0].len)
  {
  }

  /** A split at `offset` of the whole is one at `rem` of the slices from `at` on. */
  ghost predicate CutAt(slices: seq<Slice>, offset: nat, at: nat, rem: nat) {
    && at <= |slices| && |Flat(slices[at..])| + offset == |Flat(slices)| + rem
    && slices[..at] + Upto(slices[at..], rem) == Upto(slices, offset)
    && Rest(slices[at..], rem) == Rest(slices, offset)
  }

  lemma CutAtStart(slices: seq<Slice>, offset: nat)
    ensures CutAt(slices, offset, 0, offset)
  {
    assert slices[0..] == slices && slices[..0] == [];
    NothingMore(Upto(slices, offset));
  }

  lemma CutStep(slices: seq<Slice>, n: nat)
    requires slices != []
    ensures slices[0].len <= n ==>
              && Rest(slices, n) == Rest(slices[1..], n - slices[0].len)
              && Upto(slices, n) == [slices[0]] + Upto(slices[1..], n - slices[0].len)
    ensures |Flat(slices)| == slices[0].len + |Flat(slices[1..])|
  {
  }

  lemma CutAtNext(slices: seq<Slice>, offset: nat, at: nat, rem: nat)
    requires CutAt(slices, offset, at, rem) && at < |slices| && slices[at].len <= rem
    ensures CutAt(slices, offset, at + 1, rem - slices[at].len)
  {
    hide Flat, Upto, Rest;
    FromNext(slices, at);
    CutStep(slices[at..], rem);
    Regroup(slices[..at], [slices[at]], Upto(slices[at + 1..], rem - slices[at].len));
  }

  lemma CutAtEnd(slices: seq<Slice>, offset: nat, at: nat, rem: nat)
    requires CutAt(slices, offset, at, rem) && (at < |slices| ==> rem < slices[at].len)
    ensures at < |slices| ==> offset < |Flat(slices)|
    ensures at == |slices| ==> rem + |Flat(slices)| == offset
  {
    if at < |slices| {
      FromNext(slices, at);
      CutStep(slices[at..], rem);
      hide Flat, Upto, Rest;
    } else {
      FlatEnd(slices[at..]);
      hide Flat, Upto, Rest;
    }
  }

  lemma PiecesAt(slices: seq<Slice>, n: nat)
    requires slices == [] ==> n == 0
    requires slices != [] ==> n < slices[0].len
    ensures slices == [] ==> Upto(slices, n) == [] && Rest(slices, n) == []
    ensures slices != [] && n == 0 ==> Upto(slices, n) == [] && Rest(slices, n) == slices
    ensures slices != [] && n > 0 ==>
              && Upto(slices, n) == [Slice(slices[0].start, n)]
              && Rest(slices, n) == [Slice(slices[0].start + n, slices[0].len - n)] + slices[1..]
  {
    assert slices != [] ==> slices == [slices[0]] + slices[1..];
  }

  lemma FlatEnd(slices: seq<Slice>)
    requires slices == []
    ensures Flat(slices) == []
  {
  }

  /** The addresses a range of bytes marks in the dirty bitmap. */
  function Marked(bytes: seq<Address>): set<Address> {
    set a | a in bytes
  }

  /** The slices from byte `n` on: the first one cut, and the whole ones after it. */
  function Rest(slices: seq<Slice>, n: nat): seq<Slice> {
    if slices == [] then []
    else if n < slices[0].len then [Slice(slices[0].start + n, slices[0].len - n)] + slices[1..]
    else Rest(slices[1..], n - slices[0].len)
  }

  lemma {:induction false} RestIsFlat(slices: seq<Slice>, n: nat)
    ensures Flat(Rest(slices, n)) == Flat(slices)[Min(n, |Flat(slices)|)..]
  {
    if slices == [] {
    } else {
      if n < slices[0].len { SliceCut(slices[0], n); } else { RestIsFlat(slices[1..], n - slices[0].len); }
    }
  }

  // ---------------------------------------------------------------- the flat view

  /** What a chain means: the bytes still to come, and how many came before. */
  datatype View = View(consumed: nat, bytes: seq<Address>)

  function Total(v: View): nat {
    v.consumed + |v.bytes|
  }

  /** The length of a chain is checked when it is made. */
  predicate Fits(v: View) {
    Total(v) <= USIZE_MAX
  }

  function Used(v: View, n: nat): View {
    View(v.consumed + n, v.bytes[Min(n, |v.bytes|)..])
  }

  /** The bytes at some addresses. */
  function Loaded(contents: Address -> Byte, addresses: seq<Address>): seq<Byte> {
    seq(|addresses|, i requires 0 <= i < |addresses| => contents(addresses[i]))
  }

  lemma LoadedJoin(contents: Address -> Byte, a: seq<Address>, b: seq<Address>)
    ensures Loaded(contents, a + b) == Loaded(contents, a) + Loaded(contents, b)
    ensures |Loaded(contents, a)| == |a| && |Loaded(contents, b)| == |b|
  {
  }

  /** A call on a chain: what the function given to `consume` reported, with nothing offered counting as
      zero bytes; or a split. */
  datatype Call = Consume(mark: bool, got: Result<nat>) | SplitOff(offset: nat)

  /** A chain, the bytes taken from its front and cut from its end so far, and the addresses marked dirty. */
  datatype History = History(view: View, taken: seq<Address>, cut: seq<Address>, dirty: set<Address>)

  function Called(h: History, c: Call): History {
    var bytes := h.view.bytes;
    match c
    case Consume(mark, got) =>
      if got.Err? then h
      else
        var front := bytes[..Min(got.value, |bytes|)];
        var dirty := if mark then h.dirty + Marked(front) else h.dirty;
        if h.view.consumed + got.value > USIZE_MAX then h.(dirty := dirty)
        else History(Used(h.view, got.value), h.taken + front, h.cut, dirty)
    case SplitOff(offset) =>
      if offset <= |bytes| then h.(view := View(h.view.consumed, bytes[..offset]), cut := bytes[offset..] + h.cut)
      else h
  }

  function Run(v: View, calls: seq<Call>): History {
    if calls == [] then History(v, [], [], {}) else Called(Run(v, calls[..|calls| - 1]), calls[|calls| - 1])
  }

  /** What a report does, taken apart. */
  lemma SettledIs(h: History, mark: bool, n: nat)
    ensures var h', bytes := Called(h, Consume(mark, Ok(n))), h.view.bytes;
            && h'.dirty == (if mark then h.dirty + Marked(bytes[..Min(n, |bytes|)]) else h.dirty)
            && h'.view == if h.view.consumed + n > USIZE_MAX then h.view else Used(h.view, n)
  {
    hide Marked, Used;
  }

  /** The call fails: by its function, by overflow of the count, or by a split past the end. */
  predicate Fails(h: History, c: Call) {
    match c
    case Consume(_, got) => got.Err? || h.view.consumed + got.value > USIZE_MAX
    case SplitOff(offset) => offset > |h.view.bytes|
  }

  /** The function reports no more bytes than there are. */
  predicate Within(h: History, c: Call) {
    c.Consume? && c.got.Ok? ==> c.got.value <= |h.view.bytes|
  }

  /** Every report is within bounds; or, when `orFails`, the call that made it failed. */
  predicate AllWithin(v: View, calls: seq<Call>, orFails: bool) {
    if calls == [] then true
    else
      var front, c := calls[..|calls| - 1], calls[|calls| - 1];
      AllWithin(v, front, orFails) && (Within(Run(v, front), c) || (orFails && Fails(Run(v, front), c)))
  }

  // ---------------------------------------------------------------- whatever the calls

  /** No byte is lost, repeated or moved: what was taken, what is left and what was cut off are, in this
      order, the bytes of the chain. */
  lemma {:induction false} BytesAreKept(v: View, calls: seq<Call>)
    ensures var h := Run(v, calls); h.taken + h.view.bytes + h.cut == v.bytes
  {
    if calls == [] {
    } else {
      BytesAreKept(v, calls[..|calls| - 1]);
      var h, c := Run(v, calls[..|calls| - 1]), calls[|calls| - 1];
      assert Run(v, calls) == Called(h, c);
      hide Run;
      match c
      case Consume(_, got) =>
        if got.Ok? { TakenFromFront(h.taken, h.view.bytes, h.cut, Min(got.value, |h.view.bytes|)); }
      case SplitOff(offset) => if offset <= |h.view.bytes| { CutFromEnd(h.taken, h.view.bytes, h.cut, offset); }
    }
  }

  lemma TakenFromFront(taken: seq<Address>, bytes: seq<Address>, cut: seq<Address>, n: nat)
    requires n <= |bytes|
    ensures (taken + bytes[..n]) + bytes[n..] + cut == taken + bytes + cut
  {
    assert bytes == bytes[..n] + bytes[n..];
  }

  lemma CutFromEnd(taken: seq<Address>, bytes: seq<Address>, cut: seq<Address>, n: nat)
    requires n <= |bytes|
    ensures taken + bytes[..n] + (bytes[n..] + cut) == taken + bytes + cut
  {
    assert bytes == bytes[..n] + bytes[n..];
  }

  /** Consumed plus available is conserved exactly when no call that succeeds reports more bytes than there were. */
  lemma {:induction false} CountIsKept(v: View, calls: seq<Call>)
    ensures var h := Run(v, calls);
            && Total(h.view) + |h.cut| >= Total(v)
            && (Total(h.view) + |h.cut| == Total(v) <==> AllWithin(v, calls, true))
            && (AllWithin(v, calls, true) ==> h.view.consumed == v.consumed + |h.taken|)
  {
    if calls == [] {
    } else {
      CountIsKept(v, calls[..|calls| - 1]);
    }
  }

  /** A report of two bytes on a chain of one: the count grows. */
  lemma CountIsLost()
    ensures Total(Run(View(0, [7]), [Consume(false, Ok(2))]).view) > Total(View(0, [7]))
  {
    var calls := [Consume(false, Ok(2))];
    assert calls[..0] == [];
    assert Run(View(0, [7]), []).view == View(0, [7]);
    CountIsKept(View(0, [7]), calls);
  }

  /** On a chain that fits, with every report within bounds, the count never overflows. So a consume fails
      only if its function does, and the dirty bytes are taken ones: all of them, when every consume marks. */
  lemma {:induction false} DirtyIsTaken(v: View, calls: seq<Call>)
    requires Fits(v) && AllWithin(v, calls, false)
    ensures var h := Run(v, calls);
            && Total(h.view) + |h.cut| == Total(v)
            && h.dirty <= Marked(h.taken)
            && ((forall c <- calls :: c.Consume? ==> c.mark) ==> h.dirty == Marked(h.taken))
  {
    if calls == [] {
    } else {
      DirtyIsTaken(v, calls[..|calls| - 1]);
      assert calls[|calls| - 1] in calls;
    }
  }

  // ---------------------------------------------------------------- the buffers

  /** Guest memory: its contents and the addresses marked as written. */
  class GuestMemory {
    const contents: Address -> Byte
    var dirty: set<Address>

    constructor (contents: Address -> Byte)
      ensures this.contents == contents && dirty == {}
    {
      this.contents := contents;
      dirty := {};
    }
  }

  /** The front of an array that has been filled so far grows. */
  lemma Spliced(done: seq<Byte>, was: seq<Byte>, now: seq<Byte>, more: seq<Byte>)
    requires |done| + |more| <= |was| && now == done + was[|done|..]
    ensures now[..|done|] + more + now[|done| + |more|..] == done + more + was[|done| + |more|..]
  {
  }

  method CopyNonoverlapping(mem: GuestMemory, src: Slice, buf: array<Byte>, at: nat)
    requires at + src.len <= buf.Length
    modifies buf
    ensures buf[..] == old(buf[..])[..at] + Loaded(mem.contents, Bytes(src)) + old(buf[..])[at + src.len..]
  {
    forall k | at <= k < at + src.len { buf[k] := mem.contents(src.start + (k - at)); }
  }

  /** The front of the array holds what has been copied, and the rest is as it was. */
  ghost predicate Filled(now: seq<Byte>, done: seq<Byte>, was: seq<Byte>) {
    |done| <= |was| && now == done + was[|done|..]
  }

  /** One slice more, behind what has been copied: as much of it as there is room for. */
  method CopyNext(mem: GuestMemory, src: Slice, buf: array<Byte>, at: nat, ghost done: seq<Byte>, ghost was: seq<Byte>)
    returns (copied: nat)
    requires at == |done| && at + src.len <= buf.Length == |was| && Filled(buf[..], done, was)
    modifies buf
    ensures copied == src.len && Filled(buf[..], done + Loaded(mem.contents, Bytes(src)), was)
  {
    Spliced(done, was, buf[..], Loaded(mem.contents, Bytes(src)));
    copied := Min(buf.Length - at, src.len);
    CopyNonoverlapping(mem, Slice(src.start, copied), buf, at);
  }

  /** The bytes behind the first `i` slices. */
  ghost function LoadedFrom(contents: Address -> Byte, bufs: seq<Slice>, i: nat): seq<Byte>
    requires i <= |bufs|
  {
    Loaded(contents, Flat(bufs[..i]))
  }

  lemma LoadedFromNext(contents: Address -> Byte, bufs: seq<Slice>, i: nat)
    requires i < |bufs|
    ensures LoadedFrom(contents, bufs, i + 1) == LoadedFrom(contents, bufs, i) + Loaded(contents, Bytes(bufs[i]))
    ensures |LoadedFrom(contents, bufs, i + 1)| == |LoadedFrom(contents, bufs, i)| + bufs[i].len <= |Flat(bufs)|
  {
    FlatSnoc(bufs, i);
    LoadedJoin(contents, Flat(bufs[..i]), Bytes(bufs[i]));
    hide Flat, Bytes;
  }

  lemma LoadedFromEnds(contents: Address -> Byte, bufs: seq<Slice>)
    ensures LoadedFrom(contents, bufs, 0) == []
    ensures LoadedFrom(contents, bufs, |bufs|) == Loaded(contents, Flat(bufs))
            && |Loaded(contents, Flat(bufs))| == |Flat(bufs)|
  {
    assert bufs[..0] == [] && bufs[..|bufs|] == bufs && Flat([]) == [];
  }

  /** Copies the bytes behind the slices to the front of an array that has room for them. */
  method CopyOut(mem: GuestMemory, bufs: seq<Slice>, buf: array<Byte>) returns (total: nat)
    requires |Flat(bufs)| <= buf.Length
    modifies buf
    ensures total == |Flat(bufs)| && buf[..] == Loaded(mem.contents, Flat(bufs)) + old(buf[..])[total..]
  {
    total := 0;
    ghost var was := buf[..];
    LoadedFromEnds(mem.contents, bufs);
    assert Filled(was, [], was);
    hide Flat, Bytes, Loaded, LoadedFrom;
    for i := 0 to |bufs|
      invariant total == |LoadedFrom(mem.contents, bufs, i)| && Filled(buf[..], LoadedFrom(mem.contents, bufs, i), was)
    {
      hide Filled;
      LoadedFromNext(mem.contents, bufs, i);
      var copied := CopyNext(mem, bufs[i], buf, total, LoadedFrom(mem.contents, bufs, i), was);
      total := total + copied;
    }
  }

  class IoBuffers {
    var buffers: seq<Slice>
    var bytesConsumed: Usize

    ghost function Meaning(): View
      reads this
    {
      View(bytesConsumed, Flat(buffers))
    }

    constructor (buffers: seq<Slice>)
      ensures this.buffers == buffers && Meaning() == View(0, Flat(buffers))
    {
      this.buffers := buffers;
      bytesConsumed := 0;
    }

    method AvailableBytes() returns (count: nat)
      ensures count == |Meaning().bytes|
    {
      count := 0;
      for i := 0 to |buffers|
        invariant count == |Flat(buffers[..i])|
      {
        FlatSnoc(buffers, i);
        count := count + buffers[i].len;
      }
      assert buffers[..|buffers|] == buffers;
    }

    /** Slices over the next `count` bytes, or over all that are left. */
    method AllocateFileVolatileSlice(count: nat) returns (bufs: seq<Slice>)
      ensures bufs == Front(buffers, count)
      ensures var bytes := Meaning().bytes; Flat(bufs) == bytes[..Min(count, |bytes|)]
      ensures bufs == [] <==> count == 0 || buffers == []
    {
      FrontIsFlat(buffers, count);
      assert Front(buffers, count) == [] <==> count == 0 || buffers == [];
      var rem := count;
      bufs := [];
      assert buffers[0..] == buffers;
      NothingMore(Front(buffers, count));
      hide Flat, Bytes, Front;
      for i := 0 to |buffers|
        invariant 0 <= rem && bufs + Front(buffers[i..], rem) == Front(buffers, count)
      {
        FromNext(buffers, i);
        FrontStep(buffers[i..], rem);
        if rem == 0 { break; }
        var buf := buffers[i];
        var localBuf := if buf.len > rem then Slice(buf.start, rem) else buf;
        Regroup(bufs, [localBuf], Front(buffers[i + 1..], rem - localBuf.len));
        bufs := bufs + [localBuf];
        rem := rem - localBuf.len;
      }
      FrontEnd(buffers[|buffers|..], rem);
      NothingMore(bufs);
    }

    /** Marks exactly the next `count` bytes, or all that are left. */
    method MarkDirty(mem: GuestMemory, count: nat)
      modifies mem`dirty
      ensures var bytes := Meaning().bytes;
              mem.dirty == old(mem.dirty) + Marked(bytes[..Min(count, |bytes|)])
    {
      var rem := count;
      assert buffers[0..] == buffers;
      for i := 0 to |buffers|
        invariant 0 <= rem
        invariant mem.dirty + Marked(Flat(Front(buffers[i..], rem))) ==
                  old(mem.dirty) + Marked(Flat(Front(buffers, count)))
      {
        FromNext(buffers, i);
        FrontMarks(buffers[i..], rem);
        hide Flat, Front, Bytes, Marked;
        if rem == 0 { break; }
        var buf := buffers[i];
        var localBuf := if buf.len > rem then Slice(buf.start, rem) else buf;
        mem.dirty := mem.dirty + Marked(Bytes(localBuf));
        rem := rem - localBuf.len;
      }
      FrontEnd(buffers[|buffers|..], rem);
      FrontIsFlat(buffers, count);
      assert Flat([]) == [] && Marked([]) == {};
    }

    /** Drops the next `n` bytes and counts them; refused, with nothing changed, when the count would overflow. */
    method MarkUsed(n: nat) returns (ok: bool)
      modifies this
      ensures ok <==> old(bytesConsumed) + n <= USIZE_MAX
      ensures ok ==> Meaning() == Used(old(Meaning()), n)
      ensures !ok ==> buffers == old(buffers) && bytesConsumed == old(bytesConsumed)
    {
      if bytesConsumed + n > USIZE_MAX { return false; }
      var total := bytesConsumed + n;
      RestIsFlat(buffers, n);
      hide Flat, Rest;
      DropFront(n);
      bytesConsumed := total;
      return true;
    }

    /** Takes whole slices off the front, and puts back the rest of the one that is cut. */
    method DropFront(n: nat)
      modifies this`buffers
      ensures buffers == Rest(old(buffers), n)
    {
      hide Rest;
      var rem: nat := n;
      while buffers != []
        invariant Rest(buffers, rem) == Rest(old(buffers), n)
        decreases |buffers|
      {
        RestStep(buffers, rem);
        var buf := buffers[0];
        buffers := buffers[1..];
        if rem < buf.len {
          buffers := [Slice(buf.start + rem, buf.len - rem)] + buffers;
          return;
        }
        rem := rem - buf.len;
      }
      RestStep(buffers, rem);
    }

    ghost function Before(mem: GuestMemory): History
      reads this, mem
    {
      History(Meaning(), [], [], mem.dirty)
    }

    /** The end of a consume, once the function has reported. */
    method Settle(mem: GuestMemory, markDirty: bool, got: nat) returns (r: Result<nat>)
      modifies this, mem`dirty
      ensures var h := Called(old(Before(mem)), Call.Consume(markDirty, Ok(got)));
              Meaning() == h.view && mem.dirty == h.dirty
      ensures r == if old(bytesConsumed) + got <= USIZE_MAX then Ok(got) else Err
    {
      SettledIs(Before(mem), markDirty, got);
      hide Flat, Called, Marked, Used;
      if markDirty { MarkDirty(mem, got); }
      var ok := MarkUsed(got);
      return if ok then Ok(got) else Err;
    }

    /** Offers the next `count` bytes to `f` and drops as many as it reports. */
    method Consume(mem: GuestMemory, markDirty: bool, count: nat, f: seq<Slice> -> Result<nat>) returns (r: Result<nat>)
      modifies this, mem`dirty
      ensures var got := if old(count == 0 || buffers == []) then Ok(0) else f(Front(old(buffers), count));
              var h := Called(old(Before(mem)), Call.Consume(markDirty, got));
              && Meaning() == h.view && mem.dirty == h.dirty
              && (r.Ok? <==> !Fails(old(Before(mem)), Call.Consume(markDirty, got)))
              && (r.Ok? ==> r == got)
    {
      var bufs := AllocateFileVolatileSlice(count);
      if bufs == [] { return Ok(0); }
      var got := f(bufs);
      if got.Err? { return Err; }
      r := Settle(mem, markDirty, got.value);
    }

    /** Where a byte offset falls: the slice it is in, and how far into it. */
    method Position(offset: nat) returns (at: nat, rem: nat)
      ensures CutAt(buffers, offset, at, rem)
      ensures at < |buffers| ==> rem < buffers[at].len
    {
      hide CutAt;
      rem, at := offset, 0;
      CutAtStart(buffers, offset);
      while at < |buffers| && buffers[at].len <= rem
        invariant at <= |buffers| && CutAt(buffers, offset, at, rem)
      {
        CutAtNext(buffers, offset, at, rem);
        rem, at := rem - buffers[at].len, at + 1;
      }
    }

    /** Cuts the chain in two at a byte offset, or leaves it alone when the offset is past the end. */
    method SplitAt(offset: nat) returns (r: Result<IoBuffers>)
      modifies this
      ensures r.Ok? <==> offset <= |old(Meaning()).bytes|
      ensures r.Ok? ==> fresh(r.value) && Meaning() == View(old(bytesConsumed), old(Meaning()).bytes[..offset])
                        && r.value.Meaning() == View(0, old(Meaning()).bytes[offset..])
      ensures r.Err? ==> buffers == old(buffers) && bytesConsumed == old(bytesConsumed)
    {
      UptoIsFlat(buffers, offset);
      RestIsFlat(buffers, offset);
      hide Flat, Upto, Rest, Bytes;
      var at, rem := Position(offset);
      CutAtEnd(buffers, offset, at, rem);
      var other := buffers[at..];
      if other == [] && rem > 0 { return Err; }
      PiecesAt(other, rem);
      buffers := buffers[..at];
      if other != [] && rem > 0 {
        var front := other[0];
        buffers := buffers + [Slice(front.start, rem)];
        other := [Slice(front.start + rem, front.len - rem)] + other[1..];
      } else {
        NothingMore(buffers);
      }
      assert buffers == Upto(old(buffers), offset) && other == Rest(old(buffers), offset);
      var rest := new IoBuffers(other);
      return Ok(rest);
    }

    /** Copies the next bytes into `buf`, as many as it holds or as are left, and drops them. */
    method Read(mem: GuestMemory, buf: array<Byte>) returns (r: Result<nat>)
      modifies this, mem`dirty, buf
      ensures var v := old(Meaning()); var n := Min(buf.Length, |v.bytes|);
              && buf[..] == Loaded(mem.contents, v.bytes[..n]) + old(buf[..])[n..]
              && (r == if v.consumed + n <= USIZE_MAX then Ok(n) else Err)
              && (Meaning() == if r.Ok? then Used(v, n) else v)
      ensures mem.dirty == old(mem.dirty)
    {
      var bufs := AllocateFileVolatileSlice(buf.Length);
      if bufs == [] { return Ok(0); }
      var total := CopyOut(mem, bufs, buf);
      r := Settle(mem, false, total);
    }
  }
}
