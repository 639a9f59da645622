/** The records of a directory listing, as they go into the reply to a readdir or readdirplus request. */
module Dirents {
  import opened Common

  const U32_MAX: nat := 0xffff_ffff

  type Byte = n: nat | n < 0x100
  type U32 = n: nat | n <= U32_MAX
  type U64 = n: nat | n <= U64_MAX

  /** The sizes of `Dirent`, `EntryOut` and `OutHeader` in the FUSE ABI. */
  const DIRENT_LEN: nat := 24
  const ENTRY_OUT_LEN: nat := 128
  const OUT_HEADER_LEN: nat := 16

  datatype DirEntry = DirEntry(ino: U64, offset: U64, kind: U32, name: seq<Byte>)

  /** The attributes that readdirplus sends along, as the bytes of an `EntryOut`. */
  type EntryOut = s: seq<Byte> | |s| == ENTRY_OUT_LEN witness seq(ENTRY_OUT_LEN, _ => 0)

  datatype Item = Item(entry: Option<EntryOut>, dirent: DirEntry)

  // ---------------------------------------------------------------- little-endian numbers

  function Pow256(width: nat): nat {
    if width == 0 then 1 else 0x100 * Pow256(width - 1)
  }

  function Encoded(n: nat, width: nat): (s: seq<Byte>)
    ensures |s| == width
  {
    if width == 0 then [] else [n % 0x100] + Encoded(n / 0x100, width - 1)
  }

  function Decoded(s: seq<Byte>): (n: nat)
    ensures n < Pow256(|s|)
  {
    if s == [] then 0 else s[0] + 0x100 * Decoded(s[1..])
  }

  lemma {:induction false} NumberRoundTrip(n: nat, width: nat)
    requires n < Pow256(width)
    ensures Decoded(Encoded(n, width)) == n
  {
    if width > 0 {
      NumberRoundTrip(n / 0x100, width - 1);
      assert Encoded(n, width)[1..] == Encoded(n / 0x100, width - 1);
    }
  }

  lemma Widths()
    ensures Pow256(4) == U32_MAX + 1 && Pow256(8) == U64_MAX + 1
  {
    assert Pow256(2) == 0x1_0000;
    assert Pow256(4) == 0x1_0000_0000;
    assert Pow256(6) == 0x1_0000_0000_0000;
  }

  function Number32(s: seq<Byte>): U32
    requires |s| == 4
  {
    Widths();
    Decoded(s)
  }

  function Number64(s: seq<Byte>): U64
    requires |s| == 8
  {
    Widths();
    Decoded(s)
  }

  // ---------------------------------------------------------------- records

  /** Rounded up to a multiple of eight. */
  function Padded(n: nat): nat {
    (n + 7) / 8 * 8
  }

  function RecordLen(it: Item): nat {
    (if it.entry.Some? then ENTRY_OUT_LEN else 0) + Padded(DIRENT_LEN + |it.dirent.name|)
  }

  function Padding(nameLen: nat): (s: seq<Byte>)
    ensures |s| == Padded(DIRENT_LEN + nameLen) - (DIRENT_LEN + nameLen)
  {
    seq(Padded(DIRENT_LEN + nameLen) - (DIRENT_LEN + nameLen), _ => 0)
  }

  function Head(d: DirEntry): (s: seq<Byte>)
    ensures |s| == DIRENT_LEN
  {
    Encoded(d.ino, 8) + Encoded(d.offset, 8) + Encoded(|d.name|, 4) + Encoded(d.kind, 4)
  }

  function Record(it: Item): (s: seq<Byte>)
    ensures |s| == RecordLen(it)
  {
    (if it.entry.Some? then it.entry.value else []) + Head(it.dirent) + it.dirent.name + Padding(|it.dirent.name|)
  }

  /** The record goes in: its name can be counted, and it fits in what is left of `max`. */
  predicate Accepts(max: U32, written: nat, it: Item) {
    |it.dirent.name| <= U32_MAX && written + RecordLen(it) <= max
  }

  /** The body after a sequence of calls, and the items it holds; a refused item leaves it as it was. */
  function Body(max: U32, items: seq<Item>): seq<Byte> {
    if items == [] then []
    else
      var body, last := Body(max, items[..|items| - 1]), items[|items| - 1];
      if Accepts(max, |body|, last) then body + Record(last) else body
  }

  function Accepted(max: U32, items: seq<Item>): seq<Item> {
    if items == [] then []
    else
      var front, last := items[..|items| - 1], items[|items| - 1];
      Accepted(max, front) + if Accepts(max, |Body(max, front)|, last) then [last] else []
  }

  // ---------------------------------------------------------------- reading a body

  /** One record at the front of a body, with its length, as the kernel reads it. */
  function DecodeOne(plus: bool, s: seq<Byte>): (r: Option<(Item, nat)>)
    ensures r.Some? ==> 0 < r.value.1 <= |s|
  {
    var h := if plus then ENTRY_OUT_LEN else 0;
    if |s| < h + DIRENT_LEN then None
    else
      var nameLen := Number32(s[h + 16..h + 20]);
      var total := h + Padded(DIRENT_LEN + nameLen);
      if |s| < total then None
      else
        var d := DirEntry(Number64(s[h..h + 8]), Number64(s[h + 8..h + 16]), Number32(s[h + 20..h + 24]),
                          s[h + 24..h + 24 + nameLen]);
        Some((Item(if plus then Some(s[..ENTRY_OUT_LEN]) else None, d), total))
  }

  function Decode(plus: bool, s: seq<Byte>): Option<seq<Item>>
    decreases |s|
  {
    if s == [] then Some([])
    else
      var one := DecodeOne(plus, s);
      if one.None? then None
      else
        var rest := Decode(plus, s[one.value.1..]);
        if rest.None? then None else Some([one.value.0] + rest.value)
  }

  lemma Number64RoundTrip(n: U64)
    ensures Number64(Encoded(n, 8)) == n
  {
    Widths();
    hide Encoded, Decoded, Pow256;
    NumberRoundTrip(n, 8);
  }

  lemma Number32RoundTrip(n: U32)
    ensures Number32(Encoded(n, 4)) == n
  {
    Widths();
    hide Encoded, Decoded, Pow256;
    NumberRoundTrip(n, 4);
  }

  lemma Fields(a: seq<Byte>, b: seq<Byte>, c: seq<Byte>, d: seq<Byte>)
    requires |a| == 8 && |b| == 8 && |c| == 4 && |d| == 4
    ensures var s := a + b + c + d; s[..8] == a && s[8..16] == b && s[16..20] == c && s[20..24] == d
  {
  }

  lemma HeadFields(d: DirEntry)
    requires |d.name| <= U32_MAX
    ensures var s := Head(d);
            && Number64(s[..8]) == d.ino && Number64(s[8..16]) == d.offset
            && Number32(s[16..20]) == |d.name| && Number32(s[20..24]) == d.kind
  {
    Number64RoundTrip(d.ino);
    Number64RoundTrip(d.offset);
    Number32RoundTrip(|d.name|);
    Number32RoundTrip(d.kind);
    hide Encoded, Number32, Number64;
    Fields(Encoded(d.ino, 8), Encoded(d.offset, 8), Encoded(|d.name|, 4), Encoded(d.kind, 4));
  }

  lemma PartsAreRead(plus: bool, front: seq<Byte>, head: seq<Byte>, name: seq<Byte>, tail: seq<Byte>)
    requires |front| == (if plus then ENTRY_OUT_LEN else 0) && |head| == DIRENT_LEN
    requires Number32(head[16..20]) == |name| && DIRENT_LEN + |name| + |tail| >= Padded(DIRENT_LEN + |name|)
    ensures DecodeOne(plus, front + head + name + tail) ==
            Some((Item(if plus then Some(front) else None,
                       DirEntry(Number64(head[..8]), Number64(head[8..16]), Number32(head[20..24]), name)),
                  |front| + Padded(DIRENT_LEN + |name|)))
  {
    hide Number32, Number64, Padded;
    var s := front + head + name + tail;
    assert s == front + head + (name + tail);
    SliceIn(front, head, name + tail, 0, 8);
    SliceIn(front, head, name + tail, 8, 16);
    SliceIn(front, head, name + tail, 16, 20);
    SliceIn(front, head, name + tail, 20, 24);
    SliceIn(front + head, name, tail, 0, |name|);
    assert s[..|front|] == front;
  }

  lemma RecordFollowed(it: Item, rest: seq<Byte>)
    ensures var front, d := if it.entry.Some? then it.entry.value else [], it.dirent;
            Record(it) + rest == front + Head(d) + d.name + (Padding(|d.name|) + rest)
  {
    hide Head, Padding, Padded;
    var front, d := if it.entry.Some? then it.entry.value else [], it.dirent;
    Regroup(front + Head(d) + d.name, Padding(|d.name|), rest);
  }

  lemma RecordIsRead(it: Item, rest: seq<Byte>)
    requires |it.dirent.name| <= U32_MAX
    ensures DecodeOne(it.entry.Some?, Record(it) + rest) == Some((it, RecordLen(it)))
  {
    var d := it.dirent;
    var front, pad := if it.entry.Some? then it.entry.value else [], Padding(|d.name|);
    HeadFields(d);
    RecordFollowed(it, rest);
    hide Head, Record, Padding, Number32, Number64, DecodeOne, Padded;
    PartsAreRead(it.entry.Some?, front, Head(d), d.name, pad + rest);
  }

  lemma SliceIn(a: seq<Byte>, b: seq<Byte>, c: seq<Byte>, i: nat, j: nat)
    requires i <= j <= |b|
    ensures (a + b + c)[|a| + i..|a| + j] == b[i..j] && (i == 0 && j == |b| ==> b[i..j] == b)
  {
  }

  lemma RecordAligned(it: Item)
    ensures RecordLen(it) % 8 == 0 && RecordLen(it) >= DIRENT_LEN
  {
  }

  function Records(items: seq<Item>): seq<Byte> {
    if items == [] then [] else Record(items[0]) + Records(items[1..])
  }

  lemma {:induction false} RecordsJoin(items: seq<Item>, it: Item)
    ensures Records(items + [it]) == Records(items) + Record(it)
  {
    if items == [] {
      assert [it][1..] == [];
    } else {
      assert (items + [it])[1..] == items[1..] + [it];
      RecordsJoin(items[1..], it);
    }
  }

  lemma RecordsFirst(items: seq<Item>)
    requires items != []
    ensures Records(items) == Record(items[0]) + Records(items[1..])
  {
  }

  lemma {:induction false} RecordsAreRead(plus: bool, items: seq<Item>)
    requires forall it <- items :: it.entry.Some? == plus && |it.dirent.name| <= U32_MAX
    ensures Decode(plus, Records(items)) == Some(items)
  {
    if items == [] {
    } else {
      hide DecodeOne, Record, RecordLen, Records;
      var it, rest := items[0], Records(items[1..]);
      RecordAligned(it);
      RecordsAreRead(plus, items[1..]);
      RecordIsRead(it, rest);
      assert Records(items) == Record(it) + rest by { RecordsFirst(items); }
      assert (Record(it) + rest)[RecordLen(it)..] == rest;
      assert items == [it] + items[1..];
    }
  }

  lemma BodyStep(max: U32, items: seq<Item>)
    requires items != []
    ensures var front, last := items[..|items| - 1], items[|items| - 1];
            if Accepts(max, |Body(max, front)|, last)
            then Body(max, items) == Body(max, front) + Record(last)
                 && Accepted(max, items) == Accepted(max, front) + [last]
            else Body(max, items) == Body(max, front) && Accepted(max, items) == Accepted(max, front)
  {
    hide Record, Accepts;
    NothingMore(Accepted(max, items[..|items| - 1]));
  }

  lemma Aligned(m: nat, n: nat)
    requires m % 8 == 0 && n % 8 == 0
    ensures (m + n) % 8 == 0
  {
  }

  lemma {:induction false} BodyIsRecords(max: U32, items: seq<Item>)
    ensures Body(max, items) == Records(Accepted(max, items))
    ensures |Body(max, items)| <= max && |Body(max, items)| % 8 == 0
  {
    if items == [] {
    } else {
      hide Body, Accepted, Records, Record, RecordLen;
      var front, last := items[..|items| - 1], items[|items| - 1];
      BodyIsRecords(max, front);
      BodyStep(max, items);
      if Accepts(max, |Body(max, front)|, last) {
        RecordsJoin(Accepted(max, front), last);
        RecordAligned(last);
        Aligned(|Body(max, front)|, RecordLen(last));
      }
    }
  }

  lemma {:induction false} AcceptedAreOffered(max: U32, items: seq<Item>)
    ensures forall it <- Accepted(max, items) :: it in items && |it.dirent.name| <= U32_MAX
  {
    if items == [] {
    } else {
      hide Body, Accepted, Record, RecordLen;
      AcceptedAreOffered(max, items[..|items| - 1]);
      BodyStep(max, items);
    }
  }

  /** Whatever items are offered, in whatever order and however many are refused, reading the body gives
      back exactly the accepted ones in order; the body keeps to `max`, and to multiples of eight, so every
      record starts at one. */
  lemma BodyIsRead(plus: bool, max: U32, items: seq<Item>)
    requires forall it <- items :: it.entry.Some? == plus
    ensures Decode(plus, Body(max, items)) == Some(Accepted(max, items))
    ensures |Body(max, items)| <= max && |Body(max, items)| % 8 == 0
  {
    hide Body, Accepted, Decode, Records;
    BodyIsRecords(max, items);
    AcceptedAreOffered(max, items);
    RecordsAreRead(plus, Accepted(max, items));
  }

  // ---------------------------------------------------------------- writing

  /** The part of the reply after the header: a fixed room that fills from the front. */
  class Cursor {
    var written: seq<Byte>
    const room: nat

    constructor (room: nat)
      ensures this.room == room && written == []
    {
      this.room := room;
      written := [];
    }

    /** Writes all the bytes, or as many as there is room for and fails. */
    method WriteAll(bytes: seq<Byte>) returns (ok: bool)
      requires |written| <= room
      modifies this`written
      ensures |written| <= room
      ensures ok <==> |old(written)| + |bytes| <= room
      ensures written == old(written) + bytes[..Min(|bytes|, room - |old(written)|)]
    {
      var n := Min(|bytes|, room - |written|);
      written := written + bytes[..n];
      return n == |bytes|;
    }
  }

  /** Adds one record. Refusing for lack of space is not an error; a name that cannot be counted is one, and
      so is a record within `max` that runs past the room of the cursor. */
  method AddDirent(cursor: Cursor, max: U32, it: Item) returns (r: Result<nat>)
    requires |cursor.written| <= cursor.room
    modifies cursor`written
    ensures |cursor.written| <= cursor.room
    ensures |it.dirent.name| > U32_MAX ==> r.Err? && cursor.written == old(cursor.written)
    ensures |it.dirent.name| <= U32_MAX && !Accepts(max, |old(cursor.written)|, it) ==>
      r == Ok(0) && cursor.written == old(cursor.written)
    ensures Accepts(max, |old(cursor.written)|, it) && |old(cursor.written)| + RecordLen(it) <= cursor.room ==>
      r == Ok(RecordLen(it)) && cursor.written == old(cursor.written) + Record(it)
    ensures Accepts(max, |old(cursor.written)|, it) && |old(cursor.written)| + RecordLen(it) > cursor.room ==> r.Err?
  {
    if |it.dirent.name| > U32_MAX { return Err; }
    var direntLen := DIRENT_LEN + |it.dirent.name|;
    var paddedLen := Padded(direntLen);
    var totalLen := if it.entry.Some? then paddedLen + ENTRY_OUT_LEN else paddedLen;
    var left := if |cursor.written| <= max then max - |cursor.written| else 0;
    if left < totalLen { return Ok(0); }
    hide Record;
    var ok := WriteRecord(cursor, it);
    return if ok then Ok(totalLen) else Err;
  }

  /** Writes the parts of a record one after the other, up to the first that does not fit. */
  method WriteRecord(cursor: Cursor, it: Item) returns (ok: bool)
    requires |cursor.written| <= cursor.room
    modifies cursor`written
    ensures |cursor.written| <= cursor.room
    ensures ok <==> |old(cursor.written)| + RecordLen(it) <= cursor.room
    ensures ok ==> cursor.written == old(cursor.written) + Record(it)
  {
    var d := it.dirent;
    RecordParts(it, cursor.written);
    hide Record, Head, Padding, Padded;
    if it.entry.Some? {
      ok := cursor.WriteAll(it.entry.value);
      if !ok { return; }
    }
    ok := WriteDirent(cursor, d);
  }

  lemma RecordParts(it: Item, before: seq<Byte>)
    ensures var d := it.dirent;
            var dirent := Head(d) + d.name + Padding(|d.name|);
            before + Record(it) == if it.entry.Some? then before + it.entry.value + dirent else before + dirent
  {
    hide Head, Padding, Padded;
  }

  method WriteDirent(cursor: Cursor, d: DirEntry) returns (ok: bool)
    requires |cursor.written| <= cursor.room
    modifies cursor`written
    ensures |cursor.written| <= cursor.room
    ensures ok <==> |old(cursor.written)| + Padded(DIRENT_LEN + |d.name|) <= cursor.room
    ensures ok ==> cursor.written == old(cursor.written) + (Head(d) + d.name + Padding(|d.name|))
  {
    assert Padded(DIRENT_LEN + |d.name|) >= DIRENT_LEN + |d.name|;
    hide Head, Padding, Padded;
    ok := cursor.WriteAll(Head(d));
    if !ok { return; }
    ok := cursor.WriteAll(d.name);
    if !ok { return; }
    if Padding(|d.name|) != [] {
      ok := cursor.WriteAll(Padding(|d.name|));
    }
  }

  datatype Reply = NoMemory | NoHeader | Failed | Listing(len: U32, body: seq<Byte>)

  method AddAll(cursor: Cursor, size: U32, items: seq<Item>)
    requires cursor.written == []
    modifies cursor`written
    ensures |cursor.written| <= cursor.room
    ensures size <= cursor.room ==> cursor.written == Body(size, items)
  {
    assert Body(size, items[..0]) == [];
    hide Body, Accepted, Record, RecordLen;
    for i := 0 to |items|
      invariant |cursor.written| <= cursor.room
      invariant size <= cursor.room ==> cursor.written == Body(size, items[..i])
    {
      assert items[..i + 1][..i] == items[..i];
      BodyStep(size, items[..i + 1]);
      var _ := AddDirent(cursor, size, items[i]);
    }
    assert items[..|items|] == items;
  }

  /** The reply to a readdir or readdirplus request, for a file system that offers `items` one after the
      other and then succeeds or fails. With room for the header and `size` bytes the listing holds exactly
      the accepted items. */
  method DoReaddir(available: nat, size: U32, plus: bool, items: seq<Item>, fails: bool) returns (reply: Reply)
    requires forall it <- items :: it.entry.Some? == plus
    ensures reply == NoMemory <==> available < size
    ensures reply == NoHeader <==> size <= available < OUT_HEADER_LEN
    ensures reply.Failed? ==> fails
    ensures reply.Listing? ==>
      && !fails && OUT_HEADER_LEN + |reply.body| <= available
      && reply.len == (OUT_HEADER_LEN + |reply.body|) % (U32_MAX + 1)
      && (available >= OUT_HEADER_LEN + size ==>
            && reply.body == Body(size, items) && |reply.body| <= size
            && Decode(plus, reply.body) == Some(Accepted(size, items)))
  {
    if available < size { return NoMemory; }
    if available < OUT_HEADER_LEN { return NoHeader; }
    hide Body, Accepted, Decode;
    var cursor := new Cursor(available - OUT_HEADER_LEN);
    AddAll(cursor, size, items);
    if fails { return Failed; }
    BodyIsRead(plus, size, items);
    return Listing((OUT_HEADER_LEN + |cursor.written|) % (U32_MAX + 1), cursor.written);
  }
}
