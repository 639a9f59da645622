/** The 56-bit inode number packer: `|1 bit virtual|8 bit device id|47 bit number|`. */
module UniqueInode {
  import opened Common

  /** Host inode numbers up to this bound are packed as they are. */
  const MAX_HOST_INO: nat := 0x7fff_ffff_ffff

  /** The weight of the device id field, `1 << 47`. */
  const DEVICE_UNIT: nat := 0x8000_0000_0000

  /** Marks a number that does not carry the host's own inode number, `1 << 55`. */
  const VIRTUAL_INODE_FLAG: nat := 0x80_0000_0000_0000

  const U8_MAX: nat := 255

  datatype InodeId = InodeId(ino: nat, dev: nat, mnt: nat)

  datatype DevMnt = DevMnt(dev: nat, mnt: nat)

  datatype Generator = Generator(ids: map<DevMnt, nat>, nextUniqueId: nat, nextVirtual: nat)

  function Device(id: InodeId): DevMnt {
    DevMnt(id.dev, id.mnt)
  }

  predicate IsHostId(id: InodeId) {
    id.ino <= MAX_HOST_INO
  }

  /** A number in the virtual format: the top one of the 56 bits is set. */
  predicate IsVirtual(number: nat) {
    number / VIRTUAL_INODE_FLAG % 2 == 1
  }

  /** The fields never overlap, so the `<<` and `|` of the source are a multiplication and a sum;
      `PackingIsBitwise` shows it on machine words. */
  function Pack(device: nat, low: nat): nat {
    device * DEVICE_UNIT + low
  }

  lemma PackingIsBitwise(device: bv64, low: bv64)
    requires device <= 0xff && low < 0x8000_0000_0000
    ensures (device << 47) | low == device * 0x8000_0000_0000 + low
    ensures (device << 47) | (low | 0x80_0000_0000_0000)
         == device * 0x8000_0000_0000 + low + 0x80_0000_0000_0000
  {
  }

  const INIT_GENERATOR := Generator(map[], 1, ROOT_ID + 1)

  ghost predicate GeneratorValid(g: Generator) {
    && 1 <= g.nextUniqueId <= U8_MAX
    && 2 <= g.nextVirtual <= MAX_HOST_INO + 1
    && (forall k <- g.ids :: 1 <= g.ids[k] < g.nextUniqueId)
    && (forall k, m | k in g.ids && m in g.ids && g.ids[k] == g.ids[m] :: k == m)
  }

  /** What one call of `get_unique_inode` leaves behind and returns. */
  function Generate(g: Generator, id: InodeId): (Generator, Result<nat>) {
    if Device(id) !in g.ids && g.nextUniqueId == U8_MAX then
      (g, Err)
    else
      var g1 := if Device(id) in g.ids then g
                else g.(ids := g.ids[Device(id) := g.nextUniqueId], nextUniqueId := g.nextUniqueId + 1);
      if IsHostId(id) then
        (g1, Ok(Pack(g1.ids[Device(id)], id.ino)))
      else if g1.nextVirtual > MAX_HOST_INO then
        (g1, Err)
      else
        (g1.(nextVirtual := g1.nextVirtual + 1),
         Ok(Pack(g1.ids[Device(id)], g1.nextVirtual) + VIRTUAL_INODE_FLAG))
  }

  function GenerateAll(g: Generator, calls: seq<InodeId>): (r: (Generator, seq<Result<nat>>))
    ensures |r.1| == |calls|
  {
    if calls == [] then (g, [])
    else
      var (g1, rs) := GenerateAll(g, calls[..|calls| - 1]);
      var (g2, r) := Generate(g1, calls[|calls| - 1]);
      (g2, rs + [r])
  }

  /** The number is accounted for by the generator: it is the host number of its id, or a virtual
      number below the next one to be given. */
  ghost predicate Issued(g: Generator, id: InodeId, number: nat) {
    && Device(id) in g.ids
    && if IsHostId(id) then number == Pack(g.ids[Device(id)], id.ino)
       else exists v {:trigger Pack(g.ids[Device(id)], v)} ::
              && 2 <= v < g.nextVirtual
              && number == Pack(g.ids[Device(id)], v) + VIRTUAL_INODE_FLAG
  }

  lemma IssuedFits(g: Generator, id: InodeId, number: nat)
    requires GeneratorValid(g) && Issued(g, id, number)
    ensures ROOT_ID < number <= VFS_MAX_INO
    ensures IsVirtual(number) <==> !IsHostId(id)
    ensures Device(id) in g.ids && number / DEVICE_UNIT % 256 == g.ids[Device(id)]
    ensures IsHostId(id) ==> number % DEVICE_UNIT == id.ino
  {
  }

  lemma PackFits(device: nat, low: nat)
    requires low <= MAX_HOST_INO
    ensures (Pack(device, low) + VIRTUAL_INODE_FLAG) % DEVICE_UNIT == low
  {
  }

  lemma GenerateKeepsValid(g: Generator, id: InodeId)
    requires GeneratorValid(g)
    ensures GeneratorValid(Generate(g, id).0)
  {
    hide Pack;
  }

  lemma GenerateIssues(g: Generator, id: InodeId)
    requires GeneratorValid(g)
    ensures var (g', r) := Generate(g, id);
            && GeneratorValid(g') && (r.Ok? ==> Issued(g', id, r.value))
            && (r.Ok? && !IsHostId(id) ==> r.value % DEVICE_UNIT == g.nextVirtual)
  {
    var (g', r) := Generate(g, id);
    GenerateKeepsValid(g, id);
    if r.Ok? && !IsHostId(id) {
      PackFits(g'.ids[Device(id)], g.nextVirtual);
      assert r.value == Pack(g'.ids[Device(id)], g.nextVirtual) + VIRTUAL_INODE_FLAG;
    }
    hide GeneratorValid, Pack;
  }

  lemma IssuedStays(g: Generator, id: InodeId, other: InodeId, n: nat)
    requires GeneratorValid(g) && Issued(g, other, n)
    ensures Issued(Generate(g, id).0, other, n)
    ensures !IsHostId(other) ==> n % DEVICE_UNIT < g.nextVirtual
  {
    var (g', r) := Generate(g, id);
    if !IsHostId(other) {
      var v :| 2 <= v < g.nextVirtual && n == Pack(g.ids[Device(other)], v) + VIRTUAL_INODE_FLAG;
      assert n == Pack(g'.ids[Device(other)], v) + VIRTUAL_INODE_FLAG;
    }
  }

  /** One call keeps the generator valid, keeps every number already issued, and issues a number
      that no other id has; a virtual number was not issued to its own id either. */
  lemma GenerateIsFresh(g: Generator, id: InodeId)
    requires GeneratorValid(g)
    ensures var (g', r) := Generate(g, id);
            && GeneratorValid(g')
            && (r.Ok? ==> Issued(g', id, r.value))
            && (forall other, n :: Issued(g, other, n) ==> Issued(g', other, n))
            && (r.Ok? ==> forall other, n :: Issued(g, other, n) && n == r.value ==> other == id && IsHostId(id))
  {
    hide Generate, Issued, Pack, IsVirtual;
    GenerateIssues(g, id);
    var (g', r) := Generate(g, id);
    forall other, n | Issued(g, other, n)
      ensures Issued(g', other, n)
      ensures r.Ok? && n == r.value ==> other == id && IsHostId(id)
    {
      IssuedStays(g, id, other, n);
      if r.Ok? && n == r.value {
        IssuedFits(g', other, n);
        IssuedFits(g', id, n);
      }
    }
  }

  /** Every number answered is accounted for, and two calls share one only when they name the same
      host-format id. */
  ghost predicate Unique(g: Generator, calls: seq<InodeId>, rs: seq<Result<nat>>)
    requires |rs| == |calls|
  {
    && (forall i | 0 <= i < |calls| && rs[i].Ok? :: Issued(g, calls[i], rs[i].value))
    && (forall i, j | 0 <= i < j < |calls| && rs[i].Ok? && rs[j].Ok? ::
          rs[i].value == rs[j].value <==> calls[i] == calls[j] && IsHostId(calls[i]))
  }

  lemma UniqueNext(g: Generator, calls: seq<InodeId>, rs: seq<Result<nat>>, id: InodeId)
    requires GeneratorValid(g) && |rs| == |calls| && Unique(g, calls, rs)
    ensures var (g', r) := Generate(g, id); Unique(g', calls + [id], rs + [r])
  {
    GenerateIsFresh(g, id);
    var (g', r) := Generate(g, id);
    if r.Ok? && IsHostId(id) { assert r.value == Pack(g'.ids[Device(id)], id.ino); }
    forall i | 0 <= i < |calls| && rs[i].Ok? && r.Ok?
      ensures rs[i].value == r.value <==> calls[i] == id && IsHostId(id)
    {
      assert Issued(g, calls[i], rs[i].value) && Issued(g', calls[i], rs[i].value);
    }
    hide Generate, Issued, Pack, GeneratorValid, IsHostId;
  }

  lemma {:induction false} AllUnique(calls: seq<InodeId>)
    ensures var (g, rs) := GenerateAll(INIT_GENERATOR, calls); GeneratorValid(g) && Unique(g, calls, rs)
  {
    if calls == [] {
    } else {
      var last := |calls| - 1;
      AllUnique(calls[..last]);
      var (g, rs) := GenerateAll(INIT_GENERATOR, calls[..last]);
      GenerateIsFresh(g, calls[last]);
      UniqueNext(g, calls[..last], rs, calls[last]);
      assert calls[..last] + [calls[last]] == calls;
      hide Generate, Unique, GeneratorValid;
    }
  }

  /** Over any sequence of calls: every number fits 56 bits and is above the root's, two calls
      share a number only when they name the same host-format id, and that id keeps its number. */
  lemma NumbersAreUnique(calls: seq<InodeId>)
    ensures var (g, rs) := GenerateAll(INIT_GENERATOR, calls);
            && GeneratorValid(g)
            && (forall i | 0 <= i < |calls| && rs[i].Ok? ::
                  && Issued(g, calls[i], rs[i].value)
                  && ROOT_ID < rs[i].value <= VFS_MAX_INO
                  && (IsVirtual(rs[i].value) <==> !IsHostId(calls[i])))
            && (forall i, j | 0 <= i < j < |calls| && rs[i].Ok? && rs[j].Ok? ::
                  rs[i].value == rs[j].value <==> calls[i] == calls[j] && IsHostId(calls[i]))
  {
    AllUnique(calls);
    var (g, rs) := GenerateAll(INIT_GENERATOR, calls);
    hide GenerateAll, Issued, GeneratorValid, IsVirtual, IsHostId;
    forall i | 0 <= i < |calls| && rs[i].Ok?
      ensures ROOT_ID < rs[i].value <= VFS_MAX_INO && (IsVirtual(rs[i].value) <==> !IsHostId(calls[i]))
    {
      IssuedFits(g, calls[i], rs[i].value);
    }
  }

  /** The generator object, as the file system holds it. */
  class UniqueInodeGenerator {
    var ids: map<DevMnt, nat>
    var nextUniqueId: nat
    var nextVirtual: nat

    ghost function View(): Generator
      reads this
    {
      Generator(ids, nextUniqueId, nextVirtual)
    }

    constructor ()
      ensures View() == INIT_GENERATOR && GeneratorValid(View())
    {
      ids, nextUniqueId, nextVirtual := map[], 1, ROOT_ID + 1;
    }

    method GetUniqueInode(id: InodeId) returns (r: Result<nat>)
      requires GeneratorValid(View())
      modifies this
      ensures GeneratorValid(View())
      ensures (View(), r) == Generate(old(View()), id)
      ensures r.Ok? ==> Issued(View(), id, r.value)
    {
      GenerateIsFresh(View(), id);
      var unique;
      if Device(id) in ids {
        unique := ids[Device(id)];
      } else {
        if nextUniqueId == U8_MAX { return Err; }
        unique := nextUniqueId;
        nextUniqueId := nextUniqueId + 1;
        ids := ids[Device(id) := unique];
      }
      if id.ino <= MAX_HOST_INO {
        return Ok(Pack(unique, id.ino));
      }
      if nextVirtual > MAX_HOST_INO { return Err; }
      r := Ok(Pack(unique, nextVirtual) + VIRTUAL_INODE_FLAG);
      nextVirtual := nextVirtual + 1;
    }

    /** Searches the device table for the id a number was packed from. Every number issued for a
        host-format id decodes to that id; a virtual number gives its device back and nothing else. */
    method DecodeUniqueInode(number: nat) returns (r: Result<InodeId>)
      requires GeneratorValid(View())
      ensures number > VFS_MAX_INO ==> r.Err?
      ensures r.Ok? ==> Device(r.value) in ids && ids[Device(r.value)] == number / DEVICE_UNIT % 256
                        && r.value.ino == number % DEVICE_UNIT
      ensures forall id :: Issued(View(), id, number) ==>
                r.Ok? && Device(r.value) == Device(id) && (IsHostId(id) ==> r.value == id)
    {
      forall id | Issued(View(), id, number)
        ensures number <= VFS_MAX_INO && number / DEVICE_UNIT % 256 == ids[Device(id)]
        ensures IsHostId(id) ==> number % DEVICE_UNIT == id.ino
      {
        IssuedFits(View(), id, number);
      }
      if number > VFS_MAX_INO { return Err; }
      var unique := number / DEVICE_UNIT % 256;
      if unique == U8_MAX { return Err; }
      var todo := ids.Keys;
      while todo != {}
        invariant todo <= ids.Keys
        invariant forall k <- ids.Keys - todo :: ids[k] != unique
        decreases |todo|
      {
        var k :| k in todo;
        if ids[k] == unique {
          return Ok(InodeId(number % DEVICE_UNIT, k.dev, k.mnt));
        }
        todo := todo - {k};
      }
      return Err;
    }
  }
}
