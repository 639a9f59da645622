/** The passthrough inode table with its three indexes, on values and as the object the source updates. */
module InodeStore {
  import opened Common
  import opened UniqueInode

  /** Stands for the bytes of a kernel file handle; only equality matters. */
  type FileHandle = nat

  /** One shared inode object. `cell` is the address of its reference count, so two objects are the
      same one exactly when their cells are. */
  datatype InodeData = InodeData(inode: nat, id: InodeId, handle: Option<FileHandle>, cell: nat)

  datatype Store = Store(data: map<nat, InodeData>, byId: map<InodeId, nat>, byHandle: map<FileHandle, nat>)

  const EMPTY_STORE := Store(map[], map[], map[])

  function Inserted(st: Store, d: InodeData): Store {
    Store(st.data[d.inode := d],
          st.byId[d.id := d.inode],
          if d.handle.Some? then st.byHandle[d.handle.value := d.inode] else st.byHandle)
  }

  function Removed(st: Store, inode: nat, keepMapping: bool): Store {
    if inode !in st.data then st
    else
      var d := st.data[inode];
      var st1 := st.(data := st.data - {inode});
      if keepMapping then st1
      else st1.(byId := st.byId - {d.id},
                byHandle := if d.handle.Some? then st.byHandle - {d.handle.value} else st.byHandle)
  }

  function Lookup<K, V>(m: map<K, V>, k: K): Option<V> {
    if k in m then Some(m[k]) else None
  }

  function ById(st: Store, id: InodeId): Option<InodeData> {
    if id in st.byId then Lookup(st.data, st.byId[id]) else None
  }

  function ByHandle(st: Store, h: FileHandle): Option<InodeData> {
    if h in st.byHandle then Lookup(st.data, st.byHandle[h]) else None
  }

  /** `get_alt_locked`: by handle first; the id index is only a fallback onto entries without one. */
  function GetAlt(st: Store, id: InodeId, h: Option<FileHandle>): Option<InodeData> {
    var viaHandle := if h.Some? then ByHandle(st, h.value) else None;
    if viaHandle.Some? then viaHandle
    else
      var viaId := ById(st, id);
      if viaId.Some? && (h.None? || viaId.value.handle.None?) then viaId else None
  }

  /** `get_inode_locked`: the number once given to this file, live or not. */
  function GetInode(st: Store, id: InodeId, h: Option<FileHandle>): Option<nat> {
    if h.Some? then Lookup(st.byHandle, h.value) else Lookup(st.byId, id)
  }

  /** When no live entry answers to a file, the number remembered for it is not in use. */
  lemma RememberedNumberIsFree(st: Store, id: InodeId, h: Option<FileHandle>)
    requires GetAlt(st, id, h).None?
    ensures GetInode(st, id, h).Some? ==> GetInode(st, id, h).value !in st.data
  {
  }

  /** Inserting a number that is not live and then dropping its data only, as a forgotten inode that
      keeps its mapping, leaves the live table as it was and the file's number remembered. */
  lemma InsertThenDropData(st: Store, d: InodeData)
    requires d.inode !in st.data
    ensures Removed(Inserted(st, d), d.inode, true).data == st.data
    ensures GetInode(Removed(Inserted(st, d), d.inode, true), d.id, d.handle) == Some(d.inode)
    ensures GetAlt(Inserted(st, d), d.id, d.handle) == Some(d)
  {
    assert Removed(Inserted(st, d), d.inode, true).data == st.data;
  }

  class InodeTable {
    var data: map<nat, InodeData>
    var byId: map<InodeId, nat>
    var byHandle: map<FileHandle, nat>

    ghost function View(): Store
      reads this
    {
      Store(data, byId, byHandle)
    }

    constructor ()
      ensures View() == EMPTY_STORE
    {
      data, byId, byHandle := map[], map[], map[];
    }

    method Insert(d: InodeData)
      modifies this
      ensures View() == Inserted(old(View()), d)
    {
      byId := byId[d.id := d.inode];
      if d.handle.Some? {
        byHandle := byHandle[d.handle.value := d.inode];
      }
      data := data[d.inode := d];
    }

    method Remove(inode: nat, removeDataOnly: bool) returns (removed: Option<InodeData>)
      modifies this
      ensures View() == Removed(old(View()), inode, removeDataOnly)
      ensures removed == Lookup(old(data), inode)
    {
      removed := Lookup(data, inode);
      data := data - {inode};
      if removeDataOnly {
        assert removed.None? ==> data == old(data);
        return;
      }
      if removed.Some? {
        if removed.value.handle.Some? {
          byHandle := byHandle - {removed.value.handle.value};
        }
        byId := byId - {removed.value.id};
      } else {
        assert data == old(data);
      }
    }

    method Clear()
      modifies this
      ensures View() == EMPTY_STORE
    {
      data, byHandle, byId := map[], map[], map[];
    }
  }
}
