/** Small value types shared by the models. */
module Common {

  datatype Option<+T> = None | Some(value: T)

  /** The outcome of a call that the source reports as an `io::Result`. */
  datatype Result<+T> = Ok(value: T) | Err

  const U64_MAX: nat := 0xffff_ffff_ffff_ffff

  /** The number of the root inode, in every file system of the crate. */
  const ROOT_ID: nat := 1

  /** The largest inode number a backend file system may hand out. */
  const VFS_MAX_INO: nat := 0xff_ffff_ffff_ffff

  function Min(a: int, b: int): (r: int)
    ensures r <= a && r <= b && (r == a || r == b)
  {
    if a <= b then a else b
  }

  lemma Regroup<T>(a: seq<T>, b: seq<T>, c: seq<T>)
    ensures a + (b + c) == (a + b) + c
  {
  }

  lemma NothingMore<T>(a: seq<T>)
    ensures a + [] == a && [] + a == a
  {
  }

  /** The rest of a list from one place, and from the next. */
  lemma FromNext<T>(a: seq<T>, i: nat)
    requires i < |a|
    ensures a[i..] != [] && a[i..][0] == a[i] && a[i..][1..] == a[i + 1..] && a[..i + 1] == a[..i] + [a[i]]
  {
  }
}
