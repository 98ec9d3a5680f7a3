/**
 * The FUSE operations of hdf5-fuse over an abstract HDF5 store: the dataset
 * size helper, getattr, readdir, open and read. Each returns what the C
 * function returns (0, a byte count, or a negated errno) and writes what it
 * writes into the caller's stat record or buffer.
 */
module Hdf5Fuse {
  import opened CTypes
  import opened Hdf5Store

  /** Size of the `name[128]` buffer readdir passes to H5Lget_name_by_idx. */
  const NAME_BUF_SIZE: nat := 128

  function Min(a: int, b: int): (r: int)
    ensures r <= a && r <= b && (r == a || r == b)
  {
    if a <= b then a else b
  }

  // ---------------------------------------------------------------- filesize

  /**
   * hdf5_fuse_filesize: element count times element type size, as a size_t
   * product, or 0 when H5Dopen cannot open `path` as a dataset.
   */
  function Filesize(store: Store, path: Path): (r: SizeT)
    ensures !IsDataset(store, path) ==> r == 0
    ensures IsDataset(store, path) ==>
              r % SIZE_T_MODULUS == (store[path].numElems * store[path].typeSize) % SIZE_T_MODULUS
    ensures WellFormed(store) && |Content(store, path)| < SIZE_T_MODULUS ==> r == |Content(store, path)|
  {
    if IsDataset(store, path) then
      (store[path].numElems * store[path].typeSize) % SIZE_T_MODULUS
    else
      0
  }

  // ---------------------------------------------------------------- getattr

  /** The fields of struct stat, each as the value held in it. */
  datatype StatRecord = StatRecord(
    dev: int, ino: int, mode: bv32, nlink: int, uid: int, gid: int, rdev: int,
    size: int, blksize: int, blocks: int, atime: int, mtime: int, ctime: int)

  /** A struct stat after memset(stbuf, 0, sizeof(struct stat)). */
  const ZERO_STAT: StatRecord := StatRecord(0, 0, 0, 0, 0, 0, 0, 0, 0, 0, 0, 0, 0)

  /** Every field except st_mode, st_nlink and st_size still holds zero. */
  predicate OnlyKindFieldsSet(st: StatRecord) {
    st == ZERO_STAT.(mode := st.mode, nlink := st.nlink, size := st.size)
  }

  datatype AttrResult = AttrResult(rc: int, st: StatRecord)

  /** What hdf5_fuse_getattr returns and leaves in `*stbuf`. */
  function Attributes(store: Store, path: Path): (r: AttrResult)
    ensures r.rc == 0 <==> path in store
    ensures r.rc != 0 ==> r.rc == -ENOENT && r.st == ZERO_STAT
    ensures OnlyKindFieldsSet(r.st)
    ensures IsGroup(store, path) ==>
              var n := |store[path].children|;
              r.st.mode == S_IFDIR | PERM_R_X && r.st.nlink == 2 + n && r.st.size == n
    ensures IsDataset(store, path) ==>
              r.st.mode == S_IFREG | PERM_R && r.st.nlink == 0 && r.st.size == SizeToOff(Filesize(store, path))
    ensures path in store && store[path].Other? ==>
              r.st.mode == S_IFCHR && r.st.nlink == 0 && r.st.size == 0
  {
    if path !in store then
      AttrResult(-ENOENT, ZERO_STAT)
    else
      match store[path]
      case Group(children) =>
        AttrResult(0, ZERO_STAT.(mode := S_IFDIR | PERM_R_X, nlink := 2 + |children|, size := |children|))
      case Dataset(_, _, _) =>
        AttrResult(0, ZERO_STAT.(mode := S_IFREG | PERM_R, size := SizeToOff(Filesize(store, path))))
      case Other =>
        AttrResult(0, ZERO_STAT.(mode := S_IFCHR | 0, size := 0))
  }

  /** The caller's struct stat, which getattr fills in place. */
  class Stat {
    var dev: int
    var ino: int
    var mode: bv32
    var nlink: int
    var uid: int
    var gid: int
    var rdev: int
    var size: int
    var blksize: int
    var blocks: int
    var atime: int
    var mtime: int
    var ctime: int

    function Value(): (r: StatRecord)
      reads this
    {
      StatRecord(dev, ino, mode, nlink, uid, gid, rdev, size, blksize, blocks, atime, mtime, ctime)
    }

    /** memset(this, 0, sizeof(struct stat)). */
    method Zero()
      modifies this
      ensures Value() == ZERO_STAT
    {
      dev, ino, mode, nlink, uid, gid, rdev := 0, 0, 0, 0, 0, 0, 0;
      size, blksize, blocks, atime, mtime, ctime := 0, 0, 0, 0, 0, 0;
    }
  }

  /** hdf5_fuse_getattr: clear the record, resolve the path, then fill in kind, links and size. */
  method GetAttr(store: Store, path: Path, stbuf: Stat) returns (rc: int)
    modifies stbuf
    ensures AttrResult(rc, stbuf.Value()) == Attributes(store, path)
  {
    stbuf.Zero();
    if path !in store {
      return -ENOENT;
    }
    match store[path] {
      case Group(children) =>
        stbuf.mode := S_IFDIR | PERM_R_X;
        var nlinks := |children|;
        stbuf.nlink := 2 + nlinks;
        stbuf.size := nlinks;
      case Dataset(_, _, _) =>
        stbuf.mode := S_IFREG | PERM_R;
        stbuf.size := SizeToOff(Filesize(store, path));
      case Other =>
        stbuf.mode := S_IFCHR | 0;
        stbuf.size := 0;
    }
    rc := 0;
  }

  // ---------------------------------------------------------------- readdir

  /**
   * H5Lget_name_by_idx(root, path, H5_INDEX_NAME, H5_ITER_INC, k, name, 128):
   * the k-th link name in increasing name order, as read back from the buffer.
   */
  function NameByIndex(store: Store, path: Path, k: nat): (r: Name)
    requires IsGroup(store, path) && k < |store[path].children|
    ensures r <= store[path].children[k] && |r| < NAME_BUF_SIZE
    ensures |store[path].children[k]| < NAME_BUF_SIZE <==> r == store[path].children[k]
  {
    BoundedCopy(store[path].children[k], NAME_BUF_SIZE)
  }

  datatype DirResult = DirResult(rc: int, entries: seq<Name>)

  /** What hdf5_fuse_readdir returns and hands to `filler`, in order. */
  function DirListing(store: Store, path: Path): (r: DirResult)
    ensures r.rc == 0 <==> IsGroup(store, path)
    ensures r.rc != 0 ==> r.rc == -ENOENT && r.entries == []
    ensures IsGroup(store, path) ==>
              && |r.entries| == 2 + |store[path].children|
              && r.entries[0] == "." && r.entries[1] == ".."
              && forall k :: 0 <= k < |store[path].children| ==> r.entries[2 + k] == NameByIndex(store, path, k)
  {
    if IsGroup(store, path) then
      var n := |store[path].children|;
      DirResult(0, [".", ".."] + seq(n, k requires 0 <= k < n => NameByIndex(store, path, k)))
    else
      DirResult(-ENOENT, [])
  }

  /**
   * hdf5_fuse_readdir: fetch the group's link count, emit "." and "..", then
   * one name per link index. The FUSE offset and file info are ignored, and
   * `emitted` is the sequence of names passed to `filler`.
   */
  method ReadDir(store: Store, path: Path) returns (rc: int, emitted: seq<Name>)
    ensures DirResult(rc, emitted) == DirListing(store, path)
  {
    if !IsGroup(store, path) {
      return -ENOENT, [];
    }
    var nlinks := |store[path].children|;
    emitted := [".", ".."];
    var i := 0;
    while i < nlinks
      invariant 0 <= i <= nlinks
      invariant |emitted| == 2 + i && emitted[0] == "." && emitted[1] == ".."
      invariant forall k :: 0 <= k < i ==> emitted[2 + k] == NameByIndex(store, path, k)
    {
      var name := NameByIndex(store, path, i);
      emitted := emitted + [name];
      i := i + 1;
    }
    rc := 0;
  }

  // ---------------------------------------------------------------- open

  /** hdf5_fuse_open: the access mode is checked first, then the path is resolved. */
  function Open(store: Store, path: Path, flags: bv32): (r: int)
    ensures r == -EACCES <==> flags & O_ACCMODE != O_RDONLY
    ensures r == -ENOENT <==> flags & O_ACCMODE == O_RDONLY && path !in store
    ensures r == 0 <==> flags & O_ACCMODE == O_RDONLY && path in store
  {
    if flags & O_ACCMODE != O_RDONLY then -EACCES
    else if path !in store then -ENOENT
    else 0
  }

  // ---------------------------------------------------------------- read

  /**
   * The copy size of hdf5_fuse_read, `buf_size - offset < size ? buf_size - offset : size`,
   * with the subtraction done in size_t.
   */
  function CopySize(bufSize: SizeT, offset: OffT, size: SizeT): (r: SizeT)
    ensures r <= size
    ensures r == size || r == SubSizeOff(bufSize, offset)
    ensures 0 <= offset <= bufSize ==> r == Min(size, bufSize - offset)
  {
    var remaining := SubSizeOff(bufSize, offset);
    if remaining < size then remaining else size
  }

  /** Copying `n` bytes from `offset` stays within a buffer of `bufSize` bytes. */
  predicate InBounds(bufSize: int, offset: int, n: int) {
    0 <= offset && offset + n <= bufSize
  }

  /** The bytes that a read of `size` bytes at `offset` takes from `content`. */
  function ReadWindow(content: seq<byte>, offset: int, size: int): (r: seq<byte>)
    requires 0 <= offset <= |content| && 0 <= size
    ensures |r| == Min(size, |content| - offset)
    ensures forall i :: 0 <= i < |r| ==> r[i] == content[offset + i]
  {
    content[offset..offset + Min(size, |content| - offset)]
  }

  /** memcpy(dst, src + srcOffset, n). */
  method MemCpy(dst: array<byte>, src: array<byte>, srcOffset: nat, n: nat)
    requires dst != src
    requires srcOffset + n <= src.Length && n <= dst.Length
    modifies dst
    ensures dst[..n] == src[srcOffset..srcOffset + n]
    ensures dst[n..] == old(dst[n..])
  {
    var i := 0;
    while i < n
      invariant 0 <= i <= n
      invariant forall k :: 0 <= k < i ==> dst[k] == src[srcOffset + k]
      invariant forall k :: n <= k < dst.Length ==> dst[k] == old(dst[k])
    {
      dst[i] := src[srcOffset + i];
      i := i + 1;
    }
  }

  /**
   * hdf5_fuse_read: recompute the size, decode the whole dataset into a
   * fresh buffer of that size, copy the clamped window into `buf` and return
   * the copy size as an int. hdf5_fuse_read does not check that the dataset
   * opened; the second precondition says H5Dread fills exactly the buffer it
   * is given, the third is the range of offsets in which the copy stays
   * inside that buffer (see CopySize for the others).
   */
  method Read(store: Store, path: Path, buf: array<byte>, size: SizeT, offset: OffT) returns (rc: int)
    requires WellFormed(store)
    requires |Content(store, path)| < SIZE_T_MODULUS
    requires 0 <= offset <= Filesize(store, path)
    requires size <= buf.Length
    modifies buf
    ensures rc == SizeToCInt(CopySize(Filesize(store, path), offset, size))
    ensures var n := CopySize(Filesize(store, path), offset, size);
            buf[..n] == ReadWindow(Content(store, path), offset, size) && buf[n..] == old(buf[n..])
  {
    var bufSize := Filesize(store, path);
    var content := Content(store, path);
    var hdf5Buf := new byte[bufSize](i requires 0 <= i < bufSize => content[i]);
    var copySize := CopySize(bufSize, offset, size);
    MemCpy(buf, hdf5Buf, offset, copySize);
    assert hdf5Buf[offset..offset + copySize] == ReadWindow(content, offset, size);
    rc := SizeToCInt(copySize);
  }
}
