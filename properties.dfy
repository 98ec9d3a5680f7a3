/**
 * Properties that relate the operations of Hdf5Fuse to each other and to the
 * store: what getattr reports against what readdir lists and read returns,
 * the order of the listing, and the range of offsets in which the read copy
 * stays inside the decoded dataset.
 */
module Hdf5FuseProperties {
  import opened CTypes
  import opened Hdf5Store
  import opened Hdf5Fuse

  // ---------------------------------------------------------------- getattr and readdir

  /** A group's st_nlink is the number of entries readdir emits, its st_size the number of links among them. */
  lemma GroupStatMatchesListing(store: Store, path: Path)
    requires IsGroup(store, path)
    ensures Attributes(store, path).st.nlink == |DirListing(store, path).entries|
    ensures Attributes(store, path).st.size == |DirListing(store, path).entries| - 2
  {
  }

  /** The file type in st_mode agrees with what readdir and H5Dopen accept, and no write bit is ever set. */
  lemma ModeMatchesKind(store: Store, path: Path)
    requires path in store
    ensures var mode := Attributes(store, path).st.mode;
            && (mode & S_IFMT == S_IFDIR <==> DirListing(store, path).rc == 0)
            && (mode & S_IFMT == S_IFREG <==> IsDataset(store, path))
            && (mode & S_IFMT == S_IFCHR <==> store[path].Other?)
            && mode & PERM_WRITE == 0
  {
  }

  /** Cutting two names to the same length keeps them in lexicographic order. */
  lemma {:induction false} TakePreservesLexLe(a: string, b: string, n: nat)
    requires LexLe(a, b)
    ensures LexLe(Take(a, n), Take(b, n))
    decreases n
  {
    if n > 0 && |a| > 0 {
      var ta, tb := Take(a, n), Take(b, n);
      assert |tb| > 0 && ta[0] == a[0] && tb[0] == b[0];
      if a[0] == b[0] {
        TakePreservesLexLe(a[1..], b[1..], n - 1);
        assert ta[1..] == Take(a[1..], n - 1);
        assert tb[1..] == Take(b[1..], n - 1);
      }
    }
  }

  /**
   * After "." and "..", readdir emits names in non-decreasing name order,
   * truncation to the 128-byte buffer notwithstanding.
   */
  lemma ListingInNameOrder(store: Store, path: Path)
    requires WellFormed(store) && IsGroup(store, path)
    ensures var entries := DirListing(store, path).entries;
            forall i, j :: 2 <= i < j < |entries| ==> LexLe(entries[i], entries[j])
  {
    var children := store[path].children;
    var entries := DirListing(store, path).entries;
    assert ObjectOk(store, path);
    forall i, j | 2 <= i < j < |entries|
      ensures LexLe(entries[i], entries[j])
    {
      assert LexLess(children[i - 2], children[j - 2]);
      TakePreservesLexLe(children[i - 2], children[j - 2], NAME_BUF_SIZE - 1);
    }
  }

  /**
   * When every link name fits the name buffer, readdir emits exactly the
   * group's links in name order; when moreover every link resolves, each
   * emitted name resolves under getattr.
   */
  lemma ShortNamesListedExactly(store: Store, path: Path)
    requires IsGroup(store, path)
    requires forall c :: c in store[path].children ==> |c| < NAME_BUF_SIZE
    ensures DirListing(store, path).entries == [".", ".."] + store[path].children
    ensures var entries := DirListing(store, path).entries;
            LinksResolve(store, path) ==>
              forall k :: 2 <= k < |entries| ==> Attributes(store, ChildPath(path, entries[k])).rc == 0
  {
    var children := store[path].children;
    var entries := DirListing(store, path).entries;
    forall k | 0 <= k < |children|
      ensures entries[2 + k] == children[k]
    {
      assert children[k] in children;
    }
    assert entries == [".", ".."] + children;
    if LinksResolve(store, path) {
      forall k | 2 <= k < |entries|
        ensures Attributes(store, ChildPath(path, entries[k])).rc == 0
      {
        assert entries[k] == children[k - 2] && children[k - 2] in children;
      }
    }
  }

  /**
   * A link whose target is missing (a dangling soft link, an external link to
   * a missing file) is still listed by readdir, and getattr on the listed
   * name answers ENOENT.
   */
  lemma DanglingLinkListedButMissing(store: Store, path: Path, k: nat)
    requires IsGroup(store, path) && k < |store[path].children|
    requires |store[path].children[k]| < NAME_BUF_SIZE
    requires ChildPath(path, store[path].children[k]) !in store
    ensures DirListing(store, path).rc == 0
    ensures DirListing(store, path).entries[2 + k] == store[path].children[k]
    ensures Attributes(store, ChildPath(path, DirListing(store, path).entries[2 + k])).rc == -ENOENT
  {
  }

  // ---------------------------------------------------------------- getattr and read

  /**
   * For a dataset whose size fits off_t, getattr's st_size is the number of
   * bytes it holds, and reading [0, st_size) returns all of them.
   */
  lemma DatasetSizeIsReadLength(store: Store, path: Path, size: SizeT)
    requires WellFormed(store) && IsDataset(store, path)
    requires |store[path].bytes| < OFF_T_LIMIT
    requires size >= Filesize(store, path)
    ensures Attributes(store, path).st.size == Filesize(store, path) == |store[path].bytes|
    ensures CopySize(Filesize(store, path), 0, size) == Filesize(store, path)
    ensures ReadWindow(Content(store, path), 0, size) == store[path].bytes
  {
  }

  /** A read that runs past the end is cut to the bytes left, and one that starts at the end copies nothing. */
  lemma ReadTruncatedAtEnd(bufSize: SizeT, offset: OffT, size: SizeT)
    requires 0 <= offset <= bufSize
    ensures offset + size >= bufSize ==> CopySize(bufSize, offset, size) == bufSize - offset
    ensures offset + size <= bufSize ==> CopySize(bufSize, offset, size) == size
    ensures offset == bufSize ==> CopySize(bufSize, offset, size) == 0
  {
  }

  /**
   * The copy stays inside the decoded buffer exactly when 0 <= offset <= buf_size.
   * The "only if" half holds for any copy size, since InBounds fails for every
   * length once offset > buf_size; what the wrapped copy size is there is
   * stated by PastEndCopiesRequested.
   */
  lemma CopyInBoundsIff(bufSize: SizeT, offset: OffT, size: SizeT)
    ensures InBounds(bufSize, offset, CopySize(bufSize, offset, size)) <==> 0 <= offset <= bufSize
  {
  }

  /**
   * Past the end, `buf_size - offset` wraps to at least 2^63 + 1, so the copy
   * size is the requested size (not 0) and the copy leaves the buffer.
   */
  lemma PastEndCopiesRequested(bufSize: SizeT, offset: OffT, size: SizeT)
    requires bufSize < offset
    requires size <= OFF_T_LIMIT
    ensures SubSizeOff(bufSize, offset) > OFF_T_LIMIT
    ensures CopySize(bufSize, offset, size) == size
    ensures size > 0 ==> !InBounds(bufSize, offset, CopySize(bufSize, offset, size))
  {
  }

  /**
   * Reading a path that is not a dataset reports success with 0 bytes at
   * offset 0 (never ENOENT), since the size helper returns 0.
   */
  lemma ReadOfNonDataset(store: Store, path: Path, size: SizeT)
    requires !IsDataset(store, path)
    ensures Filesize(store, path) == 0 && Content(store, path) == []
    ensures SizeToCInt(CopySize(Filesize(store, path), 0, size)) == 0
  {
  }

  /** A read's int result is the number of bytes copied for any request below 2^31 bytes. */
  lemma ReadResultIsCount(bufSize: SizeT, offset: OffT, size: SizeT)
    requires size < INT_LIMIT
    ensures SizeToCInt(CopySize(bufSize, offset, size)) == CopySize(bufSize, offset, size)
  {
  }

  // ---------------------------------------------------------------- open and getattr

  /** A non-read-only open fails with EACCES whatever the store and the path. */
  lemma OpenIgnoresExistence(store1: Store, path1: Path, store2: Store, path2: Path, flags: bv32)
    requires flags & O_ACCMODE != O_RDONLY
    ensures Open(store1, path1, flags) == Open(store2, path2, flags) == -EACCES
  {
  }

  /** A read-only open succeeds or fails with ENOENT exactly as getattr does on the same path. */
  lemma OpenAgreesWithGetAttr(store: Store, path: Path, flags: bv32)
    requires flags & O_ACCMODE == O_RDONLY
    ensures Open(store, path, flags) == Attributes(store, path).rc
  {
  }

  // ---------------------------------------------------------------- a concrete file

  /** A file whose root holds one dataset "data" of 10 elements of 4 bytes. */
  function OneDatasetStore(bytes: seq<byte>): (s: Store)
    requires |bytes| == 40
    ensures WellFormed(s) && LinksResolve(s, ROOT)
  {
    var s := map[ROOT := Group(["data"]), "/data" := Dataset(4, 10, bytes)];
    assert ObjectOk(s, ROOT) && ObjectOk(s, "/data");
    assert ChildPath(ROOT, "data") == "/data";
    s
  }

  /** The behaviour of each operation on OneDatasetStore. */
  lemma OneDatasetScenario(bytes: seq<byte>)
    requires |bytes| == 40
    ensures var s := OneDatasetStore(bytes);
            && Attributes(s, "/data") == AttrResult(0, ZERO_STAT.(mode := S_IFREG | PERM_R, size := 40))
            && DirListing(s, ROOT) == DirResult(0, [".", "..", "data"])
            && Open(s, "/data", O_RDONLY) == 0
            && Open(s, "/data", O_RDWR) == -EACCES
            && Open(s, "/missing", O_RDONLY) == -ENOENT
            && ReadWindow(Content(s, "/data"), 0, 40) == bytes
            && CopySize(Filesize(s, "/data"), 35, 10) == 5
            && ReadWindow(Content(s, "/data"), 35, 10) == bytes[35..]
  {
  }
}
