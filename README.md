# hdf5-fuse, modelled in Dafny

hdf5-fuse mounts an HDF5 file as a read-only FUSE filesystem: groups appear as
directories, datasets as regular files whose content is the dataset's decoded
bytes, and any other HDF5 object as a zero-size character device. This project
models the adapter's five functions in `main.c` (the dataset size helper,
`getattr`, `readdir`, `open`, `read`) over an abstract HDF5 file, and proves
what they return, what they write into the caller's `struct stat` or buffer,
and how their answers agree with each other.

Files and modules:

- `c_types.dfy`, module `CTypes`: `size_t` (64-bit unsigned), `off_t` (64-bit
  signed) and `int` (32-bit) as integer ranges with the conversions the code
  performs (`size_t` to `off_t` for `st_size`, `size_t` to `int` for read's
  return value, the unsigned `size_t - off_t` subtraction), the Linux `errno`,
  `O_*` and `S_IF*` constants, and the string read back from a bounded
  NUL-terminated copy.
- `store.dfy`, module `Hdf5Store`: the HDF5 file as a map from absolute path to
  `Group(children)`, `Dataset(typeSize, numElems, bytes)` or `Other`, and its
  well-formedness: the root `/` is a group, a group's link names are free of
  NUL and strictly increasing in byte order (HDF5's name index), and a dataset
  holds exactly `typeSize * numElems` bytes. Links need not resolve; the
  separate predicate `LinksResolve` says that every link of one group does.
- `hdf5_fuse.dfy`, module `Hdf5Fuse`: the operations. Decision logic and
  arithmetic are functions (`Filesize`, `Open`, `CopySize`). The operations
  that write into the caller's memory are methods: `GetAttr` clears and fills a
  `Stat` object field by field, `ReadDir` appends one name per link index in a
  loop, `Read` decodes the dataset into a fresh array and copies the window
  into the caller's array with `MemCpy`. Each method is proved equal to a
  specification function (`Attributes`, `DirListing`, `ReadWindow`).
- `properties.dfy`, module `Hdf5FuseProperties`: lemmas relating the
  operations: group `st_nlink`/`st_size` against the `readdir` listing, the
  file type in `st_mode` against what `readdir` and `H5Dopen` accept, the name
  order of the listing, dataset `st_size` against the bytes `read` returns,
  the offsets for which `read`'s copy stays inside the decoded buffer, and
  `open` against `getattr`.

Behaviour kept as the code has it:

- `read` never checks that `H5Dopen` succeeded: for a path that is not a
  dataset the size is 0 and a read at offset 0 returns 0 bytes, not `-ENOENT`
  (`ReadOfNonDataset`).
- The copy size `buf_size - offset < size ? buf_size - offset : size` is
  computed in `size_t`. For `offset > buf_size` the subtraction wraps to more
  than 2^63, so for any request of at most 2^63 bytes the copy size is the
  requested size and a non-empty `memcpy` reads past the decoded buffer
  (`PastEndCopiesRequested`); the copy stays inside that
  buffer exactly when `0 <= offset <= buf_size` (`CopyInBoundsIff`). The `Read`
  method, which copies between Dafny arrays, therefore requires that range.
- The dataset size is a `size_t` product and wraps modulo 2^64; `getattr`
  stores it into the signed `st_size`. `Filesize` and `Attributes` model both.
- Link names are read back from a 128-byte buffer, so names of 128 or more
  bytes are cut to 127; the listing stays in non-decreasing name order
  (`ListingInNameOrder`) but such entries need not resolve again.
- A group reports its link count as `st_size`.
- A dangling soft link or an external link to a missing file is counted and
  named by the group, so `readdir` lists it, while `getattr` on it answers
  `-ENOENT` (`DanglingLinkListedButMissing`).

## Model

| member | source | states |
|---|---|---|
| CTypes.SizeToOff | main.c:47 | the `off_t` holds the same 64 bits as the `size_t`; equal to it below 2^63, negative otherwise |
| CTypes.SizeToCInt | main.c:105 | the `int` result agrees with the byte count modulo 2^32 and equals it below 2^31 |
| CTypes.SubSizeOff | main.c:101 | `buf_size - offset` in `size_t`: adding `offset` back gives `buf_size` modulo 2^64; the plain difference when `0 <= offset <= buf_size` |
| CTypes.BoundedCopy | main.c:70-72 | the name read back from the 128-byte buffer is a prefix of the link name, shorter than the buffer, and the whole name exactly when it fits |
| Hdf5Store.Content | main.c:100 | the bytes `H5Dread` decodes: nothing for a path that is not a dataset, element count times element size bytes for a dataset of a well-formed file |
| Hdf5Fuse.Filesize | main.c:16-29 | 0 when `H5Dopen` fails; otherwise `num_elems * type_size` modulo 2^64, which is the dataset's byte count whenever that count is below 2^64 |
| Hdf5Fuse.Attributes | main.c:31-54 | `-ENOENT` exactly when the path does not resolve, with the record all zero; every field other than mode, link count and size is zero; group: `S_IFDIR` with permissions 0555, `2 + nlinks` links, size `nlinks`; dataset: `S_IFREG` with 0444, size `filesize` as `off_t`; other kinds: `S_IFCHR` with 0000, size 0 |
| Hdf5Fuse.Stat.Zero | main.c:33 | after the `memset` every field of the record is zero |
| Hdf5Fuse.GetAttr | main.c:31-54 | the return code and the fields written into the caller's `Stat` are exactly `Attributes` |
| Hdf5Fuse.NameByIndex | main.c:70-72 | the name at name index k is a prefix of the k-th link, under 128 bytes, and the link itself when it fits |
| Hdf5Fuse.DirListing | main.c:56-77 | `-ENOENT` with nothing emitted exactly when the path is not a group; otherwise 0 and `2 + nlinks` entries: ".", "..", then the name at index k in position k + 2 |
| Hdf5Fuse.ReadDir | main.c:56-77 | the return code and the names passed to `filler`, in order, are exactly `DirListing` |
| Hdf5Fuse.Open | main.c:79-89 | `-EACCES` exactly when `flags & O_ACCMODE` is not `O_RDONLY`; `-ENOENT` exactly for a read-only open of a missing path; 0 otherwise |
| Hdf5Fuse.CopySize | main.c:101 | never more than requested; either the requested size or the wrapped `buf_size - offset`; `min(size, buf_size - offset)` when `0 <= offset <= buf_size` |
| Hdf5Fuse.ReadWindow | main.c:99-102 | the window has `min(size, buf_size - offset)` bytes and byte i is content byte `offset + i` |
| Hdf5Fuse.MemCpy | main.c:102 | the first n bytes of the destination are the source bytes from the offset on; the rest of the destination is unchanged |
| Hdf5Fuse.Read | main.c:91-106 | for `0 <= offset <= buf_size`: returns the copy size as an `int`, the caller's buffer starts with `ReadWindow` of the dataset's bytes, and the bytes after it are unchanged |
| Hdf5FuseProperties.GroupStatMatchesListing | main.c:39-76 | a group's `st_nlink` is the number of entries `readdir` emits and its `st_size` the number of link entries among them |
| Hdf5FuseProperties.ModeMatchesKind | main.c:39-51 | the file type in `st_mode` is a directory exactly when `readdir` succeeds, a regular file exactly for datasets, a character device exactly for other kinds; no write permission bit is ever set |
| Hdf5FuseProperties.TakePreservesLexLe | main.c:70-72 | cutting two names to the same length preserves their byte order |
| Hdf5FuseProperties.ListingInNameOrder | main.c:69-74 | the names after "." and ".." come in non-decreasing byte order |
| Hdf5FuseProperties.ShortNamesListedExactly | main.c:66-76 | when all link names fit the buffer, the entries are ".", ".." and exactly the group's links; when moreover every link of the group resolves, each entry's path resolves under `getattr` |
| Hdf5FuseProperties.DanglingLinkListedButMissing | main.c:36-37 | a link whose target is missing is listed under its own name, and `getattr` on that entry's path returns `-ENOENT` |
| Hdf5FuseProperties.DatasetSizeIsReadLength | main.c:45-47 | for a dataset under 2^63 bytes, `st_size` equals its byte count and a read from 0 of at least that many bytes returns all of them |
| Hdf5FuseProperties.ReadTruncatedAtEnd | main.c:101 | in range, a read past the end returns `buf_size - offset` bytes, one inside the end returns the requested size, one at the end returns 0 |
| Hdf5FuseProperties.CopyInBoundsIff | main.c:101-102 | the copy stays inside the decoded buffer if and only if `0 <= offset <= buf_size` (past the end no copy length is in bounds; the wrapped length itself is stated by `PastEndCopiesRequested`) |
| Hdf5FuseProperties.PastEndCopiesRequested | main.c:101-102 | for `offset > buf_size` the difference wraps above 2^63, so a request of at most 2^63 bytes is copied whole, and a non-empty copy leaves the buffer |
| Hdf5FuseProperties.ReadOfNonDataset | main.c:96-105 | a read of a path that is not a dataset sees size 0 and returns 0 at offset 0, not `-ENOENT` |
| Hdf5FuseProperties.ReadResultIsCount | main.c:105 | for requests below 2^31 bytes the `int` returned is the byte count |
| Hdf5FuseProperties.OpenIgnoresExistence | main.c:81-82 | a non-read-only open fails with `-EACCES` whatever the file and path |
| Hdf5FuseProperties.OpenAgreesWithGetAttr | main.c:84-86 | a read-only open returns what `getattr` returns for the same path |
| Hdf5FuseProperties.OneDatasetScenario | main.c:31-106 | on that file: `getattr("/data")` is a regular file of 40 bytes, `readdir("/")` lists ".", "..", "data", opens behave by mode and existence, a read from 0 returns all 40 bytes and one at 35 of 10 returns the last 5 |

## Left out

- `main` (argument check, `H5Fis_hdf5`/`H5Fopen`, `fuse_main`, shutdown): process start-up and I/O; the opened root group is the `Store` parameter passed to every operation.
- The `fuse_operations` table: registration only.
- HDF5 internals (`H5Oget_info_by_name`, `H5Gget_info_by_name`, `H5Lget_name_by_idx`, `H5Dread`, type and space queries) and the file format: answered from the abstract map; failures of these calls on paths that do resolve are not modelled.
- Handle lifetimes (`H5Dclose`, `H5Sclose`, the unclosed `H5Dget_type` handles, `free`): resource management with no effect on results.
- Hdf5Fuse.Read: allocation failure is not modelled; the model's allocation always succeeds, whereas when `malloc(buf_size)` returns NULL the code's `H5Dread` fails and `memcpy` reads through `NULL + offset`.
- Concurrency: the code has none; FUSE dispatch is external.
- `filler`'s return value (buffer full) is ignored by the code, so the listing is modelled as the sequence of names passed to it; `readdir`'s `offset` argument is unused, `fi` is unused by `readdir` and `read`, and `open` reads only `fi->flags`.
- Hdf5Fuse.Read: requires `0 <= offset <= buf_size`, because for larger offsets the code's `memcpy` reads outside the decoded buffer, which Dafny arrays cannot express; that case is stated on `CopySize` by `PastEndCopiesRequested` and `CopyInBoundsIff`.
- Hdf5Fuse.Read: requires that the dataset's byte count fits `size_t`; otherwise `H5Dread` writes more bytes than the wrapped size allocated.
- Hdf5Fuse.Attributes: `st_nlink = 2 + nlinks` and group `st_size = nlinks` are not wrapped to 64 bits, as no HDF5 group holds 2^63 links.
- Link names are strings of characters, each standing for one byte; multi-byte UTF-8 names are not modelled. Names contain no NUL (as in HDF5), so `filler` at main.c:73 receives the whole name read back.
- Time fields of `struct stat` are single integers (the nanosecond parts are not separate fields); all are zero either way.
