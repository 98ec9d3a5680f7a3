/**
 * An abstract HDF5 file as the adapter sees it through its root group: a map
 * from absolute path to the object that path names. The HDF5 library calls
 * the adapter makes (H5Oget_info_by_name, H5Gget_info_by_name, H5Dopen,
 * H5Lget_name_by_idx, H5Dread) are answered from this map.
 */
module Hdf5Store {

  newtype byte = b: int | 0 <= b < 256

  type Name = string
  type Path = string

  /**
   * An HDF5 object. A group lists its link names in name-index order
   * (H5_INDEX_NAME, H5_ITER_INC); a dataset carries its element type size,
   * its element count over all dimensions and its decoded bytes.
   */
  datatype Object =
    | Group(children: seq<Name>)
    | Dataset(typeSize: nat, numElems: nat, bytes: seq<byte>)
    | Other

  type Store = map<Path, Object>

  const ROOT: Path := "/"

  /** The path of link `name` inside the group at `parent`. */
  function ChildPath(parent: Path, name: Name): (r: Path)
    ensures |r| == |parent| + |name| + (if parent == ROOT then 0 else 1)
    ensures r[|r| - |name|..] == name
  {
    if parent == ROOT then parent + name else parent + "/" + name
  }

  /** `a` comes no later than `b` in byte-wise lexicographic order (strcmp order). */
  predicate LexLe(a: string, b: string)
    decreases |a|
  {
    |a| == 0 || (|b| > 0 && (a[0] < b[0] || (a[0] == b[0] && LexLe(a[1..], b[1..]))))
  }

  predicate LexLess(a: string, b: string) {
    LexLe(a, b) && a != b
  }

  /** Link names strictly increasing: the order, and the distinctness, of HDF5's name index. */
  predicate NameOrdered(names: seq<Name>) {
    forall i, j :: 0 <= i < j < |names| ==> LexLess(names[i], names[j])
  }

  predicate ObjectOk(store: Store, path: Path)
    requires path in store
  {
    match store[path]
    case Group(children) =>
      && NameOrdered(children)
      && forall c :: c in children ==> '\0' !in c
    case Dataset(typeSize, numElems, bytes) => |bytes| == typeSize * numElems
    case Other => true
  }

  /**
   * The root group exists, every group's link names are NUL-free and in name
   * order, and every dataset holds exactly element count times element size
   * bytes. Links need not resolve: a soft link may dangle and an external
   * link may name a missing file.
   */
  predicate WellFormed(store: Store) {
    && ROOT in store && store[ROOT].Group?
    && forall p {:trigger ObjectOk(store, p)} :: p in store ==> ObjectOk(store, p)
  }

  predicate IsGroup(store: Store, path: Path) {
    path in store && store[path].Group?
  }

  predicate IsDataset(store: Store, path: Path) {
    path in store && store[path].Dataset?
  }

  /** Every link of the group at `path` resolves to an object. */
  predicate LinksResolve(store: Store, path: Path)
    requires IsGroup(store, path)
  {
    forall c :: c in store[path].children ==> ChildPath(path, c) in store
  }

  /** The bytes H5Dread decodes for `path`; nothing when H5Dopen cannot open it as a dataset. */
  function Content(store: Store, path: Path): (r: seq<byte>)
    ensures !IsDataset(store, path) ==> r == []
    ensures WellFormed(store) && IsDataset(store, path) ==>
              |r| == store[path].typeSize * store[path].numElems
  {
    if IsDataset(store, path) then
      assert WellFormed(store) ==> ObjectOk(store, path);
      store[path].bytes
    else
      []
  }
}
