/**
 * The composite key of the PMI job, `PathSlotKey(path, slot, type)`, its sort order
 * (`compareTo`) and the coarser grouping order (`PathSlotGroupingComparator.compare`) that
 * drops `type`. Sorting by the first and grouping by the second puts the margin record
 * (`type` 0) of a `(path, slot)` group in front of its triple records (`type` 1): a join by
 * secondary sort.
 */
module SortKeys {
  import opened Strings

  const MARGIN: int := 0
  const TRIPLE: int := 1

  datatype PathSlotKey = PathSlotKey(path: string, slot: string, kind: int)

  /** `IntWritable.compareTo`. */
  function IntCompare(a: int, b: int): int {
    if a < b then -1 else if a == b then 0 else 1
  }

  /** `PathSlotKey.compareTo`: lexicographic on `(path, slot, type)`. */
  function CompareKeys(k1: PathSlotKey, k2: PathSlotKey): int {
    var c := Compare(k1.path, k2.path);
    if c != 0 then c
    else
      var c2 := Compare(k1.slot, k2.slot);
      if c2 != 0 then c2 else IntCompare(k1.kind, k2.kind)
  }

  /** `PathSlotGroupingComparator.compare`: lexicographic on `(path, slot)` only. */
  function GroupCompare(k1: PathSlotKey, k2: PathSlotKey): int {
    var c := Compare(k1.path, k2.path);
    if c != 0 then c else Compare(k1.slot, k2.slot)
  }

  predicate SameGroup(k1: PathSlotKey, k2: PathSlotKey) {
    k1.path == k2.path && k1.slot == k2.slot
  }

  /** `compareTo` is zero exactly for equal keys. */
  lemma CompareKeysZeroIff(k1: PathSlotKey, k2: PathSlotKey)
    ensures CompareKeys(k1, k2) == 0 <==> k1 == k2
  {
    CompareZeroIff(k1.path, k2.path);
    CompareZeroIff(k1.slot, k2.slot);
  }

  /** The grouping comparator is zero exactly when path and slot agree. */
  lemma GroupCompareZeroIff(k1: PathSlotKey, k2: PathSlotKey)
    ensures GroupCompare(k1, k2) == 0 <==> SameGroup(k1, k2)
  {
    CompareZeroIff(k1.path, k2.path);
    CompareZeroIff(k1.slot, k2.slot);
  }

  /** Within one `(path, slot)`, the margin key sorts strictly before the triple key. */
  lemma MarginSortsFirst(path: string, slot: string)
    ensures CompareKeys(PathSlotKey(path, slot, MARGIN), PathSlotKey(path, slot, TRIPLE)) < 0
    ensures GroupCompare(PathSlotKey(path, slot, MARGIN), PathSlotKey(path, slot, TRIPLE)) == 0
  {
    CompareZeroIff(path, path);
    CompareZeroIff(slot, slot);
  }

  /** The sort order refines the grouping order: keys of different groups are ordered as
      their groups are. */
  lemma SortRefinesGrouping(k1: PathSlotKey, k2: PathSlotKey)
    ensures GroupCompare(k1, k2) != 0 ==> CompareKeys(k1, k2) == GroupCompare(k1, k2)
    ensures GroupCompare(k1, k2) == 0 ==> CompareKeys(k1, k2) == IntCompare(k1.kind, k2.kind)
  {
  }

  lemma CompareKeysAntisymmetric(k1: PathSlotKey, k2: PathSlotKey)
    ensures CompareKeys(k1, k2) <= 0 && CompareKeys(k2, k1) <= 0 ==> k1 == k2
  {
    CompareAntisymmetric(k1.path, k2.path);
    CompareAntisymmetric(k1.slot, k2.slot);
    CompareKeysZeroIff(k1, k2);
  }

  lemma CompareKeysTransitive(a: PathSlotKey, b: PathSlotKey, c: PathSlotKey)
    requires CompareKeys(a, b) <= 0 && CompareKeys(b, c) <= 0
    ensures CompareKeys(a, c) <= 0
  {
    CompareZeroIff(a.path, b.path);
    CompareZeroIff(b.path, c.path);
    CompareZeroIff(a.path, c.path);
    CompareZeroIff(a.slot, b.slot);
    CompareZeroIff(b.slot, c.slot);
    CompareZeroIff(a.slot, c.slot);
    CompareTransitive(a.path, b.path, c.path);
    CompareAntisymmetric(a.path, b.path);
    CompareAntisymmetric(b.path, c.path);
    if a.path == c.path {
      CompareTransitive(a.slot, b.slot, c.slot);
      CompareAntisymmetric(a.slot, b.slot);
    }
  }

  /** The keys in the order the shuffle delivers them to the reducers. */
  ghost predicate SortedByKey(keys: seq<PathSlotKey>) {
    forall i, j :: 0 <= i < j < |keys| ==> CompareKeys(keys[i], keys[j]) <= 0
  }

  lemma GroupBounds(a: PathSlotKey, b: PathSlotKey, c: PathSlotKey)
    requires CompareKeys(a, b) <= 0 && CompareKeys(b, c) <= 0 && SameGroup(a, c)
    ensures SameGroup(a, b)
  {
    CompareZeroIff(a.path, b.path);
    CompareZeroIff(b.path, c.path);
    CompareAntisymmetric(a.path, b.path);
    CompareZeroIff(a.slot, b.slot);
    CompareZeroIff(b.slot, c.slot);
    CompareAntisymmetric(a.slot, b.slot);
  }

  /** In sorted order the keys of one group are contiguous, so the grouping comparator
      hands each `(path, slot)` to exactly one reduce call. */
  lemma GroupsContiguous(keys: seq<PathSlotKey>, i: int, k: int, j: int)
    requires SortedByKey(keys)
    requires 0 <= i < k < j < |keys| && SameGroup(keys[i], keys[j])
    ensures SameGroup(keys[i], keys[k])
  {
    GroupBounds(keys[i], keys[k], keys[j]);
  }

  /** In sorted order no triple key of a group precedes a margin key of the same group:
      the margin value is the first value of its reduce call. */
  lemma MarginsLeadTheirGroup(keys: seq<PathSlotKey>, i: int, j: int)
    requires SortedByKey(keys)
    requires 0 <= i < j < |keys| && SameGroup(keys[i], keys[j])
    requires keys[i].kind == MARGIN || keys[i].kind == TRIPLE
    requires keys[j].kind == MARGIN
    ensures keys[i].kind == MARGIN
  {
    CompareZeroIff(keys[i].path, keys[j].path);
    CompareZeroIff(keys[i].slot, keys[j].slot);
    assert CompareKeys(keys[i], keys[j]) <= 0;
  }
}
