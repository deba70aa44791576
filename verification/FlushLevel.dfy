/** Where a flushed memtable goes. */
module FlushLevel {
  import opened InternalKeys
  import opened Version
  import opened CompactionInputs
  import opened LsmEdits
  import opened Lsm

  /** kMaxGrandParentOverlapBytes. */
  const MAX_GRANDPARENT_OVERLAP: nat := 10 * TARGET_FILE_SIZE

  /** No file of the level meets the user-key range of f. */
  ghost predicate ClearOf(files: seq<File>, f: File) {
    forall g :: g in files ==> f.largest.user < g.smallest.user || g.largest.user < f.smallest.user
  }

  method OverlapInLevel(v: Levels, level: nat, f: File) returns (b: bool)
    requires VersionOk(v) && level < |v|
    ensures b <==> !ClearOf(v[level], f)
  {
    b := SomeFileOverlapsRange(level > 0, v[level], Some(f.smallest.user), Some(f.largest.user));
    OverlapIsNotClear(v[level], f);
  }

  lemma OverlapIsNotClear(files: seq<File>, f: File)
    ensures SomeOverlap(files, Some(f.smallest.user), Some(f.largest.user)) <==> !ClearOf(files, f)
  {
    if SomeOverlap(files, Some(f.smallest.user), Some(f.largest.user)) {
      var i :| 0 <= i < |files| && Overlaps(files[i], Some(f.smallest.user), Some(f.largest.user));
      assert files[i] in files;
    }
  }

  /** PickLevelForMemTableOutput: the level chosen is one the flush step allows, and
      the search stops no earlier than it must. */
  method PickLevelForMemTableOutput(v: Levels, f: File) returns (level: nat)
    requires VersionOk(v)
    ensures level <= MAX_MEM_COMPACT_LEVEL
    ensures level > 0 ==> ClearDownTo(v, level, f)
    ensures level < MAX_MEM_COMPACT_LEVEL ==>
              || (level == 0 && !ClearOf(v[0], f))
              || !ClearOf(v[level + 1], f)
              || Grandparents(v[level + 2], f) > MAX_GRANDPARENT_OVERLAP
    ensures forall l :: 2 <= l < level + 2 ==> Grandparents(v[l], f) <= MAX_GRANDPARENT_OVERLAP
  {
    hide VersionOk, Overlapping, TotalFileSize;
    assert |v| == NUM_LEVELS by { SevenLevels(v); }
    level := 0;
    var overlap := OverlapInLevel(v, 0, f);
    if !overlap {
      while level < MAX_MEM_COMPACT_LEVEL
        invariant level <= MAX_MEM_COMPACT_LEVEL
        invariant forall l :: 0 <= l <= level ==> ClearOf(v[l], f)
        invariant forall l :: 2 <= l < level + 2 ==> Grandparents(v[l], f) <= MAX_GRANDPARENT_OVERLAP
      {
        overlap := OverlapInLevel(v, level + 1, f);
        if overlap {
          break;
        }
        if level + 2 < NUM_LEVELS {
          var overlaps, _ := GetOverlappingInputs(level + 2, v[level + 2], UserRange(f));
          if TotalFileSize(overlaps) > MAX_GRANDPARENT_OVERLAP {
            break;
          }
        }
        level := level + 1;
      }
    }
  }

  function UserRange(f: File): Range {
    Range(Some(f.smallest.user), Some(f.largest.user))
  }

  function Grandparents(files: seq<File>, f: File): nat {
    TotalFileSize(Overlapping(files, UserRange(f)))
  }

  lemma SevenLevels(v: Levels)
    requires VersionOk(v)
    ensures |v| == NUM_LEVELS
  {
  }
}
