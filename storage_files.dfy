/**
 * What the storage handlers do to one user's record: find a file by name,
 * append a file (`$push` with `$inc`), and remove a file (`$pull` of every
 * entry with that name with `$inc` of minus the first one's size), and what
 * these updates do to the accounting of the record.
 */
module StorageFiles {
  import opened Wrappers
  import opened ServiceTypes
  import opened StorageModels
  import opened StorageManager

  /** The index the handlers' search loop stops at: the first file with that name, or -1. */
  function FirstNamedIndex(files: seq<FileMetadata>, name: string): (i: int)
    ensures -1 <= i < |files|
    ensures i >= 0 ==> files[i].filename == name
    ensures forall k | 0 <= k < |files| && (i < 0 || k < i) :: files[k].filename != name
  {
    if files == [] then -1
    else if files[0].filename == name then 0
    else
      var j := FirstNamedIndex(files[1..], name);
      if j < 0 then -1 else j + 1
  }

  /** The `for file in user_storage.files: ... break` search of the handlers. */
  method FindFile(files: seq<FileMetadata>, name: string) returns (found: Option<FileMetadata>)
    ensures var i := FirstNamedIndex(files, name);
            found == if i < 0 then None else Some(files[i])
  {
    found := None;
    var i := 0;
    while i < |files|
      invariant 0 <= i <= |files|
      invariant forall k | 0 <= k < i :: files[k].filename != name
    {
      if files[i].filename == name {
        found := Some(files[i]);
        break;
      }
      i := i + 1;
    }
  }

  /** How many files carry that name. */
  function NameCount(files: seq<FileMetadata>, name: string): nat {
    if files == [] then 0
    else (if files[0].filename == name then 1 else 0) + NameCount(files[1..], name)
  }

  /** `$pull: {"files": {"filename": name}}`: every entry with that name goes, the others keep their order. */
  function RemoveNamed(files: seq<FileMetadata>, name: string): (r: seq<FileMetadata>)
    ensures forall i | 0 <= i < |r| :: r[i].filename != name
    ensures forall i | 0 <= i < |r| :: r[i] in files
    ensures forall f :: multiset(r)[f] == if f.filename == name then 0 else multiset(files)[f]
  {
    if files == [] then []
    else
      assert files == [files[0]] + files[1..];
      var rest := RemoveNamed(files[1..], name);
      if files[0].filename == name then rest else [files[0]] + rest
  }

  /** Appending a file adds one to the count of its name and leaves every other count alone. */
  lemma {:induction false} NameCountAppended(files: seq<FileMetadata>, f: FileMetadata, name: string)
    ensures NameCount(files + [f], name) == NameCount(files, name) + if f.filename == name then 1 else 0
    decreases |files|
  {
    if files == [] {
      assert [f][1..] == [];
    } else {
      assert (files + [f])[1..] == files[1..] + [f];
      NameCountAppended(files[1..], f, name);
    }
  }

  /** A list in which no entry carries the name counts none of it. */
  lemma {:induction false} NameCountNone(files: seq<FileMetadata>, name: string)
    requires forall i | 0 <= i < |files| :: files[i].filename != name
    ensures NameCount(files, name) == 0
    decreases |files|
  {
    if files != [] {
      NameCountNone(files[1..], name);
    }
  }

  /**
   * The upload's update: `$push` the metadata, `$inc` the usage by its size,
   * `$set` the time. The new entry goes last behind the old list, its name
   * is counted once more, and the gap between the counter and the files'
   * total is what it was.
   */
  function AddFile(s: UserStorage, f: FileMetadata, now: Timestamp): (t: UserStorage)
    ensures t.username == s.username && t.lastUpdated == now
    ensures |t.files| == |s.files| + 1 && t.files[..|s.files|] == s.files && t.files[|s.files|] == f
    ensures NameCount(t.files, f.filename) == NameCount(s.files, f.filename) + 1
    ensures t.currentUsageMb - TotalSize(t.files) == s.currentUsageMb - TotalSize(s.files)
  {
    TotalSizeConcat(s.files, [f]);
    NameCountAppended(s.files, f, f.filename);
    s.(files := s.files + [f], currentUsageMb := s.currentUsageMb + f.sizeMb, lastUpdated := now)
  }

  /**
   * The delete's update: `$pull` by name, `$inc` the usage by minus
   * `sizeMb`, `$set` the time. No entry of the name is left, every other
   * entry keeps its multiplicity, and the counter drops by `sizeMb` however
   * many entries went.
   */
  function DeleteEntry(s: UserStorage, name: string, sizeMb: real, now: Timestamp): (t: UserStorage)
    ensures t.username == s.username && t.lastUpdated == now
    ensures NameCount(t.files, name) == 0
    ensures forall f :: multiset(t.files)[f] == if f.filename == name then 0 else multiset(s.files)[f]
    ensures t.currentUsageMb == s.currentUsageMb - sizeMb
  {
    NameCountNone(RemoveNamed(s.files, name), name);
    s.(files := RemoveNamed(s.files, name), currentUsageMb := s.currentUsageMb - sizeMb, lastUpdated := now)
  }

  /** With non-negative sizes, removing entries never raises the total. */
  lemma {:induction false} RemoveNamedNoLarger(files: seq<FileMetadata>, name: string)
    requires forall i | 0 <= i < |files| :: files[i].sizeMb >= 0.0
    ensures TotalSize(RemoveNamed(files, name)) <= TotalSize(files)
    decreases |files|
  {
    if files != [] {
      RemoveNamedNoLarger(files[1..], name);
    }
  }

  /** With non-negative sizes, the pull removes at least the first match's size. */
  lemma {:induction false} RemoveNamedDropsFirst(files: seq<FileMetadata>, name: string)
    requires forall i | 0 <= i < |files| :: files[i].sizeMb >= 0.0
    requires FirstNamedIndex(files, name) >= 0
    ensures TotalSize(RemoveNamed(files, name)) + files[FirstNamedIndex(files, name)].sizeMb <= TotalSize(files)
    decreases |files|
  {
    if files[0].filename == name {
      RemoveNamedNoLarger(files[1..], name);
    } else {
      RemoveNamedDropsFirst(files[1..], name);
    }
  }

  /** When the name is unique, the pull removes exactly the first match's size. */
  lemma {:induction false} RemoveNamedUnique(files: seq<FileMetadata>, name: string)
    requires NameCount(files, name) == 1
    ensures FirstNamedIndex(files, name) >= 0
    ensures TotalSize(RemoveNamed(files, name)) + files[FirstNamedIndex(files, name)].sizeMb == TotalSize(files)
    decreases |files|
  {
    if files[0].filename == name {
      RemoveNamedAbsent(files[1..], name);
    } else {
      RemoveNamedUnique(files[1..], name);
    }
  }

  /** Pulling a name no entry carries changes nothing. */
  lemma {:induction false} RemoveNamedAbsent(files: seq<FileMetadata>, name: string)
    requires NameCount(files, name) == 0
    ensures RemoveNamed(files, name) == files
    decreases |files|
  {
    if files != [] {
      RemoveNamedAbsent(files[1..], name);
      calc {
        RemoveNamed(files, name);
        [files[0]] + RemoveNamed(files[1..], name);
        [files[0]] + files[1..];
        files;
      }
    }
  }

  /** Pulling the name of an appended file removes it along with the earlier entries of that name. */
  lemma {:induction false} RemoveNamedAppended(files: seq<FileMetadata>, f: FileMetadata)
    ensures RemoveNamed(files + [f], f.filename) == RemoveNamed(files, f.filename)
    decreases |files|
  {
    if files == [] {
      assert RemoveNamed([f], f.filename) == RemoveNamed([], f.filename);
    } else {
      assert (files + [f])[1..] == files[1..] + [f];
      RemoveNamedAppended(files[1..], f);
    }
  }

  /** An appended file is the first of its name exactly when no earlier file has that name. */
  lemma {:induction false} FirstNamedIndexAppended(files: seq<FileMetadata>, f: FileMetadata)
    requires NameCount(files, f.filename) == 0
    ensures FirstNamedIndex(files + [f], f.filename) == |files|
    decreases |files|
  {
    if files != [] {
      assert (files + [f])[1..] == files[1..] + [f];
      FirstNamedIndexAppended(files[1..], f);
    }
  }

  /** The upload's update keeps the usage counter equal to the files' total. */
  lemma AddFileConserves(s: UserStorage, f: FileMetadata, now: Timestamp)
    requires Conserved(s)
    ensures Conserved(AddFile(s, f, now))
    ensures |AddFile(s, f, now).files| == |s.files| + 1
  {
    TotalSizeConcat(s.files, [f]);
  }

  /** The upload's update keeps a record sound when the file is non-negative and fits under the cap. */
  lemma AddFileKeepsSound(s: UserStorage, f: FileMetadata, now: Timestamp)
    requires Sound(s) && f.sizeMb >= 0.0 && FitsQuota(s.currentUsageMb, f.sizeMb)
    ensures Sound(AddFile(s, f, now))
  {
    TotalSizeConcat(s.files, [f]);
  }

  /** Deleting by the first match keeps a record sound, whatever duplicates the name has. */
  lemma DeleteEntryKeepsSound(s: UserStorage, name: string, now: Timestamp)
    requires Sound(s) && FirstNamedIndex(s.files, name) >= 0
    ensures Sound(DeleteEntry(s, name, s.files[FirstNamedIndex(s.files, name)].sizeMb, now))
  {
    RemoveNamedDropsFirst(s.files, name);
  }

  /** Deleting a uniquely named file keeps the usage counter equal to the files' total. */
  lemma DeleteEntryConservesUnique(s: UserStorage, name: string, now: Timestamp)
    requires Conserved(s) && NameCount(s.files, name) == 1
    ensures FirstNamedIndex(s.files, name) >= 0
    ensures Conserved(DeleteEntry(s, name, s.files[FirstNamedIndex(s.files, name)].sizeMb, now))
  {
    RemoveNamedUnique(s.files, name);
  }

  /**
   * With two files of one name, deleting the name drops both entries but
   * subtracts only the first one's size, so the counter no longer matches.
   */
  lemma DuplicateNameLeavesUsageBehind()
    ensures var a := FileMetadata("clip.mp4", 1.0, 0, "video/mp4", "users/ann/1_clip.mp4");
            var b := FileMetadata("clip.mp4", 2.0, 1, "video/mp4", "users/ann/2_clip.mp4");
            var s := UserStorage("ann", 3.0, [a, b], 1);
            var t := DeleteEntry(s, "clip.mp4", s.files[FirstNamedIndex(s.files, "clip.mp4")].sizeMb, 2);
            && Conserved(s)
            && t.files == []
            && t.currentUsageMb == 2.0
            && !Conserved(t)
  {
    var a := FileMetadata("clip.mp4", 1.0, 0, "video/mp4", "users/ann/1_clip.mp4");
    var b := FileMetadata("clip.mp4", 2.0, 1, "video/mp4", "users/ann/2_clip.mp4");
    assert [a, b][1..] == [b];
    assert [b][1..] == [];
    assert TotalSize([a, b]) == 1.0 + TotalSize([b]) == 3.0;
  }

  /**
   * Appending a file whose name is new and then deleting that name gives
   * back the record as it was, apart from the time of the last update.
   */
  lemma AddThenDeleteRestores(s: UserStorage, f: FileMetadata, added: Timestamp, deleted: Timestamp)
    requires NameCount(s.files, f.filename) == 0
    ensures var t := AddFile(s, f, added);
            && FirstNamedIndex(t.files, f.filename) == |s.files|
            && t.files[|s.files|] == f
            && DeleteEntry(t, f.filename, f.sizeMb, deleted) == s.(lastUpdated := deleted)
  {
    FirstNamedIndexAppended(s.files, f);
    RemoveNamedAppended(s.files, f);
    RemoveNamedAbsent(s.files, f.filename);
  }
}
