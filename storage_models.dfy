/**
 * The records of the storage-management service: one `UserStorage`
 * document per user, holding the running usage figure and the metadata of
 * every stored file, and the `StorageStatus` answer built from it.
 */
module StorageModels {
  import opened ServiceTypes

  /** One stored file. `sizeMb` carries no sign constraint. */
  datatype FileMetadata = FileMetadata(
    filename: string,
    sizeMb: real,
    uploadedAt: Timestamp,
    mimeType: string,
    filePath: string)

  /** A user's storage record: the usage counter and the file list, kept side by side. */
  datatype UserStorage = UserStorage(
    username: string,
    currentUsageMb: real,
    files: seq<FileMetadata>,
    lastUpdated: Timestamp)

  /** The answer of the status endpoint; every figure in it is supplied by the caller. */
  datatype StorageStatus = StorageStatus(
    username: string,
    currentUsageMb: real,
    storageLimitMb: real,
    availableSpaceMb: real,
    usagePercentage: real,
    shouldAlert: bool,
    files: seq<FileMetadata>)

  /** The sum of the sizes of a file list. */
  function TotalSize(files: seq<FileMetadata>): real {
    if files == [] then 0.0 else files[0].sizeMb + TotalSize(files[1..])
  }

  /** The usage counter agrees with the files it accounts for. */
  predicate Conserved(s: UserStorage) {
    s.currentUsageMb == TotalSize(s.files)
  }

  /** A record built from defaults: no usage and no files. */
  function NewUserStorage(username: string, now: Timestamp): (s: UserStorage)
    ensures s.username == username && s.lastUpdated == now
    ensures s.currentUsageMb == 0.0 && s.files == []
    ensures Conserved(s)
  {
    UserStorage(username, 0.0, [], now)
  }

  /** Sizes add up across a concatenation. */
  lemma {:induction false} TotalSizeConcat(a: seq<FileMetadata>, b: seq<FileMetadata>)
    ensures TotalSize(a + b) == TotalSize(a) + TotalSize(b)
    decreases |a|
  {
    if a == [] {
      assert a + b == b;
    } else {
      assert (a + b)[1..] == a[1..] + b;
      TotalSizeConcat(a[1..], b);
    }
  }

  /** A list of non-negative sizes has a non-negative total. */
  lemma {:induction false} TotalSizeNonNegative(files: seq<FileMetadata>)
    requires forall i | 0 <= i < |files| :: files[i].sizeMb >= 0.0
    ensures TotalSize(files) >= 0.0
    decreases |files|
  {
    if files != [] {
      TotalSizeNonNegative(files[1..]);
    }
  }
}
