/**
 * The storage manager: the per-user storage collection with its lazily
 * created records, the upload validator, the quota and alert predicates,
 * and the call that charges a transfer to the usage monitor.
 */
module StorageManager {
  import opened Wrappers
  import opened ServiceTypes
  import opened Strings
  import opened IsoDates
  import opened StorageModels
  import opened UsageMonitor
  import opened UsageService

  /** The per-user storage cap. */
  const StorageLimitMb: real := 50.0
  /** The fraction of the cap at which a storage alert is raised. */
  const AlertThreshold: real := 0.8
  /** Bytes per megabyte (1024 * 1024). */
  const BytesPerMb: nat := 1048576
  /** The largest single file accepted. */
  const MaxFileSizeMb: real := 25.0
  /** The extensions of the one allowed family, "video". */
  const AllowedExtensions: seq<string> := [".mp4", ".mov", ".avi", ".mkv"]

  /**
   * `os.path.splitext(path)[1]` with `/` as the separator: the suffix from
   * the last dot of the last path component, unless that component is only
   * dots up to that dot (so `.mp4` has no extension).
   */
  function Extension(path: string): (ext: string)
    ensures ext == [] || (ext[0] == '.' && |ext| <= |path| && path[|path| - |ext|..] == ext)
  {
    var sep := LastIndexOf(path, '/');
    var dot := LastIndexOf(path, '.');
    if dot > sep && HasStem(path, sep, dot) then path[dot..] else []
  }

  /** Python's leading-dots loop: the component between the separator and the dot is not all dots. */
  predicate HasStem(path: string, sep: int, dot: int)
    requires -1 <= sep < dot <= |path|
  {
    !AllEqual(path[sep + 1..dot], '.')
  }

  /** After its leading dot, an extension holds neither a dot nor a separator. */
  lemma ExtensionIsLastSuffix(path: string)
    ensures var ext := Extension(path);
            forall i | 0 < i < |ext| :: ext[i] != '.' && ext[i] != '/'
  {
    var ext := Extension(path);
    if ext != [] {
      var dot := LastIndexOf(path, '.');
      var sep := LastIndexOf(path, '/');
      assert ext == path[dot..];
      forall i | 0 < i < |ext|
        ensures ext[i] != '.' && ext[i] != '/'
      {
        assert ext[i] == path[dot + i];
      }
    }
  }

  /** A stem that ends in an ordinary character keeps the extension appended to it. */
  lemma ExtensionOfJoined(stem: string, e: string)
    requires |stem| > 0 && stem[|stem| - 1] != '.' && stem[|stem| - 1] != '/'
    requires forall i | 0 <= i < |e| :: e[i] != '.' && e[i] != '/'
    ensures Extension(stem + "." + e) == "." + e
  {
    var path := stem + "." + e;
    var dot := |stem|;
    assert path[dot] == '.' && path[dot - 1] == stem[|stem| - 1];
    assert forall k | dot < k < |path| :: path[k] == e[k - dot - 1];
    LastIndexOfIs(path, '.', dot);
    LastIndexOfBefore(path, '/', dot - 1);
    var sep := LastIndexOf(path, '/');
    var base := path[sep + 1..dot];
    if AllEqual(base, '.') {
      AllEqualAt(base, '.', |base| - 1);
      assert false;
    }
    assert path[dot..] == "." + e;
  }

  /** The positional form: a last component of dots up to its last dot has no extension. */
  lemma NoExtensionAfterDots(path: string, start: int, dot: int)
    requires 0 <= start <= dot < |path| && path[dot] == '.'
    requires start == 0 || path[start - 1] == '/'
    requires AllEqual(path[start..dot], '.')
    requires forall k | dot < k < |path| :: path[k] != '.' && path[k] != '/'
    ensures Extension(path) == []
  {
    LastIndexOfIs(path, '.', dot);
    forall k | start <= k < dot
      ensures path[k] != '/'
    {
      AllEqualAt(path[start..dot], '.', k - start);
    }
    if start > 0 {
      LastIndexOfIs(path, '/', start - 1);
    } else {
      LastIndexOfBefore(path, '/', 0);
    }
  }

  /**
   * A last component made of dots up to its last dot has no extension, in
   * the top directory or any other: `.mp4`, `..mp4` and `dir/...mkv` all
   * have none.
   */
  lemma LeadingDotsHaveNoExtension(dir: string, dots: string, e: string)
    requires dir == [] || dir[|dir| - 1] == '/'
    requires AllEqual(dots, '.')
    requires forall i | 0 <= i < |e| :: e[i] != '.' && e[i] != '/'
    ensures Extension(dir + dots + "." + e) == []
  {
    var path := dir + dots + "." + e;
    var dot := |dir| + |dots|;
    assert path[|dir|..dot] == dots;
    forall k | dot < k < |path|
      ensures path[k] != '.' && path[k] != '/'
    {
      assert path[k] == e[k - dot - 1];
    }
    NoExtensionAfterDots(path, |dir|, dot);
  }

  /** An extension on the allow-list is the name's last four characters, led by a dot. */
  lemma AllowedExtensionIsLastFour(filename: string)
    ensures var ext := Extension(filename);
            ToLower(ext) in AllowedExtensions ==>
              && |filename| >= 4 && filename[|filename| - 4..] == ext && filename[|filename| - 4] == '.'
  {
    var ext := Extension(filename);
    if ToLower(ext) in AllowedExtensions {
      assert forall x | x in AllowedExtensions :: |x| == 4;
      assert |ext| == |ToLower(ext)| == 4;
      assert filename[|filename| - 4..] == ext;
      assert filename[|filename| - 4] == ext[0];
    }
  }

  /** The extension test of `validate_file`: lower-cased, then looked up in the allow-list. */
  function AllowedExtension(filename: string): (ok: bool)
    ensures ok ==> |filename| >= 4 && filename[|filename| - 4] == '.'
                   && ToLower(filename[|filename| - 4..]) in AllowedExtensions
  {
    AllowedExtensionIsLastFour(filename);
    ToLower(Extension(filename)) in AllowedExtensions
  }

  /**
   * The four allowed extensions are accepted in any letter case, and
   * anything else after the last dot is refused.
   */
  lemma AllowedExtensionOfJoined(stem: string, e: string)
    requires |stem| > 0 && stem[|stem| - 1] != '.' && stem[|stem| - 1] != '/'
    requires forall i | 0 <= i < |e| :: e[i] != '.' && e[i] != '/'
    ensures AllowedExtension(stem + "." + e) <==> ToLower(e) in ["mp4", "mov", "avi", "mkv"]
  {
    ExtensionOfJoined(stem, e);
    var lowered := ToLower("." + e);
    assert lowered == "." + ToLower(e);
    var bare := ["mp4", "mov", "avi", "mkv"];
    assert forall i | 0 <= i < 4 :: AllowedExtensions[i] == "." + bare[i];
    if ToLower(e) in bare {
      var i :| 0 <= i < 4 && ToLower(e) == bare[i];
      assert lowered == AllowedExtensions[i];
    }
    if lowered in AllowedExtensions {
      var i :| 0 <= i < 4 && lowered == AllowedExtensions[i];
      assert ToLower(e) == lowered[1..] == bare[i];
    }
  }

  /** `mimetypes.guess_type` found a type: a non-empty string (an empty one is falsy). */
  predicate Guessed(mime: Option<string>): (ok: bool)
    ensures ok <==> mime != None && mime != Some("")
  {
    mime.Some? && mime.value != ""
  }

  /**
   * `validate_file`: the size test first, then the extension, then the
   * mime guess; on success the guessed mime type. `guess` stands for
   * `mimetypes.guess_type(filename)[0]`.
   */
  function ValidateFile(filename: string, sizeMb: real, guess: string -> Option<string>): (r: Result<string, Reason>)
    ensures sizeMb > MaxFileSizeMb ==> r == Err(FileTooLarge)
    ensures sizeMb <= MaxFileSizeMb && !AllowedExtension(filename) ==> r == Err(FileTypeNotAllowed)
    ensures r.Ok? <==> sizeMb <= MaxFileSizeMb && AllowedExtension(filename) && Guessed(guess(filename))
    ensures r.Ok? ==> guess(filename) == Some(r.value)
    ensures r.Err? ==> r.error in {FileTooLarge, FileTypeNotAllowed, UnknownFileType}
  {
    if sizeMb > MaxFileSizeMb then Err(FileTooLarge)
    else if !AllowedExtension(filename) then Err(FileTypeNotAllowed)
    else match guess(filename)
      case None => Err(UnknownFileType)
      case Some(mime) => if mime == "" then Err(UnknownFileType) else Ok(mime)
  }

  /** The upload limit is inclusive: exactly 25 MB passes the size test. */
  lemma SizeLimitIsInclusive(filename: string, guess: string -> Option<string>)
    ensures ValidateFile(filename, MaxFileSizeMb, guess) != Err(FileTooLarge)
  {
  }

  /** `can_upload`'s comparison: the room left is 50 MB less the usage, and filling it exactly fits. */
  predicate FitsQuota(usageMb: real, sizeMb: real): (ok: bool)
    ensures ok <==> sizeMb <= 50.0 - usageMb
  {
    usageMb + sizeMb <= StorageLimitMb
  }

  /** `should_alert`'s comparison: usage at or above 80% of the cap. */
  function ShouldAlertUsage(usageMb: real): (r: bool)
    ensures r <==> usageMb >= 40.0
  {
    usageMb / StorageLimitMb >= AlertThreshold
  }

  /**
   * What the usage counter of a record may be: no negative file size, and
   * the counter at least the files' total and at most the cap.
   */
  predicate Sound(s: UserStorage) {
    && (forall i | 0 <= i < |s.files| :: s.files[i].sizeMb >= 0.0)
    && TotalSize(s.files) <= s.currentUsageMb <= StorageLimitMb
  }

  /** Every record is stored under its own username and is sound. */
  ghost predicate StoreValid(store: map<string, UserStorage>) {
    forall u | u in store :: store[u].username == u && Sound(store[u])
  }

  /** Storing a sound record under its own username keeps the collection valid. */
  lemma StoreValidUpdate(store: map<string, UserStorage>, username: string, s: UserStorage)
    requires StoreValid(store) && s.username == username && Sound(s)
    ensures StoreValid(store[username := s])
  {
  }

  /** The collection after `get_user_storage`: the user's record, created from defaults if absent. */
  function WithUserStorage(store: map<string, UserStorage>, username: string, now: Timestamp)
    : (m: map<string, UserStorage>)
    ensures username in m
    ensures m.Keys == store.Keys + {username}
    ensures forall u | u in store :: m[u] == store[u]
    ensures username !in store ==> m[username] == NewUserStorage(username, now)
    ensures StoreValid(store) ==> StoreValid(m)
  {
    if username in store then store else store[username := NewUserStorage(username, now)]
  }

  /**
   * The answer of `get_user_storage` as written. A stored record is read
   * back. On first access the default record is inserted (`WithUserStorage`),
   * but the model object built for it is then unpacked with `**`, which
   * needs a mapping, so the call raises TypeError instead of answering.
   */
  function ReadUserStorage(store: map<string, UserStorage>, username: string): Result<UserStorage, Reason> {
    if username in store then Ok(store[username]) else Err(RecordNotAMapping)
  }

  /**
   * `get_user_storage` as written against the evidently intended get-or-create:
   * the two agree whenever the user already has a record; on first access the
   * written call still inserts the default record but answers TypeError, and
   * the next call reads that record back.
   */
  lemma FirstAccessInsertsButFails(store: map<string, UserStorage>, username: string, now: Timestamp)
    ensures var touched := WithUserStorage(store, username, now);
            && (ReadUserStorage(store, username).Ok? <==> username in store)
            && (username in store ==> ReadUserStorage(store, username) == Ok(touched[username]))
            && (username !in store ==>
                  && ReadUserStorage(store, username) == Err(RecordNotAMapping)
                  && touched == store[username := NewUserStorage(username, now)]
                  && ReadUserStorage(touched, username) == Ok(NewUserStorage(username, now)))
  {
  }

  /** A second `get_user_storage` for the same user inserts nothing. */
  lemma WithUserStorageIdempotent(store: map<string, UserStorage>, username: string, now: Timestamp, later: Timestamp)
    ensures WithUserStorage(WithUserStorage(store, username, now), username, later)
            == WithUserStorage(store, username, now)
  {
  }

  /** The status `check_bandwidth` sees from the usage monitor. */
  function ReplyStatus(reply: Result<RecordReply, HttpError>): int {
    match reply
    case Ok(_) => StatusOk
    case Err(e) => e.status
  }

  /** `check_bandwidth`'s decision: anything but 200 is a denial. */
  function BandwidthGate(status: int): (r: Outcome<Reason>)
    ensures r.Pass? <==> status == StatusOk
    ensures r.Fail? ==> r.error == BandwidthLimitExceeded
  {
    if status != StatusOk then Fail(BandwidthLimitExceeded) else Pass
  }

  /**
   * `check_bandwidth`: ask the usage monitor to record the transfer, and
   * turn any answer but a success into a denial.
   */
  method CheckBandwidth(monitor: UsageMonitor, username: string, sizeMb: real, operationType: string,
                        today: Date, now: Timestamp)
    returns (r: Outcome<Reason>)
    requires monitor.Valid() && ValidDate(today)
    modifies monitor
    ensures monitor.Valid()
    ensures var o := RecordBandwidthOutcome(old(monitor.dailyUsage), old(monitor.alerts), username, sizeMb,
                                            operationType, today, now);
            && monitor.dailyUsage == o.ledger && monitor.alerts == o.alerts
            && (r.Pass? <==> o.reply.Ok?)
            && (r.Fail? ==> r.error == BandwidthLimitExceeded)
  {
    var reply := RecordBandwidthUsage(monitor, username, sizeMb, operationType, today, now);
    r := BandwidthGate(ReplyStatus(reply));
  }

  /** The `userstorage` collection and the bucket's object names. */
  class StorageManager {
    /** The `userstorage` collection, one record per username. */
    var userStorage: map<string, UserStorage>
    /** The names of the objects in the bucket. */
    var bucket: set<string>

    ghost predicate Valid()
      reads this
    {
      StoreValid(userStorage)
    }

    constructor ()
      ensures Valid()
      ensures userStorage == map[] && bucket == {}
    {
      userStorage := map[];
      bucket := {};
    }

    /**
     * `get_user_storage`: the user's record; on first access the default
     * record is inserted and the call then fails (`ReadUserStorage`).
     */
    method GetUserStorage(username: string, now: Timestamp) returns (r: Result<UserStorage, Reason>)
      requires Valid()
      modifies this
      ensures Valid() && bucket == old(bucket)
      ensures userStorage == WithUserStorage(old(userStorage), username, now)
      ensures r == ReadUserStorage(old(userStorage), username)
    {
      if username !in userStorage {
        userStorage := userStorage[username := NewUserStorage(username, now)];
        return Err(RecordNotAMapping);
      }
      r := Ok(userStorage[username]);
    }

    /** `can_upload`: whether the file fits under the cap; changes no usage and no files. */
    method CanUpload(username: string, sizeMb: real, now: Timestamp) returns (r: Result<bool, Reason>)
      requires Valid()
      modifies this
      ensures Valid() && bucket == old(bucket)
      ensures userStorage == WithUserStorage(old(userStorage), username, now)
      ensures r.Ok? <==> username in old(userStorage)
      ensures r.Err? ==> r.error == RecordNotAMapping
      ensures r.Ok? ==> (r.value <==> userStorage[username].currentUsageMb + sizeMb <= 50.0)
    {
      var s := GetUserStorage(username, now);
      if s.Err? {
        return Err(s.error);
      }
      r := Ok(FitsQuota(s.value.currentUsageMb, sizeMb));
    }

    /** `should_alert`: whether the user's usage has reached 80% of the cap. */
    method ShouldAlert(username: string, now: Timestamp) returns (r: Result<bool, Reason>)
      requires Valid()
      modifies this
      ensures Valid() && bucket == old(bucket)
      ensures userStorage == WithUserStorage(old(userStorage), username, now)
      ensures r.Ok? <==> username in old(userStorage)
      ensures r.Err? ==> r.error == RecordNotAMapping
      ensures r.Ok? ==> (r.value <==> userStorage[username].currentUsageMb >= 40.0)
    {
      var s := GetUserStorage(username, now);
      if s.Err? {
        return Err(s.error);
      }
      r := Ok(ShouldAlertUsage(s.value.currentUsageMb));
    }
  }
}
