/**
 * The storage service's endpoints: upload, delete, download, stream,
 * status and listing. Each is given as a function from the state before
 * the request (the storage collection, the bucket's object names and, where
 * the handler charges bandwidth, the usage monitor's collections) to the
 * state after it and the answer, and as a method that takes the handler's
 * steps in order and is proved to produce exactly that.
 */
module StorageService {
  import opened Wrappers
  import opened ServiceTypes
  import opened IsoDates
  import opened UsageModels
  import opened UsageMonitor
  import opened UsageService
  import opened StorageModels
  import opened StorageManager
  import opened StorageFiles

  /** `len(contents) / BYTES_PER_MB`, exactly. */
  function SizeMb(contentLength: nat): (r: real)
    ensures r >= 0.0
    ensures r * 1048576.0 == contentLength as real
  {
    contentLength as real / BytesPerMb as real
  }

  /** The folder of a user's objects in the bucket. */
  function UserPrefix(username: string): string {
    "users/" + username + "/"
  }

  /** The object name of an upload; `stamp` is the rendered upload time. */
  function BlobName(username: string, stamp: string, filename: string): (r: string)
    ensures |UserPrefix(username)| <= |r| && r[..|UserPrefix(username)|] == UserPrefix(username)
    ensures |filename| <= |r| && r[|r| - |filename|..] == filename
  {
    UserPrefix(username) + stamp + "_" + filename
  }

  /** The answer of a successful upload. */
  datatype UploadReply = UploadReply(shouldAlert: bool, fileMetadata: FileMetadata)

  /** Everything an upload request can change, and its answer. */
  datatype UploadOutcome = UploadOutcome(
    userStorage: map<string, UserStorage>,
    bucket: set<string>,
    ledger: Ledger,
    alerts: seq<BandwidthAlert>,
    reply: Result<UploadReply, HttpError>)

  /** What the storage side of an upload can change, and its answer. */
  datatype AdmitOutcome = AdmitOutcome(
    userStorage: map<string, UserStorage>,
    bucket: set<string>,
    reply: Result<UploadReply, HttpError>)

  /**
   * The storage side of `upload_file`, once the file is valid and its
   * bandwidth is granted: read the user's record (which fails on first
   * access), check the quota, write the object, then append the metadata and
   * add its size to the usage.
   */
  function AdmitUpload(store: map<string, UserStorage>, bucket: set<string>, username: string,
                       filename: string, sizeMb: real, mime: string, stamp: string, now: Timestamp)
    : (o: AdmitOutcome)
    ensures o.reply.Err? ==> o.reply.error.status == InternalServerError
    ensures o.reply.Err? ==>
              o.reply.error.reason == if username in store then StorageLimitExceeded else RecordNotAMapping
  {
    var touched := WithUserStorage(store, username, now);
    if username !in store then
      AdmitOutcome(touched, bucket, Err(HttpError(InternalServerError, RecordNotAMapping)))
    else if !FitsQuota(touched[username].currentUsageMb, sizeMb) then
      AdmitOutcome(touched, bucket, Err(HttpError(InternalServerError, StorageLimitExceeded)))
    else
      var path := BlobName(username, stamp, filename);
      var metadata := FileMetadata(filename, sizeMb, now, mime, path);
      var updated := AddFile(touched[username], metadata, now);
      AdmitOutcome(touched[username := updated], bucket + {path},
                   Ok(UploadReply(ShouldAlertUsage(updated.currentUsageMb), metadata)))
  }

  /** The three ways the storage side of an upload ends. */
  lemma AdmitUploadEffect(store: map<string, UserStorage>, bucket: set<string>, username: string,
                          filename: string, sizeMb: real, mime: string, stamp: string, now: Timestamp)
    ensures var a := AdmitUpload(store, bucket, username, filename, sizeMb, mime, stamp, now);
            var touched := WithUserStorage(store, username, now);
            var m := FileMetadata(filename, sizeMb, now, mime, BlobName(username, stamp, filename));
            && (username !in store ==> a.reply == Err(HttpError(InternalServerError, RecordNotAMapping)))
            && (username in store ==> (a.reply.Ok? <==> FitsQuota(store[username].currentUsageMb, sizeMb)))
            && (a.reply.Err? ==> a.userStorage == touched && a.bucket == bucket)
            && (a.reply.Ok? ==> && username in store
                                && a.userStorage == touched[username := AddFile(touched[username], m, now)]
                                && a.bucket == bucket + {m.filePath}
                                && a.reply.value.fileMetadata == m
                                && FitsQuota(touched[username].currentUsageMb, sizeMb))
  {
  }

  /** The storage side of `upload_file`, step by step. */
  method StoreUpload(manager: StorageManager, username: string, filename: string, sizeMb: real, mime: string,
                     stamp: string, now: Timestamp)
    returns (r: Result<UploadReply, HttpError>)
    requires manager.Valid() && sizeMb >= 0.0
    modifies manager
    ensures manager.Valid()
    ensures AdmitOutcome(manager.userStorage, manager.bucket, r)
            == AdmitUpload(old(manager.userStorage), old(manager.bucket), username, filename, sizeMb, mime,
                           stamp, now)
  {
    ghost var admitted := AdmitUpload(manager.userStorage, manager.bucket, username, filename, sizeMb, mime,
                                      stamp, now);
    AdmitUploadEffect(manager.userStorage, manager.bucket, username, filename, sizeMb, mime, stamp, now);
    var fits := manager.CanUpload(username, sizeMb, now);
    if fits.Err? {
      return Err(HttpError(InternalServerError, fits.error));
    }
    if !fits.value {
      return Err(HttpError(InternalServerError, StorageLimitExceeded));
    }
    var path := BlobName(username, stamp, filename);
    manager.bucket := manager.bucket + {path};
    var metadata := FileMetadata(filename, sizeMb, now, mime, path);
    AddFileKeepsSound(manager.userStorage[username], metadata, now);
    StoreValidUpdate(manager.userStorage, username, AddFile(manager.userStorage[username], metadata, now));
    manager.userStorage := manager.userStorage[username := AddFile(manager.userStorage[username], metadata, now)];
    var alert := manager.ShouldAlert(username, now);
    assert alert.Ok?;
    r := Ok(UploadReply(alert.value, metadata));
    assert admitted.reply == r;
  }

  /**
   * The order of the steps of `upload_file`, given what the validator
   * answered and what charging the upload to the usage monitor would do: a
   * refused file stops before the charge, a refused charge stops before the
   * storage side, and only then does the storage side run. Once the file is
   * valid the charge stays, whatever the storage side answers; every error
   * is a 500.
   */
  function UploadStages(
    store: map<string, UserStorage>, bucket: set<string>, ledger: Ledger, alerts: seq<BandwidthAlert>,
    username: string, filename: string, sizeMb: real, validated: Result<string, Reason>,
    charged: RecordOutcome, stamp: string, now: Timestamp
  ): (o: UploadOutcome)
    ensures o.reply.Err? ==> o.reply.error.status == InternalServerError
    ensures validated.Err? ==> o == UploadOutcome(store, bucket, ledger, alerts,
                                                  Err(HttpError(InternalServerError, validated.error)))
    ensures validated.Ok? ==> o.ledger == charged.ledger && o.alerts == charged.alerts
    ensures validated.Ok? && charged.reply.Err? ==>
              o.userStorage == store && o.bucket == bucket
              && o.reply == Err(HttpError(InternalServerError, BandwidthLimitExceeded))
    ensures o.reply.Ok? ==> validated.Ok? && charged.reply.Ok? && username in store
    ensures (o.userStorage != store || o.bucket != bucket) ==> validated.Ok? && charged.reply.Ok?
  {
    match validated
    case Err(e) => UploadOutcome(store, bucket, ledger, alerts, Err(HttpError(InternalServerError, e)))
    case Ok(mime) =>
      if charged.reply.Err? then
        UploadOutcome(store, bucket, charged.ledger, charged.alerts,
                      Err(HttpError(InternalServerError, BandwidthLimitExceeded)))
      else
        var a := AdmitUpload(store, bucket, username, filename, sizeMb, mime, stamp, now);
        UploadOutcome(a.userStorage, a.bucket, charged.ledger, charged.alerts, a.reply)
  }

  /**
   * What `upload_file` does: validate, charge the upload to the usage
   * monitor, and only then go to the storage side. (The charge is a value
   * here, so naming it before the validator's answer is known changes
   * nothing: `UploadStages` ignores it when the file is refused.)
   */
  function UploadFileOutcome(
    store: map<string, UserStorage>, bucket: set<string>, ledger: Ledger, alerts: seq<BandwidthAlert>,
    username: string, filename: string, contentLength: nat, guess: string -> Option<string>,
    stamp: string, today: Date, now: Timestamp
  ): (o: UploadOutcome)
    requires ValidDate(today)
    ensures o.reply.Err? ==> o.reply.error.status == InternalServerError
  {
    var sizeMb := SizeMb(contentLength);
    UploadStages(store, bucket, ledger, alerts, username, filename, sizeMb, ValidateFile(filename, sizeMb, guess),
                 RecordBandwidthOutcome(ledger, alerts, username, sizeMb, "upload", today, now), stamp, now)
  }

  /**
   * When an upload succeeds: exactly when the file is valid, the usage
   * monitor grants the charge, the user already has a record, and the file
   * fits the quota (filling it exactly included).
   */
  lemma UploadAcceptedExactlyWhen(
    store: map<string, UserStorage>, bucket: set<string>, ledger: Ledger, alerts: seq<BandwidthAlert>,
    username: string, filename: string, contentLength: nat, guess: string -> Option<string>,
    stamp: string, today: Date, now: Timestamp)
    requires ValidDate(today)
    ensures var sizeMb := SizeMb(contentLength);
            var o := UploadFileOutcome(store, bucket, ledger, alerts, username, filename, contentLength,
                                       guess, stamp, today, now);
            o.reply.Ok? <==>
              && ValidateFile(filename, sizeMb, guess).Ok?
              && RecordBandwidthOutcome(ledger, alerts, username, sizeMb, "upload", today, now).reply.Ok?
              && username in store
              && FitsQuota(store[username].currentUsageMb, sizeMb)
  {
    var sizeMb := SizeMb(contentLength);
    var v := ValidateFile(filename, sizeMb, guess);
    if v.Ok? {
      AdmitUploadEffect(store, bucket, username, filename, sizeMb, v.value, stamp, now);
    }
  }

  /**
   * Both caps admit what fits: a known user's valid file that fits today's
   * bandwidth and the storage quota, on a readable day's record, is stored
   * and answered Ok.
   */
  lemma UploadWithinBothCapsIsStored(
    store: map<string, UserStorage>, bucket: set<string>, ledger: Ledger, alerts: seq<BandwidthAlert>,
    username: string, filename: string, contentLength: nat, guess: string -> Option<string>,
    stamp: string, today: Date, now: Timestamp)
    requires ValidDate(today) && LedgerValid(ledger)
    requires var rec := WithDailyRecord(ledger, username, today, now)[KeyFor(username, today)];
             rec.uploadVolumeMb >= 0.0 && rec.downloadVolumeMb >= 0.0
             && FitsDailyLimit(rec.totalVolumeMb, SizeMb(contentLength))
    requires ValidateFile(filename, SizeMb(contentLength), guess).Ok?
    requires username in store && FitsQuota(store[username].currentUsageMb, SizeMb(contentLength))
    ensures UploadFileOutcome(store, bucket, ledger, alerts, username, filename, contentLength,
                              guess, stamp, today, now).reply.Ok?
  {
    UploadRecordedExactlyWhenItFits(ledger, alerts, username, SizeMb(contentLength), today, now);
    UploadAcceptedExactlyWhen(store, bucket, ledger, alerts, username, filename, contentLength,
                              guess, stamp, today, now);
  }

  /** `upload_file`, step by step. */
  method UploadFile(
    manager: StorageManager, monitor: UsageMonitor,
    username: string, filename: string, contentLength: nat, guess: string -> Option<string>,
    stamp: string, today: Date, now: Timestamp)
    returns (r: Result<UploadReply, HttpError>)
    requires manager.Valid() && monitor.Valid() && ValidDate(today)
    modifies manager, monitor
    ensures manager.Valid() && monitor.Valid()
    ensures UploadOutcome(manager.userStorage, manager.bucket, monitor.dailyUsage, monitor.alerts, r)
            == UploadFileOutcome(old(manager.userStorage), old(manager.bucket), old(monitor.dailyUsage),
                                 old(monitor.alerts), username, filename, contentLength, guess, stamp, today, now)
  {
    var sizeMb := SizeMb(contentLength);
    var mime := ValidateFile(filename, sizeMb, guess);
    ghost var charged := RecordBandwidthOutcome(monitor.dailyUsage, monitor.alerts, username, sizeMb, "upload",
                                                today, now);
    assert UploadFileOutcome(manager.userStorage, manager.bucket, monitor.dailyUsage, monitor.alerts, username,
                             filename, contentLength, guess, stamp, today, now)
        == UploadStages(manager.userStorage, manager.bucket, monitor.dailyUsage, monitor.alerts, username,
                        filename, sizeMb, mime, charged, stamp, now);
    if mime.Err? {
      return Err(HttpError(InternalServerError, mime.error));
    }
    var allowed := CheckBandwidth(monitor, username, sizeMb, "upload", today, now);
    if allowed.Fail? {
      return Err(HttpError(InternalServerError, allowed.error));
    }
    r := StoreUpload(manager, username, filename, sizeMb, mime.value, stamp, now);
  }

  /** Everything a delete request can change, and its answer. */
  datatype DeleteOutcome = DeleteOutcome(
    userStorage: map<string, UserStorage>,
    bucket: set<string>,
    reply: Outcome<HttpError>)

  /**
   * What `delete_file` does: read the user's record (which fails on first
   * access), find the first file with that name, remove its object, then pull
   * every entry with that name and subtract the first one's size.
   */
  function DeleteFileOutcome(store: map<string, UserStorage>, bucket: set<string>, username: string,
                             filename: string, now: Timestamp): (o: DeleteOutcome)
    ensures o.reply.Fail? ==> o.reply.error.status == InternalServerError
  {
    var touched := WithUserStorage(store, username, now);
    var files := touched[username].files;
    var i := FirstNamedIndex(files, filename);
    if username !in store then
      DeleteOutcome(touched, bucket, Fail(HttpError(InternalServerError, RecordNotAMapping)))
    else if i < 0 then
      DeleteOutcome(touched, bucket, Fail(HttpError(InternalServerError, FileNotFound)))
    else
      DeleteOutcome(touched[username := DeleteEntry(touched[username], filename, files[i].sizeMb, now)],
                    bucket - {files[i].filePath}, Pass)
  }

  /** `delete_file`, step by step. */
  method DeleteFile(manager: StorageManager, username: string, filename: string, now: Timestamp)
    returns (r: Outcome<HttpError>)
    requires manager.Valid()
    modifies manager
    ensures manager.Valid()
    ensures DeleteOutcome(manager.userStorage, manager.bucket, r)
            == DeleteFileOutcome(old(manager.userStorage), old(manager.bucket), username, filename, now)
  {
    var read := manager.GetUserStorage(username, now);
    if read.Err? {
      return Fail(HttpError(InternalServerError, read.error));
    }
    var s := read.value;
    ghost var touched := manager.userStorage;
    ghost var i := FirstNamedIndex(s.files, filename);
    var found := FindFile(s.files, filename);
    if found.None? {
      return Fail(HttpError(InternalServerError, FileNotFound));
    }
    var f := found.value;
    assert f == s.files[i];
    if f.filePath in manager.bucket {
      manager.bucket := manager.bucket - {f.filePath};
    }
    assert manager.bucket == old(manager.bucket) - {f.filePath};
    var updated := DeleteEntry(s, filename, f.sizeMb, now);
    DeleteEntryKeepsSound(s, filename, now);
    StoreValidUpdate(touched, username, updated);
    manager.userStorage := manager.userStorage[username := updated];
    r := Pass;
  }

  /** Everything a download or stream request can change, and the file it serves. */
  datatype ServeOutcome = ServeOutcome(
    userStorage: map<string, UserStorage>,
    ledger: Ledger,
    alerts: seq<BandwidthAlert>,
    reply: Result<FileMetadata, HttpError>)

  /**
   * The common part of `download_file` and `stream_video`: read the user's
   * record (which fails on first access), find the first file with that name, make sure its object exists, and charge its full
   * size to the usage monitor as a download.
   */
  function ServeFileOutcome(
    store: map<string, UserStorage>, bucket: set<string>, ledger: Ledger, alerts: seq<BandwidthAlert>,
    username: string, filename: string, today: Date, now: Timestamp
  ): (o: ServeOutcome)
    requires ValidDate(today)
    ensures o.reply.Err? ==> o.reply.error.status == InternalServerError
  {
    var touched := WithUserStorage(store, username, now);
    var files := touched[username].files;
    var i := FirstNamedIndex(files, filename);
    if username !in store then
      ServeOutcome(touched, ledger, alerts, Err(HttpError(InternalServerError, RecordNotAMapping)))
    else if i < 0 then
      ServeOutcome(touched, ledger, alerts, Err(HttpError(InternalServerError, FileNotFound)))
    else if files[i].filePath !in bucket then
      ServeOutcome(touched, ledger, alerts, Err(HttpError(InternalServerError, FileNotFoundInStorage)))
    else
      var charged := RecordBandwidthOutcome(ledger, alerts, username, files[i].sizeMb, "download", today, now);
      if charged.reply.Err? then
        ServeOutcome(touched, charged.ledger, charged.alerts,
                     Err(HttpError(InternalServerError, BandwidthLimitExceeded)))
      else
        ServeOutcome(touched, charged.ledger, charged.alerts, Ok(files[i]))
  }

  /** The lookup, object check and bandwidth charge shared by download and stream. */
  method LocateAndCharge(manager: StorageManager, monitor: UsageMonitor, username: string, filename: string,
                         today: Date, now: Timestamp)
    returns (r: Result<FileMetadata, HttpError>)
    requires manager.Valid() && monitor.Valid() && ValidDate(today)
    modifies manager, monitor
    ensures manager.Valid() && monitor.Valid() && manager.bucket == old(manager.bucket)
    ensures ServeOutcome(manager.userStorage, monitor.dailyUsage, monitor.alerts, r)
            == ServeFileOutcome(old(manager.userStorage), old(manager.bucket), old(monitor.dailyUsage),
                                old(monitor.alerts), username, filename, today, now)
  {
    var read := manager.GetUserStorage(username, now);
    if read.Err? {
      return Err(HttpError(InternalServerError, read.error));
    }
    var found := FindFile(read.value.files, filename);
    if found.None? {
      return Err(HttpError(InternalServerError, FileNotFound));
    }
    var f := found.value;
    if f.filePath !in manager.bucket {
      return Err(HttpError(InternalServerError, FileNotFoundInStorage));
    }
    var allowed := CheckBandwidth(monitor, username, f.sizeMb, "download", today, now);
    if allowed.Fail? {
      return Err(HttpError(InternalServerError, allowed.error));
    }
    r := Ok(f);
  }

  /** The response `download_file` streams: the object, as an attachment under the requested name. */
  datatype DownloadResponse = DownloadResponse(filePath: string, contentDisposition: string, contentType: string)

  /** `download_file`: the shared steps, then the object with its attachment headers. */
  method DownloadFile(manager: StorageManager, monitor: UsageMonitor, username: string, filename: string,
                      today: Date, now: Timestamp)
    returns (r: Result<DownloadResponse, HttpError>)
    requires manager.Valid() && monitor.Valid() && ValidDate(today)
    modifies manager, monitor
    ensures manager.Valid() && monitor.Valid() && manager.bucket == old(manager.bucket)
    ensures var o := ServeFileOutcome(old(manager.userStorage), old(manager.bucket), old(monitor.dailyUsage),
                                      old(monitor.alerts), username, filename, today, now);
            && manager.userStorage == o.userStorage
            && monitor.dailyUsage == o.ledger && monitor.alerts == o.alerts
            && r == match o.reply
                    case Err(e) => Err(e)
                    case Ok(f) => Ok(DownloadResponse(f.filePath, "attachment; filename=\"" + filename + "\"",
                                                      f.mimeType))
  {
    var located := LocateAndCharge(manager, monitor, username, filename, today, now);
    match located
    case Err(e) => r := Err(e);
    case Ok(f) =>
      r := Ok(DownloadResponse(f.filePath, "attachment; filename=\"" + filename + "\"", f.mimeType));
  }

  /** The response `stream_video` streams: the object, with the file's media type. */
  datatype StreamResponse = StreamResponse(filePath: string, mediaType: string)

  /** `stream_video`: the shared steps, then the object read as a stream. */
  method StreamVideo(manager: StorageManager, monitor: UsageMonitor, username: string, filename: string,
                     today: Date, now: Timestamp)
    returns (r: Result<StreamResponse, HttpError>)
    requires manager.Valid() && monitor.Valid() && ValidDate(today)
    modifies manager, monitor
    ensures manager.Valid() && monitor.Valid() && manager.bucket == old(manager.bucket)
    ensures var o := ServeFileOutcome(old(manager.userStorage), old(manager.bucket), old(monitor.dailyUsage),
                                      old(monitor.alerts), username, filename, today, now);
            && manager.userStorage == o.userStorage
            && monitor.dailyUsage == o.ledger && monitor.alerts == o.alerts
            && r == match o.reply
                    case Err(e) => Err(e)
                    case Ok(f) => Ok(StreamResponse(f.filePath, f.mimeType))
  {
    var located := LocateAndCharge(manager, monitor, username, filename, today, now);
    match located
    case Err(e) => r := Err(e);
    case Ok(f) => r := Ok(StreamResponse(f.filePath, f.mimeType));
  }

  /**
   * The figures of `get_storage_status`: what is left of the cap, the usage
   * as a percentage of it, and the alert flag.
   */
  function StatusOf(username: string, s: UserStorage): (r: StorageStatus)
    ensures r.username == username && r.files == s.files && r.currentUsageMb == s.currentUsageMb
    ensures r.storageLimitMb == 50.0
    ensures r.currentUsageMb + r.availableSpaceMb == r.storageLimitMb
    ensures r.usagePercentage == 2.0 * s.currentUsageMb
    ensures r.shouldAlert <==> r.usagePercentage >= 80.0
  {
    StorageStatus(username, s.currentUsageMb, StorageLimitMb, StorageLimitMb - s.currentUsageMb,
                  (s.currentUsageMb / StorageLimitMb) * 100.0, ShouldAlertUsage(s.currentUsageMb), s.files)
  }

  /** For a sound record, nothing is over the cap: the figures stay within 0..50 MB and 0..100%. */
  lemma StatusWithinBounds(username: string, s: UserStorage)
    requires Sound(s)
    ensures var r := StatusOf(username, s);
            0.0 <= r.availableSpaceMb <= 50.0 && 0.0 <= r.usagePercentage <= 100.0
  {
    TotalSizeNonNegative(s.files);
  }

  /** `get_storage_status`: read the record (which fails on first access), then report on it. */
  method GetStorageStatus(manager: StorageManager, username: string, now: Timestamp)
    returns (r: Result<StorageStatus, HttpError>)
    requires manager.Valid()
    modifies manager
    ensures manager.Valid() && manager.bucket == old(manager.bucket)
    ensures manager.userStorage == WithUserStorage(old(manager.userStorage), username, now)
    ensures r.Ok? <==> username in old(manager.userStorage)
    ensures r.Err? ==> r.error == HttpError(InternalServerError, RecordNotAMapping)
    ensures r.Ok? ==> r.value == StatusOf(username, manager.userStorage[username])
  {
    var read := manager.GetUserStorage(username, now);
    if read.Err? {
      return Err(HttpError(InternalServerError, read.error));
    }
    var s := read.value;
    var alert := manager.ShouldAlert(username, now);
    assert alert.Ok?;
    r := Ok(StorageStatus(username, s.currentUsageMb, StorageLimitMb, StorageLimitMb - s.currentUsageMb,
                          (s.currentUsageMb / StorageLimitMb) * 100.0, alert.value, s.files));
  }

  /** `list_files`: read the record (which fails on first access), then answer with its files. */
  method ListFiles(manager: StorageManager, username: string, now: Timestamp)
    returns (r: Result<seq<FileMetadata>, HttpError>)
    requires manager.Valid()
    modifies manager
    ensures manager.Valid() && manager.bucket == old(manager.bucket)
    ensures manager.userStorage == WithUserStorage(old(manager.userStorage), username, now)
    ensures r.Ok? <==> username in old(manager.userStorage)
    ensures r.Err? ==> r.error == HttpError(InternalServerError, RecordNotAMapping)
    ensures r.Ok? ==> r.value == manager.userStorage[username].files
  {
    var read := manager.GetUserStorage(username, now);
    if read.Err? {
      return Err(HttpError(InternalServerError, read.error));
    }
    r := Ok(read.value.files);
  }

  /**
   * A rejected upload changes no file list, no usage counter and no object:
   * at most the user's empty record is created. A file refused by the
   * validator is not charged to the usage monitor either.
   */
  lemma UploadRejectionKeepsFiles(
    store: map<string, UserStorage>, bucket: set<string>, ledger: Ledger, alerts: seq<BandwidthAlert>,
    username: string, filename: string, contentLength: nat, guess: string -> Option<string>,
    stamp: string, today: Date, now: Timestamp)
    requires ValidDate(today)
    ensures var o := UploadFileOutcome(store, bucket, ledger, alerts, username, filename, contentLength,
                                       guess, stamp, today, now);
            o.reply.Err? ==>
              && o.bucket == bucket
              && o.userStorage.Keys <= store.Keys + {username}
              && (forall u | u in store :: u in o.userStorage && o.userStorage[u] == store[u])
              && (username in o.userStorage && username !in store ==>
                    o.userStorage[username] == NewUserStorage(username, now))
              && (ValidateFile(filename, SizeMb(contentLength), guess).Err? ==>
                    o.ledger == ledger && o.alerts == alerts)
  {
    var sizeMb := SizeMb(contentLength);
    var v := ValidateFile(filename, sizeMb, guess);
    var charged := RecordBandwidthOutcome(ledger, alerts, username, sizeMb, "upload", today, now);
    var o := UploadStages(store, bucket, ledger, alerts, username, filename, sizeMb, v, charged, stamp, now);
    assert UploadFileOutcome(store, bucket, ledger, alerts, username, filename, contentLength, guess, stamp, today, now)
        == o;
    if v.Ok? && charged.reply.Ok? {
      AdmitUploadEffect(store, bucket, username, filename, sizeMb, v.value, stamp, now);
    }
  }

  /**
   * The quota is checked only after the bandwidth has been charged: an
   * upload the usage monitor admits but the quota refuses still leaves its
   * volume recorded for the day.
   */
  lemma QuotaRejectionAfterCharge(
    store: map<string, UserStorage>, bucket: set<string>, ledger: Ledger, alerts: seq<BandwidthAlert>,
    username: string, filename: string, contentLength: nat, guess: string -> Option<string>,
    stamp: string, today: Date, now: Timestamp)
    requires ValidDate(today) && LedgerValid(ledger)
    requires ValidateFile(filename, SizeMb(contentLength), guess).Ok?
    requires RecordBandwidthOutcome(ledger, alerts, username, SizeMb(contentLength), "upload", today, now).reply.Ok?
    requires !FitsQuota(WithUserStorage(store, username, now)[username].currentUsageMb, SizeMb(contentLength))
    ensures var key := KeyFor(username, today);
            var before := WithDailyRecord(ledger, username, today, now)[key];
            var o := UploadFileOutcome(store, bucket, ledger, alerts, username, filename, contentLength,
                                       guess, stamp, today, now);
            && o.reply == Err(HttpError(InternalServerError, StorageLimitExceeded))
            && key in o.ledger
            && o.ledger[key].uploadVolumeMb == before.uploadVolumeMb + SizeMb(contentLength)
  {
    var sizeMb := SizeMb(contentLength);
    var v := ValidateFile(filename, sizeMb, guess);
    var charged := RecordBandwidthOutcome(ledger, alerts, username, sizeMb, "upload", today, now);
    var o := UploadStages(store, bucket, ledger, alerts, username, filename, sizeMb, v, charged, stamp, now);
    assert UploadFileOutcome(store, bucket, ledger, alerts, username, filename, contentLength, guess, stamp, today, now)
        == o;
    SuccessfulRecordAccounting(ledger, alerts, username, sizeMb, "upload", today, now);
    AdmitUploadEffect(store, bucket, username, filename, sizeMb, v.value, stamp, now);
  }

  /**
   * A successful upload appends exactly one entry, for the uploaded file,
   * under the user's folder, adds its size to the usage, stays within the
   * cap, writes its object, and changes no other user's record.
   */
  lemma SuccessfulUploadAppendsOne(
    store: map<string, UserStorage>, bucket: set<string>, ledger: Ledger, alerts: seq<BandwidthAlert>,
    username: string, filename: string, contentLength: nat, guess: string -> Option<string>,
    stamp: string, today: Date, now: Timestamp)
    requires ValidDate(today)
    ensures var o := UploadFileOutcome(store, bucket, ledger, alerts, username, filename, contentLength,
                                       guess, stamp, today, now);
            var before := WithUserStorage(store, username, now)[username];
            o.reply.Ok? ==>
              username in store && username in o.userStorage &&
              var m := o.reply.value.fileMetadata;
              var after := o.userStorage[username];
              && m.filename == filename && m.sizeMb == SizeMb(contentLength)
              && guess(filename) == Some(m.mimeType)
              && |UserPrefix(username)| <= |m.filePath|
              && m.filePath[..|UserPrefix(username)|] == UserPrefix(username)
              && after.files == before.files + [m]
              && after.currentUsageMb == before.currentUsageMb + m.sizeMb
              && after.currentUsageMb <= StorageLimitMb
              && after.username == before.username
              && o.bucket == bucket + {m.filePath}
              && (o.reply.value.shouldAlert <==> after.currentUsageMb >= 40.0)
              && o.userStorage.Keys == store.Keys + {username}
              && (forall u | u in store && u != username :: o.userStorage[u] == store[u])
  {
    var sizeMb := SizeMb(contentLength);
    var v := ValidateFile(filename, sizeMb, guess);
    var charged := RecordBandwidthOutcome(ledger, alerts, username, sizeMb, "upload", today, now);
    var o := UploadStages(store, bucket, ledger, alerts, username, filename, sizeMb, v, charged, stamp, now);
    assert UploadFileOutcome(store, bucket, ledger, alerts, username, filename, contentLength, guess, stamp, today, now)
        == o;
    if v.Ok? && charged.reply.Ok? {
      AdmitAppendsOne(store, bucket, username, filename, sizeMb, v.value, stamp, now);
    }
  }

  /** The storage side of `SuccessfulUploadAppendsOne`. */
  lemma AdmitAppendsOne(store: map<string, UserStorage>, bucket: set<string>, username: string,
                        filename: string, sizeMb: real, mime: string, stamp: string, now: Timestamp)
    ensures var a := AdmitUpload(store, bucket, username, filename, sizeMb, mime, stamp, now);
            var before := WithUserStorage(store, username, now)[username];
            a.reply.Ok? ==>
              username in store && username in a.userStorage &&
              var m := a.reply.value.fileMetadata;
              var after := a.userStorage[username];
              && m == FileMetadata(filename, sizeMb, now, mime, BlobName(username, stamp, filename))
              && after.files == before.files + [m]
              && after.currentUsageMb == before.currentUsageMb + m.sizeMb
              && after.currentUsageMb <= StorageLimitMb
              && after.username == before.username
              && a.bucket == bucket + {m.filePath}
              && (a.reply.value.shouldAlert <==> after.currentUsageMb >= 40.0)
              && a.userStorage.Keys == store.Keys + {username}
              && (forall u | u in store && u != username :: a.userStorage[u] == store[u])
  {
    AdmitUploadEffect(store, bucket, username, filename, sizeMb, mime, stamp, now);
  }

  /** Every record stays under its own name and sound across an upload. */
  lemma UploadKeepsStoreValid(
    store: map<string, UserStorage>, bucket: set<string>, ledger: Ledger, alerts: seq<BandwidthAlert>,
    username: string, filename: string, contentLength: nat, guess: string -> Option<string>,
    stamp: string, today: Date, now: Timestamp)
    requires ValidDate(today) && StoreValid(store)
    ensures StoreValid(UploadFileOutcome(store, bucket, ledger, alerts, username, filename, contentLength,
                                         guess, stamp, today, now).userStorage)
  {
    var sizeMb := SizeMb(contentLength);
    var v := ValidateFile(filename, sizeMb, guess);
    var charged := RecordBandwidthOutcome(ledger, alerts, username, sizeMb, "upload", today, now);
    var o := UploadStages(store, bucket, ledger, alerts, username, filename, sizeMb, v, charged, stamp, now);
    assert UploadFileOutcome(store, bucket, ledger, alerts, username, filename, contentLength, guess, stamp, today, now)
        == o;
    if v.Ok? && charged.reply.Ok? {
      AdmitKeepsStoreValid(store, bucket, username, filename, sizeMb, v.value, stamp, now);
    }
  }

  /** The storage side of `UploadKeepsStoreValid`. */
  lemma AdmitKeepsStoreValid(store: map<string, UserStorage>, bucket: set<string>, username: string,
                             filename: string, sizeMb: real, mime: string, stamp: string, now: Timestamp)
    requires StoreValid(store) && sizeMb >= 0.0
    ensures StoreValid(AdmitUpload(store, bucket, username, filename, sizeMb, mime, stamp, now).userStorage)
  {
    AdmitUploadEffect(store, bucket, username, filename, sizeMb, mime, stamp, now);
    var touched := WithUserStorage(store, username, now);
    if FitsQuota(touched[username].currentUsageMb, sizeMb) {
      var m := FileMetadata(filename, sizeMb, now, mime, BlobName(username, stamp, filename));
      AddFileKeepsSound(touched[username], m, now);
      StoreValidUpdate(touched, username, AddFile(touched[username], m, now));
    }
  }

  /** An upload keeps every conserved record conserved: usage equals the sum of the file sizes. */
  lemma UploadConserves(
    store: map<string, UserStorage>, bucket: set<string>, ledger: Ledger, alerts: seq<BandwidthAlert>,
    username: string, filename: string, contentLength: nat, guess: string -> Option<string>,
    stamp: string, today: Date, now: Timestamp)
    requires ValidDate(today)
    requires forall u | u in store :: Conserved(store[u])
    ensures var o := UploadFileOutcome(store, bucket, ledger, alerts, username, filename, contentLength,
                                       guess, stamp, today, now);
            forall u | u in o.userStorage :: Conserved(o.userStorage[u])
  {
    var sizeMb := SizeMb(contentLength);
    var v := ValidateFile(filename, sizeMb, guess);
    var charged := RecordBandwidthOutcome(ledger, alerts, username, sizeMb, "upload", today, now);
    var o := UploadStages(store, bucket, ledger, alerts, username, filename, sizeMb, v, charged, stamp, now);
    assert UploadFileOutcome(store, bucket, ledger, alerts, username, filename, contentLength, guess, stamp, today, now)
        == o;
    if v.Ok? && charged.reply.Ok? {
      AdmitConserves(store, bucket, username, filename, sizeMb, v.value, stamp, now);
    }
  }

  /** The storage side of `UploadConserves`. */
  lemma AdmitConserves(store: map<string, UserStorage>, bucket: set<string>, username: string,
                       filename: string, sizeMb: real, mime: string, stamp: string, now: Timestamp)
    requires forall u | u in store :: Conserved(store[u])
    ensures var a := AdmitUpload(store, bucket, username, filename, sizeMb, mime, stamp, now);
            forall u | u in a.userStorage :: Conserved(a.userStorage[u])
  {
    var touched := WithUserStorage(store, username, now);
    assert forall u | u in touched :: Conserved(touched[u]);
    AdmitUploadEffect(store, bucket, username, filename, sizeMb, mime, stamp, now);
    var m := FileMetadata(filename, sizeMb, now, mime, BlobName(username, stamp, filename));
    AddFileConserves(touched[username], m, now);
  }

  /** Deleting a name no file carries is refused and changes nothing but the lazily created record. */
  lemma DeleteMissingFileChangesNothing(store: map<string, UserStorage>, bucket: set<string>, username: string,
                                        filename: string, now: Timestamp)
    requires forall i | 0 <= i < |WithUserStorage(store, username, now)[username].files| ::
               WithUserStorage(store, username, now)[username].files[i].filename != filename
    ensures var o := DeleteFileOutcome(store, bucket, username, filename, now);
            && o.reply == Fail(HttpError(InternalServerError,
                                         if username in store then FileNotFound else RecordNotAMapping))
            && o.userStorage == WithUserStorage(store, username, now)
            && o.bucket == bucket
  {
  }

  /**
   * A successful delete removes every entry with that name and keeps every
   * other entry, subtracts the size of the first one, removes that one's
   * object, and changes no other user's record.
   */
  lemma DeleteRemovesEveryEntryOfName(store: map<string, UserStorage>, bucket: set<string>, username: string,
                                      filename: string, now: Timestamp)
    ensures var o := DeleteFileOutcome(store, bucket, username, filename, now);
            var before := WithUserStorage(store, username, now)[username];
            var i := FirstNamedIndex(before.files, filename);
            o.reply.Pass? ==>
              var after := o.userStorage[username];
              && username in store
              && 0 <= i < |before.files|
              && (forall k | 0 <= k < |after.files| :: after.files[k].filename != filename)
              && (forall f: FileMetadata | f.filename != filename :: multiset(after.files)[f] == multiset(before.files)[f])
              && after.currentUsageMb == before.currentUsageMb - before.files[i].sizeMb
              && o.bucket == bucket - {before.files[i].filePath}
              && o.userStorage.Keys == store.Keys + {username}
              && (forall u | u in store && u != username :: o.userStorage[u] == store[u])
  {
  }

  /** Every record stays under its own name and sound across a delete. */
  lemma DeleteKeepsStoreValid(store: map<string, UserStorage>, bucket: set<string>, username: string,
                              filename: string, now: Timestamp)
    requires StoreValid(store)
    ensures StoreValid(DeleteFileOutcome(store, bucket, username, filename, now).userStorage)
  {
    var o := DeleteFileOutcome(store, bucket, username, filename, now);
    var touched := WithUserStorage(store, username, now);
    if o.reply.Pass? {
      DeleteEntryKeepsSound(touched[username], filename, now);
      StoreValidUpdate(touched, username, o.userStorage[username]);
    }
  }

  /** Deleting a name exactly one file carries keeps a conserved record conserved. */
  lemma DeleteConservesUniqueName(store: map<string, UserStorage>, bucket: set<string>, username: string,
                                  filename: string, now: Timestamp)
    requires Conserved(WithUserStorage(store, username, now)[username])
    requires NameCount(WithUserStorage(store, username, now)[username].files, filename) == 1
    ensures var o := DeleteFileOutcome(store, bucket, username, filename, now);
            o.reply.Pass? && Conserved(o.userStorage[username])
  {
    DeleteEntryConservesUnique(WithUserStorage(store, username, now)[username], filename, now);
  }

  /**
   * Uploading a file under a name the user does not have yet, then deleting
   * that name, gives back the user's record (apart from its time stamp) and
   * the bucket as they were.
   */
  lemma UploadThenDeleteRestores(
    store: map<string, UserStorage>, bucket: set<string>, ledger: Ledger, alerts: seq<BandwidthAlert>,
    username: string, filename: string, contentLength: nat, guess: string -> Option<string>,
    stamp: string, today: Date, now: Timestamp, later: Timestamp)
    requires ValidDate(today)
    requires NameCount(WithUserStorage(store, username, now)[username].files, filename) == 0
    requires BlobName(username, stamp, filename) !in bucket
    ensures var o := UploadFileOutcome(store, bucket, ledger, alerts, username, filename, contentLength,
                                       guess, stamp, today, now);
            var before := WithUserStorage(store, username, now);
            o.reply.Ok? ==>
              var d := DeleteFileOutcome(o.userStorage, o.bucket, username, filename, later);
              && d.reply == Pass
              && d.userStorage == before[username := before[username].(lastUpdated := later)]
              && d.bucket == bucket
  {
    var sizeMb := SizeMb(contentLength);
    var v := ValidateFile(filename, sizeMb, guess);
    var charged := RecordBandwidthOutcome(ledger, alerts, username, sizeMb, "upload", today, now);
    var o := UploadStages(store, bucket, ledger, alerts, username, filename, sizeMb, v, charged, stamp, now);
    assert UploadFileOutcome(store, bucket, ledger, alerts, username, filename, contentLength, guess, stamp, today, now)
        == o;
    if v.Ok? && charged.reply.Ok? {
      AdmitThenDeleteRestores(store, bucket, username, filename, sizeMb, v.value, stamp, now, later);
    }
  }

  /** The storage side of `UploadThenDeleteRestores`. */
  lemma AdmitThenDeleteRestores(store: map<string, UserStorage>, bucket: set<string>, username: string,
                                filename: string, sizeMb: real, mime: string, stamp: string,
                                now: Timestamp, later: Timestamp)
    requires NameCount(WithUserStorage(store, username, now)[username].files, filename) == 0
    requires BlobName(username, stamp, filename) !in bucket
    ensures var a := AdmitUpload(store, bucket, username, filename, sizeMb, mime, stamp, now);
            var before := WithUserStorage(store, username, now);
            a.reply.Ok? ==>
              var d := DeleteFileOutcome(a.userStorage, a.bucket, username, filename, later);
              && d.reply == Pass
              && d.userStorage == before[username := before[username].(lastUpdated := later)]
              && d.bucket == bucket
  {
    var a := AdmitUpload(store, bucket, username, filename, sizeMb, mime, stamp, now);
    if a.reply.Ok? {
      var before := WithUserStorage(store, username, now);
      var m := FileMetadata(filename, sizeMb, now, mime, BlobName(username, stamp, filename));
      var t := AddFile(before[username], m, now);
      AdmitUploadEffect(store, bucket, username, filename, sizeMb, mime, stamp, now);
      AddThenDeleteRestores(before[username], m, now, later);
      assert WithUserStorage(a.userStorage, username, later) == a.userStorage;
      var d := DeleteFileOutcome(a.userStorage, a.bucket, username, filename, later);
      var restored := before[username].(lastUpdated := later);
      assert DeleteEntry(t, filename, m.sizeMb, later) == restored;
      assert d.reply == Pass;
      assert d.userStorage == before[username := t][username := restored];
      UpdateTwice(before, username, t, restored);
      assert d.bucket == (bucket + {m.filePath}) - {m.filePath} == bucket;
    }
  }


  /**
   * Download and stream refuse a name no file carries, and a file whose
   * object is gone, without charging any bandwidth.
   */
  lemma ServeRejectionsChargeNothing(
    store: map<string, UserStorage>, bucket: set<string>, ledger: Ledger, alerts: seq<BandwidthAlert>,
    username: string, filename: string, today: Date, now: Timestamp)
    requires ValidDate(today)
    ensures var o := ServeFileOutcome(store, bucket, ledger, alerts, username, filename, today, now);
            var files := WithUserStorage(store, username, now)[username].files;
            var i := FirstNamedIndex(files, filename);
            && o.userStorage == WithUserStorage(store, username, now)
            && (username !in store ==> o.reply == Err(HttpError(InternalServerError, RecordNotAMapping))
                                       && o.ledger == ledger && o.alerts == alerts)
            && (username in store && i < 0 ==> o.reply == Err(HttpError(InternalServerError, FileNotFound))
                                               && o.ledger == ledger && o.alerts == alerts)
            && (username in store && i >= 0 && files[i].filePath !in bucket ==>
                  o.reply == Err(HttpError(InternalServerError, FileNotFoundInStorage))
                  && o.ledger == ledger && o.alerts == alerts)
  {
  }

  /**
   * When the first file with that name has its object, download and stream
   * serve that file and charge its full size to the day's download volume.
   */
  lemma ServeChargesFullSize(
    store: map<string, UserStorage>, bucket: set<string>, ledger: Ledger, alerts: seq<BandwidthAlert>,
    username: string, filename: string, today: Date, now: Timestamp)
    requires ValidDate(today) && StoreValid(store) && LedgerValid(ledger)
    requires var rec := WithDailyRecord(ledger, username, today, now)[KeyFor(username, today)];
             rec.uploadVolumeMb >= 0.0 && rec.downloadVolumeMb >= 0.0
    ensures var o := ServeFileOutcome(store, bucket, ledger, alerts, username, filename, today, now);
            var files := WithUserStorage(store, username, now)[username].files;
            var i := FirstNamedIndex(files, filename);
            i >= 0 && files[i].filePath in bucket ==>
              var charged := RecordBandwidthOutcome(ledger, alerts, username, files[i].sizeMb, "download", today, now);
              && o.reply == Ok(files[i])
              && o.ledger == charged.ledger
              && o.alerts == charged.alerts
  {
    var files := WithUserStorage(store, username, now)[username].files;
    var i := FirstNamedIndex(files, filename);
    if i >= 0 && files[i].filePath in bucket {
      assert files[i].sizeMb >= 0.0;
      DownloadIsAlwaysRecorded(ledger, alerts, username, files[i].sizeMb, today, now);
    }
  }

  /**
   * A user's first upload of a valid file is charged to the usage monitor
   * and then refused, because reading the user's record fails on first
   * access: the charge stays, no object is written, and the record left
   * behind is the default one. A refused charge stops before the record is
   * read, so then nothing is inserted.
   */
  lemma FirstUploadIsChargedThenRefused(
    store: map<string, UserStorage>, bucket: set<string>, ledger: Ledger, alerts: seq<BandwidthAlert>,
    username: string, filename: string, contentLength: nat, guess: string -> Option<string>,
    stamp: string, today: Date, now: Timestamp)
    requires ValidDate(today) && username !in store
    requires ValidateFile(filename, SizeMb(contentLength), guess).Ok?
    ensures var o := UploadFileOutcome(store, bucket, ledger, alerts, username, filename, contentLength,
                                       guess, stamp, today, now);
            var charged := RecordBandwidthOutcome(ledger, alerts, username, SizeMb(contentLength), "upload",
                                                  today, now);
            && o.ledger == charged.ledger && o.alerts == charged.alerts
            && o.bucket == bucket
            && (charged.reply.Ok? ==>
                  && o.reply == Err(HttpError(InternalServerError, RecordNotAMapping))
                  && o.userStorage == store[username := NewUserStorage(username, now)])
            && (charged.reply.Err? ==>
                  && o.reply == Err(HttpError(InternalServerError, BandwidthLimitExceeded))
                  && o.userStorage == store)
  {
    var sizeMb := SizeMb(contentLength);
    var v := ValidateFile(filename, sizeMb, guess);
    var charged := RecordBandwidthOutcome(ledger, alerts, username, sizeMb, "upload", today, now);
    assert UploadFileOutcome(store, bucket, ledger, alerts, username, filename, contentLength, guess, stamp, today, now)
        == UploadStages(store, bucket, ledger, alerts, username, filename, sizeMb, v, charged, stamp, now);
    AdmitUploadEffect(store, bucket, username, filename, sizeMb, v.value, stamp, now);
  }

  /**
   * A user's first delete, download or stream inserts the default record and
   * is refused with the TypeError of `get_user_storage`, before any lookup,
   * object change or bandwidth charge.
   */
  lemma FirstAccessIsRefused(
    store: map<string, UserStorage>, bucket: set<string>, ledger: Ledger, alerts: seq<BandwidthAlert>,
    username: string, filename: string, today: Date, now: Timestamp)
    requires ValidDate(today) && username !in store
    ensures var created := store[username := NewUserStorage(username, now)];
            && DeleteFileOutcome(store, bucket, username, filename, now)
               == DeleteOutcome(created, bucket, Fail(HttpError(InternalServerError, RecordNotAMapping)))
            && ServeFileOutcome(store, bucket, ledger, alerts, username, filename, today, now)
               == ServeOutcome(created, ledger, alerts, Err(HttpError(InternalServerError, RecordNotAMapping)))
  {
  }

  /** A second write to the same key overrides the first. */
  lemma UpdateTwice(m: map<string, UserStorage>, k: string, x: UserStorage, y: UserStorage)
    ensures m[k := x][k := y] == m[k := y]
  {
  }
}
